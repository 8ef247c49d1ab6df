/**
 * Helpers shared by the modules of this model: an Option type, bytes, and
 * the JavaScript string operations the client relies on (`trim`,
 * `toLowerCase`, `includes`, `startsWith`, `split`/`join`, UTF-16 `length`,
 * de-duplication through a `Set`, and Node's `path.extname`).
 */
module Common {

  datatype Option<T> = None | Some(value: T) {
    function GetOr(default: T): T {
      if Some? then value else default
    }
  }

  datatype Result<T, E> = Ok(value: T) | Err(error: E)

  /** JavaScript truthiness of an optional string: present and not "". */
  predicate Truthy(s: Option<string>) {
    s.Some? && s.value != ""
  }

  newtype byte = x: int | 0 <= x < 256
  type Bytes = seq<byte>

  function Min(a: int, b: int): int { if a <= b then a else b }

  predicate NoDuplicates<T(==)>(s: seq<T>) {
    forall i, j :: 0 <= i < j < |s| ==> s[i] != s[j]
  }

  // ---------------------------------------------------------------------
  // Whitespace and trimming
  // ---------------------------------------------------------------------

  /** The characters matched by `\s` in a JavaScript regular expression;
      String.prototype.trim removes exactly these from both ends. */
  predicate IsJsWhitespace(c: char) {
    || c == '\t' || c == '\n' || c == '\U{000B}' || c == '\U{000C}' || c == '\r'
    || c == ' ' || c == '\U{00A0}' || c == '\U{1680}'
    || ('\U{2000}' <= c <= '\U{200A}')
    || c == '\U{2028}' || c == '\U{2029}' || c == '\U{202F}' || c == '\U{205F}'
    || c == '\U{3000}' || c == '\U{FEFF}'
  }

  predicate AllWhitespace(s: string) {
    forall i :: 0 <= i < |s| ==> IsJsWhitespace(s[i])
  }

  predicate NoWhitespace(s: string) {
    forall i :: 0 <= i < |s| ==> !IsJsWhitespace(s[i])
  }

  function TrimStart(s: string): (r: string)
    ensures |r| <= |s| && r == s[|s| - |r|..]
    ensures r != [] ==> !IsJsWhitespace(r[0])
    ensures r == [] <==> AllWhitespace(s)
  {
    if s != [] && IsJsWhitespace(s[0]) then TrimStart(s[1..]) else s
  }

  function TrimEnd(s: string): (r: string)
    ensures |r| <= |s| && r == s[..|r|]
    ensures r != [] ==> !IsJsWhitespace(r[|r| - 1])
    ensures r == [] <==> AllWhitespace(s)
  {
    if s != [] && IsJsWhitespace(s[|s| - 1]) then TrimEnd(s[..|s| - 1]) else s
  }

  /** String.prototype.trim. */
  function Trim(s: string): string {
    TrimEnd(TrimStart(s))
  }

  /** What trim promises: a contiguous piece of the input with no whitespace
      at either end, empty exactly when the input is all whitespace. */
  lemma TrimSpec(s: string)
    ensures exists i, j :: 0 <= i <= j <= |s| && Trim(s) == s[i..j]
    ensures Trim(s) != [] ==> !IsJsWhitespace(Trim(s)[0]) && !IsJsWhitespace(Trim(s)[|Trim(s)| - 1])
    ensures Trim(s) == [] <==> AllWhitespace(s)
  {
    var i, j := TrimSlice(s);
    TrimEnds(s);
    TrimEmpty(s);
  }

  lemma TrimSlice(s: string) returns (i: int, j: int)
    ensures 0 <= i <= j <= |s| && Trim(s) == s[i..j]
  {
    var t := TrimStart(s);
    i := |s| - |t|;
    assert t == s[i..];
    var r := TrimEnd(t);
    j := i + |r|;
    assert r == t[..|r|];
  }

  lemma TrimEnds(s: string)
    ensures Trim(s) != [] ==> !IsJsWhitespace(Trim(s)[0]) && !IsJsWhitespace(Trim(s)[|Trim(s)| - 1])
  {
    var t := TrimStart(s);
    var r := TrimEnd(t);
    if r != [] {
      assert r[0] == t[0];
    }
  }

  lemma TrimEmpty(s: string)
    ensures Trim(s) == [] <==> AllWhitespace(s)
  {
    var t := TrimStart(s);
    if t != [] {
      assert !IsJsWhitespace(t[0]);
    }
  }

  lemma TrimIdempotent(s: string)
    ensures Trim(Trim(s)) == Trim(s)
  {
    TrimSpec(s);
  }

  // ---------------------------------------------------------------------
  // Case folding
  // ---------------------------------------------------------------------

  /** String.prototype.toLowerCase on the Latin and Cyrillic letters. */
  function ToLowerChar(c: char): char {
    if 'A' <= c <= 'Z' then (c as int + 32) as char
    else if '\U{0410}' <= c <= '\U{042F}' then (c as int + 32) as char
    else if '\U{0400}' <= c <= '\U{040F}' then (c as int + 80) as char
    else c
  }

  function ToLower(s: string): (r: string)
    ensures |r| == |s|
    ensures forall i :: 0 <= i < |s| ==> r[i] == ToLowerChar(s[i])
  {
    if s == [] then [] else [ToLowerChar(s[0])] + ToLower(s[1..])
  }

  /** Lower-casing twice changes nothing more. */
  lemma ToLowerIdempotent(s: string)
    ensures ToLower(ToLower(s)) == ToLower(s)
  {
    var t := ToLower(s);
    assert forall i :: 0 <= i < |s| ==> ToLower(t)[i] == ToLowerChar(ToLowerChar(s[i]));
  }

  // ---------------------------------------------------------------------
  // Searching
  // ---------------------------------------------------------------------

  predicate StartsWith(s: string, prefix: string) {
    |prefix| <= |s| && s[..|prefix|] == prefix
  }

  predicate EndsWith(s: string, suffix: string) {
    |suffix| <= |s| && s[|s| - |suffix|..] == suffix
  }

  predicate OccursAt(s: string, sub: string, i: int) {
    0 <= i && i + |sub| <= |s| && s[i..i + |sub|] == sub
  }

  /** String.prototype.includes. */
  function Includes(s: string, sub: string): (b: bool)
    ensures b <==> exists i :: OccursAt(s, sub, i)
    decreases |s|
  {
    if |sub| > |s| then false
    else if s[..|sub|] == sub then (assert OccursAt(s, sub, 0); true)
    else
      var b := Includes(s[1..], sub);
      if b then
        var i :| OccursAt(s[1..], sub, i);
        assert OccursAt(s, sub, i + 1);
        true
      else
        assert forall i | OccursAt(s, sub, i) :: i > 0 && OccursAt(s[1..], sub, i - 1);
        false
  }

  // ---------------------------------------------------------------------
  // split / join with a one-character separator
  // ---------------------------------------------------------------------

  /** String.prototype.split with a one-character separator. */
  function Split(s: string, sep: char): (parts: seq<string>)
    ensures |parts| >= 1
    decreases |s|
  {
    if s == [] then [""]
    else
      var rest := Split(s[1..], sep);
      if s[0] == sep then [""] + rest else [[s[0]] + rest[0]] + rest[1..]
  }

  /** Array.prototype.join with a one-character separator. */
  function Join(parts: seq<string>, sep: char): string
    decreases |parts|
  {
    if parts == [] then ""
    else if |parts| == 1 then parts[0]
    else parts[0] + [sep] + Join(parts[1..], sep)
  }

  /** No piece of a split holds the separator. */
  lemma {:induction false} SplitPiecesFree(s: string, sep: char)
    ensures forall k :: 0 <= k < |Split(s, sep)| ==> sep !in Split(s, sep)[k]
    decreases |s|
  {
    if s != [] {
      SplitPiecesFree(s[1..], sep);
    }
  }

  /** Joining the pieces of a split gives back the string. */
  lemma {:induction false} JoinSplit(s: string, sep: char)
    ensures Join(Split(s, sep), sep) == s
    decreases |s|
  {
    if s != [] {
      var rest := Split(s[1..], sep);
      JoinSplit(s[1..], sep);
      if s[0] == sep {
        assert Split(s, sep) == [""] + rest;
      } else {
        var parts := Split(s, sep);
        assert parts == [[s[0]] + rest[0]] + rest[1..];
        if |rest| == 1 {
          assert Join(parts, sep) == [s[0]] + rest[0];
        } else {
          assert parts[1..] == rest[1..];
          assert Join(parts, sep) == [s[0]] + rest[0] + [sep] + Join(rest[1..], sep);
          assert Join(rest, sep) == rest[0] + [sep] + Join(rest[1..], sep);
        }
      }
    }
  }

  /** The separator occurs in a string exactly when its split has more than one piece. */
  lemma {:induction false} SplitSingleIffNoSep(s: string, sep: char)
    ensures |Split(s, sep)| == 1 <==> sep !in s
    decreases |s|
  {
    if s != [] {
      SplitSingleIffNoSep(s[1..], sep);
      assert s == [s[0]] + s[1..];
    }
  }

  // ---------------------------------------------------------------------
  // UTF-16 length
  // ---------------------------------------------------------------------

  /** The `length` of a JavaScript string: characters outside the Basic
      Multilingual Plane take two UTF-16 code units. */
  function Utf16Length(s: string): (n: nat)
    ensures |s| <= n <= 2 * |s|
  {
    if s == [] then 0
    else (if s[0] as int > 0xFFFF then 2 else 1) + Utf16Length(s[1..])
  }

  lemma {:induction false} Utf16LengthConcat(a: string, b: string)
    ensures Utf16Length(a + b) == Utf16Length(a) + Utf16Length(b)
    decreases |a|
  {
    if a == [] {
      assert a + b == b;
    } else {
      assert (a + b)[1..] == a[1..] + b;
      Utf16LengthConcat(a[1..], b);
    }
  }

  /** A piece of a string is no longer than the string. */
  lemma Utf16LengthSlice(s: string, i: int, j: int)
    requires 0 <= i <= j <= |s|
    ensures Utf16Length(s[i..j]) <= Utf16Length(s)
  {
    var p := s[..j];
    assert s == p + s[j..];
    Utf16LengthConcat(p, s[j..]);
    assert p == p[..i] + s[i..j];
    Utf16LengthConcat(p[..i], s[i..j]);
  }

  /** A trimmed string that is not empty is not blank, and trimming it
      again changes nothing. */
  lemma TrimmedNotBlank(s: string)
    requires Trim(s) != []
    ensures !AllWhitespace(Trim(s)) && Trim(Trim(s)) == Trim(s)
  {
    TrimIdempotent(s);
    TrimSpec(Trim(s));
  }

  /** Trimming never lengthens a string. */
  lemma TrimShorter(s: string)
    ensures Utf16Length(Trim(s)) <= Utf16Length(s)
  {
    TrimSpec(s);
    var i, j :| 0 <= i <= j <= |s| && Trim(s) == s[i..j];
    Utf16LengthSlice(s, i, j);
  }

  // ---------------------------------------------------------------------
  // Filtering in order
  // ---------------------------------------------------------------------

  function Id<T>(x: T): T { x }

  /** The positions of `s` whose element satisfies `p`, in ascending order. */
  ghost function Positions<T>(s: seq<T>, p: T -> bool): (idx: seq<int>)
    ensures |idx| <= |s|
    ensures forall k :: 0 <= k < |idx| ==> 0 <= idx[k] < |s| && p(s[idx[k]])
    ensures forall k, l :: 0 <= k < l < |idx| ==> idx[k] < idx[l]
    ensures forall i :: 0 <= i < |s| && p(s[i]) ==> i in idx
  {
    if s == [] then []
    else
      var init := s[..|s| - 1];
      var rest := Positions(init, p);
      assert forall i :: 0 <= i < |init| ==> s[i] == init[i];
      if p(s[|s| - 1]) then rest + [|s| - 1] else rest
  }

  /** `r` is `s.filter(p).map(g)`: `g` of every element of `s` that
      satisfies `p`, in the order of `s`. */
  ghost predicate MapsInOrder<T, U>(r: seq<U>, s: seq<T>, p: T -> bool, g: T -> U) {
    var idx := Positions(s, p);
    |r| == |idx| && forall k :: 0 <= k < |r| ==> r[k] == g(s[idx[k]])
  }

  /** `r` is `s.filter(p)`. */
  ghost predicate KeptInOrder<T>(r: seq<T>, s: seq<T>, p: T -> bool) {
    MapsInOrder(r, s, p, Id)
  }

  /** What `s.filter(p).map(g)` holds: the images of the kept elements. */
  lemma MapsInOrderMembers<T, U>(r: seq<U>, s: seq<T>, p: T -> bool, g: T -> U)
    requires MapsInOrder(r, s, p, g)
    ensures |r| <= |s|
    ensures forall y :: y in r <==> exists j :: 0 <= j < |s| && p(s[j]) && g(s[j]) == y
  {
    var idx := Positions(s, p);
    forall y | y in r
      ensures exists j :: 0 <= j < |s| && p(s[j]) && g(s[j]) == y
    {
      var k :| 0 <= k < |r| && r[k] == y;
      assert p(s[idx[k]]) && g(s[idx[k]]) == y;
    }
    forall y | exists j :: 0 <= j < |s| && p(s[j]) && g(s[j]) == y
      ensures y in r
    {
      var j :| 0 <= j < |s| && p(s[j]) && g(s[j]) == y;
      assert j in idx;
      var k :| 0 <= k < |idx| && idx[k] == j;
      assert r[k] == y;
    }
  }

  lemma PositionsSnoc<T>(s: seq<T>, p: T -> bool, x: T)
    ensures Positions(s + [x], p) == if p(x) then Positions(s, p) + [|s|] else Positions(s, p)
  {
    assert (s + [x])[..|s|] == s;
  }

  /** Appending one element to the input appends its image, if it is kept,
      to the output. */
  lemma MapsInOrderSnoc<T, U>(r: seq<U>, s: seq<T>, p: T -> bool, g: T -> U, x: T)
    requires MapsInOrder(r, s, p, g)
    ensures MapsInOrder(r + (if p(x) then [g(x)] else []), s + [x], p, g)
  {
    var s' := s + [x];
    var idx := Positions(s, p);
    var idx' := Positions(s', p);
    PositionsSnoc(s, p, x);
    var r' := r + (if p(x) then [g(x)] else []);
    forall k | 0 <= k < |r'| ensures r'[k] == g(s'[idx'[k]]) {
      if k < |r| {
        assert idx'[k] == idx[k] && s'[idx[k]] == s[idx[k]];
      }
    }
  }

  /** MapsInOrderSnoc for a non-empty `s` split at its last element. */
  lemma MapsInOrderLast<T, U>(r: seq<U>, s: seq<T>, p: T -> bool, g: T -> U)
    requires s != [] && MapsInOrder(r, s[..|s| - 1], p, g)
    ensures MapsInOrder(r + (if p(s[|s| - 1]) then [g(s[|s| - 1])] else []), s, p, g)
  {
    assert s == s[..|s| - 1] + [s[|s| - 1]];
    MapsInOrderSnoc(r, s[..|s| - 1], p, g, s[|s| - 1]);
  }

  /** `Array.prototype.filter`: the elements that satisfy `p`, in order. */
  function Filter<T(!new)>(s: seq<T>, p: T -> bool): (r: seq<T>)
    ensures |r| <= |s|
    ensures forall x :: x in r <==> x in s && p(x)
    ensures KeptInOrder(r, s, p)
  {
    if s == [] then []
    else
      var init := s[..|s| - 1];
      var x := s[|s| - 1];
      var rest := Filter(init, p);
      MapsInOrderSnoc(rest, init, p, Id, x);
      assert s == init + [x];
      rest + (if p(x) then [x] else [])
  }

  /** A kept position before the b-th kept position is an earlier one. */
  lemma PositionBefore<T>(s: seq<T>, p: T -> bool, b: int, i: int)
    requires 0 <= b < |Positions(s, p)|
    requires 0 <= i < Positions(s, p)[b] && p(s[i])
    ensures exists l :: 0 <= l < b && Positions(s, p)[l] == i
  {
    var idx := Positions(s, p);
    assert i in idx;
    var l :| 0 <= l < |idx| && idx[l] == i;
    AscendingBefore(idx, b, l);
  }

  /** Nothing before the first kept position is kept. */
  lemma BeforeFirstPosition<T>(s: seq<T>, p: T -> bool, j: int)
    requires Positions(s, p) != [] && 0 <= j < Positions(s, p)[0]
    ensures !p(s[j])
  {
    var idx := Positions(s, p);
    assert forall l :: 0 <= l < |idx| ==> idx[l] != j by {
      forall l | 0 <= l < |idx| ensures idx[l] != j {
        if l > 0 {
          assert idx[0] < idx[l];
        }
      }
    }
  }

  /** In an ascending list a smaller entry sits earlier. */
  lemma AscendingBefore(idx: seq<int>, b: int, l: int)
    requires forall k, n :: 0 <= k < n < |idx| ==> idx[k] < idx[n]
    requires 0 <= b < |idx| && 0 <= l < |idx| && idx[l] < idx[b]
    ensures l < b
  {
  }

  /** The l-th element of a filter is the element at the l-th kept
      position. */
  lemma KeptAt<T>(r: seq<T>, s: seq<T>, p: T -> bool, l: int)
    requires KeptInOrder(r, s, p) && 0 <= l < |r|
    ensures r[l] == s[Positions(s, p)[l]]
  {
    assert r[l] == Id(s[Positions(s, p)[l]]);
  }

  /** A kept element earlier in the input than the b-th kept one comes
      before it in the output. */
  lemma KeptBefore<T>(r: seq<T>, s: seq<T>, p: T -> bool, b: int, i: int)
    requires KeptInOrder(r, s, p) && 0 <= b < |r|
    requires 0 <= i < Positions(s, p)[b] && p(s[i])
    ensures exists l :: 0 <= l < b && r[l] == s[i]
  {
    PositionBefore(s, p, b, i);
    var l :| 0 <= l < b && Positions(s, p)[l] == i;
    KeptAt(r, s, p, l);
  }

  /** A one-element list is kept or dropped whole. */
  lemma FilterOne<T(!new)>(x: T, p: T -> bool)
    ensures Filter([x], p) == if p(x) then [x] else []
  {
    assert [x][..0] == [];
  }

  /** Filtering with a test every element passes keeps everything. */
  lemma {:induction false} FilterAll<T(!new)>(s: seq<T>, p: T -> bool)
    requires forall i :: 0 <= i < |s| ==> p(s[i])
    ensures Filter(s, p) == s
  {
    if s != [] {
      var init := s[..|s| - 1];
      assert s == init + [s[|s| - 1]];
      FilterAll(init, p);
    }
  }

  // ---------------------------------------------------------------------
  // De-duplication through a Set (first occurrences, in order)
  // ---------------------------------------------------------------------

  /** `s.indexOf(x)` for an element of `s`: its first position. */
  function IndexOf<T(==)>(s: seq<T>, x: T): (i: nat)
    requires x in s
    ensures i < |s| && s[i] == x && x !in s[..i]
  {
    if s[0] == x then 0
    else
      var i := IndexOf(s[1..], x) + 1;
      assert s[..i] == [s[0]] + s[1..][..i - 1];
      i
  }

  /** The first position of an element of a prefix is its first position in
      the whole sequence. */
  lemma IndexOfPrefix<T>(s: seq<T>, m: nat, x: T)
    requires m <= |s| && x in s[..m]
    ensures IndexOf(s, x) == IndexOf(s[..m], x)
  {
    var i, j := IndexOf(s, x), IndexOf(s[..m], x);
    assert s[..m][..j] == s[..j] && s[j] == x;
    assert forall k :: 0 <= k < i ==> s[k] != x by {
      assert forall k :: 0 <= k < i ==> s[k] == s[..i][k];
    }
    assert forall k :: 0 <= k < j ==> s[k] != x by {
      assert forall k :: 0 <= k < j ==> s[k] == s[..j][k];
    }
  }

  /** `[...new Set(s)]`: the first occurrence of every element, in the
      order those first occurrences appear in `s`. */
  function Dedup<T(==,!new)>(s: seq<T>): (r: seq<T>)
    ensures NoDuplicates(r)
    ensures forall x :: x in r <==> x in s
    ensures |r| <= |s|
    ensures forall i, j :: 0 <= i < j < |r| ==> IndexOf(s, r[i]) < IndexOf(s, r[j])
    decreases |s|
  {
    if s == [] then []
    else
      var init := s[..|s| - 1];
      var d := Dedup(init);
      var x := s[|s| - 1];
      assert forall y :: y in s <==> y in init || y == x by {
        assert s == init + [x];
      }
      assert forall y :: y in d ==> IndexOf(s, y) == IndexOf(init, y) < |init| by {
        forall y | y in d
          ensures IndexOf(s, y) == IndexOf(init, y) < |init|
        {
          assert init == s[..|s| - 1];
          IndexOfPrefix(s, |s| - 1, y);
        }
      }
      if x in d then d
      else
        assert x !in init && IndexOf(s, x) == |init|;
        d + [x]
  }

  /** The first element survives de-duplication, in first place. */
  lemma {:induction false} DedupKeepsHead<T(!new)>(s: seq<T>)
    requires s != []
    ensures Dedup(s) != [] && Dedup(s)[0] == s[0]
    decreases |s|
  {
    if |s| > 1 {
      DedupKeepsHead(s[..|s| - 1]);
    }
  }

  /** A sequence without duplicates is left as it is. */
  lemma {:induction false} DedupOfDistinct<T(!new)>(s: seq<T>)
    requires NoDuplicates(s)
    ensures Dedup(s) == s
    decreases |s|
  {
    if s != [] {
      var p := s[..|s| - 1];
      assert s == p + [s[|s| - 1]];
      assert NoDuplicates(p);
      DedupOfDistinct(p);
      assert s[|s| - 1] !in p;
    }
  }

  // ---------------------------------------------------------------------
  // Numbers as text, paths
  // ---------------------------------------------------------------------

  predicate IsDigit(c: char) { '0' <= c <= '9' }

  /** String(n) for a non-negative integer. */
  function NatToString(n: nat): (r: string)
    ensures |r| > 0 && forall i :: 0 <= i < |r| ==> IsDigit(r[i])
  {
    var d := ['0' + (n % 10) as char];
    if n < 10 then d else NatToString(n / 10) + d
  }

  /** String(n) for an integer. */
  function IntToString(n: int): string {
    if n < 0 then "-" + NatToString(-n) else NatToString(n)
  }

  /** Distinct numbers print differently. */
  lemma {:induction false} NatToStringInjective(a: nat, b: nat)
    ensures NatToString(a) == NatToString(b) ==> a == b
  {
    var ra, rb := NatToString(a), NatToString(b);
    assert ra[|ra| - 1] as int == '0' as int + a % 10;
    assert rb[|rb| - 1] as int == '0' as int + b % 10;
    if a >= 10 && b >= 10 {
      assert NatToString(a / 10) == ra[..|ra| - 1];
      assert NatToString(b / 10) == rb[..|rb| - 1];
      NatToStringInjective(a / 10, b / 10);
    }
  }

  /** String(n) is a sign and digits, never a '/', and distinct integers
      print differently. */
  lemma IntToStringSpec(a: int, b: int)
    ensures '/' !in IntToString(a) && |IntToString(a)| > 0
    ensures IntToString(a) == IntToString(b) ==> a == b
  {
    var ra, rb := IntToString(a), IntToString(b);
    if a < 0 && b < 0 {
      assert NatToString(-a) == ra[1..] && NatToString(-b) == rb[1..];
      NatToStringInjective(-a, -b);
    } else if a >= 0 && b >= 0 {
      NatToStringInjective(a, b);
    } else if a < 0 {
      assert ra[0] == '-' && IsDigit(rb[0]);
    } else {
      assert rb[0] == '-' && IsDigit(ra[0]);
    }
    if a < 0 {
      assert forall i :: 1 <= i < |ra| ==> ra[i] == NatToString(-a)[i - 1];
    }
  }

  /** path.join for a directory and one more component. */
  function JoinPath(dir: string, name: string): string {
    dir + "/" + name
  }

  /** p is dir itself or lies somewhere below it. */
  predicate Within(p: string, dir: string) {
    p == dir || StartsWith(p, dir + "/")
  }

  // ---------------------------------------------------------------------
  // Node's path.extname (POSIX)
  // ---------------------------------------------------------------------

  function StripTrailingSlashes(p: string): (r: string)
    ensures |r| <= |p|
  {
    if p != [] && p[|p| - 1] == '/' then StripTrailingSlashes(p[..|p| - 1]) else p
  }

  /** The part after the last '/'. */
  function LastSegment(p: string): (r: string)
    ensures '/' !in r
    ensures |r| <= |p| && r == p[|p| - |r|..]
  {
    if p == [] || p[|p| - 1] == '/' then []
    else LastSegment(p[..|p| - 1]) + [p[|p| - 1]]
  }

  /** A name without '/' is its own last segment. */
  lemma {:induction false} PlainName(p: string)
    requires '/' !in p
    ensures StripTrailingSlashes(p) == p && LastSegment(p) == p
    decreases |p|
  {
    if p != [] {
      PlainName(p[..|p| - 1]);
      assert p == p[..|p| - 1] + [p[|p| - 1]];
    }
  }

  /** Index of the last occurrence of c, or -1. */
  function LastIndexOf(s: string, c: char): (i: int)
    ensures -1 <= i < |s|
    ensures i >= 0 ==> s[i] == c
    ensures forall k :: i < k < |s| ==> s[k] != c
  {
    if s == [] then -1
    else if s[|s| - 1] == c then |s| - 1
    else LastIndexOf(s[..|s| - 1], c)
  }

  /** path.extname: from the last '.' of the last segment (trailing '/'
      ignored) to its end; empty when the segment has no '.', starts with its
      only dot, or is "..". */
  function Extname(p: string): (r: string)
    ensures r == [] || (r[0] == '.' && '/' !in r && forall k :: 0 < k < |r| ==> r[k] != '.')
    ensures EndsWith(LastSegment(StripTrailingSlashes(p)), r)
  {
    var seg := LastSegment(StripTrailingSlashes(p));
    var d := LastIndexOf(seg, '.');
    if d <= 0 || seg == ".." then
      assert seg[|seg|..] == [];
      ""
    else
      ExtSuffix(seg, d);
      seg[d..]
  }

  /** The suffix from the last '.' of a segment is an extension. */
  lemma ExtSuffix(seg: string, d: int)
    requires 0 < d < |seg| && seg[d] == '.' && '/' !in seg
    requires forall k :: d < k < |seg| ==> seg[k] != '.'
    ensures var r := seg[d..];
      && r[0] == '.' && '/' !in r && (forall k :: 0 < k < |r| ==> r[k] != '.')
      && EndsWith(seg, r)
  {
    var r := seg[d..];
    assert forall k :: 0 <= k < |r| ==> r[k] == seg[d + k];
    assert |seg| - |r| == d;
  }
}
