/*
 * The game logic of src/logic/games/games.js that does not depend on
 * processes, the network or directory scans: the install folder name, the
 * choice of the main executable from a scanned list, the checks before a
 * comment is posted, the fields saveGameInfo strips, and the static
 * runningGames / download bookkeeping of the Games class.
 */
module Games {
  import opened Common
  import Lru

  // ---------------------------------------------------------------------
  // createSafeFolderName
  // ---------------------------------------------------------------------

  /** `[a-zA-Z0-9а-яА-Я_-]`: the Cyrillic ranges are U+0430..U+044F and
      U+0410..U+042F, so ё (U+0451) and Ё (U+0401) are not kept. */
  predicate IsFolderChar(c: char) {
    || ('a' <= c <= 'z') || ('A' <= c <= 'Z') || ('0' <= c <= '9')
    || ('\U{0430}' <= c <= '\U{044F}') || ('\U{0410}' <= c <= '\U{042F}')
    || c == '_' || c == '-'
  }

  predicate AllFolderChars(s: string) {
    forall i :: 0 <= i < |s| ==> IsFolderChar(s[i])
  }

  /** The characters the first replace of createSafeFolderName keeps. */
  predicate IsAllowedChar(c: char) {
    IsFolderChar(c) || IsJsWhitespace(c)
  }

  /** `.replace(/[^a-zA-Z0-9а-яА-Я\s_-]/g, '')`: keeps exactly the folder
      characters and the whitespace, in order. */
  function KeepAllowed(s: string): (r: string)
    ensures |r| <= |s|
    ensures forall i :: 0 <= i < |r| ==> IsFolderChar(r[i]) || IsJsWhitespace(r[i])
    ensures forall c :: c in r <==> c in s && (IsFolderChar(c) || IsJsWhitespace(c))
    ensures KeptInOrder(r, s, IsAllowedChar)
  {
    var r := Filter(s, IsAllowedChar);
    assert forall i :: 0 <= i < |r| ==> r[i] in r;
    r
  }

  /** `.replace(/\s+/g, '_')` as a scan: `inRun` says whether the previous
      character was whitespace. A run of whitespace gives one '_' at its
      first character and nothing for the rest. */
  function Collapse(s: string, inRun: bool): string {
    if s == [] then []
    else if IsJsWhitespace(s[0]) then (if inRun then [] else "_") + Collapse(s[1..], true)
    else [s[0]] + Collapse(s[1..], false)
  }

  function CollapseSpaces(s: string): string {
    Collapse(s, false)
  }

  /** The result is no longer than the input and has no whitespace; from
      folder characters and whitespace it makes folder characters only. */
  lemma {:induction false} CollapseSpec(s: string, inRun: bool)
    ensures var r := Collapse(s, inRun);
      && |r| <= |s| && NoWhitespace(r)
      && ((forall i :: 0 <= i < |s| ==> IsFolderChar(s[i]) || IsJsWhitespace(s[i])) ==> AllFolderChars(r))
  {
    if s != [] {
      CollapseSpec(s[1..], IsJsWhitespace(s[0]));
    }
  }

  /** createSafeFolderName. `.substring(0, 100)` counts UTF-16 code units;
      every character left after the first replace lies in the Basic
      Multilingual Plane, so that is the first 100 characters. */
  function CreateSafeFolderName(title: string): string {
    var c := CollapseSpaces(KeepAllowed(title));
    if |c| <= 100 then c else c[..100]
  }

  /** The folder name has at most 100 characters, all from
      `[a-zA-Z0-9а-яА-Я_-]` (so no whitespace), and is the start of the
      collapsed title. */
  lemma SafeFolderNameSpec(title: string)
    ensures var r := CreateSafeFolderName(title);
      && |r| <= 100 && AllFolderChars(r) && NoWhitespace(r)
      && StartsWith(CollapseSpaces(KeepAllowed(title)), r)
  {
    var c := CollapseSpaces(KeepAllowed(title));
    CollapseSpec(KeepAllowed(title), false);
  }

  /** Whitespace followed by a non-whitespace start is trimmed away whole. */
  lemma {:induction false} TrimStartRun(w: string, b: string)
    requires AllWhitespace(w)
    requires b == [] || !IsJsWhitespace(b[0])
    ensures TrimStart(w + b) == b
  {
    if w != [] {
      assert (w + b)[1..] == w[1..] + b;
      TrimStartRun(w[1..], b);
    }
  }

  /** The rest of a run adds nothing. */
  lemma {:induction false} CollapseRunTail(w: string, b: string)
    requires AllWhitespace(w)
    ensures Collapse(w + b, true) == Collapse(b, true)
  {
    if w != [] {
      assert (w + b)[0] == w[0] && (w + b)[1..] == w[1..] + b;
      CollapseRunTail(w[1..], b);
      assert Collapse(w + b, true) == [] + Collapse(w[1..] + b, true);
    } else {
      assert w + b == b;
    }
  }

  /** After text that ends in non-whitespace the scan is out of any run. */
  lemma {:induction false} CollapseSplit(a: string, rest: string, inRun: bool)
    requires a != [] && !IsJsWhitespace(a[|a| - 1])
    ensures Collapse(a + rest, inRun) == Collapse(a, inRun) + Collapse(rest, false)
  {
    assert (a + rest)[1..] == a[1..] + rest;
    if |a| > 1 {
      CollapseSplit(a[1..], rest, IsJsWhitespace(a[0]));
    }
  }

  /** Text ending in non-whitespace, a run of whitespace, then text not
      starting with whitespace: the run becomes exactly one '_' and both
      sides are collapsed on their own. */
  lemma CollapseRun(a: string, w: string, b: string)
    requires a == [] || !IsJsWhitespace(a[|a| - 1])
    requires w != [] && AllWhitespace(w)
    requires b == [] || !IsJsWhitespace(b[0])
    ensures CollapseSpaces(a + w + b) == CollapseSpaces(a) + "_" + CollapseSpaces(b)
  {
    assert (w + b)[1..] == w[1..] + b;
    CollapseRunTail(w[1..], b);
    assert Collapse(w + b, false) == "_" + Collapse(b, false);
    if a != [] {
      assert a + w + b == a + (w + b);
      CollapseSplit(a, w + b, false);
    } else {
      assert a + w + b == w + b;
    }
  }

  lemma KeepAllowedKeeps(s: string)
    requires AllFolderChars(s)
    ensures KeepAllowed(s) == s
  {
    FilterAll(s, IsAllowedChar);
  }

  lemma {:induction false} CollapseKeeps(s: string, inRun: bool)
    requires NoWhitespace(s)
    ensures Collapse(s, inRun) == s
  {
    if s != [] {
      CollapseKeeps(s[1..], false);
    }
  }

  /** A folder name is its own folder name. */
  lemma SafeFolderNameIdempotent(title: string)
    ensures CreateSafeFolderName(CreateSafeFolderName(title)) == CreateSafeFolderName(title)
  {
    var r := CreateSafeFolderName(title);
    SafeFolderNameSpec(title);
    KeepAllowedKeeps(r);
    CollapseKeeps(r, false);
  }

  // ---------------------------------------------------------------------
  // findMainExecutable, steps 2 to 5
  // ---------------------------------------------------------------------

  /** One .exe the scan found: its lower-cased file name, full path, size in
      bytes and depth below the game folder. */
  datatype ExeFile = ExeFile(lower: string, path: string, size: int, depth: nat)

  /** The engine indicators the scan sets. */
  datatype Indicators = Indicators(rpg: bool, unity: bool, renpy: bool, unreal: bool,
                                   godot: bool, java: bool, flash: bool)

  /** `{ exe, engine }`; `exe` is None for `null`. */
  datatype ExeChoice = ExeChoice(exe: Option<string>, engine: string)

  predicate IsAsciiAlnum(c: char) {
    ('a' <= c <= 'z') || ('A' <= c <= 'Z') || ('0' <= c <= '9')
  }

  /** `.replace(/[^a-zA-Z0-9]/g, '')`. */
  function AlnumOnly(s: string): (r: string)
    ensures |r| <= |s|
    ensures forall i :: 0 <= i < |r| ==> IsAsciiAlnum(r[i])
  {
    if s == [] then []
    else (if IsAsciiAlnum(s[0]) then [s[0]] else []) + AlnumOnly(s[1..])
  }

  /** The replace keeps exactly the ASCII letters and digits. */
  lemma {:induction false} AlnumOnlyMembers(s: string)
    ensures forall c :: c in AlnumOnly(s) <==> c in s && IsAsciiAlnum(c)
  {
    if s != [] {
      AlnumOnlyMembers(s[1..]);
      assert s == [s[0]] + s[1..];
    }
  }

  /** `words.some(w => name.includes(w))`. */
  predicate AnyIncludes(name: string, words: seq<string>) {
    exists i :: 0 <= i < |words| && Includes(name, words[i])
  }

  /** The filter of findExeByKeywords: a keyword occurs in the name with
      everything but ASCII letters and digits removed, and no avoid
      pattern occurs in the lower-cased name. */
  predicate KeywordMatch(f: ExeFile, keywords: seq<string>, avoid: seq<string>) {
    AnyIncludes(AlnumOnly(f.lower), keywords) && !AnyIncludes(f.lower, avoid)
  }

  /** The filter of findExeByKeywords as a test on one exe. */
  function MatchTest(keywords: seq<string>, avoid: seq<string>): ExeFile -> bool {
    f => KeywordMatch(f, keywords, avoid)
  }

  /** The matching exes, in scan order. */
  function Matches(exes: seq<ExeFile>, keywords: seq<string>, avoid: seq<string>): (r: seq<ExeFile>)
    ensures |r| <= |exes|
    ensures forall f :: f in r <==> f in exes && KeywordMatch(f, keywords, avoid)
    ensures KeptInOrder(r, exes, MatchTest(keywords, avoid))
  {
    Filter(exes, MatchTest(keywords, avoid))
  }

  /** `a` sorts before `b` under `(b.size - a.size) || (a.depth - b.depth)`. */
  predicate Outranks(a: ExeFile, b: ExeFile) {
    a.size > b.size || (a.size == b.size && a.depth < b.depth)
  }

  /** `s.sort(cmp)[0]` as an index into `s`, -1 when `s` is empty. */
  function BestIndex(s: seq<ExeFile>): (k: int)
    ensures -1 <= k < |s| && (k == -1 <==> s == [])
  {
    if s == [] then -1
    else
      var k := BestIndex(s[..|s| - 1]);
      if k == -1 || Outranks(s[|s| - 1], s[k]) then |s| - 1 else k
  }

  /** Array.prototype.sort is stable, so the head of the sorted list is the
      first element that nothing outranks: everything before it is
      strictly outranked by it. */
  lemma {:induction false} BestIndexSpec(s: seq<ExeFile>)
    requires s != []
    ensures var k := BestIndex(s);
      && (forall j :: 0 <= j < |s| ==> !Outranks(s[j], s[k]))
      && (forall j :: 0 <= j < k ==> Outranks(s[k], s[j]))
  {
    var init := s[..|s| - 1];
    if init != [] {
      BestIndexSpec(init);
      var k := BestIndex(init);
      assert forall j :: 0 <= j < |init| ==> s[j] == init[j];
    }
  }

  /** findExeByKeywords. */
  function FindExeByKeywords(exes: seq<ExeFile>, keywords: seq<string>, avoid: seq<string>): Option<ExeFile> {
    var m := Matches(exes, keywords, avoid);
    var k := BestIndex(m);
    if k == -1 then None else Some(m[k])
  }

  /** The result is a matching exe that no other matching exe outranks,
      and it is None exactly when nothing matches. Among equals the scan
      order decides: the result strictly outranks every match found before
      it. */
  lemma FindExeByKeywordsSpec(exes: seq<ExeFile>, keywords: seq<string>, avoid: seq<string>)
    ensures var r := FindExeByKeywords(exes, keywords, avoid);
      && (r.None? <==> forall f :: f in exes ==> !KeywordMatch(f, keywords, avoid))
      && (r.Some? ==> r.value in exes && KeywordMatch(r.value, keywords, avoid)
                      && forall f :: f in exes && KeywordMatch(f, keywords, avoid) ==> !Outranks(f, r.value))
      && (r.Some? ==>
            exists k :: 0 <= k < |exes| && exes[k] == r.value &&
              forall i :: 0 <= i < k && KeywordMatch(exes[i], keywords, avoid) ==> Outranks(r.value, exes[i]))
  {
    var m := Matches(exes, keywords, avoid);
    if m != [] {
      BestIndexSpec(m);
      assert m[0] in m;
      BestFirstInScan(exes, keywords, avoid);
    } else {
      assert forall f :: f in exes ==> !KeywordMatch(f, keywords, avoid) by {
        forall f | f in exes
          ensures !KeywordMatch(f, keywords, avoid)
        {
          assert f !in m;
        }
      }
    }
  }

  /** The exe findExeByKeywords picks strictly outranks every match the
      scan found before it. */
  lemma BestFirstInScan(exes: seq<ExeFile>, keywords: seq<string>, avoid: seq<string>)
    requires Matches(exes, keywords, avoid) != []
    ensures var m := Matches(exes, keywords, avoid);
      exists k :: 0 <= k < |exes| && exes[k] == m[BestIndex(m)]
        && forall i :: 0 <= i < k && KeywordMatch(exes[i], keywords, avoid) ==> Outranks(m[BestIndex(m)], exes[i])
  {
    var m := Matches(exes, keywords, avoid);
    var p := MatchTest(keywords, avoid);
    var b := BestIndex(m);
    BestIndexSpec(m);
    var k := Positions(exes, p)[b];
    assert exes[k] == Id(exes[k]) == m[b];
    forall i | 0 <= i < k && KeywordMatch(exes[i], keywords, avoid)
      ensures Outranks(m[b], exes[i])
    {
      assert p(exes[i]);
      KeptBefore(m, exes, p, b, i);
    }
  }

  /** `exes.find(p)` as an index, -1 when nothing satisfies `p`. */
  function FindIndex(s: seq<ExeFile>, p: ExeFile -> bool): (k: int)
    ensures -1 <= k < |s|
    ensures k >= 0 ==> p(s[k]) && forall j :: 0 <= j < k ==> !p(s[j])
    ensures k == -1 ==> forall j :: 0 <= j < |s| ==> !p(s[j])
  {
    if s == [] then -1
    else if p(s[0]) then 0
    else
      var k := FindIndex(s[1..], p);
      if k == -1 then -1 else k + 1
  }

  /** `reduce((max, f) => f.size > max.size ? f : max)` as an index, -1 for
      an empty list (where the source's reduce is never reached). */
  function LargestIndex(s: seq<ExeFile>): (k: int)
    ensures -1 <= k < |s| && (k == -1 <==> s == [])
  {
    if s == [] then -1
    else
      var k := LargestIndex(s[..|s| - 1]);
      if k == -1 || s[|s| - 1].size > s[k].size then |s| - 1 else k
  }

  /** The reduce keeps the first of the largest. */
  lemma {:induction false} LargestIndexSpec(s: seq<ExeFile>)
    requires s != []
    ensures var k := LargestIndex(s);
      && (forall j :: 0 <= j < |s| ==> s[j].size <= s[k].size)
      && (forall j :: 0 <= j < k ==> s[j].size < s[k].size)
  {
    var init := s[..|s| - 1];
    if init != [] {
      LargestIndexSpec(init);
      assert forall j :: 0 <= j < |init| ==> s[j] == init[j];
    }
  }

  predicate AtRoot(f: ExeFile) {
    f.depth == 0
  }

  /** `exes.filter(e => e.depth === 0)`: the root-folder exes in scan order. */
  function RootExes(exes: seq<ExeFile>): (r: seq<ExeFile>)
    ensures forall f :: f in r <==> f in exes && f.depth == 0
    ensures KeptInOrder(r, exes, AtRoot)
  {
    Filter(exes, AtRoot)
  }

  /** The RPG Maker keywords as written: 'rpg_rt' is compared against names
      whose underscores were already removed. */
  const RpgKeywordsAsWritten: seq<string> := ["game", "rpg_rt"]

  /** The RPG Maker keywords with 'rpg_rt' written the way the names are
      compared. */
  const RpgKeywords: seq<string> := ["game", "rpgrt"]

  /** The Unity 64-bit build of the game, not a Unity tool. */
  predicate IsUnity64(f: ExeFile) {
    Includes(f.lower, "64.exe") && !Includes(f.lower, "unity")
  }

  predicate IsUnrealShipping(f: ExeFile) {
    Includes(f.lower, "-shipping.exe")
  }

  predicate IsGodotPck(f: ExeFile) {
    EndsWith(f.lower, "_pck.exe")
  }

  /** `exes.find(p)`. */
  function Find(exes: seq<ExeFile>, p: ExeFile -> bool): (r: Option<ExeFile>)
    ensures r.Some? ==> exists k :: 0 <= k < |exes| && exes[k] == r.value && p(exes[k])
                                    && forall j :: 0 <= j < k ==> !p(exes[j])
    ensures r.None? ==> forall f :: f in exes ==> !p(f)
  {
    var k := FindIndex(exes, p);
    if k == -1 then None else Some(exes[k])
  }

  /** What each engine check of step 3 finds, None where its indicator is
      absent. */
  datatype Candidates = Candidates(rpg: Option<ExeFile>, unity: Option<ExeFile>, unity64: Option<ExeFile>,
                                   renpy: Option<ExeFile>, unreal: Option<ExeFile>, godot: Option<ExeFile>,
                                   java: Option<ExeFile>)

  function EngineCandidates(exes: seq<ExeFile>, gameTitle: string, ind: Indicators, rpgKeywords: seq<string>): Candidates {
    var safeTitle := ToLower(AlnumOnly(gameTitle));
    Candidates(
      if ind.rpg then FindExeByKeywords(exes, rpgKeywords, []) else None,
      if ind.unity then FindExeByKeywords(exes, [safeTitle], ["unitycrashhandler", "unityplayer"]) else None,
      if ind.unity then Find(exes, IsUnity64) else None,
      if ind.renpy then FindExeByKeywords(exes, ["game"], ["python", "lib"]) else None,
      if ind.unreal then Find(exes, IsUnrealShipping) else None,
      if ind.godot then Find(exes, IsGodotPck) else None,
      if ind.java then FindExeByKeywords(exes, ["game", "start", "launcher"], []) else None)
  }

  /** Every candidate is one of the scanned exes. */
  predicate Listed(exes: seq<ExeFile>, c: Candidates) {
    && (c.rpg.Some? ==> c.rpg.value in exes)
    && (c.unity.Some? ==> c.unity.value in exes)
    && (c.unity64.Some? ==> c.unity64.value in exes)
    && (c.renpy.Some? ==> c.renpy.value in exes)
    && (c.unreal.Some? ==> c.unreal.value in exes)
    && (c.godot.Some? ==> c.godot.value in exes)
    && (c.java.Some? ==> c.java.value in exes)
  }

  /** The order of the engine checks: the first that found an exe returns,
      Flash (the first exe) is the last resort. */
  function PickEngine(exes: seq<ExeFile>, c: Candidates, flash: bool): Option<ExeChoice>
    requires exes != []
  {
    if c.rpg.Some? then Some(ExeChoice(Some(c.rpg.value.path), "RPG Maker"))
    else if c.unity.Some? then Some(ExeChoice(Some(c.unity.value.path), "Unity"))
    else if c.unity64.Some? then Some(ExeChoice(Some(c.unity64.value.path), "Unity"))
    else if c.renpy.Some? then Some(ExeChoice(Some(c.renpy.value.path), "Ren'Py"))
    else if c.unreal.Some? then Some(ExeChoice(Some(c.unreal.value.path), "Unreal Engine"))
    else if c.godot.Some? then Some(ExeChoice(Some(c.godot.value.path), "Godot"))
    else if c.java.Some? then Some(ExeChoice(Some(c.java.value.path), "Java"))
    else if flash then Some(ExeChoice(Some(exes[0].path), "Flash"))
    else None
  }

  /** Step 3 of findMainExecutable: the engine checks in order RPG Maker,
      Unity, Ren'Py, Unreal, Godot, Java, Flash; None when none of them
      returns. */
  function ByEngine(exes: seq<ExeFile>, gameTitle: string, ind: Indicators, rpgKeywords: seq<string>): Option<ExeChoice>
    requires exes != []
  {
    PickEngine(exes, EngineCandidates(exes, gameTitle, ind, rpgKeywords), ind.flash)
  }

  /** The keyword searches and finds of step 3 only ever return scanned
      exes. */
  lemma CandidatesListed(exes: seq<ExeFile>, gameTitle: string, ind: Indicators, rpgKeywords: seq<string>)
    ensures Listed(exes, EngineCandidates(exes, gameTitle, ind, rpgKeywords))
  {
    var safeTitle := ToLower(AlnumOnly(gameTitle));
    FindExeByKeywordsSpec(exes, rpgKeywords, []);
    FindExeByKeywordsSpec(exes, [safeTitle], ["unitycrashhandler", "unityplayer"]);
    FindExeByKeywordsSpec(exes, ["game"], ["python", "lib"]);
    FindExeByKeywordsSpec(exes, ["game", "start", "launcher"], []);
  }

  /** Steps 4 and 5: the first of the largest exes in the root folder, else
      the first of the largest overall. */
  function Fallback(exes: seq<ExeFile>): ExeChoice
    requires exes != []
  {
    var roots := RootExes(exes);
    if roots != [] then ExeChoice(Some(roots[LargestIndex(roots)].path), "Unknown")
    else ExeChoice(Some(exes[LargestIndex(exes)].path), "Unknown")
  }

  /** The first exe named like `db_exe`, case-insensitively; -1 if none. */
  function DbIndex(exes: seq<ExeFile>, dbExe: Option<string>): (k: int)
    ensures -1 <= k < |exes|
    ensures k >= 0 ==> Truthy(dbExe) && exes[k].lower == ToLower(dbExe.value)
                       && forall j :: 0 <= j < k ==> exes[j].lower != ToLower(dbExe.value)
    ensures k == -1 && Truthy(dbExe) ==> forall j :: 0 <= j < |exes| ==> exes[j].lower != ToLower(dbExe.value)
  {
    if Truthy(dbExe) then FindIndex(exes, (f: ExeFile) => f.lower == ToLower(dbExe.value)) else -1
  }

  /** Steps 2 to 5 of findMainExecutable over the scanned exe list, with the
      RPG Maker keywords as a parameter. */
  function Select(exes: seq<ExeFile>, gameTitle: string, dbExe: Option<string>, engine: Option<string>,
                  ind: Indicators, rpgKeywords: seq<string>): ExeChoice
  {
    if exes == [] then ExeChoice(None, "Unknown")
    else
      var db := DbIndex(exes, dbExe);
      if db >= 0 then ExeChoice(Some(exes[db].path), if Truthy(engine) then engine.value else "Unknown")
      else
        var e := ByEngine(exes, gameTitle, ind, rpgKeywords);
        if e.Some? then e.value else Fallback(exes)
  }

  /** findMainExecutable as written. */
  function FindMainExecutableAsWritten(exes: seq<ExeFile>, gameTitle: string, dbExe: Option<string>,
                                       engine: Option<string>, ind: Indicators): ExeChoice {
    Select(exes, gameTitle, dbExe, engine, ind, RpgKeywordsAsWritten)
  }

  /** findMainExecutable with the RPG Maker keyword corrected. */
  function FindMainExecutable(exes: seq<ExeFile>, gameTitle: string, dbExe: Option<string>,
                              engine: Option<string>, ind: Indicators): ExeChoice {
    Select(exes, gameTitle, dbExe, engine, ind, RpgKeywords)
  }

  predicate PathOf(exes: seq<ExeFile>, p: string) {
    exists f :: f in exes && f.path == p
  }

  /** Whatever the engine checks choose is one of the scanned exes; Flash
      takes the first exe and is the last resort, so the checks choose
      nothing only when Flash was not detected. */
  lemma ByEngineListed(exes: seq<ExeFile>, gameTitle: string, ind: Indicators, rpgKeywords: seq<string>)
    requires exes != []
    ensures var e := ByEngine(exes, gameTitle, ind, rpgKeywords);
      && (e.Some? ==> e.value.exe.Some? && PathOf(exes, e.value.exe.value))
      && (e.Some? && e.value.engine == "Flash" ==> ind.flash && e.value.exe == Some(exes[0].path))
      && (e.None? ==> !ind.flash)
  {
    CandidatesListed(exes, gameTitle, ind, rpgKeywords);
    assert exes[0] in exes;
  }

  /** The engine checks name an engine only when its indicator was found,
      and RPG Maker wins whenever its keywords match. */
  lemma ByEngineLabels(exes: seq<ExeFile>, gameTitle: string, ind: Indicators, rpgKeywords: seq<string>)
    requires exes != []
    ensures var e := ByEngine(exes, gameTitle, ind, rpgKeywords);
      && (e.Some? && e.value.engine == "RPG Maker" ==> ind.rpg)
      && (e.Some? && e.value.engine == "Unity" ==> ind.unity)
      && (e.Some? && e.value.engine == "Ren'Py" ==> ind.renpy)
      && (e.Some? && e.value.engine == "Unreal Engine" ==> ind.unreal)
      && (e.Some? && e.value.engine == "Godot" ==> ind.godot)
      && (e.Some? && e.value.engine == "Java" ==> ind.java)
      && (ind.rpg && FindExeByKeywords(exes, rpgKeywords, []).Some? ==>
            e == Some(ExeChoice(Some(FindExeByKeywords(exes, rpgKeywords, []).value.path), "RPG Maker")))
  {
  }

  /** The fallback picks the first of the largest root exes when there is
      a root exe, else the first of the largest exes: every root exe (every
      exe) before it is strictly smaller. */
  lemma FallbackSpec(exes: seq<ExeFile>)
    requires exes != []
    ensures Fallback(exes).engine == "Unknown" && Fallback(exes).exe.Some?
    ensures (exists f :: f in exes && f.depth == 0) ==>
      exists k :: 0 <= k < |exes| && Fallback(exes).exe.value == exes[k].path
        && exes[k].depth == 0
        && (forall f :: f in exes && f.depth == 0 ==> f.size <= exes[k].size)
        && (forall j :: 0 <= j < k && exes[j].depth == 0 ==> exes[j].size < exes[k].size)
    ensures (forall f :: f in exes ==> f.depth != 0) ==>
      exists k :: 0 <= k < |exes| && Fallback(exes).exe.value == exes[k].path
        && (forall j :: 0 <= j < |exes| ==> exes[j].size <= exes[k].size)
        && (forall j :: 0 <= j < k ==> exes[j].size < exes[k].size)
  {
    if RootExes(exes) != [] {
      var k := FallbackRoot(exes);
      assert exes[k] in exes;
    } else {
      var k := FallbackLargest(exes);
    }
  }

  /** Without a root exe the fallback's choice is the first of the largest
      exes. */
  lemma FallbackLargest(exes: seq<ExeFile>) returns (k: int)
    requires exes != [] && RootExes(exes) == []
    ensures forall f :: f in exes ==> f.depth != 0
    ensures 0 <= k < |exes| && Fallback(exes) == ExeChoice(Some(exes[k].path), "Unknown")
    ensures forall j :: 0 <= j < |exes| ==> exes[j].size <= exes[k].size
    ensures forall j :: 0 <= j < k ==> exes[j].size < exes[k].size
  {
    k := LargestIndex(exes);
    LargestIndexSpec(exes);
    forall f | f in exes
      ensures f.depth != 0
    {
      assert f !in RootExes(exes);
    }
  }

  /** The position in the scan of the root exe the fallback picks. */
  lemma FallbackRoot(exes: seq<ExeFile>) returns (k: int)
    requires RootExes(exes) != []
    ensures 0 <= k < |exes| && exes[k] == RootExes(exes)[LargestIndex(RootExes(exes))]
    ensures exes[k].depth == 0
    ensures forall f :: f in exes && f.depth == 0 ==> f.size <= exes[k].size
    ensures forall j :: 0 <= j < k && exes[j].depth == 0 ==> exes[j].size < exes[k].size
  {
    var roots := RootExes(exes);
    var b := LargestIndex(roots);
    LargestIndexSpec(roots);
    k := Positions(exes, AtRoot)[b];
    assert exes[k] == Id(exes[k]) == roots[b];
    assert roots[b] in roots;
    forall g | g in exes && g.depth == 0
      ensures g.size <= exes[k].size
    {
      assert g in roots;
      var j :| 0 <= j < |roots| && roots[j] == g;
    }
    forall j | 0 <= j < k && exes[j].depth == 0
      ensures exes[j].size < exes[k].size
    {
      assert AtRoot(exes[j]);
      KeptBefore(roots, exes, AtRoot, b, j);
    }
  }

  /** An empty list gives `{exe: null, engine: 'Unknown'}`; any other list
      gives one of its own paths; the first exe named like `db_exe` wins
      with `engine || 'Unknown'`; without such an exe and without an
      engine match the fallback decides. */
  lemma SelectSpec(exes: seq<ExeFile>, gameTitle: string, dbExe: Option<string>, engine: Option<string>,
                   ind: Indicators, rpgKeywords: seq<string>)
    ensures var r := Select(exes, gameTitle, dbExe, engine, ind, rpgKeywords);
      && (exes == [] ==> r == ExeChoice(None, "Unknown"))
      && (exes != [] ==> r.exe.Some? && PathOf(exes, r.exe.value))
      && (forall k :: 0 <= k < |exes| && Truthy(dbExe) && exes[k].lower == ToLower(dbExe.value)
                      && (forall j :: 0 <= j < k ==> exes[j].lower != ToLower(dbExe.value)) ==>
            r == ExeChoice(Some(exes[k].path), if Truthy(engine) then engine.value else "Unknown"))
      && (exes != [] && DbIndex(exes, dbExe) == -1 && ByEngine(exes, gameTitle, ind, rpgKeywords).None? ==>
            r == Fallback(exes))
  {
    if exes != [] {
      var db := DbIndex(exes, dbExe);
      if db >= 0 {
        assert exes[db] in exes;
      } else if ByEngine(exes, gameTitle, ind, rpgKeywords).Some? {
        ByEngineListed(exes, gameTitle, ind, rpgKeywords);
      } else {
        var k;
        if RootExes(exes) != [] {
          k := FallbackRoot(exes);
        } else {
          k := FallbackLargest(exes);
        }
        assert exes[k] in exes;
      }
    }
  }

  /** After `.replace(/[^a-zA-Z0-9]/g, '')` no name contains '_', so the
      keyword 'rpg_rt' never matches anything. */
  lemma RpgRtNeverMatches(f: ExeFile)
    ensures !Includes(AlnumOnly(f.lower), "rpg_rt")
  {
    var name := AlnumOnly(f.lower);
    forall k | 0 <= k <= |name| - 6
      ensures !OccursAt(name, "rpg_rt", k)
    {
      assert IsAsciiAlnum(name[k + 3]);
    }
  }

  lemma {:induction false} AlnumOnlyConcat(s: string, t: string)
    ensures AlnumOnly(s + t) == AlnumOnly(s) + AlnumOnly(t)
  {
    if s != [] {
      assert (s + t)[0] == s[0] && (s + t)[1..] == s[1..] + t;
      AlnumOnlyConcat(s[1..], t);
    } else {
      assert s + t == t;
    }
  }

  lemma {:induction false} AlnumOnlyKeeps(s: string)
    requires forall i :: 0 <= i < |s| ==> IsAsciiAlnum(s[i])
    ensures AlnumOnly(s) == s
  {
    if s != [] {
      AlnumOnlyKeeps(s[1..]);
    }
  }

  /** The name of RPG_RT.exe with the punctuation removed starts with
      'rpgrt'. */
  lemma RpgRtName(name: string)
    requires name == "rpg_rt.exe"
    ensures StartsWith(AlnumOnly(name), "rpgrt")
  {
    var p, u, t, e := name[..3], name[3..4], name[4..6], name[6..];
    assert name == p + (u + (t + e));
    AlnumOnlyConcat(p, u + (t + e));
    AlnumOnlyConcat(u, t + e);
    AlnumOnlyConcat(t, e);
    AlnumOnlyKeeps(p);
    AlnumOnlyKeeps(t);
    assert AlnumOnly(u) == [];
    assert AlnumOnly(name) == (p + t) + AlnumOnly(e);
  }

  /** With the corrected keyword, an exe called RPG_RT.exe (in any case)
      matches the RPG Maker keywords. */
  lemma RpgRtMatches(f: ExeFile)
    requires f.lower == "rpg_rt.exe"
    ensures KeywordMatch(f, RpgKeywords, [])
  {
    RpgRtName(f.lower);
    assert OccursAt(AlnumOnly(f.lower), RpgKeywords[1], 0);
  }

  /** As written, an exe called RPG_RT.exe matches neither RPG Maker
      keyword: 'rpg_rt' cannot occur, and the name has no 'm' for
      'game'. */
  lemma RpgRtMissed(f: ExeFile)
    requires f.lower == "rpg_rt.exe"
    ensures !KeywordMatch(f, RpgKeywordsAsWritten, [])
  {
    RpgRtNeverMatches(f);
    RpgRtHasNoM(f.lower);
    WithoutLetterM(AlnumOnly(f.lower), "game");
  }

  lemma RpgRtHasNoM(name: string)
    requires name == "rpg_rt.exe"
    ensures 'm' !in AlnumOnly(name)
  {
    AlnumOnlyMembers(name);
    assert 'm' !in name;
  }

  /** A word with an 'm' in it is not found in a name without one. */
  lemma WithoutLetterM(name: string, w: string)
    requires 'm' !in name && 'm' in w
    ensures !Includes(name, w)
  {
  }

  /** An RPG Maker 2000/2003 folder whose only exe is RPG_RT.exe: as
      written it is not recognised as RPG Maker; with the corrected keyword
      it is. */
  lemma RpgRtExample(f: ExeFile, ind: Indicators)
    requires f == ExeFile("rpg_rt.exe", "RPG_RT.exe", 1000, 0)
    requires ind == Indicators(true, false, false, false, false, false, false)
    ensures FindMainExecutableAsWritten([f], "Title", None, None, ind) == ExeChoice(Some("RPG_RT.exe"), "Unknown")
    ensures FindMainExecutable([f], "Title", None, None, ind) == ExeChoice(Some("RPG_RT.exe"), "RPG Maker")
  {
    RpgRtExampleAsWritten(f, ind);
    RpgRtExampleCorrected(f, ind);
  }

  lemma RpgRtExampleAsWritten(f: ExeFile, ind: Indicators)
    requires f == ExeFile("rpg_rt.exe", "RPG_RT.exe", 1000, 0)
    requires ind == Indicators(true, false, false, false, false, false, false)
    ensures FindMainExecutableAsWritten([f], "Title", None, None, ind) == ExeChoice(Some("RPG_RT.exe"), "Unknown")
  {
    var exes := [f];
    RpgRtMissed(f);
    FilterOne(f, MatchTest(RpgKeywordsAsWritten, []));
    FilterOne(f, AtRoot);
    assert Matches(exes, RpgKeywordsAsWritten, []) == [];
    assert ByEngine(exes, "Title", ind, RpgKeywordsAsWritten).None?;
    assert RootExes(exes) == [f];
  }

  lemma RpgRtExampleCorrected(f: ExeFile, ind: Indicators)
    requires f == ExeFile("rpg_rt.exe", "RPG_RT.exe", 1000, 0)
    requires ind == Indicators(true, false, false, false, false, false, false)
    ensures FindMainExecutable([f], "Title", None, None, ind) == ExeChoice(Some("RPG_RT.exe"), "RPG Maker")
  {
    RpgRtFound(f);
    ByEngineLabels([f], "Title", ind, RpgKeywords);
    assert DbIndex([f], None) == -1;
  }

  /** With the corrected keyword the RPG Maker search finds RPG_RT.exe. */
  lemma RpgRtFound(f: ExeFile)
    requires f.lower == "rpg_rt.exe"
    ensures FindExeByKeywords([f], RpgKeywords, []) == Some(f)
  {
    RpgRtMatches(f);
    FilterOne(f, MatchTest(RpgKeywords, []));
    assert Matches([f], RpgKeywords, []) == [f];
  }

  // ---------------------------------------------------------------------
  // addComment
  // ---------------------------------------------------------------------

  /** The server's JSON answer, or the message of the error thrown by the
      request or the JSON parse. */
  datatype Reply = Reply(success: bool, commentId: int, error: Option<string>)

  datatype AddOutcome = Added(commentId: int) | Refused(error: string)

  const NotOnline := "Нет интернет соединения"
  const EmptyComment := "Комментарий не может быть пустым"
  const TooLong := "Комментарий слишком длинный (максимум 256 символов)"
  const UnknownError := "Неизвестная ошибка"

  /** The checks addComment makes before any request: the body to post, or
      the error returned. Length is counted on the untrimmed text in UTF-16
      code units. */
  function CommentBody(isOnline: bool, content: Option<string>): (r: Result<string, string>)
    ensures r.Ok? <==> isOnline && content.Some? && !AllWhitespace(content.value) && Utf16Length(content.value) <= 256
    ensures r.Ok? ==> r.value == Trim(content.value) && r.value != ""
    ensures !isOnline ==> r == Err(NotOnline)
    ensures isOnline && (content.None? || AllWhitespace(content.value)) ==> r == Err(EmptyComment)
  {
    if !isOnline then Err(NotOnline)
    else if content.None? || content.value == [] then Err(EmptyComment)
    else if Trim(content.value) == [] then (TrimSpec(content.value); Err(EmptyComment))
    else if Utf16Length(content.value) > 256 then (TrimSpec(content.value); Err(TooLong))
    else (TrimSpec(content.value); Ok(Trim(content.value)))
  }

  /** addComment: `post` is the request with the given trimmed body. */
  function AddComment(isOnline: bool, content: Option<string>, post: string -> Result<Reply, string>): (r: AddOutcome)
    ensures CommentBody(isOnline, content).Err? ==> r == Refused(CommentBody(isOnline, content).error)
    ensures r.Added? ==> CommentBody(isOnline, content).Ok?
                         && post(Trim(content.value)).Ok? && post(Trim(content.value)).value.success
                         && r.commentId == post(Trim(content.value)).value.commentId
    ensures CommentBody(isOnline, content).Ok? ==>
              var reply := post(Trim(content.value));
              && (reply.Err? ==> r == Refused(reply.error))
              && (reply.Ok? && reply.value.success ==> r == Added(reply.value.commentId))
              && (reply.Ok? && !reply.value.success ==>
                    r == Refused(if Truthy(reply.value.error) then reply.value.error.value else UnknownError))
  {
    match CommentBody(isOnline, content)
    case Err(e) => Refused(e)
    case Ok(body) =>
      match post(body)
      case Err(message) => Refused(message)
      case Ok(reply) =>
        if reply.success then Added(reply.commentId)
        else Refused(if Truthy(reply.error) then reply.error.value else UnknownError)
  }

  /** An invalid comment is refused the same way whatever the server
      would answer: no request is made. */
  lemma AddCommentNoRequest(isOnline: bool, content: Option<string>,
                            post1: string -> Result<Reply, string>, post2: string -> Result<Reply, string>)
    requires CommentBody(isOnline, content).Err?
    ensures AddComment(isOnline, content, post1) == AddComment(isOnline, content, post2)
    ensures AddComment(isOnline, content, post1).Refused?
  {
  }

  /** A valid comment is posted as its trimmed text: two servers that give
      the same answer to that one body lead to the same outcome, and an
      answer without an error message is reported as the unknown error. */
  lemma AddCommentPostsTrimmed(isOnline: bool, content: Option<string>,
                               post1: string -> Result<Reply, string>, post2: string -> Result<Reply, string>)
    requires CommentBody(isOnline, content).Ok?
    requires post1(Trim(content.value)) == post2(Trim(content.value))
    ensures AddComment(isOnline, content, post1) == AddComment(isOnline, content, post2)
    ensures post1(Trim(content.value)) == Ok(Reply(false, 0, None)) ==>
              AddComment(isOnline, content, post1) == Refused(UnknownError)
  {
  }

  // ---------------------------------------------------------------------
  // saveGameInfo
  // ---------------------------------------------------------------------

  /** A game object as its JSON fields; values are kept as their JSON text. */
  type GameObject = map<string, string>

  const InstallFields: set<string> := {"isInstalled", "installPath", "executablePath"}

  /** `const { isInstalled, installPath, executablePath, ...cleanData } = gameData`. */
  function StripInstallFields(game: GameObject): (r: GameObject)
    ensures r.Keys == game.Keys - InstallFields
    ensures forall k :: k in r ==> r[k] == game[k]
  {
    map k | k in game && k !in InstallFields :: game[k]
  }

  /** <drive>/HornyLibrary/gamesInfo/<id>.json */
  function GameInfoPath(drivePath: string, gameId: int): string {
    JoinPath(JoinPath(JoinPath(drivePath, "HornyLibrary"), "gamesInfo"), IntToString(gameId) + ".json")
  }

  /** Different games have different info files on a drive. */
  lemma GameInfoPathsDistinct(drivePath: string, a: int, b: int)
    requires a != b
    ensures GameInfoPath(drivePath, a) != GameInfoPath(drivePath, b)
  {
    var q := JoinPath(JoinPath(drivePath, "HornyLibrary"), "gamesInfo") + "/";
    var sa, sb := IntToString(a), IntToString(b);
    IntToStringSpec(a, b);
    assert GameInfoPath(drivePath, a) == q + sa + ".json";
    assert GameInfoPath(drivePath, b) == q + sb + ".json";
    if |sa| == |sb| {
      var i :| 0 <= i < |sa| && sa[i] != sb[i];
      assert (q + sa + ".json")[|q| + i] == sa[i] && (q + sb + ".json")[|q| + i] == sb[i];
    } else {
      assert |q + sa + ".json"| != |q + sb + ".json"|;
    }
  }

  // ---------------------------------------------------------------------
  // The static state of the Games class
  // ---------------------------------------------------------------------

  /** A runningGames entry: the process id stands for the process. */
  datatype RunningGame = RunningGame(pid: int, gameId: int, gameTitle: string, startTime: int)

  /** What launchGame reads about an installed game: its title and the
      `executablePath.exe` gameInstalledInfo reports. */
  datatype InstalledGame = InstalledGame(title: string, exe: Option<string>)

  /** `{ progress, gameId }`; None stands for the reset value
      `{ progress: 0, gameId: null }`. */
  type Progress = Option<(string, int)>

  /** `Math.floor((Date.now() - gameData.startTime) / 1000)`, or 0 when the
      game has no entry. */
  function PlayTime(running: map<int, RunningGame>, gameId: int, now: int): (t: int)
    ensures gameId !in running ==> t == 0
    ensures gameId in running ==>
              t * 1000 <= now - running[gameId].startTime < (t + 1) * 1000
  {
    if gameId in running then (now - running[gameId].startTime) / 1000 else 0
  }

  class Games {
    var runningGames: map<int, RunningGame>
    var runningOrder: seq<int>
    var downloading: bool
    var downloadingPause: bool
    var currentGameDownloadObject: Option<GameObject>
    var globalCurrentDownloadProgress: Progress
    var gameInfoFiles: map<string, GameObject>

    /** The Map's keys, in insertion order, without repeats. */
    ghost predicate Valid()
      reads this
    {
      NoDuplicates(runningOrder) && forall k :: k in runningGames <==> k in runningOrder
    }

    constructor(gameInfoFiles: map<string, GameObject>)
      ensures Valid()
      ensures runningGames == map[] && runningOrder == []
      ensures !downloading && !downloadingPause && currentGameDownloadObject.None?
      ensures globalCurrentDownloadProgress.None? && this.gameInfoFiles == gameInfoFiles
    {
      runningGames := map[];
      runningOrder := [];
      downloading := false;
      downloadingPause := false;
      currentGameDownloadObject := None;
      globalCurrentDownloadProgress := None;
      this.gameInfoFiles := gameInfoFiles;
    }

    function IsGameRunning(gameId: int): bool
      reads this
    {
      gameId in runningGames
    }

    /** The guards of launchGame and the runningGames.set on success.
        `installed` is what getInstalledGameById finds, `exeExists` whether
        the executable exists, `pid` the spawned process, `now` Date.now(). */
    method LaunchGame(gameId: int, installed: Option<InstalledGame>, exeExists: bool, pid: int, now: int)
      returns (process: Option<int>)
      requires Valid()
      modifies this`runningGames, this`runningOrder
      ensures Valid()
      ensures process.Some? <==> old(gameId !in runningGames) && installed.Some? && Truthy(installed.value.exe) && exeExists
      ensures process.Some? ==> process.value == pid && runningOrder == old(runningOrder) + [gameId]
                                && runningGames == old(runningGames)[gameId := RunningGame(pid, gameId, installed.value.title, now)]
      ensures process.None? ==> runningGames == old(runningGames) && runningOrder == old(runningOrder)
    {
      if gameId in runningGames {
        return None;
      }
      if installed.None? {
        return None;
      }
      var gamePath := installed.value.exe;
      if !Truthy(gamePath) || !exeExists {
        return None;
      }
      runningGames := runningGames[gameId := RunningGame(pid, gameId, installed.value.title, now)];
      runningOrder := runningOrder + [gameId];
      return Some(pid);
    }

    /** The 'error' and 'close' handlers: runningGames.delete(gameId).
        `playTime` is the whole seconds since the launch that 'close'
        reports, 0 when the entry is already gone. */
    method ProcessEnded(gameId: int, now: int) returns (playTime: int)
      requires Valid()
      modifies this`runningGames, this`runningOrder
      ensures Valid()
      ensures playTime == PlayTime(old(runningGames), gameId, now)
      ensures runningGames == old(runningGames) - {gameId}
      ensures runningOrder == Lru.Without(old(runningOrder), [gameId])
    {
      playTime := if gameId in runningGames then (now - runningGames[gameId].startTime) / 1000 else 0;
      runningGames := runningGames - {gameId};
      runningOrder := Lru.Without(runningOrder, [gameId]);
    }

    /** closeGame; `killResult` is what process.kill() returns, None when it
        throws. The entry stays until the process's 'close' event unless
        kill throws. */
    method CloseGame(gameId: int, killResult: Option<bool>) returns (ok: bool)
      requires Valid()
      modifies this`runningGames, this`runningOrder
      ensures Valid()
      ensures ok <==> old(gameId in runningGames) && killResult == Some(true)
      ensures old(gameId in runningGames) && killResult.None? ==>
                runningGames == old(runningGames) - {gameId} && runningOrder == Lru.Without(old(runningOrder), [gameId])
      ensures !(old(gameId in runningGames) && killResult.None?) ==>
                runningGames == old(runningGames) && runningOrder == old(runningOrder)
    {
      if gameId !in runningGames {
        return false;
      }
      if killResult.None? {
        runningGames := runningGames - {gameId};
        runningOrder := Lru.Without(runningOrder, [gameId]);
        return false;
      }
      return killResult.value;
    }

    /** saveGameInfo: the game object minus the install fields, written to
        its info file. */
    method SaveGameInfo(gameId: int, gameData: GameObject, drivePath: string)
      modifies this`gameInfoFiles
      ensures gameInfoFiles == old(gameInfoFiles)[GameInfoPath(drivePath, gameId) := StripInstallFields(gameData)]
    {
      var cleanData := StripInstallFields(gameData);
      gameInfoFiles := gameInfoFiles[GameInfoPath(drivePath, gameId) := cleanData];
    }

    method ClearDownloadingData()
      modifies this`globalCurrentDownloadProgress, this`downloading, this`downloadingPause, this`currentGameDownloadObject
      ensures globalCurrentDownloadProgress.None? && !downloading && !downloadingPause
      ensures currentGameDownloadObject.None?
    {
      globalCurrentDownloadProgress := None;
      downloading := false;
      downloadingPause := false;
      currentGameDownloadObject := None;
    }
  }
}
