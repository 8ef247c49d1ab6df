// The pure rules of the library window (src/public/scripts/library.js):
// grouping the game list by when each game was last played, the sort by
// last play date, the new/updated diff of the game watcher, the search
// filter, the role badge, the comment date buckets and the comment counter.
// Dates are parsed by a `parse` parameter standing for `new Date(text)`
// read through getTime/getFullYear/getMonth/getDate; `now` is Date.now().

module Library {
  import opened Common
  import Games

  type MonthIndex = m: int | 0 <= m < 12

  /** A parsed date: milliseconds since the epoch and its local calendar
      fields (`getMonth` counts from 0). */
  datatype DateFields = DateFields(time: int, year: int, month: MonthIndex, day: int)

  /** The fields of a game record the window reads; `lastPlayDate` is the
      stored text, None for null or a missing field. */
  datatype Game = Game(id: int, title: string, lastPlayDate: Option<string>, playtime: int, isInstalled: bool)

  const DayMs: int := 1000 * 60 * 60 * 24

  /** `game.lastPlayDate` is truthy. */
  predicate HasPlayDate(g: Game) {
    g.lastPlayDate.Some? && g.lastPlayDate.value != ""
  }

  function PlayDateOf(g: Game, parse: string -> DateFields): DateFields {
    parse(g.lastPlayDate.GetOr(""))
  }

  // ---------------------------------------------------------------------
  // A stable sort in descending order of a numeric key
  // ---------------------------------------------------------------------

  predicate SortedDesc<T>(s: seq<T>, key: T -> int) {
    forall i, j :: 0 <= i < j < |s| ==> key(s[i]) >= key(s[j])
  }

  /** Inserts `x` after every element whose key is at least its own. */
  function Insert<T>(x: T, s: seq<T>, key: T -> int): seq<T> {
    if s == [] then [x]
    else if key(s[0]) >= key(x) then [s[0]] + Insert(x, s[1..], key)
    else [x] + s
  }

  /** `Array.prototype.sort` with the comparator `(a, b) => key(b) - key(a)`:
      insertion sort, which keeps equal keys in their original order as
      the stable sort of the engine does. */
  function SortDesc<T>(s: seq<T>, key: T -> int): seq<T> {
    if s == [] then []
    else Insert(s[|s| - 1], SortDesc(s[..|s| - 1], key), key)
  }

  lemma {:induction false} InsertSorted<T>(x: T, s: seq<T>, key: T -> int)
    requires SortedDesc(s, key)
    ensures SortedDesc(Insert(x, s, key), key)
  {
    if s != [] && key(s[0]) >= key(x) {
      InsertSorted(x, s[1..], key);
      var t := Insert(x, s[1..], key);
      forall j | 0 <= j < |t|
        ensures key(s[0]) >= key(t[j])
      {
        InsertMember(x, s[1..], key, t[j]);
        if t[j] != x {
          var k :| 0 <= k < |s[1..]| && s[1..][k] == t[j];
          assert s[k + 1] == t[j];
        }
      }
    }
  }

  lemma InsertMember<T>(x: T, s: seq<T>, key: T -> int, y: T)
    requires y in Insert(x, s, key)
    ensures y == x || y in s
  {
    InsertMembers(x, s, key);
  }

  lemma {:induction false} InsertCount<T>(x: T, s: seq<T>, key: T -> int)
    ensures multiset(Insert(x, s, key)) == multiset(s) + multiset{x}
  {
    if s != [] && key(s[0]) >= key(x) {
      InsertCount(x, s[1..], key);
      assert s == [s[0]] + s[1..];
    }
  }

  /** The sort orders by the key, descending, and keeps every element
      with its multiplicity. */
  lemma {:induction false} SortDescSpec<T>(s: seq<T>, key: T -> int)
    ensures SortedDesc(SortDesc(s, key), key)
    ensures multiset(SortDesc(s, key)) == multiset(s)
  {
    if s != [] {
      var init := s[..|s| - 1];
      SortDescSpec(init, key);
      InsertSorted(s[|s| - 1], SortDesc(init, key), key);
      InsertCount(s[|s| - 1], SortDesc(init, key), key);
      assert s == init + [s[|s| - 1]];
    }
  }

  /** Sorting a list without repeats gives a list without repeats. */
  lemma {:induction false} SortDescDistinct<T>(s: seq<T>, key: T -> int)
    requires NoDuplicates(s)
    ensures NoDuplicates(SortDesc(s, key))
  {
    if s != [] {
      var init := s[..|s| - 1];
      var x := s[|s| - 1];
      SortDescDistinct(init, key);
      SortDescSpec(init, key);
      assert x !in init;
      assert x !in multiset(SortDesc(init, key));
      InsertDistinct(x, SortDesc(init, key), key);
    }
  }

  lemma {:induction false} InsertDistinct<T>(x: T, s: seq<T>, key: T -> int)
    requires NoDuplicates(s) && x !in s
    ensures NoDuplicates(Insert(x, s, key))
  {
    if s != [] && key(s[0]) >= key(x) {
      InsertDistinct(x, s[1..], key);
      var t := Insert(x, s[1..], key);
      InsertMembers(x, s[1..], key);
      assert s[0] !in s[1..];
      assert s[0] !in t;
    }
  }

  lemma {:induction false} InsertMembers<T>(x: T, s: seq<T>, key: T -> int)
    ensures forall y :: y in Insert(x, s, key) <==> y == x || y in s
  {
    if s != [] && key(s[0]) >= key(x) {
      InsertMembers(x, s[1..], key);
      assert s == [s[0]] + s[1..];
    }
  }

  // ---------------------------------------------------------------------
  // groupGamesByPeriod
  // ---------------------------------------------------------------------

  /** The key of a group in the object groupGamesByPeriod returns:
      'recent', a `${year}-${month}` key, or 'no-data'. */
  datatype GroupKey = Recent | Month(text: string) | NoData

  datatype Group = Group(key: GroupKey, title: string, games: seq<Game>)

  const RecentTitle := "Недавнее"
  const NoDataTitle := "Нет данных"
  const MonthNames: seq<string> := ["Январь", "Февраль", "Март", "Апрель", "Май", "Июнь",
                                    "Июль", "Август", "Сентябрь", "Октябрь", "Ноябрь", "Декабрь"]

  function MonthKeyText(d: DateFields): string {
    IntToString(d.year) + "-" + IntToString(d.month)
  }

  function MonthTitle(d: DateFields): string {
    MonthNames[d.month] + " " + IntToString(d.year)
  }

  /** The group a game goes to: no date, played within the last 30 whole
      days, or the month it was last played in. */
  function KeyOf(g: Game, now: int, parse: string -> DateFields): (k: GroupKey)
    ensures k == NoData <==> !HasPlayDate(g)
  {
    if !HasPlayDate(g) then NoData
    else
      var d := PlayDateOf(g, parse);
      if (now - d.time) / DayMs <= 30 then Recent else Month(MonthKeyText(d))
  }

  /** The games of one group, in list order. */
  function InGroup(games: seq<Game>, key: GroupKey, now: int, parse: string -> DateFields): (r: seq<Game>)
    ensures forall g :: g in r ==> g in games && KeyOf(g, now, parse) == key
    decreases |games|
  {
    if games == [] then []
    else
      var init := InGroup(games[..|games| - 1], key, now, parse);
      var g := games[|games| - 1];
      if KeyOf(g, now, parse) == key then init + [g] else init
  }

  lemma {:induction false} InGroupMembers(games: seq<Game>, key: GroupKey, now: int, parse: string -> DateFields)
    ensures forall g :: g in InGroup(games, key, now, parse) <==> g in games && KeyOf(g, now, parse) == key
    decreases |games|
  {
    if games != [] {
      InGroupMembers(games[..|games| - 1], key, now, parse);
      assert games == games[..|games| - 1] + [games[|games| - 1]];
    }
  }

  /** An entry of `monthGroups`: the title and date come from the first
      game put into it. */
  datatype MonthGroup = MonthGroup(title: string, games: seq<Game>, date: int)

  /** The arrays and the object the forEach builds. */
  datatype Acc = Acc(recent: seq<Game>, monthOrder: seq<string>, months: map<string, MonthGroup>, noData: seq<Game>)

  /** One forEach step. `monthOrder` is the insertion order of the keys of
      `monthGroups`, which Object.entries follows (no key is an array
      index: each has a '-' after its first character). */
  function Step(acc: Acc, g: Game, now: int, parse: string -> DateFields): Acc {
    match KeyOf(g, now, parse)
    case NoData => acc.(noData := acc.noData + [g])
    case Recent => acc.(recent := acc.recent + [g])
    case Month(key) => AddToMonth(acc, key, PlayDateOf(g, parse), g)
  }

  /** Creates the month entry on the first game of the month, then pushes
      the game. */
  function AddToMonth(acc: Acc, key: string, d: DateFields, g: Game): (r: Acc)
    ensures r.recent == acc.recent && r.noData == acc.noData
    ensures key in acc.months ==>
              r.monthOrder == acc.monthOrder && r.months == acc.months[key := acc.months[key].(games := acc.months[key].games + [g])]
    ensures key !in acc.months ==>
              r.monthOrder == acc.monthOrder + [key] && r.months == acc.months[key := MonthGroup(MonthTitle(d), [g], d.time)]
  {
    var a := if key in acc.months then acc
             else acc.(monthOrder := acc.monthOrder + [key], months := acc.months[key := MonthGroup(MonthTitle(d), [], d.time)]);
    var empty: seq<Game> := [];
    assert empty + [g] == [g];
    a.(months := a.months[key := a.months[key].(games := a.months[key].games + [g])])
  }

  /** The forEach over the whole list. */
  function Collect(games: seq<Game>, now: int, parse: string -> DateFields): (acc: Acc)
    ensures forall k :: k in acc.monthOrder ==> k in acc.months
    decreases |games|
  {
    if games == [] then Acc([], [], map[], [])
    else Step(Collect(games[..|games| - 1], now, parse), games[|games| - 1], now, parse)
  }

  /** The month group built for the games of one month key. */
  function MonthGroupOf(gs: seq<Game>, parse: string -> DateFields): MonthGroup
    requires gs != []
  {
    MonthGroup(MonthTitle(PlayDateOf(gs[0], parse)), gs, PlayDateOf(gs[0], parse).time)
  }

  ghost predicate Collected(acc: Acc, games: seq<Game>, now: int, parse: string -> DateFields) {
    && acc.recent == InGroup(games, Recent, now, parse)
    && acc.noData == InGroup(games, NoData, now, parse)
    && MonthKeysOk(acc, games, now, parse)
    && MonthValuesOk(acc, games, now, parse)
  }

  /** One key per month that has games, in a list without repeats. */
  ghost predicate MonthKeysOk(acc: Acc, games: seq<Game>, now: int, parse: string -> DateFields) {
    && NoDuplicates(acc.monthOrder)
    && (forall k :: k in acc.months <==> k in acc.monthOrder)
    && (forall k :: k in acc.months <==> InGroup(games, Month(k), now, parse) != [])
  }

  ghost predicate MonthValuesOk(acc: Acc, games: seq<Game>, now: int, parse: string -> DateFields) {
    forall k :: k in acc.months ==> InGroup(games, Month(k), now, parse) != [] &&
                                    acc.months[k] == MonthGroupOf(InGroup(games, Month(k), now, parse), parse)
  }

  lemma InGroupSnoc(games: seq<Game>, g: Game, key: GroupKey, now: int, parse: string -> DateFields)
    ensures InGroup(games + [g], key, now, parse) ==
            InGroup(games, key, now, parse) + (if KeyOf(g, now, parse) == key then [g] else [])
  {
    assert (games + [g])[..|games|] == games;
  }

  lemma CollectStep(acc: Acc, games: seq<Game>, g: Game, now: int, parse: string -> DateFields)
    requires Collected(acc, games, now, parse)
    ensures Collected(Step(acc, g, now, parse), games + [g], now, parse)
  {
    InGroupSnoc(games, g, Recent, now, parse);
    InGroupSnoc(games, g, NoData, now, parse);
    match KeyOf(g, now, parse)
    case NoData =>
      InGroupSnocOther(games, g, now, parse);
    case Recent =>
      InGroupSnocOther(games, g, now, parse);
    case Month(key) =>
      var d := PlayDateOf(g, parse);
      InGroupSnocMonth(games, g, key, now, parse);
      if key in acc.months {
        OldMonthKeys(acc, games, g, key, d, now, parse);
        OldMonthValues(acc, games, g, key, d, now, parse);
      } else {
        NewMonthKeys(acc, games, g, key, d, now, parse);
        NewMonthValues(acc, games, g, key, d, now, parse);
      }
  }

  /** A game that goes to no month leaves every month's games as they were. */
  lemma InGroupSnocOther(games: seq<Game>, g: Game, now: int, parse: string -> DateFields)
    requires !KeyOf(g, now, parse).Month?
    ensures forall k :: InGroup(games + [g], Month(k), now, parse) == InGroup(games, Month(k), now, parse)
  {
    forall k
      ensures InGroup(games + [g], Month(k), now, parse) == InGroup(games, Month(k), now, parse)
    {
      InGroupSnoc(games, g, Month(k), now, parse);
    }
  }

  /** A game of month `key` leaves every other month's games as they were. */
  lemma InGroupSnocMonth(games: seq<Game>, g: Game, key: string, now: int, parse: string -> DateFields)
    requires KeyOf(g, now, parse) == Month(key)
    ensures InGroup(games + [g], Month(key), now, parse) == InGroup(games, Month(key), now, parse) + [g]
    ensures forall k :: k != key ==> InGroup(games + [g], Month(k), now, parse) == InGroup(games, Month(k), now, parse)
  {
    InGroupSnoc(games, g, Month(key), now, parse);
    forall k | k != key
      ensures InGroup(games + [g], Month(k), now, parse) == InGroup(games, Month(k), now, parse)
    {
      InGroupSnoc(games, g, Month(k), now, parse);
    }
  }

  lemma OldMonthKeys(acc: Acc, games: seq<Game>, g: Game, key: string, d: DateFields, now: int, parse: string -> DateFields)
    requires MonthKeysOk(acc, games, now, parse) && key in acc.months
    requires InGroup(games + [g], Month(key), now, parse) == InGroup(games, Month(key), now, parse) + [g]
    requires forall k :: k != key ==> InGroup(games + [g], Month(k), now, parse) == InGroup(games, Month(k), now, parse)
    ensures MonthKeysOk(AddToMonth(acc, key, d, g), games + [g], now, parse)
  {
  }

  lemma OldMonthValues(acc: Acc, games: seq<Game>, g: Game, key: string, d: DateFields, now: int, parse: string -> DateFields)
    requires MonthValuesOk(acc, games, now, parse) && key in acc.months
    requires InGroup(games + [g], Month(key), now, parse) == InGroup(games, Month(key), now, parse) + [g]
    requires forall k :: k != key ==> InGroup(games + [g], Month(k), now, parse) == InGroup(games, Month(k), now, parse)
    ensures MonthValuesOk(AddToMonth(acc, key, d, g), games + [g], now, parse)
  {
    var gs := InGroup(games, Month(key), now, parse);
    assert (gs + [g])[0] == gs[0];
  }

  lemma NewMonthKeys(acc: Acc, games: seq<Game>, g: Game, key: string, d: DateFields, now: int, parse: string -> DateFields)
    requires MonthKeysOk(acc, games, now, parse) && key !in acc.months
    requires InGroup(games + [g], Month(key), now, parse) == InGroup(games, Month(key), now, parse) + [g]
    requires forall k :: k != key ==> InGroup(games + [g], Month(k), now, parse) == InGroup(games, Month(k), now, parse)
    ensures MonthKeysOk(AddToMonth(acc, key, d, g), games + [g], now, parse)
  {
    assert key !in acc.monthOrder;
  }

  lemma NewMonthValues(acc: Acc, games: seq<Game>, g: Game, key: string, d: DateFields, now: int, parse: string -> DateFields)
    requires MonthKeysOk(acc, games, now, parse) && MonthValuesOk(acc, games, now, parse) && key !in acc.months
    requires d == PlayDateOf(g, parse)
    requires InGroup(games + [g], Month(key), now, parse) == InGroup(games, Month(key), now, parse) + [g]
    requires forall k :: k != key ==> InGroup(games + [g], Month(k), now, parse) == InGroup(games, Month(k), now, parse)
    ensures MonthValuesOk(AddToMonth(acc, key, d, g), games + [g], now, parse)
  {
    var r := AddToMonth(acc, key, d, g);
    forall k | k in r.months
      ensures InGroup(games + [g], Month(k), now, parse) != [] &&
              r.months[k] == MonthGroupOf(InGroup(games + [g], Month(k), now, parse), parse)
    {
      if k == key {
        var empty: seq<Game> := [];
        assert InGroup(games, Month(key), now, parse) == empty;
        assert InGroup(games + [g], Month(k), now, parse) == [g] by {
          assert empty + [g] == [g];
        }
      } else {
        assert k in acc.months;
      }
    }
  }

  /** What the forEach builds: the recent and no-data games in list
      order, and one entry per month key, in order of first appearance,
      holding that month's games with the title and date of the first. */
  lemma {:induction false} CollectSpec(games: seq<Game>, now: int, parse: string -> DateFields)
    ensures Collected(Collect(games, now, parse), games, now, parse)
    decreases |games|
  {
    if games != [] {
      var init := games[..|games| - 1];
      CollectSpec(init, now, parse);
      CollectStep(Collect(init, now, parse), init, games[|games| - 1], now, parse);
      assert init + [games[|games| - 1]] == games;
    }
  }

  function EntryDate(e: (string, MonthGroup)): int {
    e.1.date
  }

  /** `Object.entries(monthGroups)`. */
  function Entries(order: seq<string>, months: map<string, MonthGroup>): (r: seq<(string, MonthGroup)>)
    requires forall k :: k in order ==> k in months
    ensures |r| == |order| && forall i :: 0 <= i < |r| ==> r[i] == (order[i], months[order[i]])
  {
    seq(|order|, i requires 0 <= i < |order| => (order[i], months[order[i]]))
  }

  function MonthGroupList(sorted: seq<(string, MonthGroup)>): (r: seq<Group>)
    ensures |r| == |sorted| && forall i :: 0 <= i < |r| ==> r[i] == Group(Month(sorted[i].0), sorted[i].1.title, sorted[i].1.games)
  {
    seq(|sorted|, i requires 0 <= i < |sorted| => Group(Month(sorted[i].0), sorted[i].1.title, sorted[i].1.games))
  }

  lemma MonthGroupListSnoc(s: seq<(string, MonthGroup)>, e: (string, MonthGroup))
    ensures MonthGroupList(s + [e]) == MonthGroupList(s) + [Group(Month(e.0), e.1.title, e.1.games)]
  {
    var a, b := MonthGroupList(s + [e]), MonthGroupList(s) + [Group(Month(e.0), e.1.title, e.1.games)];
    assert |a| == |b|;
    assert forall i :: 0 <= i < |a| ==> a[i] == b[i];
  }

  /** `Object.entries(monthGroups).sort((a, b) => b[1].date - a[1].date)`. */
  function SortedMonths(acc: Acc): seq<(string, MonthGroup)>
    requires forall k :: k in acc.monthOrder ==> k in acc.months
  {
    SortDesc(Entries(acc.monthOrder, acc.months), EntryDate)
  }

  /** The object groupGamesByPeriod returns, as its entries in key order:
      'recent' if any game is recent, the month groups by descending date,
      'no-data' if any game has no date. */
  function Assemble(acc: Acc): seq<Group>
    requires forall k :: k in acc.monthOrder ==> k in acc.months
  {
    (if acc.recent != [] then [Group(Recent, RecentTitle, acc.recent)] else [])
    + MonthGroupList(SortedMonths(acc))
    + (if acc.noData != [] then [Group(NoData, NoDataTitle, acc.noData)] else [])
  }

  function GroupsOf(games: seq<Game>, now: int, parse: string -> DateFields): seq<Group> {
    Assemble(Collect(games, now, parse))
  }

  /** The forEach of groupGamesByPeriod. */
  method CollectByPeriod(games: seq<Game>, now: int, parse: string -> DateFields)
    returns (recent: seq<Game>, monthOrder: seq<string>, monthGroups: map<string, MonthGroup>, noData: seq<Game>)
    ensures Acc(recent, monthOrder, monthGroups, noData) == Collect(games, now, parse)
  {
    recent, monthOrder, monthGroups, noData := [], [], map[], [];
    for i := 0 to |games|
      invariant Acc(recent, monthOrder, monthGroups, noData) == Collect(games[..i], now, parse)
    {
      var game := games[i];
      assert games[..i + 1][..i] == games[..i];
      ghost var next := Step(Acc(recent, monthOrder, monthGroups, noData), game, now, parse);
      assert Collect(games[..i + 1], now, parse) == next;
      if !HasPlayDate(game) {
        noData := noData + [game];
      } else {
        var playDate := PlayDateOf(game, parse);
        if (now - playDate.time) / DayMs <= 30 {
          recent := recent + [game];
        } else {
          assert KeyOf(game, now, parse) == Month(MonthKeyText(playDate));
          var monthKey := MonthKeyText(playDate);
          if monthKey !in monthGroups {
            monthGroups := monthGroups[monthKey := MonthGroup(MonthTitle(playDate), [], playDate.time)];
            monthOrder := monthOrder + [monthKey];
          }
          monthGroups := monthGroups[monthKey := monthGroups[monthKey].(games := monthGroups[monthKey].games + [game])];
        }
      }
    }
    assert games[..|games|] == games;
  }

  /** `sortedMonths.forEach(([key, group]) => { groups[key] = ... })`. */
  method AddMonthGroups(groups0: seq<Group>, sortedMonths: seq<(string, MonthGroup)>) returns (groups: seq<Group>)
    ensures groups == groups0 + MonthGroupList(sortedMonths)
  {
    groups := groups0;
    for j := 0 to |sortedMonths|
      invariant groups == groups0 + MonthGroupList(sortedMonths[..j])
    {
      var entry := sortedMonths[j];
      assert sortedMonths[..j + 1] == sortedMonths[..j] + [entry];
      MonthGroupListSnoc(sortedMonths[..j], entry);
      groups := groups + [Group(Month(entry.0), entry.1.title, entry.1.games)];
    }
    assert sortedMonths[..|sortedMonths|] == sortedMonths;
  }

  /** groupGamesByPeriod. */
  method GroupGamesByPeriod(games: seq<Game>, now: int, parse: string -> DateFields) returns (groups: seq<Group>)
    ensures groups == GroupsOf(games, now, parse)
  {
    var recent, monthOrder, monthGroups, noData := CollectByPeriod(games, now, parse);
    groups := if recent != [] then [Group(Recent, RecentTitle, recent)] else [];
    var sortedMonths := SortDesc(Entries(monthOrder, monthGroups), EntryDate);
    groups := AddMonthGroups(groups, sortedMonths);
    if noData != [] {
      groups := groups + [Group(NoData, NoDataTitle, noData)];
    }
  }

  // ---------------------------------------------------------------------
  // What groupGamesByPeriod promises
  // ---------------------------------------------------------------------

  /** The sorted month entries: ordered by date, descending, one per
      month key, each holding that key's group. */
  lemma SortedEntriesSpec(order: seq<string>, months: map<string, MonthGroup>)
    requires NoDuplicates(order) && forall k :: k in months <==> k in order
    ensures var sm := SortDesc(Entries(order, months), EntryDate);
      && SortedDesc(sm, EntryDate)
      && (forall i :: 0 <= i < |sm| ==> sm[i].0 in months && sm[i].1 == months[sm[i].0])
      && (forall i, j :: 0 <= i < j < |sm| ==> sm[i].0 != sm[j].0)
      && (forall k :: k in months ==> exists i :: 0 <= i < |sm| && sm[i].0 == k)
  {
    var es := Entries(order, months);
    var sm := SortDesc(es, EntryDate);
    SortDescSpec(es, EntryDate);
    SortDescDistinct(es, EntryDate);
    forall i | 0 <= i < |sm|
      ensures sm[i].0 in months && sm[i].1 == months[sm[i].0]
    {
      assert sm[i] in multiset(es);
      var m :| 0 <= m < |es| && es[m] == sm[i];
    }
    forall k | k in months
      ensures exists i :: 0 <= i < |sm| && sm[i].0 == k
    {
      var m :| 0 <= m < |order| && order[m] == k;
      assert es[m] in multiset(sm);
      var i :| 0 <= i < |sm| && sm[i] == es[m];
    }
  }

  /** The games `Assemble` files under a key. */
  function GroupGames(acc: Acc, key: GroupKey): seq<Game> {
    match key
    case Recent => acc.recent
    case NoData => acc.noData
    case Month(k) => if k in acc.months then acc.months[k].games else []
  }

  function MonthDate(acc: Acc, key: GroupKey): int {
    if key.Month? && key.text in acc.months then acc.months[key.text].date else 0
  }

  ghost predicate AccOk(acc: Acc) {
    && NoDuplicates(acc.monthOrder)
    && (forall k :: k in acc.months <==> k in acc.monthOrder)
    && (forall k :: k in acc.months ==> acc.months[k].games != [])
  }

  /** Where an index of `a + b + c` points. */
  lemma Concat3At<T>(a: seq<T>, b: seq<T>, c: seq<T>, i: int)
    requires 0 <= i < |a| + |b| + |c|
    ensures (a + b + c)[i] == if i < |a| then a[i] else if i < |a| + |b| then b[i - |a|] else c[i - |a| - |b|]
  {
  }

  /** The group at index `i` of the assembled object. */
  lemma AssembleAt(acc: Acc, i: int)
    requires forall k :: k in acc.monthOrder ==> k in acc.months
    requires 0 <= i < |Assemble(acc)|
    ensures var r := if acc.recent != [] then 1 else 0;
      var sm := SortedMonths(acc);
      && |Assemble(acc)| == r + |sm| + (if acc.noData != [] then 1 else 0)
      && (i < r ==> Assemble(acc)[i] == Group(Recent, RecentTitle, acc.recent))
      && (r <= i < r + |sm| ==> Assemble(acc)[i] == Group(Month(sm[i - r].0), sm[i - r].1.title, sm[i - r].1.games))
      && (r + |sm| <= i ==> acc.noData != [] && Assemble(acc)[i] == Group(NoData, NoDataTitle, acc.noData))
  {
    var r := if acc.recent != [] then [Group(Recent, RecentTitle, acc.recent)] else [];
    var n := if acc.noData != [] then [Group(NoData, NoDataTitle, acc.noData)] else [];
    Concat3At(r, MonthGroupList(SortedMonths(acc)), n, i);
  }

  /** Every assembled group is non-empty and holds exactly the games of its key. */
  lemma AssembleGames(acc: Acc)
    requires AccOk(acc)
    ensures var groups := Assemble(acc);
      forall i :: 0 <= i < |groups| ==> groups[i].games != [] && groups[i].games == GroupGames(acc, groups[i].key)
  {
    SortedEntriesSpec(acc.monthOrder, acc.months);
    var groups := Assemble(acc);
    forall i | 0 <= i < |groups|
      ensures groups[i].games != [] && groups[i].games == GroupGames(acc, groups[i].key)
    {
      AssembleAt(acc, i);
    }
  }

  /** No key is assembled twice. */
  lemma AssembleDistinct(acc: Acc)
    requires AccOk(acc)
    ensures var groups := Assemble(acc);
      forall i, j :: 0 <= i < j < |groups| ==> groups[i].key != groups[j].key
  {
    SortedEntriesSpec(acc.monthOrder, acc.months);
    var groups := Assemble(acc);
    forall i, j | 0 <= i < j < |groups|
      ensures groups[i].key != groups[j].key
    {
      AssembleAt(acc, i);
      AssembleAt(acc, j);
    }
  }

  /** Every key with games gets a group. */
  lemma AssembleCovers(acc: Acc)
    requires AccOk(acc)
    ensures var groups := Assemble(acc);
      forall key :: GroupGames(acc, key) != [] ==> exists i :: 0 <= i < |groups| && groups[i].key == key
  {
    var sm := SortedMonths(acc);
    SortedEntriesSpec(acc.monthOrder, acc.months);
    var r := if acc.recent != [] then 1 else 0;
    var groups := Assemble(acc);
    forall key | GroupGames(acc, key) != []
      ensures exists i :: 0 <= i < |groups| && groups[i].key == key
    {
      match key
      case Recent =>
        AssembleAt(acc, 0);
      case NoData =>
        AssembleAt(acc, |groups| - 1);
      case Month(k) =>
        var i :| 0 <= i < |sm| && sm[i].0 == k;
        AssembleAt(acc, r + i);
    }
  }

  /** 'recent' comes first, 'no-data' last, and the month groups by the
      date of their first game, latest first. */
  lemma AssembleOrder(acc: Acc)
    requires AccOk(acc)
    ensures var groups := Assemble(acc);
      && (forall i :: 0 <= i < |groups| && groups[i].key == Recent ==> i == 0)
      && (forall i :: 0 <= i < |groups| && groups[i].key == NoData ==> i == |groups| - 1)
      && (forall i, j :: 0 <= i < j < |groups| && groups[i].key.Month? && groups[j].key.Month? ==>
            MonthDate(acc, groups[i].key) >= MonthDate(acc, groups[j].key))
  {
    var sm := SortedMonths(acc);
    SortedEntriesSpec(acc.monthOrder, acc.months);
    var r := if acc.recent != [] then 1 else 0;
    var groups := Assemble(acc);
    forall i | 0 <= i < |groups|
      ensures groups[i].key == Recent ==> i == 0
      ensures groups[i].key == NoData ==> i == |groups| - 1
    {
      AssembleAt(acc, i);
    }
    forall i, j | 0 <= i < j < |groups| && groups[i].key.Month? && groups[j].key.Month?
      ensures MonthDate(acc, groups[i].key) >= MonthDate(acc, groups[j].key)
    {
      AssembleAt(acc, i);
      AssembleAt(acc, j);
      assert EntryDate(sm[i - r]) >= EntryDate(sm[j - r]);
    }
  }

  /** Each group carries the title of its key: the fixed ones for 'recent'
      and 'no-data', the stored month title otherwise. */
  lemma AssembleTitles(acc: Acc)
    requires AccOk(acc)
    ensures var groups := Assemble(acc);
      forall i :: 0 <= i < |groups| ==>
        && (groups[i].key == Recent ==> groups[i].title == RecentTitle)
        && (groups[i].key == NoData ==> groups[i].title == NoDataTitle)
        && (groups[i].key.Month? ==> groups[i].key.text in acc.months && groups[i].title == acc.months[groups[i].key.text].title)
  {
    SortedEntriesSpec(acc.monthOrder, acc.months);
    var groups := Assemble(acc);
    forall i | 0 <= i < |groups|
      ensures groups[i].key == Recent ==> groups[i].title == RecentTitle
      ensures groups[i].key == NoData ==> groups[i].title == NoDataTitle
      ensures groups[i].key.Month? ==> groups[i].key.text in acc.months && groups[i].title == acc.months[groups[i].key.text].title
    {
      AssembleAt(acc, i);
    }
  }

  /** What the forEach collected, read per key: the accumulator is well
      formed, each key holds the games of that key in list order, and a
      month entry keeps the title and date of its first game. */
  lemma CollectedGroups(games: seq<Game>, now: int, parse: string -> DateFields)
    ensures var acc := Collect(games, now, parse);
      && AccOk(acc)
      && (forall key :: GroupGames(acc, key) == InGroup(games, key, now, parse))
      && (forall k :: k in acc.months ==>
            && acc.months[k].title == MonthTitle(PlayDateOf(acc.months[k].games[0], parse))
            && acc.months[k].date == PlayDateOf(acc.months[k].games[0], parse).time)
  {
    var acc := Collect(games, now, parse);
    CollectSpec(games, now, parse);
    forall key
      ensures GroupGames(acc, key) == InGroup(games, key, now, parse)
    {
      if key.Month? && key.text !in acc.months {
        assert InGroup(games, Month(key.text), now, parse) == [];
      }
    }
  }

  // ---------------------------------------------------------------------
  // The same promises, stated over the game list
  // ---------------------------------------------------------------------

  /** Every group returned is non-empty and holds exactly the games whose
      key is its own, in list order. */
  lemma GroupsContents(games: seq<Game>, now: int, parse: string -> DateFields)
    ensures var groups := GroupsOf(games, now, parse);
      forall i :: 0 <= i < |groups| ==> groups[i].games != [] && groups[i].games == InGroup(games, groups[i].key, now, parse)
  {
    CollectedGroups(games, now, parse);
    AssembleGames(Collect(games, now, parse));
  }

  /** No key appears twice. */
  lemma GroupsDistinct(games: seq<Game>, now: int, parse: string -> DateFields)
    ensures var groups := GroupsOf(games, now, parse);
      forall i, j :: 0 <= i < j < |groups| ==> groups[i].key != groups[j].key
  {
    CollectedGroups(games, now, parse);
    AssembleDistinct(Collect(games, now, parse));
  }

  /** Every game of the list is in the group of its own key and in no
      other group. */
  lemma GroupsCover(games: seq<Game>, now: int, parse: string -> DateFields, g: Game)
    requires g in games
    ensures var groups := GroupsOf(games, now, parse);
      && (exists i :: 0 <= i < |groups| && groups[i].key == KeyOf(g, now, parse))
      && (forall i :: 0 <= i < |groups| ==> (g in groups[i].games <==> groups[i].key == KeyOf(g, now, parse)))
  {
    var acc := Collect(games, now, parse);
    var groups := GroupsOf(games, now, parse);
    var key := KeyOf(g, now, parse);
    CollectedGroups(games, now, parse);
    GroupsContents(games, now, parse);
    InGroupMembers(games, key, now, parse);
    assert GroupGames(acc, key) != [];
    AssembleCovers(acc);
    forall i | 0 <= i < |groups|
      ensures g in groups[i].games <==> groups[i].key == key
    {
      InGroupMembers(games, groups[i].key, now, parse);
    }
  }

  /** The titles: 'Недавнее', 'Нет данных', and for a month group the
      month name and year of its first game, whose month is the group's key. */
  lemma GroupsTitles(games: seq<Game>, now: int, parse: string -> DateFields)
    ensures var groups := GroupsOf(games, now, parse);
      forall i :: 0 <= i < |groups| ==>
        && groups[i].games != []
        && (groups[i].key == Recent ==> groups[i].title == RecentTitle)
        && (groups[i].key == NoData ==> groups[i].title == NoDataTitle)
        && (groups[i].key.Month? ==>
              && groups[i].title == MonthTitle(PlayDateOf(groups[i].games[0], parse))
              && groups[i].key.text == MonthKeyText(PlayDateOf(groups[i].games[0], parse)))
  {
    var acc := Collect(games, now, parse);
    var groups := GroupsOf(games, now, parse);
    CollectedGroups(games, now, parse);
    AssembleTitles(acc);
    AssembleGames(acc);
    forall i | 0 <= i < |groups| && groups[i].key.Month?
      ensures groups[i].key.text == MonthKeyText(PlayDateOf(groups[i].games[0], parse))
    {
      var first := groups[i].games[0];
      assert first in InGroup(games, groups[i].key, now, parse);
    }
  }

  /** 'recent' comes first, 'no-data' last, and month groups follow the
      play date of their first game, latest first. */
  lemma GroupsOrder(games: seq<Game>, now: int, parse: string -> DateFields)
    ensures var groups := GroupsOf(games, now, parse);
      && (forall i :: 0 <= i < |groups| && groups[i].key == Recent ==> i == 0)
      && (forall i :: 0 <= i < |groups| && groups[i].key == NoData ==> i == |groups| - 1)
      && (forall i :: 0 <= i < |groups| ==> groups[i].games != [])
      && (forall i, j :: 0 <= i < j < |groups| && groups[i].key.Month? && groups[j].key.Month? ==>
            PlayDateOf(groups[i].games[0], parse).time >= PlayDateOf(groups[j].games[0], parse).time)
  {
    var acc := Collect(games, now, parse);
    CollectedGroups(games, now, parse);
    AssembleOrder(acc);
    AssembleGames(acc);
  }

  // ---------------------------------------------------------------------
  // The order of the game list
  // ---------------------------------------------------------------------

  /** The sort key: the play date, or `new Date(0)` when there is none. */
  function SortTime(g: Game, parse: string -> DateFields): int {
    if HasPlayDate(g) then PlayDateOf(g, parse).time else 0
  }

  function SortKey(parse: string -> DateFields): Game -> int {
    g => SortTime(g, parse)
  }

  /** `games.sort((a, b) => dateB - dateA)`: the same games, latest play
      first. */
  function SortByLastPlay(games: seq<Game>, parse: string -> DateFields): (r: seq<Game>)
    ensures SortedDesc(r, SortKey(parse))
    ensures multiset(r) == multiset(games)
  {
    SortDescSpec(games, SortKey(parse));
    SortDesc(games, SortKey(parse))
  }

  // ---------------------------------------------------------------------
  // The diff of the game watcher
  // ---------------------------------------------------------------------

  /** `list.find(g => g.id === id)`: the first game with that id. */
  function FindById(games: seq<Game>, id: int): (r: Option<Game>)
    ensures r.None? <==> forall g :: g in games ==> g.id != id
    ensures r.Some? ==> exists i :: 0 <= i < |games| && games[i] == r.value && r.value.id == id &&
                                    forall j :: 0 <= j < i ==> games[j].id != id
  {
    if games == [] then None
    else if games[0].id == id then Some(games[0])
    else
      var r := FindById(games[1..], id);
      if r.Some? then
        var i :| 0 <= i < |games[1..]| && games[1..][i] == r.value && r.value.id == id &&
                 forall j :: 0 <= j < i ==> games[1..][j].id != id;
        assert games[i + 1] == r.value;
        r
      else
        assert forall g :: g in games[1..] ==> g.id != id;
        r
  }

  /** One of the fields the watcher compares differs (`!==` on each). */
  predicate Changed(known: Game, g: Game) {
    known.lastPlayDate != g.lastPlayDate || known.playtime != g.playtime || known.isInstalled != g.isInstalled
  }

  predicate IsNew(known: seq<Game>, g: Game) {
    FindById(known, g.id).None?
  }

  predicate IsUpdated(known: seq<Game>, g: Game) {
    var e := FindById(known, g.id);
    e.Some? && Changed(e.value, g)
  }

  /** `games.filter(game => !state.games.find(g => g.id === game.id))`. */
  function NewGames(latest: seq<Game>, known: seq<Game>): (r: seq<Game>)
    ensures forall g :: g in r <==> g in latest && forall k :: k in known ==> k.id != g.id
  {
    Filter(latest, g => IsNew(known, g))
  }

  /** The games whose id is known and whose first known record differs in
      lastPlayDate, playtime or isInstalled. */
  function UpdatedGames(latest: seq<Game>, known: seq<Game>): (r: seq<Game>)
    ensures forall g :: g in r <==> g in latest && IsUpdated(known, g)
  {
    Filter(latest, g => IsUpdated(known, g))
  }

  /** The watcher redraws when a game is new or updated. */
  predicate WatcherRefreshes(latest: seq<Game>, known: seq<Game>) {
    |NewGames(latest, known)| > 0 || |UpdatedGames(latest, known)| > 0
  }

  /** A game is never both new and updated. */
  lemma NewAndUpdatedDisjoint(latest: seq<Game>, known: seq<Game>, g: Game)
    ensures !(g in NewGames(latest, known) && g in UpdatedGames(latest, known))
  {
  }

  /** The watcher stays quiet exactly when every game of the new list is
      known under its id with the same three watched fields. */
  lemma WatcherQuiet(latest: seq<Game>, known: seq<Game>)
    ensures !WatcherRefreshes(latest, known) <==>
            forall g :: g in latest ==> FindById(known, g.id).Some? && !Changed(FindById(known, g.id).value, g)
  {
    var n, u := NewGames(latest, known), UpdatedGames(latest, known);
    if n != [] {
      assert n[0] in n;
    }
    if u != [] {
      assert u[0] in u;
    }
  }

  /** A game that disappeared from the library, or a change to a field the
      watcher does not compare (the title, say), does not redraw the list. */
  lemma RemovalNotNoticed(latest: seq<Game>, known: seq<Game>)
    requires forall g :: g in latest ==> exists k :: k in known && k.id == g.id
    requires forall g :: g in latest ==> !Changed(FindById(known, g.id).value, g)
    ensures !WatcherRefreshes(latest, known)
  {
    WatcherQuiet(latest, known);
  }

  // ---------------------------------------------------------------------
  // The search filter
  // ---------------------------------------------------------------------

  /** `isVisible`: no search term, or the lower-cased title contains the
      lower-cased term. */
  predicate Visible(term: string, g: Game) {
    term == "" || Includes(ToLower(g.title), ToLower(term))
  }

  function VisibleTest(term: string): Game -> bool {
    g => Visible(term, g)
  }

  /** `filteredGames`: the list itself without a term, else the games whose
      lower-cased title contains the lower-cased term; either way the visible
      games in list order. */
  function FilterGames(term: string, games: seq<Game>): (r: seq<Game>)
    ensures forall g :: g in r <==> g in games && Visible(term, g)
    ensures KeptInOrder(r, games, VisibleTest(term))
    ensures term == "" ==> r == games
  {
    if term == "" then
      FilterAll(games, VisibleTest(term));
      games
    else Filter(games, VisibleTest(term))
  }

  /** An empty term shows the whole list, in its order. */
  lemma EmptySearchShowsAll(games: seq<Game>)
    ensures FilterGames("", games) == games
    ensures forall g :: Visible("", g)
  {
  }

  /** The search does not depend on the case of the term or of the title. */
  lemma SearchIgnoresCase(term: string, g: Game)
    ensures Visible(ToLower(term), g) == Visible(term, g)
    ensures Visible(term, g.(title := ToLower(g.title))) == Visible(term, g)
  {
    ToLowerIdempotent(term);
    ToLowerIdempotent(g.title);
    assert |ToLower(term)| == |term|;
  }

  // ---------------------------------------------------------------------
  // The role badge
  // ---------------------------------------------------------------------

  /** The roles with a badge, highest first. */
  const RoleHierarchy: seq<string> := ["administrator", "manager", "moderator", "premium"]

  /** getUserRoleClass: None stands for a value that is not a string. The
      class of the highest role named anywhere in the lower-cased text,
      or the empty string. */
  function UserRoleClass(roleString: Option<string>): (r: string)
    ensures roleString.None? ==> r == ""
    ensures r == "" <==> roleString.None? || forall k :: 0 <= k < |RoleHierarchy| ==> !Includes(ToLower(roleString.value), RoleHierarchy[k])
    ensures r != "" ==>
              && roleString.Some?
              && exists k :: 0 <= k < |RoleHierarchy| && r == "role-" + RoleHierarchy[k] &&
                             Includes(ToLower(roleString.value), RoleHierarchy[k]) &&
                             forall j :: 0 <= j < k ==> !Includes(ToLower(roleString.value), RoleHierarchy[j])
  {
    if roleString.None? || roleString.value == "" then ""
    else
      var roles := ToLower(roleString.value);
      if Includes(roles, RoleHierarchy[0]) then "role-" + RoleHierarchy[0]
      else if Includes(roles, RoleHierarchy[1]) then "role-" + RoleHierarchy[1]
      else if Includes(roles, RoleHierarchy[2]) then "role-" + RoleHierarchy[2]
      else if Includes(roles, RoleHierarchy[3]) then "role-" + RoleHierarchy[3]
      else ""
  }

  // ---------------------------------------------------------------------
  // The age of a comment
  // ---------------------------------------------------------------------

  const MinuteMs: int := 1000 * 60
  const HourMs: int := 1000 * 60 * 60
  const WeekMs: int := 7 * DayMs

  const ShortMonthNames: seq<string> := ["янв", "фев", "мар", "апр", "май", "июн",
                                         "июл", "авг", "сен", "окт", "ноя", "дек"]

  /** What formatCommentDate shows. */
  datatype CommentAge =
    | Unknown
    | JustNow
    | MinutesAgo(minutes: int)
    | HoursAgo(hours: int)
    | DaysAgo(days: int)
    | OnDate(day: int, month: MonthIndex)

  /** The bucket of a comment written `diffMs` milliseconds ago on `date`.
      Math.floor of the quotient is Dafny's `/` for a positive divisor. */
  function AgeBucket(diffMs: int, date: DateFields): (r: CommentAge)
    ensures r != Unknown
    ensures r == JustNow <==> diffMs < MinuteMs
    ensures r.MinutesAgo? <==> MinuteMs <= diffMs < HourMs
    ensures r.HoursAgo? <==> HourMs <= diffMs < DayMs
    ensures r.DaysAgo? <==> DayMs <= diffMs < WeekMs
    ensures r.OnDate? <==> WeekMs <= diffMs
    ensures r.MinutesAgo? ==> 1 <= r.minutes < 60 && r.minutes * MinuteMs <= diffMs < (r.minutes + 1) * MinuteMs
    ensures r.HoursAgo? ==> 1 <= r.hours < 24 && r.hours * HourMs <= diffMs < (r.hours + 1) * HourMs
    ensures r.DaysAgo? ==> 1 <= r.days < 7 && r.days * DayMs <= diffMs < (r.days + 1) * DayMs
    ensures r.OnDate? ==> r.day == date.day && r.month == date.month
  {
    var diffMins := diffMs / MinuteMs;
    var diffHours := diffMs / HourMs;
    var diffDays := diffMs / DayMs;
    if diffMins < 1 then JustNow
    else if diffMins < 60 then MinutesAgo(diffMins)
    else if diffHours < 24 then HoursAgo(diffHours)
    else if diffDays < 7 then DaysAgo(diffDays)
    else OnDate(date.day, date.month)
  }

  /** formatCommentDate, before the text is built. */
  function CommentAgeOf(dateString: Option<string>, now: int, parse: string -> DateFields): (r: CommentAge)
    ensures r == Unknown <==> dateString.None? || dateString.value == ""
    ensures r != Unknown ==> r == AgeBucket(now - parse(dateString.value).time, parse(dateString.value))
  {
    if dateString.None? || dateString.value == "" then Unknown
    else
      var date := parse(dateString.value);
      AgeBucket(now - date.time, date)
  }

  /** The text shown for a bucket. */
  function AgeText(a: CommentAge): string {
    match a
    case Unknown => "Неизвестно"
    case JustNow => "Только что"
    case MinutesAgo(n) => IntToString(n) + " мин. назад"
    case HoursAgo(n) => IntToString(n) + " ч. назад"
    case DaysAgo(n) => IntToString(n) + " дн. назад"
    case OnDate(day, month) => IntToString(day) + " " + ShortMonthNames[month] + "."
  }

  function FormatCommentDate(dateString: Option<string>, now: int, parse: string -> DateFields): string {
    AgeText(CommentAgeOf(dateString, now, parse))
  }

  /** How far back a bucket reaches, from 'just now' to a date. */
  function AgeRank(a: CommentAge): int {
    match a
    case Unknown => 0
    case JustNow => 1
    case MinutesAgo(_) => 2
    case HoursAgo(_) => 3
    case DaysAgo(_) => 4
    case OnDate(_, _) => 5
  }

  /** An older comment never lands in a more recent bucket, nor shows a
      smaller count within the same bucket. */
  lemma AgeMonotone(d1: int, d2: int, date1: DateFields, date2: DateFields)
    requires d1 <= d2
    ensures AgeRank(AgeBucket(d1, date1)) <= AgeRank(AgeBucket(d2, date2))
    ensures AgeBucket(d1, date1).MinutesAgo? && AgeBucket(d2, date2).MinutesAgo? ==>
              AgeBucket(d1, date1).minutes <= AgeBucket(d2, date2).minutes
    ensures AgeBucket(d1, date1).HoursAgo? && AgeBucket(d2, date2).HoursAgo? ==>
              AgeBucket(d1, date1).hours <= AgeBucket(d2, date2).hours
    ensures AgeBucket(d1, date1).DaysAgo? && AgeBucket(d2, date2).DaysAgo? ==>
              AgeBucket(d1, date1).days <= AgeBucket(d2, date2).days
  {
  }

  // ---------------------------------------------------------------------
  // The comment counter and the submit button
  // ---------------------------------------------------------------------

  /** The state of the counter after an input event: the shown count, the
      'warning' and 'limit' classes, and whether the submit button is
      disabled. */
  datatype Counter = Counter(count: nat, warning: bool, limit: bool, disabled: bool)

  function CommentCounter(value: string): (c: Counter)
    ensures c.count == Utf16Length(value)
    ensures c.warning <==> c.count > 230
    ensures c.limit <==> c.count > 250
    ensures c.limit ==> c.warning
    ensures !c.disabled <==> 0 < c.count <= 256
  {
    var length := Utf16Length(value);
    Counter(length, length > 230, length > 250, length == 0 || length > 256)
  }

  /** JS truthiness of `state.currentGameId`: set and not 0. */
  predicate HasCurrentGame(currentGameId: Option<int>) {
    currentGameId.Some? && currentGameId.value != 0
  }

  /** The submit handler: the game id and trimmed text it sends, or None
      when it returns early on blank text or a falsy game id. */
  function SubmitContent(value: string, currentGameId: Option<int>): (r: Option<(int, string)>)
    ensures r.Some? ==> currentGameId.Some? && r.value.0 == currentGameId.value && r.value.0 != 0
                        && r.value.1 == Trim(value) && r.value.1 != ""
    ensures r.None? <==> !HasCurrentGame(currentGameId) || AllWhitespace(value)
  {
    var content := Trim(value);
    TrimSpec(value);
    if content == "" || !HasCurrentGame(currentGameId) then None
    else Some((currentGameId.value, content))
  }

  /** Online, a comment sent from an enabled button passes the checks of
      addComment, which posts the text unchanged. */
  lemma EnabledSubmitAccepted(value: string, currentGameId: Option<int>)
    requires !CommentCounter(value).disabled
    requires SubmitContent(value, currentGameId).Some?
    ensures var content := SubmitContent(value, currentGameId).value.1;
      Games.CommentBody(true, Some(content)) == Ok(content)
  {
    var content := Trim(value);
    TrimShorter(value);
    TrimmedNotBlank(value);
    var r := Games.CommentBody(true, Some(content));
    assert r.Ok? && r.value == Trim(content);
  }

  /** For text without surrounding whitespace, the button is disabled
      exactly when addComment would refuse the text. */
  lemma CounterAgreesWithAddComment(value: string)
    requires Trim(value) == value
    ensures CommentCounter(value).disabled <==> Games.CommentBody(true, Some(value)).Err?
  {
    assert AllWhitespace(value) <==> value == [] by {
      TrimSpec(value);
    }
  }
}
