/** The user list: directory entries of the same person merged into one row, with that person's blames. */
module UserRows {
  import opened Text
  import opened Directory
  import opened IntraCache
  import opened Grouping

  datatype Scan = Scan(id: int, ts: int, login: Option<string>, ftId: Option<string>, isBlame: bool, handled: bool)

  datatype Key = ByLogin(login: string) | ById(id: string) | ByPk(pk: int)

  datatype Row = Row(entry: Entry, login: string, scanCount: nat, pendingCount: nat, lastScan: Option<int>,
                     userType: string, coName: string, coColor: string, photo: string, hasError: bool)

  function InfoFor(cache: Cache, e: Entry): Option<Info> {
    if e.IntraKey() == "" then None else Peek(cache, e.IntraKey())
  }

  function GroupKey(e: Entry, info: Option<Info>): Key {
    var login := if info.Some? && info.value.login.Some? && info.value.login.value != "" then info.value.login.value
                 else e.DisplayLogin();
    if login != "" then ByLogin(ToLower(login)) else if e.ftId != "" then ById(e.ftId) else ByPk(e.pk)
  }

  function KeyOf(cache: Cache, e: Entry): Key {
    GroupKey(e, InfoFor(cache, e))
  }

  function KeyFunction(cache: Cache): Entry -> Key {
    (e: Entry) => KeyOf(cache, e)
  }

  // ---- One group ----

  function Score(e: Entry): nat {
    (if e.ftId != "" then 2 else 0) + (if e.ftLogin != "" then 1 else 0)
  }

  /** The first entry of maximal score. */
  ghost predicate IsRepresentative(group: seq<Entry>, i: nat) {
    && i < |group|
    && (forall j :: 0 <= j < i ==> Score(group[j]) < Score(group[i]))
    && (forall j :: i <= j < |group| ==> Score(group[j]) <= Score(group[i]))
  }

  function RepOf(group: seq<Entry>): Entry
    requires group != []
  {
    if |group| == 1 then group[0]
    else
      var n := |group| - 1;
      if Score(group[n]) > Score(RepOf(group[..n])) then group[n] else RepOf(group[..n])
  }

  lemma {:induction false} RepOfIsRepresentative(group: seq<Entry>) returns (i: nat)
    requires group != []
    ensures IsRepresentative(group, i) && RepOf(group) == group[i]
  {
    if |group| == 1 {
      i := 0;
    } else {
      var n := |group| - 1;
      i := RepOfIsRepresentative(group[..n]);
      if Score(group[n]) > Score(RepOf(group[..n])) {
        i := n;
      }
    }
  }

  /** The cached profile of the first entry that has one. */
  function FirstInfo(cache: Cache, group: seq<Entry>): Option<Info> {
    if group == [] then None
    else if InfoFor(cache, group[0]).Some? then InfoFor(cache, group[0]) else FirstInfo(cache, group[1..])
  }

  lemma {:induction false} FirstInfoLast(cache: Cache, group: seq<Entry>, e: Entry)
    ensures FirstInfo(cache, group + [e])
         == if FirstInfo(cache, group).Some? then FirstInfo(cache, group) else InfoFor(cache, e)
  {
    if group == [] {
      assert ([e])[1..] == [];
      assert group + [e] == [e];
    } else {
      assert (group + [e])[1..] == group[1..] + [e];
      FirstInfoLast(cache, group[1..], e);
    }
  }

  lemma RepOfLast(group: seq<Entry>, e: Entry)
    requires group != []
    ensures RepOf(group + [e]) == if Score(e) > Score(RepOf(group)) then e else RepOf(group)
  {
    assert (group + [e])[..|group|] == group;
  }

  method Represent(cache: Cache, group: seq<Entry>) returns (rep: Entry, info: Option<Info>)
    requires group != []
    ensures rep == RepOf(group) && info == FirstInfo(cache, group)
  {
    rep, info := group[0], None;
    var repScore: int := -1;
    for i := 0 to |group|
      invariant i == 0 ==> repScore == -1
      invariant i > 0 ==> rep == RepOf(group[..i]) && repScore == Score(rep)
      invariant info == FirstInfo(cache, group[..i])
    {
      assert group[..i + 1] == group[..i] + [group[i]];
      if i > 0 { RepOfLast(group[..i], group[i]); }
      if Score(group[i]) > repScore {
        rep, repScore := group[i], Score(group[i]);
      }
      FirstInfoLast(cache, group[..i], group[i]);
      if info.None? {
        info := InfoFor(cache, group[i]);
      }
    }
    assert group[..|group|] == group;
  }

  // ---- The blames of a group ----

  predicate Concerns(r: Scan, e: Entry) {
    r.isBlame
    && ((e.ftId != "" && r.ftId == Some(e.ftId))
        || (e.DisplayLogin() != "" && r.login.Some? && EqualFold(r.login.value, e.DisplayLogin())))
  }

  function ScansFor(history: seq<Scan>, e: Entry): seq<Scan> {
    if history == [] then []
    else (if Concerns(history[0], e) then [history[0]] else []) + ScansFor(history[1..], e)
  }

  ghost predicate UniqueIds(history: seq<Scan>) {
    forall r, q :: r in history && q in history && r.id == q.id ==> r == q
  }

  /** The blames that concern any of the entries, each once. */
  function Blames(history: seq<Scan>, group: seq<Entry>): set<Scan> {
    set r | r in history && (exists e :: e in group && Concerns(r, e))
  }

  function Pending(scans: set<Scan>): set<Scan> {
    set r | r in scans && !r.handled
  }

  ghost predicate IsLatest(scans: set<Scan>, last: Option<int>) {
    match last
    case None => scans == {}
    case Some(t) => (exists r :: r in scans && r.ts == t) && forall r :: r in scans ==> r.ts <= t
  }

  lemma {:induction false} ScansForAre(history: seq<Scan>, e: Entry)
    ensures forall r :: r in ScansFor(history, e) <==> r in history && Concerns(r, e)
  {
    if history != [] {
      ScansForAre(history[1..], e);
      assert history == [history[0]] + history[1..];
    }
  }

  datatype Tally = Tally(count: nat, pending: nat, last: Option<int>)

  ghost predicate Counts(t: Tally, scans: set<Scan>) {
    t.count == |scans| && t.pending == |Pending(scans)| && IsLatest(scans, t.last)
  }

  function CountIn(t: Tally, r: Scan): Tally {
    Tally(t.count + 1, if r.handled then t.pending else t.pending + 1,
          if t.last.None? || r.ts > t.last.value then Some(r.ts) else t.last)
  }

  lemma PendingOneMore(scans: set<Scan>, r: Scan)
    requires r !in scans
    ensures |Pending(scans + {r})| == |Pending(scans)| + if r.handled then 0 else 1
  {
    assert Pending(scans + {r}) == Pending(scans) + if r.handled then {} else {r};
  }

  lemma LatestOneMore(scans: set<Scan>, last: Option<int>, r: Scan)
    requires IsLatest(scans, last)
    ensures IsLatest(scans + {r}, if last.None? || r.ts > last.value then Some(r.ts) else last)
  {
    assert r in scans + {r};
    if last.Some? {
      var q :| q in scans && q.ts == last.value;
      assert q in scans + {r};
    }
  }

  lemma CountOneMore(t: Tally, scans: set<Scan>, r: Scan)
    requires Counts(t, scans) && r !in scans
    ensures Counts(CountIn(t, r), scans + {r})
  {
    PendingOneMore(scans, r);
    LatestOneMore(scans, t.last, r);
  }

  /** The tally as a fold over the history, where each record occurs once. */
  function TallyOf(history: seq<Scan>, group: seq<Entry>): Tally {
    if history == [] then Tally(0, 0, None)
    else
      var n := |history| - 1;
      var before := TallyOf(history[..n], group);
      if exists e :: e in group && Concerns(history[n], e) then CountIn(before, history[n]) else before
  }

  ghost predicate NoRepeats(history: seq<Scan>) {
    forall i, j :: 0 <= i < j < |history| ==> history[i].id != history[j].id
  }

  lemma BlamesSnoc(history: seq<Scan>, r: Scan, group: seq<Entry>)
    ensures Blames(history + [r], group)
         == if exists e :: e in group && Concerns(r, e) then Blames(history, group) + {r} else Blames(history, group)
  {
    assert forall q :: q in history + [r] <==> q in history || q == r;
  }

  lemma NewRecord(history: seq<Scan>, r: Scan, group: seq<Entry>)
    requires NoRepeats(history + [r])
    ensures NoRepeats(history) && r !in Blames(history, group)
  {
    var all := history + [r];
    forall i | 0 <= i < |history|
      ensures history[i] != r
    {
      assert all[i].id != all[|history|].id;
    }
    assert forall i, j :: 0 <= i < j < |history| ==> all[i] == history[i] && all[j] == history[j];
  }

  /** Scan count, pending count and last scan are the size, the unhandled part and the greatest time of the
      set of blames that concern any entry of the group, each counted once. */
  lemma {:induction false} TallyCounts(history: seq<Scan>, group: seq<Entry>)
    requires NoRepeats(history)
    ensures Counts(TallyOf(history, group), Blames(history, group))
  {
    if history != [] {
      var n := |history| - 1;
      assert history == history[..n] + [history[n]];
      NewRecord(history[..n], history[n], group);
      BlamesSnoc(history[..n], history[n], group);
      TallyCounts(history[..n], group);
      CountOneMore(TallyOf(history[..n], group), Blames(history[..n], group), history[n]);
    }
  }

  lemma CountsIsUnique(a: Tally, b: Tally, scans: set<Scan>)
    requires Counts(a, scans) && Counts(b, scans)
    ensures a == b
  {
    LatestIsUnique(scans, a.last, b.last);
  }

  lemma LatestIsUnique(scans: set<Scan>, a: Option<int>, b: Option<int>)
    requires IsLatest(scans, a) && IsLatest(scans, b)
    ensures a == b
  {
    if a.Some? && b.Some? {
      var r :| r in scans && r.ts == a.value;
      var q :| q in scans && q.ts == b.value;
    }
  }

  /** So far the scans in counted have been counted, and seen holds their ids. */
  ghost predicate Tallied(t: Tally, seen: set<int>, counted: set<Scan>, history: seq<Scan>) {
    && Counts(t, counted) && (forall r :: r in counted ==> r in history)
    && (forall r :: r in history ==> (r.id in seen <==> r in counted))
  }

  function Elems(list: seq<Scan>): set<Scan> {
    set r | r in list
  }

  lemma ElemsSnoc(list: seq<Scan>, r: Scan)
    ensures Elems(list + [r]) == Elems(list) + {r}
  {
    assert forall q :: q in list + [r] <==> q in list || q == r;
  }

  lemma TalliedOneMore(t: Tally, seen: set<int>, counted: set<Scan>, history: seq<Scan>, r: Scan)
    requires UniqueIds(history) && r in history && Tallied(t, seen, counted, history)
    ensures if r.id in seen then Tallied(t, seen, counted + {r}, history)
            else Tallied(CountIn(t, r), seen + {r.id}, counted + {r}, history)
  {
    if r.id in seen {
      assert counted + {r} == counted;
    } else {
      CountOneMore(t, counted, r);
    }
  }

  lemma ElemsUpTo(list: seq<Scan>, i: nat, counted: set<Scan>)
    requires i < |list|
    ensures counted + Elems(list[..i + 1]) == counted + Elems(list[..i]) + {list[i]}
  {
    assert list[..i + 1] == list[..i] + [list[i]];
    ElemsSnoc(list[..i], list[i]);
  }

  ghost predicate From(list: seq<Scan>, history: seq<Scan>) {
    UniqueIds(history) && forall i :: 0 <= i < |list| ==> list[i] in history
  }

  /** The loop over one entry's list: counts the scans whose id has not been seen. */
  method TallyList(list: seq<Scan>, t: Tally, seen: set<int>, ghost counted: set<Scan>, ghost history: seq<Scan>)
    returns (t': Tally, seen': set<int>)
    requires From(list, history) && Tallied(t, seen, counted, history)
    ensures Tallied(t', seen', counted + Elems(list), history)
  {
    t', seen' := t, seen;
    assert counted + Elems(list[..0]) == counted;
    for i := 0 to |list|
      invariant Tallied(t', seen', counted + Elems(list[..i]), history)
    {
      ElemsUpTo(list, i, counted);
      TalliedOneMore(t', seen', counted + Elems(list[..i]), history, list[i]);
      if list[i].id !in seen' {
        t', seen' := CountIn(t', list[i]), seen' + {list[i].id};
      }
    }
    assert list[..|list|] == list;
  }

  lemma BlamesMore(history: seq<Scan>, group: seq<Entry>, e: Entry)
    ensures Blames(history, group + [e]) == Blames(history, group) + Elems(ScansFor(history, e))
  {
    ScansForAre(history, e);
    forall r | r in history
      ensures (exists d :: d in group + [e] && Concerns(r, d)) <==>
                (exists d :: d in group && Concerns(r, d)) || Concerns(r, e)
    {
      if Concerns(r, e) { assert e in group + [e]; }
      if d :| d in group && Concerns(r, d) { assert d in group + [e]; }
    }
  }

  lemma BlamesUpTo(history: seq<Scan>, group: seq<Entry>, i: nat)
    requires i < |group|
    ensures Blames(history, group[..i + 1]) == Blames(history, group[..i]) + Elems(ScansFor(history, group[i]))
  {
    BlamesMore(history, group[..i], group[i]);
    assert group[..i + 1] == group[..i] + [group[i]];
  }

  lemma ScansAreFrom(history: seq<Scan>, e: Entry)
    requires NoRepeats(history)
    ensures From(ScansFor(history, e), history)
  {
    ScansForAre(history, e);
    assert forall i :: 0 <= i < |ScansFor(history, e)| ==> ScansFor(history, e)[i] in ScansFor(history, e);
  }

  lemma TallyIsUnique(history: seq<Scan>, group: seq<Entry>, t: Tally, seen: set<int>)
    requires NoRepeats(history) && Tallied(t, seen, Blames(history, group), history)
    ensures t == TallyOf(history, group)
  {
    TallyCounts(history, group);
    CountsIsUnique(t, TallyOf(history, group), Blames(history, group));
  }

  method TallyGroup(history: seq<Scan>, group: seq<Entry>) returns (t: Tally)
    requires NoRepeats(history)
    ensures t == TallyOf(history, group)
  {
    t := Tally(0, 0, None);
    var seen: set<int> := {};
    for i := 0 to |group|
      invariant Tallied(t, seen, Blames(history, group[..i]), history)
    {
      ScansAreFrom(history, group[i]);
      BlamesUpTo(history, group, i);
      t, seen := TallyList(ScansFor(history, group[i]), t, seen, Blames(history, group[..i]), history);
    }
    assert group[..|group|] == group;
    TallyIsUnique(history, group, t, seen);
  }

  // ---- Rows ----

  function Deref(p: Option<string>): string {
    if p.Some? then p.value else ""
  }

  function MakeRow(rep: Entry, info: Option<Info>, t: Tally): Row {
    if info.None? then Row(rep, rep.DisplayLogin(), t.count, t.pending, t.last, "", "", "", "", true)
    else
      var i := info.value;
      Row(rep, if i.login.Some? then i.login.value else rep.DisplayLogin(), t.count, t.pending, t.last,
          Deref(i.userType), Deref(i.coName), Deref(i.coColor), Deref(i.photo), i.profileError || i.coalitionError)
  }

  function RowOf(group: seq<Entry>, cache: Cache, history: seq<Scan>): Row
    requires group != []
  {
    MakeRow(RepOf(group), FirstInfo(cache, group), TallyOf(history, group))
  }

  method GroupRow(group: seq<Entry>, cache: Cache, history: seq<Scan>) returns (row: Row)
    requires NoRepeats(history) && group != []
    ensures row == RowOf(group, cache, history)
  {
    var rep, info := Represent(cache, group);
    var t := TallyGroup(history, group);
    row := MakeRow(rep, info, t);
  }

  ghost predicate IsRowFor(row: Row, group: seq<Entry>, cache: Cache, history: seq<Scan>) {
    group != [] && row == RowOf(group, cache, history)
  }

  ghost predicate AreRowsFor(rows: seq<Row>, keys: seq<Key>, entries: seq<Entry>, cache: Cache, history: seq<Scan>) {
    && |rows| == |keys|
    && forall i :: 0 <= i < |keys| ==> IsRowFor(rows[i], Members(entries, KeyFunction(cache), keys[i]), cache, history)
  }

  /** One row per key, in order of first appearance, each made of the whole group of that key. */
  ghost predicate IsUserList(rows: seq<Row>, entries: seq<Entry>, cache: Cache, history: seq<Scan>) {
    AreRowsFor(rows, Order(entries, KeyFunction(cache)), entries, cache, history)
  }

  lemma OneMoreRow(rows: seq<Row>, keys: seq<Key>, row: Row, k: Key,
                   entries: seq<Entry>, cache: Cache, history: seq<Scan>)
    requires AreRowsFor(rows, keys, entries, cache, history)
    requires IsRowFor(row, Members(entries, KeyFunction(cache), k), cache, history)
    ensures AreRowsFor(rows + [row], keys + [k], entries, cache, history)
  {
    var all, ks := rows + [row], keys + [k];
    forall i | 0 <= i < |ks|
      ensures IsRowFor(all[i], Members(entries, KeyFunction(cache), ks[i]), cache, history)
    {
      if i < |keys| { assert IsRowFor(rows[i], Members(entries, KeyFunction(cache), keys[i]), cache, history); }
    }
  }

  method AllUserRows(entries: seq<Entry>, cache: Cache, history: seq<Scan>) returns (rows: seq<Row>)
    requires NoRepeats(history)
    ensures IsUserList(rows, entries, cache, history)
  {
    var groups, order := GroupEntries(entries, KeyFunction(cache));
    rows := [];
    for i := 0 to |order|
      invariant AreRowsFor(rows, order[..i], entries, cache, history)
    {
      GroupAt(groups, order, entries, cache, i);
      var row := GroupRow(groups[order[i]], cache, history);
      OneMoreRow(rows, order[..i], row, order[i], entries, cache, history);
      assert order[..i + 1] == order[..i] + [order[i]];
      rows := rows + [row];
    }
    assert order[..|order|] == order;
  }

  lemma GroupAt(groups: map<Key, seq<Entry>>, order: seq<Key>, entries: seq<Entry>, cache: Cache, i: nat)
    requires Grouped(groups, order, entries, KeyFunction(cache)) && i < |order|
    ensures order[i] in groups && groups[order[i]] == Members(entries, KeyFunction(cache), order[i]) != []
  {
    assert order[i] in order;
  }

  /** A row of a group: the first entry of maximal score, and the blames of the whole group. */
  ghost predicate Describes(row: Row, group: seq<Entry>, history: seq<Scan>) {
    && (exists j: nat :: IsRepresentative(group, j) && row.entry == group[j])
    && Counts(Tally(row.scanCount, row.pendingCount, row.lastScan), Blames(history, group))
  }

  /** e is the first entry of the group with a cached profile. */
  ghost predicate FirstCached(group: seq<Entry>, cache: Cache, i: nat) {
    i < |group| && InfoFor(cache, group[i]).Some? && forall j :: 0 <= j < i ==> InfoFor(cache, group[j]).None?
  }

  /** The row shows the first cached profile of the group, and counts as an error when there is none. */
  ghost predicate Shows(row: Row, group: seq<Entry>, cache: Cache) {
    if forall e :: e in group ==> InfoFor(cache, e).None? then
      && row.hasError && row.login == row.entry.DisplayLogin()
      && row.userType == "" && row.coName == "" && row.coColor == "" && row.photo == ""
    else
      exists i: nat :: FirstCached(group, cache, i) && ShowsInfo(row, InfoFor(cache, group[i]).value)
  }

  predicate ShowsInfo(row: Row, info: Info) {
    && row.login == (if info.login.Some? then info.login.value else row.entry.DisplayLogin())
    && row.userType == Deref(info.userType) && row.photo == Deref(info.photo)
    && row.coName == Deref(info.coName) && row.coColor == Deref(info.coColor)
    && (row.hasError <==> info.profileError || info.coalitionError)
  }

  lemma {:induction false} FirstInfoIsFirst(cache: Cache, group: seq<Entry>) returns (i: nat)
    ensures match FirstInfo(cache, group)
            case None => forall e :: e in group ==> InfoFor(cache, e).None?
            case Some(info) => FirstCached(group, cache, i) && InfoFor(cache, group[i]) == Some(info)
  {
    i := 0;
    if group != [] && InfoFor(cache, group[0]).None? {
      var k := FirstInfoIsFirst(cache, group[1..]);
      i := k + 1;
      assert forall j :: 0 < j < |group| ==> group[j] == group[1..][j - 1];
    }
  }

  lemma RowOfShows(group: seq<Entry>, cache: Cache, history: seq<Scan>)
    requires group != []
    ensures Shows(RowOf(group, cache, history), group, cache)
  {
    var i := FirstInfoIsFirst(cache, group);
    if FirstInfo(cache, group).Some? {
      assert group[i] in group;
      assert ShowsInfo(RowOf(group, cache, history), InfoFor(cache, group[i]).value);
    }
  }

  lemma RowOfDescribes(group: seq<Entry>, cache: Cache, history: seq<Scan>)
    requires NoRepeats(history) && group != []
    ensures Describes(RowOf(group, cache, history), group, history)
  {
    var j := RepOfIsRepresentative(group);
    TallyCounts(history, group);
    var row, t := RowOf(group, cache, history), TallyOf(history, group);
    assert Tally(row.scanCount, row.pendingCount, row.lastScan) == t;
  }

  /** Row i describes all the entries whose key is the i-th key, and every scan that concerns one of them. */
  lemma RowsMean(rows: seq<Row>, entries: seq<Entry>, cache: Cache, history: seq<Scan>, i: nat)
    requires NoRepeats(history) && IsUserList(rows, entries, cache, history) && i < |rows|
    ensures var group := Members(entries, KeyFunction(cache), Order(entries, KeyFunction(cache))[i]);
            Describes(rows[i], group, history) && Shows(rows[i], group, cache)
  {
    var group := Members(entries, KeyFunction(cache), Order(entries, KeyFunction(cache))[i]);
    assert IsRowFor(rows[i], group, cache, history);
    RowOfDescribes(group, cache, history);
    RowOfShows(group, cache, history);
  }

  /** Entry e belongs to the group that row i is made of. */
  ghost predicate InRow(entries: seq<Entry>, cache: Cache, i: nat, e: Entry) {
    var keys := Order(entries, KeyFunction(cache));
    i < |keys| && e in Members(entries, KeyFunction(cache), keys[i])
  }

  /** Every directory entry falls in exactly one row of the list. */
  lemma EveryEntryHasOneRow(rows: seq<Row>, entries: seq<Entry>, cache: Cache, history: seq<Scan>, e: Entry)
    returns (i: nat)
    requires IsUserList(rows, entries, cache, history) && e in entries
    ensures i < |rows| && InRow(entries, cache, i, e)
    ensures forall j: nat :: InRow(entries, cache, j, e) ==> j == i
  {
    i := OneGroup(entries, KeyFunction(cache), e);
  }

  /** Over every reachable directory no row falls back to the primary key. */
  lemma NoKeyFallsBack(ops: seq<Op>, cache: Cache)
    ensures forall e :: e in Run(EMPTY, ops).entries ==> !KeyOf(cache, e).ByPk?
  {
    ReachableIsSound(ops);
  }

  // ---- Who shares a row, and what is counted ----

  /** An entry's own login: the one it has, or the one in a piscine name. */
  function OwnLogin(e: Entry): string {
    if e.ftLogin != "" then e.ftLogin else PiscineLoginFromName(e.fullName)
  }

  /** The login in the record cached under the ft_id, or else under the own login; without one, the own login. */
  function PersonLogin(cache: Cache, e: Entry): string {
    var key := ToLower(if e.ftId != "" then e.ftId else OwnLogin(e));
    if key != "" && key in cache && cache[key].login.Some? && cache[key].login.value != "" then cache[key].login.value
    else OwnLogin(e)
  }

  /** The same login in any letter case; without logins the same ft_id; without either the same entry. */
  predicate SamePerson(cache: Cache, e: Entry, d: Entry) {
    var a, b := PersonLogin(cache, e), PersonLogin(cache, d);
    if a != "" || b != "" then a != "" && b != "" && ToLower(a) == ToLower(b)
    else if e.ftId != "" || d.ftId != "" then e.ftId == d.ftId
    else e.pk == d.pk
  }

  lemma LowerIsEmptyToo(s: string)
    ensures ToLower(s) == "" <==> s == ""
  {
    assert |ToLower(s)| == |s|;
  }

  lemma LoginIsPersonLogin(cache: Cache, e: Entry)
    ensures KeyOf(cache, e) == if PersonLogin(cache, e) != "" then ByLogin(ToLower(PersonLogin(cache, e)))
                               else if e.ftId != "" then ById(e.ftId) else ByPk(e.pk)
  {
    LowerIsEmptyToo(e.IntraKey());
    assert e.DisplayLogin() == OwnLogin(e);
  }

  /** Two entries share a row if and only if they are of the same person. */
  lemma SameRowExactly(entries: seq<Entry>, cache: Cache, e: Entry, d: Entry, i: nat)
    requires InRow(entries, cache, i, e) && d in entries
    ensures InRow(entries, cache, i, d) <==> SamePerson(cache, e, d)
  {
    LoginIsPersonLogin(cache, e);
    LoginIsPersonLogin(cache, d);
    MembersAre(entries, KeyFunction(cache), Order(entries, KeyFunction(cache))[i]);
  }

  /** A blame names the entry by its ft_id, or by its login in any letter case. */
  predicate Blamed(r: Scan, e: Entry) {
    && r.isBlame
    && ((e.ftId != "" && r.ftId == Some(e.ftId))
        || (OwnLogin(e) != "" && r.login.Some? && ToLower(r.login.value) == ToLower(OwnLogin(e))))
  }

  lemma BlamesAre(history: seq<Scan>, group: seq<Entry>)
    ensures Blames(history, group) == set r | r in history && exists e :: e in group && Blamed(r, e)
  {
    forall r, e
      ensures Concerns(r, e) <==> Blamed(r, e)
    {
      assert e.DisplayLogin() == OwnLogin(e);
    }
  }

  /** The three figures of a row: how many blames name anyone in its group, how many of them are not handled,
      and the time of the latest. */
  lemma RowCounts(row: Row, group: seq<Entry>, history: seq<Scan>)
    requires Describes(row, group, history)
    ensures var blames := set r | r in history && exists e :: e in group && Blamed(r, e);
            && row.scanCount == |blames| && row.pendingCount == |set r | r in blames && !r.handled|
            && (row.lastScan.None? <==> blames == {})
            && (forall r :: r in blames ==> row.lastScan.Some? && r.ts <= row.lastScan.value)
            && (row.lastScan.Some? ==> exists r :: r in blames && r.ts == row.lastScan.value)
  {
    BlamesAre(history, group);
  }

  predicate SameHoldings(e: Entry, d: Entry) {
    (e.ftId != "" <==> d.ftId != "") && (e.ftLogin != "" <==> d.ftLogin != "")
  }

  /** An entry with an ft_id stands for the group before any without, then one with a login before any without,
      then the first. */
  lemma RepresentativeIs(group: seq<Entry>, i: nat)
    requires i < |group|
    ensures IsRepresentative(group, i) <==>
              && (forall j :: 0 <= j < |group| && group[j].ftId != "" ==> group[i].ftId != "")
              && (forall j :: 0 <= j < |group| && (group[j].ftId != "" <==> group[i].ftId != "") ==>
                    (group[j].ftLogin != "" ==> group[i].ftLogin != ""))
              && (forall j :: 0 <= j < i ==> !SameHoldings(group[j], group[i]))
  {
  }
}
