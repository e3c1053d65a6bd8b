/** The cached access-control directory and the manual badge links: what every refresh, removal and
    association keeps, and what a badge lookup finds. */
module Directory {
  import opened Text
  import opened Decimal
  import opened Wiegand
  import UidHex

  datatype Entry = Entry(pk: int, fullName: string, ftLogin: string, ftId: string, badges: seq<int>) {
    function DisplayLogin(): string {
      if ftLogin != "" then ftLogin else PiscineLoginFromName(fullName)
    }

    function IntraKey(): string {
      if ftId != "" then ftId else DisplayLogin()
    }

    predicate IsResolvable() {
      ftLogin != "" || ftId != "" || DisplayLogin() != ""
    }

    predicate IsListable() {
      && IsResolvable()
      && !Contains(ToLower(fullName), "[bh]")
      && !HasPrefix(ToLower(TrimSpace(fullName)), "3b3")
      && !HasPrefix(ToLower(ftLogin), "3b3")
      && !HasPrefix(ToLower(DisplayLogin()), "3b3")
    }
  }

  // ---- Piscine names ----

  predicate IsLetter(c: char) {
    'a' <= c <= 'z' || 'A' <= c <= 'Z'
  }

  predicate IsLoginChar(c: char) {
    IsLetter(c) || IsDigit(c) || c == '-' || c == '_'
  }

  /** The text after the last space. */
  function LastWord(s: string): string {
    if s == "" || IsSpace(s[|s| - 1]) then "" else LastWord(s[..|s| - 1]) + [s[|s| - 1]]
  }

  /** The last field of the trimmed name, lower-cased, when it looks like a login; otherwise nothing. */
  function PiscineLoginFromName(name: string): string {
    var last := LastWord(TrimSpace(name));
    if Contains(ToLower(name), "[piscine]") && (forall c :: c in last ==> IsLoginChar(c))
       && (exists c :: c in last && IsLetter(c))
    then ToLower(last) else ""
  }

  method PiscineLogin(name: string) returns (login: string)
    ensures login == PiscineLoginFromName(name)
  {
    if !Contains(ToLower(name), "[piscine]") {
      return "";
    }
    var last := LastWord(TrimSpace(name));
    var hasLetter := false;
    for i := 0 to |last|
      invariant forall j :: 0 <= j < i ==> IsLoginChar(last[j])
      invariant hasLetter <==> exists j :: 0 <= j < i && IsLetter(last[j])
    {
      if !IsLoginChar(last[i]) {
        return "";
      }
      if IsLetter(last[i]) {
        hasLetter := true;
      }
    }
    return if hasLetter then ToLower(last) else "";
  }

  // ---- The table ----

  /** Rows are kept, and listed, by primary key. */
  ghost predicate ByKey(t: seq<Entry>) {
    forall i, j :: 0 <= i < j < |t| ==> t[i].pk < t[j].pk
  }

  /** INSERT: fails when the key is taken. */
  function InsertRow(t: seq<Entry>, e: Entry): Option<seq<Entry>> {
    if t == [] || e.pk < t[0].pk then Some([e] + t)
    else if e.pk == t[0].pk then None
    else
      match InsertRow(t[1..], e)
      case Some(rest) => Some([t[0]] + rest)
      case None => None
  }

  /** The new table, unless two entries share a key. */
  function Rebuild(entries: seq<Entry>): Option<seq<Entry>> {
    if entries == [] then Some([])
    else
      match Rebuild(entries[..|entries| - 1])
      case Some(t) => InsertRow(t, entries[|entries| - 1])
      case None => None
  }

  function Listable(entries: seq<Entry>): seq<Entry> {
    if entries == [] then []
    else
      var e := entries[|entries| - 1];
      Listable(entries[..|entries| - 1]) + if e.IsListable() then [e] else []
  }

  ghost predicate DistinctKeys(entries: seq<Entry>) {
    forall i, j :: 0 <= i < j < |entries| ==> entries[i].pk != entries[j].pk
  }

  lemma {:induction false} InsertFailsOnTakenKey(t: seq<Entry>, e: Entry)
    requires ByKey(t)
    ensures InsertRow(t, e).None? <==> exists i :: 0 <= i < |t| && t[i].pk == e.pk
  {
    if t != [] && e.pk > t[0].pk {
      InsertFailsOnTakenKey(t[1..], e);
      if i :| 0 <= i < |t[1..]| && t[1..][i].pk == e.pk {
        assert t[i + 1].pk == e.pk;
      }
      if i :| 0 <= i < |t| && t[i].pk == e.pk {
        assert t[1..][i - 1].pk == e.pk;
      }
    }
  }

  lemma {:induction false} InsertAddsOne(t: seq<Entry>, e: Entry)
    requires InsertRow(t, e).Some?
    ensures multiset(InsertRow(t, e).value) == multiset(t) + multiset{e}
  {
    if t != [] && e.pk > t[0].pk {
      InsertAddsOne(t[1..], e);
      assert t == [t[0]] + t[1..];
    }
  }

  lemma {:induction false} InsertKeepsOrder(t: seq<Entry>, e: Entry)
    requires ByKey(t) && InsertRow(t, e).Some?
    ensures ByKey(InsertRow(t, e).value)
  {
    if t != [] && e.pk > t[0].pk {
      InsertKeepsOrder(t[1..], e);
      InsertAddsOne(t[1..], e);
      var rest := InsertRow(t[1..], e).value;
      forall j | 0 <= j < |rest|
        ensures t[0].pk < rest[j].pk
      {
        assert rest[j] in multiset(rest);
        assert rest[j] == e || rest[j] in t[1..];
      }
    }
  }

  /** Rebuilding succeeds exactly when no key repeats, and then lists exactly the given entries by key. */
  lemma {:induction false} RebuildKeeps(entries: seq<Entry>)
    ensures Rebuild(entries).Some? <==> DistinctKeys(entries)
    ensures Rebuild(entries).Some? ==>
              ByKey(Rebuild(entries).value) && multiset(Rebuild(entries).value) == multiset(entries)
  {
    if entries != [] {
      var n := |entries| - 1;
      var before, e := entries[..n], entries[n];
      RebuildKeeps(before);
      assert entries == before + [e];
      if Rebuild(before).Some? {
        var t := Rebuild(before).value;
        InsertFailsOnTakenKey(t, e);
        if InsertRow(t, e).Some? {
          InsertAddsOne(t, e);
          InsertKeepsOrder(t, e);
        }
        TakenKey(before, t, e);
      }
    }
  }

  lemma TakenKey(entries: seq<Entry>, t: seq<Entry>, e: Entry)
    requires multiset(t) == multiset(entries)
    ensures (exists i :: 0 <= i < |t| && t[i].pk == e.pk) <==> (exists i :: 0 <= i < |entries| && entries[i].pk == e.pk)
  {
    if i :| 0 <= i < |t| && t[i].pk == e.pk {
      assert t[i] in multiset(entries);
    }
    if i :| 0 <= i < |entries| && entries[i].pk == e.pk {
      assert entries[i] in multiset(t);
    }
  }

  lemma {:induction false} ListableMembers(entries: seq<Entry>)
    ensures forall e :: e in Listable(entries) <==> e in entries && e.IsListable()
  {
    if entries != [] {
      ListableMembers(entries[..|entries| - 1]);
      assert entries == entries[..|entries| - 1] + [entries[|entries| - 1]];
    }
  }

  // ---- Operations ----

  datatype Db = Db(entries: seq<Entry>, fetchedAt: int, links: map<string, string>)

  const EMPTY := Db([], 0, map[])

  /** Refresh carries what the remote listing returned, if anything, and whether clearing the links worked. */
  datatype Op =
    | Refresh(listing: Option<seq<Entry>>, at: int, cleared: bool)
    | Remove(pk: int)
    | Associate(uid: string, login: string)

  function Without(t: seq<Entry>, pk: int): seq<Entry> {
    if t == [] then [] else (if t[0].pk == pk then [] else [t[0]]) + Without(t[1..], pk)
  }

  predicate Rebuilds(op: Op) {
    op.Refresh? && op.listing.Some? && Rebuild(Listable(op.listing.value)).Some?
  }

  /** The refresh went through to the end. */
  predicate Completes(op: Op) {
    Rebuilds(op) && op.cleared
  }

  function Canonical(login: string): string {
    ToLower(TrimSpace(login))
  }

  function Apply(db: Db, op: Op): Db {
    match op
    case Refresh(listing, at, cleared) =>
      if !Rebuilds(op) then db
      else Db(Rebuild(Listable(listing.value)).value, at, if cleared then map[] else db.links)
    case Remove(pk) => db.(entries := Without(db.entries, pk))
    case Associate(uid, login) =>
      if Canonical(login) == "" then db else db.(links := db.links[ToUpper(uid) := Canonical(Canonical(login))])
  }

  function Run(db: Db, ops: seq<Op>): Db {
    if ops == [] then db else Apply(Run(db, ops[..|ops| - 1]), ops[|ops| - 1])
  }

  class Store {
    var db: Db

    constructor ()
      ensures db == EMPTY
    {
      db := EMPTY;
    }

    /** One transaction: either every entry is inserted and the time noted, or nothing changes. */
    method ReplaceCADirectory(entries: seq<Entry>, at: int) returns (ok: bool)
      modifies this
      ensures ok <==> DistinctKeys(entries)
      ensures ok ==> Rebuild(entries).Some? && db == old(db).(entries := Rebuild(entries).value, fetchedAt := at)
      ensures !ok ==> db == old(db)
    {
      var t: seq<Entry> := [];
      RebuildKeeps(entries);
      for i := 0 to |entries|
        invariant Rebuild(entries[..i]) == Some(t)
      {
        assert entries[..i + 1][..i] == entries[..i];
        var inserted := InsertRow(t, entries[i]);
        if inserted.None? {
          RebuildPrefix(entries, i + 1);
          return false;
        }
        t := inserted.value;
      }
      assert entries[..|entries|] == entries;
      db := db.(entries := t, fetchedAt := at);
      return true;
    }

    /** RefreshCADirectory after the listing came back; the count of kept entries, or nothing on an error. */
    method RefreshCADirectory(listing: Option<seq<Entry>>, at: int, cleared: bool) returns (kept: Option<nat>)
      modifies this
      ensures db == Apply(old(db), Refresh(listing, at, cleared))
      ensures kept.Some? <==> Completes(Refresh(listing, at, cleared))
      ensures kept.Some? ==> kept.value == |db.entries|
    {
      if listing.None? {
        return None;
      }
      var filtered: seq<Entry> := [];
      for i := 0 to |listing.value|
        invariant filtered == Listable(listing.value[..i])
      {
        assert listing.value[..i + 1][..i] == listing.value[..i];
        if listing.value[i].IsListable() {
          filtered := filtered + [listing.value[i]];
        }
      }
      assert listing.value[..|listing.value|] == listing.value;
      RebuildKeeps(filtered);
      var ok := ReplaceCADirectory(filtered, at);
      if !ok || !cleared {
        return None;
      }
      db := db.(links := map[]);
      assert multiset(db.entries) == multiset(filtered);
      assert |multiset(db.entries)| == |multiset(filtered)|;
      return Some(|filtered|);
    }

    method RemoveCADirectoryEntry(pk: int)
      modifies this
      ensures db == Apply(old(db), Remove(pk))
      ensures forall e :: e in db.entries <==> e in old(db).entries && e.pk != pk
      ensures ByKey(old(db).entries) ==> ByKey(db.entries)
      ensures db.links == old(db).links && db.fetchedAt == old(db).fetchedAt
    {
      WithoutKeeps(db.entries, pk);
      db := db.(entries := Without(db.entries, pk));
    }

    /** AssociateBadge up to the scan that follows it. */
    method AssociateBadge(uid: string, login: string)
      modifies this
      ensures db == Apply(old(db), Associate(uid, login))
      ensures LinkIn(db, uid)
           == if TrimSpace(login) == "" then LinkIn(old(db), uid) else Some(ToLower(TrimSpace(login)))
      ensures forall other :: ToUpper(other) != ToUpper(uid) ==> LinkIn(db, other) == LinkIn(old(db), other)
      ensures db.entries == old(db).entries && db.fetchedAt == old(db).fetchedAt
    {
      CanonicalTwice(login);
      assert |Canonical(login)| == |TrimSpace(login)|;
      var name := ToLower(TrimSpace(login));
      if name == "" {
        return;
      }
      db := db.(links := db.links[ToUpper(uid) := ToLower(TrimSpace(name))]);
    }
  }

  function LinkIn(db: Db, uid: string): Option<string> {
    if ToUpper(uid) in db.links then Some(db.links[ToUpper(uid)]) else None
  }

  lemma {:induction false} RebuildPrefix(entries: seq<Entry>, k: nat)
    requires k <= |entries| && Rebuild(entries[..k]).None?
    ensures Rebuild(entries).None?
    decreases |entries|
  {
    if k == |entries| {
      assert entries[..k] == entries;
    } else {
      var n := |entries| - 1;
      assert entries[..n][..k] == entries[..k];
      RebuildPrefix(entries[..n], k);
    }
  }

  // ---- What every reachable directory keeps ----

  ghost predicate Sound(db: Db) {
    ByKey(db.entries) && forall e :: e in db.entries ==> e.IsListable()
  }

  lemma {:induction false} WithoutKeeps(t: seq<Entry>, pk: int)
    ensures ByKey(t) ==> ByKey(Without(t, pk))
    ensures forall e :: e in Without(t, pk) <==> e in t && e.pk != pk
  {
    if t != [] {
      WithoutKeeps(t[1..], pk);
      assert forall e :: e in t <==> e == t[0] || e in t[1..];
    }
  }

  lemma ApplySound(db: Db, op: Op)
    requires Sound(db)
    ensures Sound(Apply(db, op))
  {
    match op
    case Refresh(listing, _, _) =>
      if Rebuilds(op) {
        var kept := Listable(listing.value);
        RebuildKeeps(kept);
        ListableMembers(listing.value);
        forall e | e in Rebuild(kept).value
          ensures e.IsListable()
        {
          assert e in multiset(kept);
        }
      }
    case Remove(pk) => WithoutKeeps(db.entries, pk);
    case Associate(_, _) =>
  }

  /** In every reachable state the entries are listable and their keys distinct; so no entry is without a
      login, a key into the 42 cache or a group of its own name. */
  lemma {:induction false} ReachableIsSound(ops: seq<Op>)
    ensures Sound(Run(EMPTY, ops))
    ensures forall e :: e in Run(EMPTY, ops).entries ==>
              e.IntraKey() != "" && (e.ftLogin != "" || e.ftId != "" || PiscineLoginFromName(e.fullName) != "")
  {
    if ops != [] {
      ReachableIsSound(ops[..|ops| - 1]);
      ApplySound(Run(EMPTY, ops[..|ops| - 1]), ops[|ops| - 1]);
    }
  }

  /** A refresh leaves exactly the listable entries of the listing, without links; or, when two of them share
      a key, leaves directory, time and links as they were. */
  lemma RefreshIsAllOrNothing(db: Db, listing: seq<Entry>, at: int)
    ensures var db' := Apply(db, Refresh(Some(listing), at, true));
            if DistinctKeys(Listable(listing))
            then db'.links == map[] && db'.fetchedAt == at && multiset(db'.entries) == multiset(Listable(listing))
            else db' == db
  {
    RebuildKeeps(Listable(listing));
  }

  /** Which entries of a listing a refresh keeps: those with a login, an ft_id or a piscine name, unless the full
      name says [bh], or the full name, the login or the shown login starts with 3b3, all in any letter case. */
  ghost predicate Kept(e: Entry) {
    var login := if e.ftLogin != "" then e.ftLogin else PiscineLoginFromName(e.fullName);
    && (login != "" || e.ftId != "")
    && (forall i: nat :: !OccursAt(ToLower(e.fullName), "[bh]", i))
    && !("3b3" <= ToLower(TrimSpace(e.fullName))) && !("3b3" <= ToLower(e.ftLogin)) && !("3b3" <= ToLower(login))
  }

  /** After a refresh that goes through the directory holds exactly those; the links are gone when they could
      be cleared and all there otherwise. */
  lemma RefreshKeepsExactly(db: Db, listing: seq<Entry>, at: int, cleared: bool)
    requires DistinctKeys(Listable(listing))
    ensures var db' := Apply(db, Refresh(Some(listing), at, cleared));
            && (forall e :: e in db'.entries <==> e in listing && Kept(e))
            && db'.fetchedAt == at && db'.links == if cleared then map[] else db.links
  {
    RebuildKeeps(Listable(listing));
    ListableMembers(listing);
    var entries := Rebuild(Listable(listing)).value;
    forall e: Entry
      ensures e.IsListable() <==> Kept(e)
    {
      ContainsExactly(ToLower(e.fullName), "[bh]");
    }
    forall e
      ensures e in entries <==> e in Listable(listing)
    {
      assert e in entries <==> multiset(entries)[e] > 0;
      assert e in Listable(listing) <==> multiset(Listable(listing))[e] > 0;
    }
  }

  predicate AsciiLetter(c: char) {
    65 <= c as int <= 90 || 97 <= c as int <= 122
  }

  predicate AsciiLoginChar(c: char) {
    AsciiLetter(c) || 48 <= c as int <= 57 || c == '-' || c == '_'
  }

  lemma {:induction false} LastWordIs(s: string) returns (k: nat)
    ensures k <= |s| && LastWord(s) == s[k..] && (k > 0 ==> IsSpace(s[k - 1]))
    ensures forall i :: k <= i < |s| ==> !IsSpace(s[i])
  {
    if s == "" || IsSpace(s[|s| - 1]) {
      k := |s|;
    } else {
      k := LastWordIs(s[..|s| - 1]);
      assert s[k..] == s[..|s| - 1][k..] + [s[|s| - 1]];
    }
  }

  /** The piscine login is what stands after the last space of the trimmed name, in lower case, provided that the
      name says [piscine] and this word has login characters only and a letter among them. */
  lemma PiscineLoginIs(name: string) returns (k: nat)
    ensures var full := TrimSpace(name);
            && k <= |full| && (k > 0 ==> IsSpace(full[k - 1])) && (forall i :: k <= i < |full| ==> !IsSpace(full[i]))
            && PiscineLoginFromName(name) ==
                 if (exists i: nat :: OccursAt(ToLower(name), "[piscine]", i))
                    && (forall c :: c in full[k..] ==> AsciiLoginChar(c))
                    && (exists c :: c in full[k..] && AsciiLetter(c))
                 then ToLower(full[k..]) else ""
  {
    k := LastWordIs(TrimSpace(name));
    ContainsExactly(ToLower(name), "[piscine]");
    assert forall c: char :: IsLetter(c) <==> AsciiLetter(c);
    assert forall c: char :: IsLoginChar(c) <==> AsciiLoginChar(c);
  }

  // ---- Manual links over runs ----

  /** The login the history says a key is linked to. */
  function LatestLink(ops: seq<Op>, key: string): Option<string> {
    if ops == [] then None
    else
      var op := ops[|ops| - 1];
      if Completes(op) then None
      else if op.Associate? && Canonical(op.login) != "" && ToUpper(op.uid) == key then Some(Canonical(op.login))
      else LatestLink(ops[..|ops| - 1], key)
  }

  lemma CanonicalTwice(login: string)
    ensures Canonical(Canonical(login)) == Canonical(login)
  {
    TrimSpaceTrims(login);
    var t := TrimSpace(login);
    assert Trimmed(ToLower(t)) by {
      if t != "" {
        assert IsSpace(ToLower(t)[0]) == IsSpace(t[0]) && IsSpace(ToLower(t)[|t| - 1]) == IsSpace(t[|t| - 1]);
      }
    }
    TrimSpaceTrims(ToLower(t));
    LowerIdempotent(t);
  }

  lemma {:induction false} LinksFollowHistory(ops: seq<Op>, key: string)
    ensures var links := Run(EMPTY, ops).links;
            LatestLink(ops, key) == if key in links then Some(links[key]) else None
  {
    if ops != [] {
      LinksFollowHistory(ops[..|ops| - 1], key);
      if ops[|ops| - 1].Associate? { CanonicalTwice(ops[|ops| - 1].login); }
    }
  }

  lemma UpperTwice(s: string)
    ensures ToUpper(ToUpper(s)) == ToUpper(s)
  {
  }

  /** A valid UID text is stored under the key that later scans ask for exactly when it is trimmed. */
  lemma ScanKey(uid: string, other: string, bytes: seq<Byte>)
    requires HexToBytes(uid) == Some(bytes) && HexToBytes(other) == Some(bytes) && bytes != []
    ensures FromUIDHex(other).Some?
    ensures ToUpper(FromUIDHex(other).value.uidHex) == ToUpper(uid) <==> Trimmed(uid)
  {
    UidHex.CodesOfText(other, bytes);
    UidHexOf(bytes);
    UidHex.EncodeUndoesDecode(TrimSpace(uid));
    TrimSpaceTrims(uid);
    UpperTwice(TrimSpace(uid));
    assert ToUpper(FromUIDHex(other).value.uidHex) == ToUpper(TrimSpace(uid));
    if |TrimSpace(uid)| < |uid| {
      assert |ToUpper(TrimSpace(uid))| != |ToUpper(uid)|;
    } else {
      assert |TrimSpace(uid)| == |uid|;
      TrimKeepsLength(uid);
    }
  }

  lemma TrimKeepsLength(s: string)
    requires |TrimSpace(s)| == |s|
    ensures TrimSpace(s) == s
  {
    var j := TrimLeftIsSuffix(s);
    var k := TrimRightIsPrefix(TrimLeft(s));
  }

  /** Two texts stand for the same bytes exactly when they differ in letter case and surrounding space only. */
  lemma SameBytesExactly(uid: string, other: string, bytes: seq<Byte>)
    requires HexToBytes(uid) == Some(bytes)
    ensures HexToBytes(other) == Some(bytes) <==> ToUpper(TrimSpace(other)) == ToUpper(TrimSpace(uid))
  {
    UidHex.EncodeUndoesDecode(TrimSpace(uid));
    if HexToBytes(other) == Some(bytes) {
      UidHex.EncodeUndoesDecode(TrimSpace(other));
    }
    if ToUpper(TrimSpace(other)) == ToUpper(TrimSpace(uid)) {
      assert |ToUpper(TrimSpace(other))| == |TrimSpace(other)| && |ToUpper(TrimSpace(uid))| == |TrimSpace(uid)|;
      UidHex.DecodeIgnoresCase(TrimSpace(other));
      UidHex.DecodeIgnoresCase(TrimSpace(uid));
    }
  }

  /** After any run, a scan of any text that differs from the trimmed UID text only in letter case and in
      surrounding space finds the lower-cased, trimmed login of the latest association of that UID; after a
      completed refresh it finds none. */
  lemma ScansFindLatestAssociation(ops: seq<Op>, uid: string, other: string, bytes: seq<Byte>)
    requires HexToBytes(uid) == Some(bytes) && bytes != [] && Trimmed(uid)
    requires ToUpper(TrimSpace(other)) == ToUpper(uid)
    ensures FromUIDHex(other).Some?
    ensures LinkIn(Run(EMPTY, ops), FromUIDHex(other).value.uidHex) == LatestLink(ops, ToUpper(uid))
  {
    TrimSpaceTrims(uid);
    SameBytesExactly(uid, other, bytes);
    ScanKey(uid, other, bytes);
    LinksFollowHistory(ops, ToUpper(uid));
  }

  /** In any state, a scan of the text that was just associated finds the association if and only if the text
      has no space around it and the login is not blank; otherwise it finds what it found before. */
  lemma AssociationFoundExactly(db: Db, uid: string, login: string, bytes: seq<Byte>)
    requires HexToBytes(uid) == Some(bytes) && bytes != []
    ensures FromUIDHex(uid).Some?
    ensures var scanned := FromUIDHex(uid).value.uidHex;
            LinkIn(Apply(db, Associate(uid, login)), scanned)
              == if Trimmed(uid) && Canonical(login) != "" then Some(Canonical(login)) else LinkIn(db, scanned)
  {
    ScanKey(uid, uid, bytes);
    CanonicalTwice(login);
  }

  /** A link made with a space before the UID is not found by a scan, of that text or of the trimmed one. */
  lemma SpacedLinkIsLost()
    ensures FromUIDHex(" 04").Some? && FromUIDHex("04").Some?
    ensures var db := Apply(EMPTY, Associate(" 04", "heinz"));
            && LinkIn(db, FromUIDHex(" 04").value.uidHex).None? && LinkIn(db, FromUIDHex("04").value.uidHex).None?
  {
    var uid, bytes := " 04", [4 as Byte];
    assert TrimLeft(uid) == "04" && TrimSpace(uid) == "04" && TrimSpace("04") == "04";
    assert "04"[2..] == "" && HexValue('0') == Some(0) && HexValue('4') == Some(4);
    assert Decode("") == Some([]);
    assert Decode("04") == Some([4] + []);
    assert [4 as Byte] + [] == bytes;
    AssociationFoundExactly(EMPTY, uid, "heinz", bytes);
    UidHex.CodesOfText(uid, bytes);
    UidHex.CodesOfText("04", bytes);
  }

  // ---- Badge lookup ----

  ghost predicate Holds(entries: seq<Entry>, n: int) {
    exists j :: 0 <= j < |entries| && n in entries[j].badges
  }

  /** n is the number of candidate i, entry j the first to hold it, and no earlier candidate is held at all. */
  ghost predicate FirstHit(candidates: seq<string>, entries: seq<Entry>, i: nat, j: nat, n: int) {
    && i < |candidates| && j < |entries|
    && ParseInt64(candidates[i]) == Some(n) && n in entries[j].badges
    && (forall k :: 0 <= k < j ==> n !in entries[k].badges)
    && (forall k :: 0 <= k < i && ParseInt64(candidates[k]).Some? ==> !Holds(entries, ParseInt64(candidates[k]).value))
  }

  /** Position of the first entry that holds n, or the length of the list. */
  function Holder(entries: seq<Entry>, n: int): (j: nat)
    ensures j <= |entries| && (j < |entries| ==> n in entries[j].badges)
    ensures forall k :: 0 <= k < j ==> n !in entries[k].badges
  {
    if entries == [] || n in entries[0].badges then 0 else 1 + Holder(entries[1..], n)
  }

  datatype Hit = Hit(entry: Entry, number: int)

  function FindIn(candidates: seq<string>, entries: seq<Entry>): Option<Hit> {
    if candidates == [] then None
    else
      var n := ParseInt64(candidates[0]);
      if n.Some? && Holder(entries, n.value) < |entries| then Some(Hit(entries[Holder(entries, n.value)], n.value))
      else FindIn(candidates[1..], entries)
  }

  method FindEntry(entries: seq<Entry>, n: int) returns (j: nat)
    ensures j == Holder(entries, n)
  {
    for e := 0 to |entries|
      invariant forall k :: 0 <= k < e ==> n !in entries[k].badges
    {
      for b := 0 to |entries[e].badges|
        invariant n !in entries[e].badges[..b]
      {
        if entries[e].badges[b] == n {
          return e;
        }
      }
      assert entries[e].badges[..|entries[e].badges|] == entries[e].badges;
    }
    return |entries|;
  }

  method FindByBadge(candidates: seq<string>, entries: seq<Entry>) returns (hit: Option<Hit>)
    ensures hit == FindIn(candidates, entries)
  {
    for i := 0 to |candidates|
      invariant FindIn(candidates, entries) == FindIn(candidates[i..], entries)
    {
      assert candidates[i..][1..] == candidates[i + 1..];
      var n := ParseInt64(candidates[i]);
      if n.Some? {
        var j := FindEntry(entries, n.value);
        if j < |entries| {
          return Some(Hit(entries[j], n.value));
        }
      }
    }
    return None;
  }

  /** The lookup returns the hit that is first by candidate and then by entry, and nothing only if there is none. */
  lemma {:induction false} FindInIsFirstHit(candidates: seq<string>, entries: seq<Entry>) returns (i: nat)
    ensures FindIn(candidates, entries).Some? ==>
              var hit := FindIn(candidates, entries).value;
              FirstHit(candidates, entries, i, Holder(entries, hit.number), hit.number)
              && hit.entry == entries[Holder(entries, hit.number)]
    ensures FindIn(candidates, entries).None? ==>
              forall k :: 0 <= k < |candidates| && ParseInt64(candidates[k]).Some? ==>
                            !Holds(entries, ParseInt64(candidates[k]).value)
    decreases |candidates|
  {
    i := 0;
    if candidates != [] {
      var n := ParseInt64(candidates[0]);
      if !(n.Some? && Holder(entries, n.value) < |entries|) {
        var j := FindInIsFirstHit(candidates[1..], entries);
        i := j + 1;
        assert forall k :: 0 < k < |candidates| ==> candidates[k] == candidates[1..][k - 1];
      }
    }
  }

  lemma TextOf(c: Codes, n: int) returns (text: string)
    requires n in CandidateNumbers(c)
    ensures text in CandidatesOf(c)
    ensures (text == c.wiegand26 && n == Value(text)) || (text == c.unpadded && n == Value(text))
            || (text == Print(c.premium) && n == c.premium)
  {
    CandidateMembers(c);
    text := if n == Value(c.wiegand26) then c.wiegand26
            else if n == Value(c.unpadded) then c.unpadded else Print(c.premium);
  }

  /** Every number of a UID is the number of one of its candidates. */
  lemma CandidateFor(uid: seq<Byte>, n: int) returns (i: nat)
    requires uid != [] && n in CandidateNumbers(FromUID(uid).value)
    ensures var candidates := CandidatesOf(FromUID(uid).value);
            i < |candidates| && ParseInt64(candidates[i]) == Some(n)
  {
    var text := TextOf(FromUID(uid).value, n);
    FormsParse(uid);
    i :| i < |CandidatesOf(FromUID(uid).value)| && CandidatesOf(FromUID(uid).value)[i] == text;
  }

  /** With the candidates of a UID, a badge is found if and only if some entry holds one of its three numbers. */
  lemma BadgeFoundExactly(uid: seq<Byte>, entries: seq<Entry>)
    requires uid != []
    ensures var c := FromUID(uid).value;
            FindIn(CandidatesOf(c), entries).Some? <==> exists n :: n in CandidateNumbers(c) && Holds(entries, n)
  {
    var c := FromUID(uid).value;
    var i := FindInIsFirstHit(CandidatesOf(c), entries);
    if FindIn(CandidatesOf(c), entries).Some? {
      var n := FindIn(CandidatesOf(c), entries).value.number;
      CandidatesParse(uid);
      assert CandidatesOf(c)[i] in CandidatesOf(c);
      assert Holds(entries, n);
    } else if n :| n in CandidateNumbers(c) && Holds(entries, n) {
      var k := CandidateFor(uid, n);
    }
  }

  /** There is one first hit, and the lookup finds it. */
  lemma {:induction false} FirstHitIsFound(candidates: seq<string>, entries: seq<Entry>, i: nat, j: nat, n: int)
    requires FirstHit(candidates, entries, i, j, n)
    ensures FindIn(candidates, entries).Some?
    ensures var hit := FindIn(candidates, entries).value; hit.entry == entries[j] && hit.number == n
    decreases i
  {
    if i > 0 {
      var m := ParseInt64(candidates[0]);
      if m.Some? && Holder(entries, m.value) < |entries| {
        assert Holds(entries, m.value);
      }
      assert forall k :: 0 <= k < i - 1 ==> candidates[1..][k] == candidates[k + 1];
      FirstHitIsFound(candidates[1..], entries, i - 1, j, n);
    }
  }
}
