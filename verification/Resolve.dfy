/** From a badge UID to an identity: directory, manual link, 42 cache, and last of all the 42 API. */
module Resolve {
  import opened Text
  import opened Wiegand
  import Directory
  import opened IntraCache

  datatype Settings = Settings(caConfigured: bool, ftConfigured: bool)

  /** What the 42 API would answer to this call; None is a failed request. */
  datatype Remote = Remote(user: Option<User>, coalitions: Option<seq<Coalition>>, cus: Option<seq<CoalitionsUser>>)

  datatype ScanError = NoError | CaNotConfigured | NotInDirectory | NoIdentity | FtNotConfigured | FetchFailed

  datatype Badge = Badge(login: string, ftId: string, photo: string, userType: string,
                         coName: string, coColor: string, coImage: string,
                         matched: Option<int>, entry: Option<Directory.Entry>, err: ScanError)

  const UNKNOWN := Badge("", "", "", "", "", "", "", None, None, NoError)

  function DerefOr(p: Option<string>, fallback: string): string {
    if p.Some? then p.value else fallback
  }

  function OrElse(s: string, fallback: string): string {
    if s == "" then fallback else s
  }

  // ---- The 42 side ----

  function PickedFor(login: string, remote: Remote): Option<Coalition> {
    if login != "" && remote.coalitions.Some? then Pick(remote.coalitions.value) else None
  }

  /** fetchIntraInfo: the profile, and the coalition if it can be had. */
  function FetchInfo(login: string, ftId: string, user: User, remote: Remote, now: nat): Info {
    var name, id := OrElse(user.login, login), OrElse(user.id, ftId);
    var picked := PickedFor(name, remote);
    var profile := FromUser(user.(login := name, id := id), now / 1_000_000, BLANK);
    if picked.None? then profile
    else FromCoalition(picked, remote.cus, now / 1_000_000, profile)
  }

  /** failed when the profile could not be fetched; asked when a request was made. */
  datatype IntraResult = IntraResult(info: Option<Info>, failed: bool, cache: Cache, asked: bool)

  function ResolveIntra(cache: Cache, login: string, ftId: string, now: nat, remote: Remote): IntraResult {
    var key := OrElse(ftId, login);
    if key == "" then IntraResult(None, false, cache, false)
    else if GetFresh(cache, key, now).Some? then IntraResult(GetFresh(cache, key, now), false, cache, false)
    else match remote.user
      case None => IntraResult(None, true, cache, true)
      case Some(user) =>
        var info := FetchInfo(login, ftId, user, remote, now);
        IntraResult(Some(info), false, Put(cache, key, info), true)
  }

  function Overlay(b: Badge, info: Info): Badge {
    b.(login := DerefOr(info.login, b.login), ftId := DerefOr(info.ftId, b.ftId), photo := DerefOr(info.photo, ""),
       userType := DerefOr(info.userType, ""), coName := DerefOr(info.coName, ""), coColor := DerefOr(info.coColor, ""),
       coImage := DerefOr(info.coImage, ""))
  }

  /** The identity in a fetched record: the profile's, or else what was asked for. */
  lemma FetchedIdentity(login: string, ftId: string, user: User, remote: Remote, now: nat)
    ensures var info := FetchInfo(login, ftId, user, remote, now);
            && (if user.login != "" then info.login == Some(user.login)
                else if login != "" then info.login == Some(login) else info.login == None)
            && (if user.id != "" then info.ftId == Some(user.id)
                else if ftId != "" then info.ftId == Some(ftId) else info.ftId == None)
            && info.fetchedAt == now / 1_000_000
  {
  }

  // ---- The directory side ----

  function EntryOfLogin(entries: seq<Directory.Entry>, login: string): Option<Directory.Entry> {
    if entries == [] then None
    else if EqualFold(entries[0].DisplayLogin(), login) then Some(entries[0])
    else EntryOfLogin(entries[1..], login)
  }

  function FromHit(hit: Directory.Hit): Badge {
    var e := hit.entry;
    var login := if e.ftLogin == "" && e.ftId == "" then Directory.PiscineLoginFromName(e.fullName) else e.ftLogin;
    UNKNOWN.(matched := Some(hit.number), entry := Some(e), login := login, ftId := e.ftId,
             err := if login == "" && e.ftId == "" then NoIdentity else NoError)
  }

  /** What the directory and the links say of a badge. */
  function Identify(codes: Codes, settings: Settings, db: Directory.Db): Badge {
    if !settings.caConfigured then UNKNOWN.(err := CaNotConfigured)
    else
      match Directory.FindIn(CandidatesOf(codes), db.entries)
      case Some(hit) => FromHit(hit)
      case None =>
        match Directory.LinkIn(db, codes.uidHex)
        case Some(login) => UNKNOWN.(login := login, entry := EntryOfLogin(db.entries, login))
        case None => UNKNOWN.(err := NotInDirectory)
  }

  datatype Outcome = Outcome(badge: Badge, cache: Cache, asked: bool)

  /** Enriches an identity from the cache; only a badge without a directory entry may cause requests. */
  function Enrich(b: Badge, settings: Settings, cache: Cache, now: nat, remote: Remote): Outcome {
    if !b.err.NoError? then Outcome(b, cache, false)
    else if !settings.ftConfigured then Outcome(if b.login == "" then b.(err := FtNotConfigured) else b, cache, false)
    else if b.entry.Some? then
      var key := OrElse(b.ftId, b.login);
      if key != "" && Peek(cache, key).Some? then Outcome(Overlay(b, Peek(cache, key).value), cache, false)
      else Outcome(b, cache, false)
    else
      var r := ResolveIntra(cache, b.login, b.ftId, now, remote);
      var badge :=
        if r.failed then (if b.login == "" then b.(err := FetchFailed) else b)
        else if r.info.Some? then Overlay(b, r.info.value) else b;
      Outcome(badge, r.cache, r.asked)
  }

  /** Nothing for a text that is not a UID. */
  function Resolution(text: string, settings: Settings, db: Directory.Db, cache: Cache, now: nat, remote: Remote)
    : Option<Outcome>
  {
    match FromUIDHex(text)
    case None => None
    case Some(codes) => Some(Enrich(Identify(codes, settings, db), settings, cache, now, remote))
  }

  class Service {
    var db: Directory.Db
    var cache: Cache

    constructor (db: Directory.Db, cache: Cache)
      ensures this.db == db && this.cache == cache
    {
      this.db, this.cache := db, cache;
    }

    method Resolve42(login: string, ftId: string, now: nat, remote: Remote)
      returns (info: Option<Info>, failed: bool, asked: bool)
      modifies this`cache
      ensures IntraResult(info, failed, cache, asked) == ResolveIntra(old(cache), login, ftId, now, remote)
      ensures asked <==> OrElse(ftId, login) != "" && GetFresh(old(cache), OrElse(ftId, login), now).None?
      ensures failed <==> asked && remote.user.None?
      ensures !asked || failed ==> cache == old(cache)
      ensures !asked && OrElse(ftId, login) != "" ==> info == GetFresh(old(cache), OrElse(ftId, login), now)
      ensures asked && !failed ==> info.Some? && Peek(cache, OrElse(ftId, login)) == info
      ensures asked && !failed ==> info.value.fetchedAt == now / 1_000_000
      ensures forall k :: ToLower(k) != ToLower(OrElse(ftId, login)) ==> Peek(cache, k) == Peek(old(cache), k)
    {
      var key := if ftId == "" then login else ftId;
      if key == "" {
        return None, false, false;
      }
      info := GetFresh(cache, key, now);
      if info.Some? {
        return info, false, false;
      }
      if remote.user.None? {
        return None, true, true;
      }
      info := Some(FetchInfo(login, ftId, remote.user.value, remote, now));
      cache := Put(cache, key, info.value);
      return info, false, true;
    }

    method ResolveBadge(text: string, settings: Settings, now: nat, remote: Remote)
      returns (r: Option<Badge>, asked: bool)
      modifies this`cache
      ensures match Resolution(text, settings, db, old(cache), now, remote)
              case None => r.None? && cache == old(cache) && !asked
              case Some(o) => r == Some(o.badge) && cache == o.cache && asked == o.asked
    {
      var codes := FromUIDHex(text);
      if codes.None? {
        return None, false;
      }
      var b := UNKNOWN;
      var candidates := CACandidates(codes.value);
      if !settings.caConfigured {
        b := b.(err := CaNotConfigured);
      } else {
        var hit := Directory.FindByBadge(candidates, db.entries);
        if hit.Some? {
          b := FromHit(hit.value);
        } else {
          var link := Directory.LinkIn(db, codes.value.uidHex);
          if link.Some? {
            b := b.(login := link.value, entry := EntryOfLogin(db.entries, link.value));
          } else {
            b := b.(err := NotInDirectory);
          }
        }
      }
      if !b.err.NoError? {
        return Some(b), false;
      }
      if !settings.ftConfigured {
        if b.login == "" { b := b.(err := FtNotConfigured); }
        return Some(b), false;
      }
      if b.entry.Some? {
        var key := if b.ftId == "" then b.login else b.ftId;
        if key != "" {
          var cached := Peek(cache, key);
          if cached.Some? { b := Overlay(b, cached.value); }
        }
        return Some(b), false;
      }
      var info, failed;
      info, failed, asked := Resolve42(b.login, b.ftId, now, remote);
      if failed {
        if b.login == "" { b := b.(err := FetchFailed); }
      } else if info.Some? {
        b := Overlay(b, info.value);
      }
      return Some(b), asked;
    }
  }

  // ---- Main results ----

  lemma PutThenFresh(cache: Cache, key: string, info: Info, now: int)
    requires now - info.fetchedAt * 1_000_000 <= TTL_NS
    ensures GetFresh(Put(cache, key, info), key, now) == Some(info)
  {
  }

  /** The 42 side can be asked again within the lifetime of what it answered with, and answers the same
      from the cache. */
  lemma IntraAgain(cache: Cache, login: string, ftId: string, now: nat, remote: Remote, later: nat, other: Remote)
    requires var r := ResolveIntra(cache, login, ftId, now, remote);
             r.info.Some? && later - r.info.value.fetchedAt * 1_000_000 <= TTL_NS
    ensures var r := ResolveIntra(cache, login, ftId, now, remote);
            ResolveIntra(r.cache, login, ftId, later, other) == IntraResult(r.info, false, r.cache, false)
  {
    var key := OrElse(ftId, login);
    if GetFresh(cache, key, now).None? {
      PutThenFresh(cache, key, FetchInfo(login, ftId, remote.user.value, remote, now), later);
    }
  }

  lemma CachedAfter(cache: Cache, login: string, ftId: string, now: nat, remote: Remote)
    ensures var r := ResolveIntra(cache, login, ftId, now, remote);
            r.info.Some? ==> OrElse(ftId, login) != "" && Peek(r.cache, OrElse(ftId, login)) == r.info
  {
  }

  /** A badge without an error and without an entry is known by its link, so by a login alone. */
  lemma LinkedByLogin(codes: Codes, db: Directory.Db)
    ensures var b := Identify(codes, Settings(true, true), db);
            b.err.NoError? && b.entry.None? ==> b == UNKNOWN.(login := b.login)
  {
  }

  /** Once resolved, a badge is resolved to the same from any cache that still has its record, and from any
      directory and links that say the same of it. */
  lemma ResolvedFrom(text: string, again: string, db: Directory.Db, db': Directory.Db, cache: Cache, now: nat,
                     remote: Remote, after: Cache, later: nat, other: Remote, bytes: seq<Byte>)
    requires HexToBytes(text) == Some(bytes) && HexToBytes(again) == Some(bytes) && bytes != []
    requires var b := Identify(FromUID(bytes).value, Settings(true, true), db);
             var r := ResolveIntra(cache, b.login, b.ftId, now, remote);
             && b.err.NoError? && b.entry.None? && Identify(FromUID(bytes).value, Settings(true, true), db') == b
             && r.info.Some? && later - r.info.value.fetchedAt * 1_000_000 <= TTL_NS
             && Peek(after, OrElse(b.ftId, b.login)) == r.info
    ensures var first := Resolution(text, Settings(true, true), db, cache, now, remote);
            && first.Some?
            && first.value.cache == (var b := Identify(FromUID(bytes).value, Settings(true, true), db);
                                     ResolveIntra(cache, b.login, b.ftId, now, remote).cache)
            && Resolution(again, Settings(true, true), db', after, later, other)
                 == Some(Outcome(first.value.badge, after, false))
  {
    SameCodes(text, bytes);
    SameCodes(again, bytes);
    var b := Identify(FromUID(bytes).value, Settings(true, true), db);
    CachedAfter(cache, b.login, b.ftId, now, remote);
  }

  /** Cache transparency: after an unmatched badge has been resolved through its link and the 42 API, the next
      resolution of the same UID, in any text form, until 12 hours after that fetch gives exactly the same
      badge, asks nothing of the API, whatever it would answer by then, and changes nothing. */
  lemma ResolvedAgain(text: string, again: string, db: Directory.Db, cache: Cache,
                      now: nat, remote: Remote, later: nat, other: Remote, bytes: seq<Byte>)
    requires HexToBytes(text) == Some(bytes) && HexToBytes(again) == Some(bytes) && bytes != []
    requires var b := Identify(FromUID(bytes).value, Settings(true, true), db);
             var r := ResolveIntra(cache, b.login, b.ftId, now, remote);
             && b.err.NoError? && b.entry.None?
             && r.info.Some? && later - r.info.value.fetchedAt * 1_000_000 <= TTL_NS
    ensures var first := Resolution(text, Settings(true, true), db, cache, now, remote);
            && first.Some?
            && Resolution(again, Settings(true, true), db, first.value.cache, later, other)
                 == Some(Outcome(first.value.badge, first.value.cache, false))
  {
    var b := Identify(FromUID(bytes).value, Settings(true, true), db);
    SameCodes(text, bytes);
    CachedAfter(cache, b.login, b.ftId, now, remote);
    ResolvedFrom(text, again, db, db, cache, now, remote, ResolveIntra(cache, b.login, b.ftId, now, remote).cache,
                 later, other, bytes);
  }

  /** What a badge known by its link alone shows after a successful request: the 42 profile, the picked
      coalition if there is one, and no error; and the record is cached under the link's login. */
  lemma LinkedBadgeShows(text: string, db: Directory.Db, cache: Cache, now: nat, remote: Remote,
                         bytes: seq<Byte>, login: string)
    requires HexToBytes(text) == Some(bytes) && bytes != [] && login != ""
    requires Directory.FindIn(CandidatesOf(FromUID(bytes).value), db.entries).None?
    requires Directory.LinkIn(db, FromUID(bytes).value.uidHex) == Some(login) && EntryOfLogin(db.entries, login).None?
    requires GetFresh(cache, login, now).None? && remote.user.Some?
    ensures var o, user := Resolution(text, Settings(true, true), db, cache, now, remote), remote.user.value;
            && o.Some? && o.value.asked
            && Shows(o.value.badge, user, if user.login == "" then login else user.login,
                     if remote.coalitions.Some? then Pick(remote.coalitions.value) else None)
            && Peek(o.value.cache, login).Some? && !Peek(o.value.cache, login).value.profileError
  {
    SameCodes(text, bytes);
    var codes := FromUID(bytes).value;
    var b := Identify(codes, Settings(true, true), db);
    assert b == UNKNOWN.(login := login);
    FetchedShows(b, remote.user.value, remote, now);
  }

  ghost predicate Shows(b: Badge, user: User, login: string, picked: Option<Coalition>) {
    && b.login == login && b.ftId == user.id && b.photo == user.image && b.userType == UserType(user.cursusIds)
    && b.err.NoError? && b.entry.None? && b.matched.None?
    && match picked
       case None => b.coName == "" && b.coColor == "" && b.coImage == ""
       case Some(c) => b.coName == c.name && b.coColor == c.color && b.coImage == c.image
  }

  lemma FetchedShows(b: Badge, user: User, remote: Remote, now: nat)
    requires b == UNKNOWN.(login := b.login) && b.login != ""
    ensures Shows(Overlay(b, FetchInfo(b.login, "", user, remote, now)), user,
                  if user.login == "" then b.login else user.login,
                  if remote.coalitions.Some? then Pick(remote.coalitions.value) else None)
    ensures !FetchInfo(b.login, "", user, remote, now).profileError
  {
  }

  lemma SameCodes(text: string, bytes: seq<Byte>)
    requires HexToBytes(text) == Some(bytes) && bytes != []
    ensures FromUIDHex(text) == FromUID(bytes) && FromUIDHex(text).Some?
  {
    UidHexOf(bytes);
  }

  /** Enriching neither finds nor loses an entry, nor takes an error of the directory back or adds one. */
  lemma EnrichKeeps(b: Badge, settings: Settings, cache: Cache, now: nat, remote: Remote)
    ensures var after := Enrich(b, settings, cache, now, remote).badge;
            && after.entry == b.entry
            && (after.err.NoIdentity? <==> b.err.NoIdentity?) && (after.err.NotInDirectory? <==> b.err.NotInDirectory?)
  {
  }

  /** A badge with a directory entry is resolved from what is cached alone. */
  lemma MatchedAsksNothing(text: string, settings: Settings, db: Directory.Db, cache: Cache, now: nat, remote: Remote)
    requires var o := Resolution(text, settings, db, cache, now, remote); o.Some? && o.value.badge.entry.Some?
    ensures var o := Resolution(text, settings, db, cache, now, remote).value; o.cache == cache && !o.asked
  {
    var b := Identify(FromUIDHex(text).value, settings, db);
    EnrichKeeps(b, settings, cache, now, remote);
  }

  /** Over every reachable directory, no scan reports an entry without an identity. */
  lemma IdentityIsNeverMissing(ops: seq<Directory.Op>, text: string, settings: Settings, cache: Cache,
                               now: nat, remote: Remote)
    requires Resolution(text, settings, Directory.Run(Directory.EMPTY, ops), cache, now, remote).Some?
    ensures !Resolution(text, settings, Directory.Run(Directory.EMPTY, ops), cache, now, remote).value
            .badge.err.NoIdentity?
  {
    var db, codes := Directory.Run(Directory.EMPTY, ops), FromUIDHex(text).value;
    Directory.ReachableIsSound(ops);
    HitHasIdentity(db.entries, codes);
    EnrichKeeps(Identify(codes, settings, db), settings, cache, now, remote);
  }

  lemma HitHasIdentity(entries: seq<Directory.Entry>, codes: Codes)
    requires forall e :: e in entries ==>
               e.ftLogin != "" || e.ftId != "" || Directory.PiscineLoginFromName(e.fullName) != ""
    ensures var hit := Directory.FindIn(CandidatesOf(codes), entries);
            hit.Some? ==> !FromHit(hit.value).err.NoIdentity?
  {
    var i := Directory.FindInIsFirstHit(CandidatesOf(codes), entries);
    var hit := Directory.FindIn(CandidatesOf(codes), entries);
    if hit.Some? {
      assert hit.value.entry in entries;
    }
  }

  /** With the access-control system configured, a badge is unknown exactly when no entry holds any of its
      numbers and it has no link. */
  lemma UnknownExactly(text: string, ft: bool, db: Directory.Db, cache: Cache, now: nat, remote: Remote,
                       bytes: seq<Byte>)
    requires HexToBytes(text) == Some(bytes) && bytes != []
    ensures var o, c := Resolution(text, Settings(true, ft), db, cache, now, remote), FromUID(bytes).value;
            && o.Some?
            && (o.value.badge.err.NotInDirectory? <==>
                  (forall n :: n in CandidateNumbers(c) ==> !Directory.Holds(db.entries, n))
                  && Directory.LinkIn(db, c.uidHex).None?)
  {
    SameCodes(text, bytes);
    Directory.BadgeFoundExactly(bytes, db.entries);
    var b := Identify(FromUID(bytes).value, Settings(true, ft), db);
    EnrichKeeps(b, Settings(true, ft), cache, now, remote);
  }

  /** There is a record under this key, in any spelling, of at most twelve hours, in nanoseconds. */
  predicate HasFresh(cache: Cache, key: string, now: int) {
    ToLower(key) in cache && now - cache[ToLower(key)].fetchedAt * 1_000_000 <= 43_200_000_000_000
  }

  lemma FreshMeans(cache: Cache, key: string, now: int)
    ensures GetFresh(cache, key, now) == if HasFresh(cache, key, now) then Some(cache[ToLower(key)]) else None
  {
  }

  /** The badge shows this identity, with what the record, if there is one, says instead or besides. */
  ghost predicate ShowsRecord(b: Badge, login: string, ftId: string, info: Option<Info>) {
    match info
    case None =>
      && b.login == login && b.ftId == ftId && b.photo == "" && b.userType == ""
      && b.coName == "" && b.coColor == "" && b.coImage == ""
    case Some(i) =>
      && (if i.login.Some? then b.login == i.login.value else b.login == login)
      && (if i.ftId.Some? then b.ftId == i.ftId.value else b.ftId == ftId)
      && (if i.photo.Some? then b.photo == i.photo.value else b.photo == "")
      && (if i.userType.Some? then b.userType == i.userType.value else b.userType == "")
      && (if i.coName.Some? then b.coName == i.coName.value else b.coName == "")
      && (if i.coColor.Some? then b.coColor == i.coColor.value else b.coColor == "")
      && (if i.coImage.Some? then b.coImage == i.coImage.value else b.coImage == "")
  }

  function Recorded(cache: Cache, key: string): Option<Info> {
    if ToLower(key) in cache then Some(cache[ToLower(key)]) else None
  }

  /** What the scan of a badge shows when entry j is the first to hold one of its numbers: that entry and
      number, the entry's own identity, and, with the 42 side configured, the record cached for it. */
  lemma MatchedBadgeShows(text: string, ft: bool, db: Directory.Db, cache: Cache, now: nat, remote: Remote,
                          bytes: seq<Byte>, i: nat, j: nat, n: int)
    requires HexToBytes(text) == Some(bytes) && bytes != []
    requires Directory.FirstHit(CandidatesOf(FromUID(bytes).value), db.entries, i, j, n)
    ensures var o := Resolution(text, Settings(true, ft), db, cache, now, remote);
            o.Some? &&
            var b, e := o.value.badge, db.entries[j];
            var login := if e.ftLogin != "" || e.ftId != "" then e.ftLogin
                         else Directory.PiscineLoginFromName(e.fullName);
            && b.entry == Some(e) && b.matched == Some(n)
            && if login == "" && e.ftId == "" then ShowsRecord(b, "", "", None) && b.err == NoIdentity
               else if !ft then
                 ShowsRecord(b, login, e.ftId, None) && b.err == if login == "" then FtNotConfigured else NoError
               else
                 ShowsRecord(b, login, e.ftId, Recorded(cache, if e.ftId != "" then e.ftId else login))
                  && b.err == NoError
  {
    SameCodes(text, bytes);
    Directory.FirstHitIsFound(CandidatesOf(FromUID(bytes).value), db.entries, i, j, n);
  }

  /** The first entry that goes by this login, whatever the letter case. */
  ghost predicate GoesBy(entries: seq<Directory.Entry>, login: string, entry: Option<Directory.Entry>) {
    match entry
    case None => forall e :: e in entries ==> ToLower(e.DisplayLogin()) != ToLower(login)
    case Some(e) =>
      exists j :: && 0 <= j < |entries| && entries[j] == e && ToLower(e.DisplayLogin()) == ToLower(login)
                  && forall k :: 0 <= k < j ==> ToLower(entries[k].DisplayLogin()) != ToLower(login)
  }

  lemma {:induction false} EntryOfLoginAt(entries: seq<Directory.Entry>, login: string) returns (j: nat)
    ensures j <= |entries| && forall k :: 0 <= k < j ==> ToLower(entries[k].DisplayLogin()) != ToLower(login)
    ensures EntryOfLogin(entries, login) == if j < |entries| then Some(entries[j]) else None
    ensures j < |entries| ==> ToLower(entries[j].DisplayLogin()) == ToLower(login)
  {
    j := 0;
    if entries != [] && !EqualFold(entries[0].DisplayLogin(), login) {
      var i := EntryOfLoginAt(entries[1..], login);
      j := i + 1;
      assert forall k :: 0 < k < |entries| ==> entries[k] == entries[1..][k - 1];
    }
  }

  lemma EntryOfLoginGoesBy(entries: seq<Directory.Entry>, login: string)
    ensures GoesBy(entries, login, EntryOfLogin(entries, login))
  {
    var j := EntryOfLoginAt(entries, login);
  }

  /** What the scan of a badge shows that no entry holds and that has a link: the first entry that goes by the
      linked login, if any, and the record cached for the login; without such an entry the record must be
      fresh, and a failed request for it leaves the login alone. */
  lemma LinkedScanShows(text: string, ft: bool, db: Directory.Db, cache: Cache, now: nat, remote: Remote,
                        bytes: seq<Byte>, login: string)
    requires HexToBytes(text) == Some(bytes) && bytes != [] && login != ""
    requires Directory.FindIn(CandidatesOf(FromUID(bytes).value), db.entries).None?
    requires Directory.LinkIn(db, FromUID(bytes).value.uidHex) == Some(login)
    ensures var o := Resolution(text, Settings(true, ft), db, cache, now, remote);
            o.Some? &&
            var b := o.value.badge;
            && b.err == NoError && b.matched.None? && GoesBy(db.entries, login, b.entry)
            && (!ft ==> ShowsRecord(b, login, "", None))
            && (ft && b.entry.Some? ==> ShowsRecord(b, login, "", Recorded(cache, login)))
            && (ft && b.entry.None? && HasFresh(cache, login, now) ==>
                  ShowsRecord(b, login, "", Recorded(cache, login)))
            && (ft && b.entry.None? && !HasFresh(cache, login, now) && remote.user.None? ==>
                  ShowsRecord(b, login, "", None))
  {
    SameCodes(text, bytes);
    EntryOfLoginGoesBy(db.entries, login);
    FreshMeans(cache, login, now);
  }

  lemma NamelessIdentity(codes: Codes, settings: Settings, db: Directory.Db)
    ensures var b := Identify(codes, settings, db);
            && (!settings.caConfigured ==> b.err == CaNotConfigured)
            && (b.err.CaNotConfigured? || b.err.NotInDirectory? ==>
                  ShowsRecord(b, "", "", None) && b.entry.None? && b.matched.None?)
  {
  }

  lemma ErrorsStay(b: Badge, settings: Settings, cache: Cache, now: nat, remote: Remote)
    ensures var after := Enrich(b, settings, cache, now, remote).badge;
            && (after.err.CaNotConfigured? <==> b.err.CaNotConfigured?)
            && (after.err.NotInDirectory? <==> b.err.NotInDirectory?)
            && (!b.err.NoError? ==> after == b)
  {
  }

  /** A scan that cannot name anybody shows nothing but the reason. */
  lemma NamelessScanShows(text: string, settings: Settings, db: Directory.Db, cache: Cache, now: nat, remote: Remote,
                          bytes: seq<Byte>)
    requires HexToBytes(text) == Some(bytes) && bytes != []
    ensures var o := Resolution(text, settings, db, cache, now, remote);
            && o.Some?
            && (!settings.caConfigured ==> o.value.badge.err == CaNotConfigured)
            && (o.value.badge.err.CaNotConfigured? || o.value.badge.err.NotInDirectory? ==>
                  && ShowsRecord(o.value.badge, "", "", None)
                  && o.value.badge.entry.None? && o.value.badge.matched.None?)
  {
    SameCodes(text, bytes);
    var codes := FromUID(bytes).value;
    NamelessIdentity(codes, settings, db);
    ErrorsStay(Identify(codes, settings, db), settings, cache, now, remote);
  }

  lemma {:induction false} EntryOfLoginFinds(entries: seq<Directory.Entry>, login: string)
    ensures EntryOfLogin(entries, login).None? <==> forall e :: e in entries ==> !EqualFold(e.DisplayLogin(), login)
  {
    if entries != [] {
      EntryOfLoginFinds(entries[1..], login);
      assert entries == [entries[0]] + entries[1..];
    }
  }

  /** When a scan asks the 42 API: both sides are configured, no entry holds any number of the badge, it is
      linked to a login that no entry goes by, and there is no fresh record of that login. */
  lemma AsksExactly(text: string, settings: Settings, db: Directory.Db, cache: Cache, now: nat, remote: Remote,
                    bytes: seq<Byte>)
    requires HexToBytes(text) == Some(bytes) && bytes != []
    ensures var o, c := Resolution(text, settings, db, cache, now, remote), FromUID(bytes).value;
            var link := Directory.LinkIn(db, c.uidHex);
            && o.Some? && (!o.value.asked ==> o.value.cache == cache)
            && (o.value.asked <==>
                  && settings.caConfigured && settings.ftConfigured
                  && (forall n :: n in CandidateNumbers(c) ==> !Directory.Holds(db.entries, n))
                  && link.Some? && link.value != ""
                  && (forall e :: e in db.entries ==> ToLower(e.DisplayLogin()) != ToLower(link.value))
                  && !HasFresh(cache, link.value, now))
  {
    SameCodes(text, bytes);
    var c := FromUID(bytes).value;
    Directory.BadgeFoundExactly(bytes, db.entries);
    var link := Directory.LinkIn(db, c.uidHex);
    if link.Some? { EntryOfLoginFinds(db.entries, link.value); }
    if link.Some? { FreshMeans(cache, link.value, now); }
    AsksByIdentity(Identify(c, settings, db), settings, cache, now, remote);
  }

  lemma AsksByIdentity(b: Badge, settings: Settings, cache: Cache, now: nat, remote: Remote)
    ensures var o, key := Enrich(b, settings, cache, now, remote), OrElse(b.ftId, b.login);
            && (!o.asked ==> o.cache == cache)
            && (o.asked <==> b.err.NoError? && settings.ftConfigured && b.entry.None? && key != ""
                             && GetFresh(cache, key, now).None?)
  {
  }

  /** After every run, a scan of any spelling of an associated UID that no entry holds starts from the login of
      the latest association, and finds the badge unknown exactly when there is none. */
  lemma ScanStartsFromLatestLink(ops: seq<Directory.Op>, uid: string, other: string, bytes: seq<Byte>, ft: bool)
    requires HexToBytes(uid) == Some(bytes) && bytes != [] && Trimmed(uid) && ToUpper(TrimSpace(other)) == ToUpper(uid)
    requires forall n :: n in CandidateNumbers(FromUID(bytes).value) ==>
               !Directory.Holds(Directory.Run(Directory.EMPTY, ops).entries, n)
    ensures FromUIDHex(other).Some?
    ensures var b := Identify(FromUIDHex(other).value, Settings(true, ft), Directory.Run(Directory.EMPTY, ops));
            match Directory.LatestLink(ops, ToUpper(uid))
            case Some(login) => b.err.NoError? && b.login == login && b.ftId == "" && b.matched.None?
            case None => b.err.NotInDirectory?
  {
    var db := Directory.Run(Directory.EMPTY, ops);
    Directory.ScansFindLatestAssociation(ops, uid, other, bytes);
    TrimSpaceTrims(uid);
    Directory.SameBytesExactly(uid, other, bytes);
    SameCodes(other, bytes);
    Directory.BadgeFoundExactly(bytes, db.entries);
  }
}
