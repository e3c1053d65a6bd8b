/** The life of a cached 42 record under refreshes of both kinds and badge resolutions, told by the requests
    that were made for its key. A resolution writes a whole record and keeps nothing of the one before. */
module RecordHistory {
  import opened Text
  import opened Wiegand
  import opened IntraCache
  import Directory
  import Resolve

  /** One request, its time in milliseconds, and its answer, where None is a failure. A profile without a login
      counts with the login it was asked for. resolving: sent by a resolution, not by a refresh. */
  datatype Request =
    | ProfileAsked(user: Option<User>, resolving: bool, at: int)
    | CoalitionsAsked(list: Option<seq<Coalition>>, resolving: bool, at: int)

  /** A refresh, the resolution of a badge known by its link to a login alone, or the giving of points, which
      notes the user's seat in the coalition when it had to be looked up and was found. */
  datatype Op =
    | Refreshing(key: string, event: Event)
    | Resolving(login: string, now: nat, remote: Resolve.Remote)
    | GivingPoints(key: string, seat: Option<int>)

  function KeyOf(op: Op): string {
    match op
    case Refreshing(key, _) => key
    case Resolving(login, _, _) => login
    case GivingPoints(key, _) => key
  }

  function After(cache: Cache, op: Op): Cache {
    match op
    case Refreshing(key, e) => Refresh(cache, key, e)
    case Resolving(login, now, remote) => Resolve.ResolveIntra(cache, login, "", now, remote).cache
    case GivingPoints(key, seat) =>
      if key == "" || seat.None? || Peek(cache, key).None? then cache
      else Put(cache, key, Peek(cache, key).value.(coUserId := seat))
  }

  function RunOps(cache: Cache, ops: seq<Op>): Cache {
    if ops == [] then cache else After(RunOps(cache, ops[..|ops| - 1]), ops[|ops| - 1])
  }

  // ---- Requests ----

  function WithLogin(user: User, asked: string): User {
    user.(login := Resolve.OrElse(user.login, asked))
  }

  function Sent(cache: Cache, op: Op): seq<Request> {
    match op
    case Refreshing(key, e) =>
      if Skips(cache, key, e) then []
      else if e.Profile? then [ProfileAsked(e.user, false, e.at)]
      else [CoalitionsAsked(e.coalitions, false, e.at)]
    case Resolving(login, now, remote) =>
      if login == "" || GetFresh(cache, login, now).Some? then []
      else
        var at := now / 1_000_000;
        if remote.user.None? then [ProfileAsked(None, true, at)]
        else
          [ProfileAsked(Some(WithLogin(remote.user.value, login)), true, at),
           CoalitionsAsked(remote.coalitions, true, at)]
    case GivingPoints(_, _) => []
  }

  predicate Concerns(op: Op, key: string) {
    ToLower(KeyOf(op)) == ToLower(key)
  }

  /** The requests made for a key, in whatever spelling, along a run. */
  function Log(cache: Cache, ops: seq<Op>, key: string): seq<Request> {
    if ops == [] then []
    else
      var n := |ops| - 1;
      Log(cache, ops[..n], key) + if Concerns(ops[n], key) then Sent(RunOps(cache, ops[..n]), ops[n]) else []
  }

  // ---- What the requests say ----

  function LatestProfile(log: seq<Request>): Option<User> {
    if log == [] then None
    else
      var r, before := log[|log| - 1], log[..|log| - 1];
      if r.ProfileAsked? && r.user.Some? then r.user else LatestProfile(before)
  }

  /** What the latest successful coalition request led to pick, if there was one. */
  function LatestPicked(log: seq<Request>): Option<Option<Coalition>> {
    if log == [] then None
    else
      var r, before := log[|log| - 1], log[..|log| - 1];
      if r.CoalitionsAsked? && r.list.Some? then Some(Pick(r.list.value)) else LatestPicked(before)
  }

  /** The time of the latest successful request of either kind, or 0. */
  function LatestSuccess(log: seq<Request>): int {
    if log == [] then 0
    else
      var r := log[|log| - 1];
      if (r.ProfileAsked? && r.user.Some?) || (r.CoalitionsAsked? && r.list.Some?) then r.at
      else LatestSuccess(log[..|log| - 1])
  }

  predicate ProfileFailedLast(log: seq<Request>) {
    log != []
    && (var r := log[|log| - 1];
        if r.ProfileAsked? then r.user.None? else ProfileFailedLast(log[..|log| - 1]))
  }

  predicate CoalitionsFailedLast(log: seq<Request>) {
    log != []
    && (var r := log[|log| - 1];
        if r.CoalitionsAsked? then r.list.None? else CoalitionsFailedLast(log[..|log| - 1]))
  }

  /** A profile request of this origin has failed since the latest successful one of any origin. */
  predicate ProfileFailures(log: seq<Request>, resolving: bool) {
    log != []
    && (var r := log[|log| - 1];
        if r.ProfileAsked? && r.user.Some? then false
        else (r.ProfileAsked? && r.resolving == resolving) || ProfileFailures(log[..|log| - 1], resolving))
  }

  /** A coalition request of this origin has failed since the latest successful one of any origin. */
  predicate CoalitionFailures(log: seq<Request>, resolving: bool) {
    log != []
    && (var r := log[|log| - 1];
        if r.CoalitionsAsked? && r.list.Some? then false
        else (r.CoalitionsAsked? && r.resolving == resolving) || CoalitionFailures(log[..|log| - 1], resolving))
  }

  /** The latest coalition request failed, and a resolution made it. */
  predicate LostLast(log: seq<Request>) {
    log != []
    && (var r := log[|log| - 1];
        if r.CoalitionsAsked? then r.list.None? && r.resolving else LostLast(log[..|log| - 1]))
  }

  /** What the record is. */
  ghost predicate AsKept(info: Info, log: seq<Request>) {
    && ProfileOf(info, LatestProfile(log)) && info.fetchedAt == LatestSuccess(log)
    && CoalitionOf(info, if CoalitionFailures(log, true) then None else LatestPicked(log))
    && info.profileError == ProfileFailures(log, false)
    && info.coalitionError == (CoalitionsFailedLast(log) && !LostLast(log))
  }

  // ---- Every operation keeps it ----

  /** The state of every tale about a log after one more request. */
  lemma ProfileSnoc(log: seq<Request>, r: Request)
    requires r.ProfileAsked?
    ensures LatestProfile(log + [r]) == if r.user.Some? then r.user else LatestProfile(log)
    ensures LatestSuccess(log + [r]) == if r.user.Some? then r.at else LatestSuccess(log)
    ensures ProfileFailures(log + [r], false) == (r.user.None? && (!r.resolving || ProfileFailures(log, false)))
    ensures LatestPicked(log + [r]) == LatestPicked(log)
    ensures CoalitionFailures(log + [r], true) == CoalitionFailures(log, true)
    ensures CoalitionsFailedLast(log + [r]) == CoalitionsFailedLast(log) && LostLast(log + [r]) == LostLast(log)
  {
    assert (log + [r])[..|log|] == log;
  }

  lemma CoalitionsSnoc(log: seq<Request>, r: Request)
    requires r.CoalitionsAsked?
    ensures LatestProfile(log + [r]) == LatestProfile(log)
    ensures LatestSuccess(log + [r]) == if r.list.Some? then r.at else LatestSuccess(log)
    ensures ProfileFailures(log + [r], false) == ProfileFailures(log, false)
    ensures LatestPicked(log + [r]) == if r.list.Some? then Some(Pick(r.list.value)) else LatestPicked(log)
    ensures CoalitionFailures(log + [r], true) == (r.list.None? && (r.resolving || CoalitionFailures(log, true)))
    ensures CoalitionsFailedLast(log + [r]) == r.list.None? && LostLast(log + [r]) == (r.list.None? && r.resolving)
  {
    assert (log + [r])[..|log|] == log;
  }

  lemma RefreshKept(info: Info, log: seq<Request>, e: Event)
    requires AsKept(info, log)
    ensures AsKept(Refreshed(info, e), log + [if e.Profile? then ProfileAsked(e.user, false, e.at)
                                              else CoalitionsAsked(e.coalitions, false, e.at)])
  {
    if e.Profile? {
      ProfileSnoc(log, ProfileAsked(e.user, false, e.at));
    } else {
      CoalitionsSnoc(log, CoalitionsAsked(e.coalitions, false, e.at));
    }
  }

  /** The record that a resolution writes, by itself. */
  lemma Fetched(login: string, user: User, remote: Resolve.Remote, now: nat)
    requires login != ""
    ensures var info := Resolve.FetchInfo(login, "", user, remote, now);
            && ProfileOf(info, Some(WithLogin(user, login)))
            && CoalitionOf(info, if remote.coalitions.Some? then Some(Pick(remote.coalitions.value)) else None)
            && !info.profileError && !info.coalitionError && info.fetchedAt == now / 1_000_000
  {
  }

  lemma ResolutionKept(log: seq<Request>, login: string, user: User, remote: Resolve.Remote, now: nat)
    requires login != ""
    ensures AsKept(Resolve.FetchInfo(login, "", user, remote, now),
                   log + [ProfileAsked(Some(WithLogin(user, login)), true, now / 1_000_000),
                          CoalitionsAsked(remote.coalitions, true, now / 1_000_000)])
  {
    var first := ProfileAsked(Some(WithLogin(user, login)), true, now / 1_000_000);
    var second := CoalitionsAsked(remote.coalitions, true, now / 1_000_000);
    Fetched(login, user, remote, now);
    ProfileSnoc(log, first);
    CoalitionsSnoc(log + [first], second);
    assert log + [first, second] == log + [first] + [second];
  }

  lemma OtherKey(cache: Cache, op: Op, key: string)
    requires !Concerns(op, key)
    ensures Peek(After(cache, op), key) == Peek(cache, key)
  {
  }

  lemma RefreshingKept(cache: Cache, op: Op, key: string, log: seq<Request>)
    requires op.Refreshing? && Concerns(op, key) && AsKept(OrBlank(Peek(cache, key)), log)
    ensures AsKept(OrBlank(Peek(After(cache, op), key)), log + Sent(cache, op))
  {
    if Skips(cache, op.key, op.event) {
      assert log + [] == log;
    } else {
      assert Peek(cache, op.key) == Peek(cache, key);
      RefreshKept(OrBlank(Peek(cache, key)), log, op.event);
    }
  }

  lemma ResolvingKept(cache: Cache, op: Op, key: string, log: seq<Request>)
    requires op.Resolving? && Concerns(op, key) && AsKept(OrBlank(Peek(cache, key)), log)
    ensures AsKept(OrBlank(Peek(After(cache, op), key)), log + Sent(cache, op))
  {
    if op.login == "" || GetFresh(cache, op.login, op.now).Some? {
      assert log + [] == log;
    } else if op.remote.user.None? {
      ProfileSnoc(log, ProfileAsked(None, true, op.now / 1_000_000));
    } else {
      ResolutionKept(log, op.login, op.remote.user.value, op.remote, op.now);
    }
  }

  lemma {:induction false} KeptRun(cache: Cache, ops: seq<Op>, key: string)
    requires Peek(cache, key).None?
    ensures AsKept(OrBlank(Peek(RunOps(cache, ops), key)), Log(cache, ops, key))
  {
    if ops != [] {
      var n := |ops| - 1;
      var before, log := RunOps(cache, ops[..n]), Log(cache, ops[..n], key);
      KeptRun(cache, ops[..n], key);
      if !Concerns(ops[n], key) {
        OtherKey(before, ops[n], key);
        assert log + [] == log;
      } else if ops[n].Refreshing? {
        RefreshingKept(before, ops[n], key, log);
      } else if ops[n].GivingPoints? {
        assert log + [] == log;
      } else {
        ResolvingKept(before, ops[n], key, log);
      }
    }
  }

  // ---- When the record is what its history promises ----

  lemma {:induction false} FailedLastMeans(log: seq<Request>)
    ensures ProfileFailedLast(log) <==> ProfileFailures(log, true) || ProfileFailures(log, false)
    ensures LostLast(log) ==> CoalitionsFailedLast(log)
  {
    if log != [] { FailedLastMeans(log[..|log| - 1]); }
  }

  /** Over every run of refreshes, resolutions and points given, on any keys, a key that had no record has one whose
      - profile fields are those of the latest successful profile request, and its time that of the latest
        success of either kind, always;
      - profile flag says whether the latest profile request failed, if and only if no resolution's profile
        request has failed since the latest success, or a refresh's has too;
      - coalition fields are those of the latest successful coalition request, if and only if no resolution's
        coalition request has failed since, or that success picked nothing, or there was none;
      - coalition flag says whether the latest coalition request failed, if and only if that request is not a
        failed one of a resolution. */
  lemma RecordIsPromisedExactly(cache: Cache, ops: seq<Op>, key: string)
    requires Peek(cache, key).None?
    ensures var info, log := OrBlank(Peek(RunOps(cache, ops), key)), Log(cache, ops, key);
            && ProfileOf(info, LatestProfile(log)) && info.fetchedAt == LatestSuccess(log)
            && (info.profileError == ProfileFailedLast(log) <==>
                  (ProfileFailures(log, true) ==> ProfileFailures(log, false)))
            && (CoalitionOf(info, LatestPicked(log)) <==>
                  !CoalitionFailures(log, true) || LatestPicked(log).None? || LatestPicked(log).value.None?)
            && (info.coalitionError == CoalitionsFailedLast(log) <==> !LostLast(log))
  {
    KeptRun(cache, ops, key);
    FailedLastMeans(Log(cache, ops, key));
  }

  // ---- Refreshes alone ----

  function Refreshes(keys: seq<string>, events: seq<Event>): seq<Op>
    requires |keys| == |events|
  {
    seq(|keys|, i requires 0 <= i < |keys| => Refreshing(keys[i], events[i]))
  }

  lemma {:induction false} NoneResolving(log: seq<Request>)
    requires forall r :: r in log ==> !r.resolving
    ensures !ProfileFailures(log, true) && !CoalitionFailures(log, true) && !LostLast(log)
  {
    if log != [] {
      var n := |log| - 1;
      assert log[n] in log && forall r :: r in log[..n] ==> r in log;
      NoneResolving(log[..n]);
    }
  }

  lemma {:induction false} RefreshesSend(cache: Cache, keys: seq<string>, events: seq<Event>, key: string)
    requires |keys| == |events|
    ensures RunOps(cache, Refreshes(keys, events)) == RefreshInTurn(cache, keys, events)
    ensures forall r :: r in Log(cache, Refreshes(keys, events), key) ==> !r.resolving
  {
    if keys != [] {
      var n := |keys| - 1;
      RefreshesSend(cache, keys[..n], events[..n], key);
      assert Refreshes(keys, events)[..n] == Refreshes(keys[..n], events[..n]);
    }
  }

  /** After any sequence of refreshes of any keys in any spelling, single or in bulk, every key that had no
      record has one whose profile fields are those of its latest successful profile request, whose coalition
      fields are those of its latest successful coalition request, and whose flags say whether the latest
      request of each kind failed. */
  lemma RefreshesMerge(cache: Cache, keys: seq<string>, events: seq<Event>, key: string)
    requires |keys| == |events| && Peek(cache, key).None?
    ensures var info := OrBlank(Peek(RefreshInTurn(cache, keys, events), key));
            var log := Log(cache, Refreshes(keys, events), key);
            && ProfileOf(info, LatestProfile(log)) && CoalitionOf(info, LatestPicked(log))
            && info.fetchedAt == LatestSuccess(log)
            && info.profileError == ProfileFailedLast(log) && info.coalitionError == CoalitionsFailedLast(log)
  {
    RefreshesSend(cache, keys, events, key);
    NoneResolving(Log(cache, Refreshes(keys, events), key));
    RecordIsPromisedExactly(cache, Refreshes(keys, events), key);
  }

  /** A coalition refresh asks for the login of the latest profile, or else for the entry's own, and asks
      nothing when there is neither. */
  lemma CoalitionsAreAskedFor(cache: Cache, ops: seq<Op>, key: string, e: Event)
    requires Peek(cache, key).None? && key != "" && e.Coalitions?
    ensures var latest := LatestProfile(Log(cache, ops, key));
            var login := if latest.Some? && latest.value.login != "" then latest.value.login else e.display;
            Sent(RunOps(cache, ops), Refreshing(key, e))
              == if login == "" then [] else [CoalitionsAsked(e.coalitions, false, e.at)]
  {
    KeptRun(cache, ops, key);
  }

  /** A profile refresh asks whenever the entry has a key. */
  lemma ProfilesAreAskedFor(cache: Cache, key: string, e: Event)
    requires e.Profile?
    ensures Sent(cache, Refreshing(key, e)) == if key == "" then [] else [ProfileAsked(e.user, false, e.at)]
    ensures key == "" ==> After(cache, Refreshing(key, e)) == cache
  {
  }

  // ---- The same badge again ----

  /** An operation that leaves this record alone: on another key, or a resolution while the record is fresh. */
  predicate Harmless(op: Op, login: string, info: Info) {
    !Concerns(op, login) || (op.Resolving? && op.now - info.fetchedAt * 1_000_000 <= TTL_NS)
  }

  lemma {:induction false} HarmlessRun(cache: Cache, ops: seq<Op>, login: string, info: Info)
    requires Peek(cache, login) == Some(info) && forall op :: op in ops ==> Harmless(op, login, info)
    ensures Peek(RunOps(cache, ops), login) == Some(info)
  {
    if ops != [] {
      var n := |ops| - 1;
      assert ops[n] in ops && forall op :: op in ops[..n] ==> op in ops;
      HarmlessRun(cache, ops[..n], login, info);
      if !Concerns(ops[n], login) { OtherKey(RunOps(cache, ops[..n]), ops[n], login); }
    }
  }

  /** Cache transparency over runs: after an unmatched badge has been resolved through its link and the 42 API,
      let anything happen to other keys and any badges be resolved; as long as directory and links say the
      same of the badge, each of its resolutions until 12 hours after that fetch gives exactly the same badge,
      asks nothing of the API and changes nothing. */
  lemma ResolvedAgainLater(text: string, again: string, db: Directory.Db, db': Directory.Db, cache: Cache, now: nat,
                           remote: Resolve.Remote, ops: seq<Op>, later: nat, other: Resolve.Remote, bytes: seq<Byte>)
    requires HexToBytes(text) == Some(bytes) && HexToBytes(again) == Some(bytes) && bytes != []
    requires var b := Resolve.Identify(FromUID(bytes).value, Resolve.Settings(true, true), db);
             var r := Resolve.ResolveIntra(cache, b.login, b.ftId, now, remote);
             && b.err.NoError? && b.entry.None?
             && Resolve.Identify(FromUID(bytes).value, Resolve.Settings(true, true), db') == b
             && r.info.Some? && later - r.info.value.fetchedAt * 1_000_000 <= TTL_NS
             && forall op :: op in ops ==> Harmless(op, b.login, r.info.value)
    ensures var first := Resolve.Resolution(text, Resolve.Settings(true, true), db, cache, now, remote);
            && first.Some?
            && var after := RunOps(first.value.cache, ops);
               Resolve.Resolution(again, Resolve.Settings(true, true), db', after, later, other)
                 == Some(Resolve.Outcome(first.value.badge, after, false))
  {
    var b := Resolve.Identify(FromUID(bytes).value, Resolve.Settings(true, true), db);
    var r := Resolve.ResolveIntra(cache, b.login, b.ftId, now, remote);
    Resolve.LinkedByLogin(FromUID(bytes).value, db);
    Resolve.CachedAfter(cache, b.login, b.ftId, now, remote);
    HarmlessRun(r.cache, ops, b.login, r.info.value);
    Resolve.ResolvedFrom(text, again, db, db', cache, now, remote, RunOps(r.cache, ops), later, other, bytes);
  }

  // ---- A coalition lost ----

  /** A resolution whose coalition request fails leaves a blank coalition and no flag, whatever was there. */
  lemma FailedCoalitionLeavesNoFlag(cache: Cache, login: string, now: nat, remote: Resolve.Remote)
    requires login != "" && GetFresh(cache, login, now).None? && remote.user.Some? && remote.coalitions.None?
    ensures var after := Peek(After(cache, Resolving(login, now, remote)), login);
            after.Some? && CoalitionOf(after.value, None) && !after.value.coalitionError
  {
    Fetched(login, remote.user.value, remote, now);
  }

  lemma OneMoreOp(cache: Cache, ops: seq<Op>, op: Op, key: string)
    ensures RunOps(cache, ops + [op]) == After(RunOps(cache, ops), op)
    ensures Concerns(op, key) ==> Log(cache, ops + [op], key) == Log(cache, ops, key) + Sent(RunOps(cache, ops), op)
  {
    assert (ops + [op])[..|ops|] == ops;
  }

  lemma FirstCoalition(login: string, c: Coalition, at: int)
    requires login != ""
    ensures var first := Refreshing(login, Coalitions(login, Some([c]), None, at));
            && Sent(map[], first) == [CoalitionsAsked(Some([c]), false, at)]
            && Peek(After(map[], first), login).Some? && Peek(After(map[], first), login).value.fetchedAt == at
  {
  }

  lemma LostLog(c: Coalition, user: User, at: int, later: int)
    ensures var log := [CoalitionsAsked(Some([c]), false, at)]
                       + [ProfileAsked(Some(user), true, later), CoalitionsAsked(None, true, later)];
            LatestPicked(log) == Some(Some(c)) && CoalitionsFailedLast(log)
  {
    var one := [CoalitionsAsked(Some([c]), false, at)];
    var asked, lost := ProfileAsked(Some(user), true, later), CoalitionsAsked(None, true, later);
    assert one + [asked, lost] == one + [asked] + [lost];
    ProfileSnoc(one, asked);
    CoalitionsSnoc(one + [asked], lost);
    PickIsAMember([c]);
  }

  /** A coalition is fetched; twelve hours later a resolution fails to fetch it again. The record has lost the
      coalition and does not say so. */
  lemma CoalitionIsForgotten(login: string, c: Coalition, user: User, at: nat, now: nat)
    requires login != "" && now - at * 1_000_000 > TTL_NS
    ensures var ops := [Refreshing(login, Coalitions(login, Some([c]), None, at))]
                       + [Resolving(login, now, Resolve.Remote(Some(user), None, None))];
            var info, log := OrBlank(Peek(RunOps(map[], ops), login)), Log(map[], ops, login);
            && LatestPicked(log) == Some(Some(c)) && CoalitionsFailedLast(log)
            && info.coName.None? && info.coId.None? && !info.coalitionError
  {
    var first := Refreshing(login, Coalitions(login, Some([c]), None, at));
    var second := Resolving(login, now, Resolve.Remote(Some(user), None, None));
    FirstCoalition(login, c, at);
    OneMoreOp(map[], [], first, login);
    assert [] + [first] == [first];
    assert Log(map[], [first], login) == [CoalitionsAsked(Some([c]), false, at)];
    OneMoreOp(map[], [first], second, login);
    assert Sent(After(map[], first), second)
        == [ProfileAsked(Some(WithLogin(user, login)), true, now / 1_000_000),
            CoalitionsAsked(None, true, now / 1_000_000)];
    FailedCoalitionLeavesNoFlag(After(map[], first), login, now, second.remote);
    LostLog(c, WithLogin(user, login), at, now / 1_000_000);
  }
}
