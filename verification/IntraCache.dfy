/** The cache of 42 profiles: per-kind refreshes that must not disturb each other's fields. */
module IntraCache {
  import opened Text

  const TTL_NS := 12 * 3_600 * 1_000_000_000

  datatype Info = Info(
    fetchedAt: int,
    login: Option<string>, ftId: Option<string>, photo: Option<string>, userType: Option<string>,
    location: Option<string>, level: Option<real>, projects: seq<string>,
    coName: Option<string>, coColor: Option<string>, coImage: Option<string>, coId: Option<int>,
    coUserId: Option<int>, profileError: bool, coalitionError: bool)

  const BLANK := Info(0, None, None, None, None, None, None, [], None, None, None, None, None, false, false)

  type Cache = map<string, Info>

  function Peek(cache: Cache, key: string): Option<Info> {
    if ToLower(key) in cache then Some(cache[ToLower(key)]) else None
  }

  function Put(cache: Cache, key: string, info: Info): Cache {
    cache[ToLower(key) := info]
  }

  /** Times in nanoseconds; fetchedAt is kept in milliseconds. */
  function GetFresh(cache: Cache, key: string, now: int): Option<Info> {
    match Peek(cache, key)
    case Some(info) => if now - info.fetchedAt * 1_000_000 > TTL_NS then None else Some(info)
    case None => None
  }

  function StrPtrOrNil(s: string): (p: Option<string>)
    ensures p.None? <==> s == ""
    ensures p.Some? ==> p.value == s
  {
    if s == "" then None else Some(s)
  }

  // ---- What the 42 API returns ----

  datatype User = User(login: string, id: string, image: string, location: string, cursusIds: seq<int>,
                       level: Option<real>, projects: seq<string>)

  datatype Coalition = Coalition(id: int, name: string, slug: string, color: string, image: string, score: int)

  datatype CoalitionsUser = CoalitionsUser(id: int, coalitionId: int)

  function UserType(cursusIds: seq<int>): (t: string)
    ensures 21 in cursusIds ==> t == "Student"
    ensures 21 !in cursusIds && 9 in cursusIds ==> t == "Piscine"
    ensures 21 !in cursusIds && 9 !in cursusIds ==> t == ""
  {
    if 21 in cursusIds then "Student" else if 9 in cursusIds then "Piscine" else ""
  }

  // ---- Choosing the coalition to show ----

  const PRIORITY := ["harkonnen", "corrino", "atreides"]
  const SECONDARY := ["hordes", "alliance"]

  predicate Named(c: Coalition, key: string) {
    EqualFold(c.slug, key) || EqualFold(c.name, key)
  }

  function FirstNamed(coalitions: seq<Coalition>, key: string): Option<Coalition> {
    if coalitions == [] then None
    else if Named(coalitions[0], key) then Some(coalitions[0])
    else FirstNamed(coalitions[1..], key)
  }

  function FirstOf(coalitions: seq<Coalition>, keys: seq<string>): Option<Coalition> {
    if keys == [] then None
    else if FirstNamed(coalitions, keys[0]).Some? then FirstNamed(coalitions, keys[0])
    else FirstOf(coalitions, keys[1..])
  }

  method Best(coalitions: seq<Coalition>) returns (best: Coalition)
    requires coalitions != []
    ensures exists i: nat :: IsBest(coalitions, i) && best == coalitions[i]
  {
    best := coalitions[0];
    ghost var at := 0;
    for i := 1 to |coalitions|
      invariant 0 <= at < i && best == coalitions[at]
      invariant forall k :: 0 <= k < at ==> coalitions[k].score < best.score
      invariant forall k :: at <= k < i ==> coalitions[k].score <= best.score
    {
      if coalitions[i].score > best.score {
        best, at := coalitions[i], i;
      }
    }
    assert IsBest(coalitions, at);
  }

  /** The first coalition of maximal score. */
  ghost predicate IsBest(coalitions: seq<Coalition>, i: nat) {
    && i < |coalitions|
    && (forall k :: 0 <= k < i ==> coalitions[k].score < coalitions[i].score)
    && (forall k :: i <= k < |coalitions| ==> coalitions[k].score <= coalitions[i].score)
  }

  function BestOf(coalitions: seq<Coalition>): Coalition
    requires coalitions != []
  {
    if |coalitions| == 1 then coalitions[0]
    else
      var rest := BestOf(coalitions[..|coalitions| - 1]);
      var last := coalitions[|coalitions| - 1];
      if last.score > rest.score then last else rest
  }

  function Pick(coalitions: seq<Coalition>): Option<Coalition> {
    if FirstOf(coalitions, PRIORITY).Some? then FirstOf(coalitions, PRIORITY)
    else if FirstOf(coalitions, SECONDARY).Some? then FirstOf(coalitions, SECONDARY)
    else if coalitions == [] then None
    else Some(BestOf(coalitions))
  }

  lemma {:induction false} BestOfIsBest(coalitions: seq<Coalition>) returns (i: nat)
    requires coalitions != []
    ensures IsBest(coalitions, i) && BestOf(coalitions) == coalitions[i]
  {
    if |coalitions| == 1 {
      i := 0;
    } else {
      var n := |coalitions| - 1;
      i := BestOfIsBest(coalitions[..n]);
      if coalitions[n].score > BestOf(coalitions[..n]).score {
        i := n;
      }
    }
  }

  lemma {:induction false} FirstNamedFinds(coalitions: seq<Coalition>, key: string)
    ensures match FirstNamed(coalitions, key)
            case Some(c) => c in coalitions && Named(c, key)
            case None => forall c :: c in coalitions ==> !Named(c, key)
  {
    if coalitions != [] && !Named(coalitions[0], key) {
      FirstNamedFinds(coalitions[1..], key);
    }
  }

  /** c has the k-th name, and no coalition has an earlier one. */
  ghost predicate Leads(c: Coalition, coalitions: seq<Coalition>, keys: seq<string>, k: nat) {
    k < |keys| && Named(c, keys[k]) && forall j, d :: 0 <= j < k && d in coalitions ==> !Named(d, keys[j])
  }

  lemma {:induction false} FirstOfFinds(coalitions: seq<Coalition>, keys: seq<string>) returns (k: nat)
    ensures match FirstOf(coalitions, keys)
            case Some(c) => c in coalitions && Leads(c, coalitions, keys, k)
            case None => forall c, j :: c in coalitions && 0 <= j < |keys| ==> !Named(c, keys[j])
    decreases |keys|
  {
    k := 0;
    if keys != [] {
      FirstNamedFinds(coalitions, keys[0]);
      if FirstNamed(coalitions, keys[0]).None? {
        var r := FirstOfFinds(coalitions, keys[1..]);
        k := r + 1;
        assert forall j :: 0 < j < |keys| ==> keys[j] == keys[1..][j - 1];
      }
    }
  }

  /** One of the coalitions is picked unless there is none, and a main one wins over any other. */
  lemma PickIsAMember(coalitions: seq<Coalition>)
    ensures Pick(coalitions).None? <==> coalitions == []
    ensures Pick(coalitions).Some? ==> Pick(coalitions).value in coalitions
    ensures Pick(coalitions).Some?
            && (exists c, k :: c in coalitions && 0 <= k < |PRIORITY| && Named(c, PRIORITY[k])) ==>
              exists k :: 0 <= k < |PRIORITY| && Named(Pick(coalitions).value, PRIORITY[k])
  {
    var i := FirstOfFinds(coalitions, PRIORITY);
    var j := FirstOfFinds(coalitions, SECONDARY);
    if coalitions != [] { var k := BestOfIsBest(coalitions); }
  }

  method PickCoalition(coalitions: seq<Coalition>) returns (picked: Option<Coalition>)
    ensures picked == Pick(coalitions)
  {
    picked := FirstOf(coalitions, PRIORITY);
    if picked.Some? {
      return;
    }
    picked := FirstOf(coalitions, SECONDARY);
    if picked.Some? {
      return;
    }
    if |coalitions| == 0 {
      return None;
    }
    var best := Best(coalitions);
    OneBest(coalitions, best);
    return Some(best);
  }

  lemma BestAtMostOnce(coalitions: seq<Coalition>, i: nat, j: nat)
    requires IsBest(coalitions, i) && IsBest(coalitions, j)
    ensures i == j
  {
    var a, b := coalitions[i].score, coalitions[j].score;
  }

  lemma OneBest(coalitions: seq<Coalition>, c: Coalition)
    requires coalitions != [] && exists i: nat :: IsBest(coalitions, i) && c == coalitions[i]
    ensures c == BestOf(coalitions)
  {
    var i: nat :| IsBest(coalitions, i) && c == coalitions[i];
    var j := BestOfIsBest(coalitions);
    BestAtMostOnce(coalitions, i, j);
  }

  // ---- The two refreshes ----

  function FromUser(user: User, at: int, cached: Info): Info {
    cached.(fetchedAt := at, login := StrPtrOrNil(user.login), ftId := StrPtrOrNil(user.id),
            photo := StrPtrOrNil(user.image), userType := StrPtrOrNil(UserType(user.cursusIds)),
            location := StrPtrOrNil(user.location), level := user.level, projects := user.projects,
            profileError := false)
  }

  function FirstSeat(cus: seq<CoalitionsUser>, id: int): Option<int> {
    if cus == [] then None else if cus[0].coalitionId == id then Some(cus[0].id) else FirstSeat(cus[1..], id)
  }

  function SeatOr(cus: Option<seq<CoalitionsUser>>, id: int, before: Option<int>): Option<int> {
    if cus.Some? && FirstSeat(cus.value, id).Some? then FirstSeat(cus.value, id) else before
  }

  function FromCoalition(picked: Option<Coalition>, cus: Option<seq<CoalitionsUser>>, at: int, cached: Info): Info {
    match picked
    case None =>
      cached.(fetchedAt := at, coalitionError := false, coName := None, coColor := None, coImage := None, coId := None)
    case Some(c) =>
      cached.(fetchedAt := at, coalitionError := false, coName := StrPtrOrNil(c.name), coColor := StrPtrOrNil(c.color),
              coImage := StrPtrOrNil(c.image), coId := Some(c.id), coUserId := SeatOr(cus, c.id, cached.coUserId))
  }

  /** One refresh of one entry; display is the entry's own login, and None stands for a failed request. */
  datatype Event =
    | Profile(user: Option<User>, at: int)
    | Coalitions(display: string, coalitions: Option<seq<Coalition>>, cus: Option<seq<CoalitionsUser>>, at: int)

  function LoginFor(cached: Info, display: string): string {
    if cached.login.Some? then cached.login.value else display
  }

  function Refreshed(cached: Info, e: Event): Info {
    match e
    case Profile(None, _) => cached.(profileError := true)
    case Profile(Some(user), at) => FromUser(user, at, cached)
    case Coalitions(_, None, _, _) => cached.(coalitionError := true)
    case Coalitions(_, Some(coalitions), cus, at) => FromCoalition(Pick(coalitions), cus, at, cached)
  }

  function OrBlank(info: Option<Info>): Info {
    if info.Some? then info.value else BLANK
  }

  /** A refresh that asks nothing: no key, or no login to ask the coalitions of. */
  predicate Skips(cache: Cache, key: string, e: Event) {
    key == "" || (e.Coalitions? && LoginFor(OrBlank(Peek(cache, key)), e.display) == "")
  }

  function Refresh(cache: Cache, key: string, e: Event): Cache {
    if Skips(cache, key, e) then cache else Put(cache, key, Refreshed(OrBlank(Peek(cache, key)), e))
  }

  function RefreshAll(cache: Cache, key: string, events: seq<Event>): Cache {
    if events == [] then cache
    else Refresh(RefreshAll(cache, key, events[..|events| - 1]), key, events[|events| - 1])
  }

  // ---- What a record holds ----

  /** The profile half of a record is what this user's profile says, and blank without one. */
  ghost predicate ProfileOf(info: Info, user: Option<User>) {
    match user
    case Some(u) =>
      && info.login == StrPtrOrNil(u.login) && info.ftId == StrPtrOrNil(u.id) && info.photo == StrPtrOrNil(u.image)
      && info.userType == StrPtrOrNil(UserType(u.cursusIds)) && info.location == StrPtrOrNil(u.location)
      && info.level == u.level && info.projects == u.projects
    case None =>
      && info.login.None? && info.ftId.None? && info.photo.None? && info.userType.None? && info.location.None?
      && info.level.None? && info.projects == []
  }

  ghost predicate CoalitionOf(info: Info, picked: Option<Option<Coalition>>) {
    match picked
    case Some(Some(c)) =>
      && info.coName == StrPtrOrNil(c.name) && info.coColor == StrPtrOrNil(c.color)
      && info.coImage == StrPtrOrNil(c.image) && info.coId == Some(c.id)
    case _ => info.coName.None? && info.coColor.None? && info.coImage.None? && info.coId.None?
  }

  // ---- In bulk ----

  /** The bulk refresh is the single one for every entry in turn; an entry whose request fails counts as done. */
  method RefreshEach(cache: Cache, keys: seq<string>, events: seq<Event>) returns (after: Cache, count: nat)
    requires |keys| == |events|
    ensures after == RefreshInTurn(cache, keys, events) && count == |keys|
  {
    after, count := cache, 0;
    for i := 0 to |keys|
      invariant after == RefreshInTurn(cache, keys[..i], events[..i]) && count == i
    {
      assert keys[..i + 1][..i] == keys[..i] && events[..i + 1][..i] == events[..i];
      after := Refresh(after, keys[i], events[i]);
      count := count + 1;
    }
    assert keys[..|keys|] == keys && events[..|events|] == events;
  }

  function RefreshInTurn(cache: Cache, keys: seq<string>, events: seq<Event>): Cache
    requires |keys| == |events|
  {
    if keys == [] then cache
    else
      var n := |keys| - 1;
      Refresh(RefreshInTurn(cache, keys[..n], events[..n]), keys[n], events[n])
  }

  function EventsOf(keys: seq<string>, events: seq<Event>, key: string): seq<Event>
    requires |keys| == |events|
  {
    if keys == [] then []
    else
      var n := |keys| - 1;
      EventsOf(keys[..n], events[..n], key) + if ToLower(keys[n]) == ToLower(key) then [events[n]] else []
  }

  lemma SameKey(cache: Cache, a: string, b: string, e: Event)
    requires ToLower(a) == ToLower(b)
    ensures Refresh(cache, a, e) == Refresh(cache, b, e)
  {
    assert |ToLower(a)| == |a| && |ToLower(b)| == |b|;
  }

  /** In a bulk refresh each key sees exactly its own events, as if nothing else had been refreshed. */
  lemma {:induction false} BulkSeesOwnEvents(cache: Cache, keys: seq<string>, events: seq<Event>, key: string)
    requires |keys| == |events|
    ensures Peek(RefreshInTurn(cache, keys, events), key)
         == Peek(RefreshAll(cache, key, EventsOf(keys, events, key)), key)
    decreases |keys|
  {
    if keys != [] {
      var n := |keys| - 1;
      var own := EventsOf(keys[..n], events[..n], key);
      BulkSeesOwnEvents(cache, keys[..n], events[..n], key);
      if ToLower(keys[n]) == ToLower(key) {
        SameKey(RefreshInTurn(cache, keys[..n], events[..n]), keys[n], key, events[n]);
        assert (own + [events[n]])[..|own|] == own;
      } else {
        assert own + [] == own;
      }
    }
  }

  /** The seat noted with a coalition: the first of the user's seats that is in it, or else the one before. */
  lemma {:induction false} SeatIs(cus: seq<CoalitionsUser>, id: int, before: Option<int>) returns (i: nat)
    ensures i <= |cus| && forall j :: 0 <= j < i ==> cus[j].coalitionId != id
    ensures i < |cus| ==> cus[i].coalitionId == id
    ensures SeatOr(Some(cus), id, before) == (if i < |cus| then Some(cus[i].id) else before)
    ensures SeatOr(None, id, before) == before
  {
    i := 0;
    if cus != [] && cus[0].coalitionId != id {
      var j := SeatIs(cus[1..], id, before);
      i := j + 1;
      assert forall k :: 0 < k < |cus| ==> cus[k] == cus[1..][k - 1];
    }
  }

  /** Refreshing the coalition notes that seat, and leaves it alone when nothing is picked or fetched. */
  lemma SeatsAfterRefresh(info: Info, e: Event)
    ensures Refreshed(info, e).coUserId ==
              if e.Coalitions? && e.coalitions.Some? && Pick(e.coalitions.value).Some?
              then SeatOr(e.cus, Pick(e.coalitions.value).value.id, info.coUserId) else info.coUserId
  {
  }

  // ---- Which coalition is picked ----

  /** The coalition goes by this name, in lower case, in its slug or its name. */
  predicate GoesBy(c: Coalition, name: string) {
    ToLower(c.slug) == name || ToLower(c.name) == name
  }

  /** Coalition i is the first to go by the k-th name, and none goes by an earlier name. */
  predicate Earliest(coalitions: seq<Coalition>, names: seq<string>, i: nat, k: nat) {
    && i < |coalitions| && k < |names| && GoesBy(coalitions[i], names[k])
    && (forall j :: 0 <= j < i ==> !GoesBy(coalitions[j], names[k]))
    && (forall j, m :: 0 <= j < |coalitions| && 0 <= m < k ==> !GoesBy(coalitions[j], names[m]))
  }

  predicate NoneGoesBy(coalitions: seq<Coalition>, names: seq<string>) {
    forall i, k :: 0 <= i < |coalitions| && 0 <= k < |names| ==> !GoesBy(coalitions[i], names[k])
  }

  predicate InLowerCase(names: seq<string>) {
    forall k :: 0 <= k < |names| ==> ToLower(names[k]) == names[k]
  }

  lemma {:induction false} FirstNamedAt(coalitions: seq<Coalition>, name: string) returns (i: nat)
    requires ToLower(name) == name
    ensures i <= |coalitions| && forall j :: 0 <= j < i ==> !GoesBy(coalitions[j], name)
    ensures FirstNamed(coalitions, name) == if i < |coalitions| then Some(coalitions[i]) else None
    ensures i < |coalitions| ==> GoesBy(coalitions[i], name)
  {
    i := 0;
    if coalitions != [] && !Named(coalitions[0], name) {
      var j := FirstNamedAt(coalitions[1..], name);
      i := j + 1;
      assert forall m :: 0 < m < |coalitions| ==> coalitions[m] == coalitions[1..][m - 1];
    }
  }

  lemma {:induction false} FirstOfAt(coalitions: seq<Coalition>, names: seq<string>) returns (i: nat, k: nat)
    requires InLowerCase(names)
    ensures match FirstOf(coalitions, names)
            case None => NoneGoesBy(coalitions, names)
            case Some(c) => Earliest(coalitions, names, i, k) && c == coalitions[i]
    decreases |names|
  {
    i, k := 0, 0;
    if names != [] {
      i := FirstNamedAt(coalitions, names[0]);
      if i == |coalitions| {
        var rest := names[1..];
        assert forall m :: 0 < m < |names| ==> names[m] == rest[m - 1];
        i, k := FirstOfAt(coalitions, rest);
        k := k + 1;
      }
    }
  }

  /** The picked coalition: the one with the earliest main name; without any of those, the one with the
      earliest secondary name; without those too, the first of the highest score. */
  lemma PickExactly(coalitions: seq<Coalition>) returns (i: nat, k: nat)
    ensures var main, secondary := ["harkonnen", "corrino", "atreides"], ["hordes", "alliance"];
            match Pick(coalitions)
            case None => coalitions == []
            case Some(c) =>
              && i < |coalitions| && c == coalitions[i]
              && if !NoneGoesBy(coalitions, main) then Earliest(coalitions, main, i, k)
                 else if !NoneGoesBy(coalitions, secondary) then Earliest(coalitions, secondary, i, k)
                 else IsBest(coalitions, i)
  {
    assert InLowerCase(PRIORITY) && InLowerCase(SECONDARY);
    i, k := FirstOfAt(coalitions, PRIORITY);
    if FirstOf(coalitions, PRIORITY).None? {
      i, k := FirstOfAt(coalitions, SECONDARY);
      if FirstOf(coalitions, SECONDARY).None? && coalitions != [] {
        i := BestOfIsBest(coalitions);
      }
    }
  }
}
