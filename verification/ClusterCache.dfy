/** LoadClusters: one cache entry guarded by a mutex that is released around every network call.

    A call takes the mutex for single steps only: to look at the cache, to write the occupants it
    fetched on a hit, to write the whole entry after a miss. Steps of different calls interleave
    freely, and the remote side may answer every request differently. A step that is not possible in
    a state leaves it as it is, so every sequence of steps is a run. */
module ClusterCache {
  import opened Text
  import opened Decimal
  import Sorting

  datatype Cluster = Cluster(id: int, name: string, cdn: string)

  /** clustersvg.Parse is a function of the text, so a layout is named by the text it was parsed from. */
  datatype Layout = Parsed(svg: string)

  datatype Location = Location(host: string, login: string, photo: string)

  datatype Occupant = Occupant(login: string, photo: string)

  datatype Data = Data(clusters: seq<Cluster>, layouts: map<int, Layout>, occupants: map<string, Occupant>)

  datatype Entry = Entry(campus: string, data: Data)

  const EMPTY_DATA := Data([], map[], map[])

  // ---- Ordering by the number in the name ----

  function DigitsFrom(s: string): string {
    if s != "" && IsDigit(s[0]) then [s[0]] + DigitsFrom(s[1..]) else ""
  }

  /** The leftmost run of digits, taken as long as possible. */
  function FirstDigits(s: string): string {
    if s == "" then "" else if IsDigit(s[0]) then DigitsFrom(s) else FirstDigits(s[1..])
  }

  /** A name without a number, or with one that overflows int, sorts last. */
  function NumberIn(name: string): nat {
    var digits := FirstDigits(name);
    if digits == "" || Value(digits) > MAX_INT64 then MAX_INT64 else Value(digits)
  }

  predicate NoDigits(s: string) {
    forall c :: c in s ==> !IsDigit(c)
  }

  lemma {:induction false} DigitsEnd(s: string) returns (k: nat)
    ensures k <= |s| && DigitsFrom(s) == s[..k] && AllDigits(s[..k]) && (k < |s| ==> !IsDigit(s[k]))
    ensures s != "" && IsDigit(s[0]) ==> k > 0
  {
    k := 0;
    if s != "" && IsDigit(s[0]) {
      var j := DigitsEnd(s[1..]);
      k := j + 1;
      assert s[..k] == [s[0]] + s[1..][..j];
    }
  }

  /** The digits are those from the first digit of the text up to the next other character. */
  lemma {:induction false} FirstDigitsAre(s: string) returns (i: nat, j: nat)
    ensures i <= j <= |s| && FirstDigits(s) == s[i..j] && NoDigits(s[..i]) && AllDigits(s[i..j])
    ensures if i == j then NoDigits(s) else j == |s| || !IsDigit(s[j])
  {
    i, j := 0, 0;
    if s != "" {
      if IsDigit(s[0]) {
        j := DigitsEnd(s);
      } else {
        i, j := FirstDigitsAre(s[1..]);
        assert s[..i + 1] == [s[0]] + s[1..][..i] && s[1..][i..j] == s[i + 1..j + 1] && s == [s[0]] + s[1..];
        i, j := i + 1, j + 1;
      }
    }
  }

  /** The first number in the name decides, and a name without one, or with one beyond 64 bits, comes last. */
  lemma NumberInName(name: string) returns (i: nat, j: nat)
    ensures i <= j <= |name| && NoDigits(name[..i]) && AllDigits(name[i..j])
    ensures if i == j then NoDigits(name) else j == |name| || !IsDigit(name[j])
    ensures NumberIn(name) == if i < j && Value(name[i..j]) <= 9_223_372_036_854_775_807 then Value(name[i..j])
                              else 9_223_372_036_854_775_807
  {
    i, j := FirstDigitsAre(name);
  }

  predicate Before(a: Cluster, b: Cluster) {
    NumberIn(a.name) < NumberIn(b.name)
  }

  function Ordered(list: seq<Cluster>): seq<Cluster> {
    Sorting.Sort(Before, list)
  }

  // ---- The two maps the code fills in loops ----

  /** The layout map after the given clusters: for a repeated id the last one stays. */
  function LayoutsOf(clusters: seq<Cluster>, svgs: seq<string>): map<int, Layout>
    requires |clusters| == |svgs|
  {
    if clusters == [] then map[]
    else
      var n := |clusters| - 1;
      LayoutsOf(clusters[..n], svgs[..n])[clusters[n].id := Parsed(svgs[n])]
  }

  function OccupantsOf(locations: seq<Location>): map<string, Occupant> {
    if locations == [] then map[]
    else
      var l := locations[|locations| - 1];
      OccupantsOf(locations[..|locations| - 1])[l.host := Occupant(l.login, l.photo)]
  }

  /** Fetches and parses the drawing of every cluster, and gives up at the first that cannot be fetched. */
  method BuildLayouts(clusters: seq<Cluster>, svg: string -> Option<string>)
    returns (layouts: Option<map<int, Layout>>, ghost svgs: seq<string>)
    ensures layouts.None? <==> exists c :: c in clusters && svg(c.cdn).None?
    ensures layouts.Some? ==>
              && |svgs| == |clusters| && layouts.value == LayoutsOf(clusters, svgs)
              && forall i :: 0 <= i < |clusters| ==> svg(clusters[i].cdn) == Some(svgs[i])
  {
    var out: map<int, Layout> := map[];
    svgs := [];
    for i := 0 to |clusters|
      invariant |svgs| == i && out == LayoutsOf(clusters[..i], svgs)
      invariant forall j :: 0 <= j < i ==> svg(clusters[j].cdn) == Some(svgs[j])
    {
      var drawing := svg(clusters[i].cdn);
      if drawing.None? {
        assert clusters[i] in clusters;
        return None, svgs;
      }
      assert clusters[..i + 1][..i] == clusters[..i] && (svgs + [drawing.value])[..i] == svgs;
      out := out[clusters[i].id := Parsed(drawing.value)];
      svgs := svgs + [drawing.value];
    }
    assert clusters[..|clusters|] == clusters;
    return Some(out), svgs;
  }

  /** Each host of a location has the login and photo of its last location, and no other host is there. */
  ghost predicate SeatsAre(occupants: map<string, Occupant>, locations: seq<Location>) {
    && (forall host :: host in occupants <==> exists i :: 0 <= i < |locations| && locations[i].host == host)
    && (forall i :: 0 <= i < |locations| && LastOfHost(locations, i) ==>
          && locations[i].host in occupants
          && occupants[locations[i].host].login == locations[i].login
          && occupants[locations[i].host].photo == locations[i].photo)
  }

  predicate LastOfHost(locations: seq<Location>, i: nat)
    requires i < |locations|
  {
    forall j :: i < j < |locations| ==> locations[j].host != locations[i].host
  }

  lemma {:induction false} HostsOfLocations(locations: seq<Location>, host: string)
    ensures host in OccupantsOf(locations) <==> exists i :: 0 <= i < |locations| && locations[i].host == host
  {
    if locations != [] {
      var n := |locations| - 1;
      HostsOfLocations(locations[..n], host);
      if i :| 0 <= i < |locations| && locations[i].host == host {
        if i < n { assert locations[..n][i].host == host; }
      }
    }
  }

  lemma {:induction false} LastOccupant(locations: seq<Location>, i: nat)
    requires i < |locations| && LastOfHost(locations, i)
    ensures locations[i].host in OccupantsOf(locations)
    ensures var o := OccupantsOf(locations)[locations[i].host];
            o.login == locations[i].login && o.photo == locations[i].photo
  {
    var n := |locations| - 1;
    if i < n {
      LastOccupant(locations[..n], i);
    }
  }

  lemma OccupantsAre(locations: seq<Location>)
    ensures SeatsAre(OccupantsOf(locations), locations)
  {
    forall host
      ensures host in OccupantsOf(locations) <==> exists i :: 0 <= i < |locations| && locations[i].host == host
    {
      HostsOfLocations(locations, host);
    }
    forall i | 0 <= i < |locations| && LastOfHost(locations, i)
      ensures locations[i].host in OccupantsOf(locations)
      ensures var o := OccupantsOf(locations)[locations[i].host];
              o.login == locations[i].login && o.photo == locations[i].photo
    {
      LastOccupant(locations, i);
    }
  }

  method BuildOccupants(locations: seq<Location>) returns (occupants: map<string, Occupant>)
    ensures occupants == OccupantsOf(locations) && SeatsAre(occupants, locations)
  {
    occupants := map[];
    for i := 0 to |locations|
      invariant occupants == OccupantsOf(locations[..i])
    {
      assert locations[..i + 1][..i] == locations[..i];
      occupants := occupants[locations[i].host := Occupant(locations[i].login, locations[i].photo)];
    }
    assert locations[..|locations|] == locations;
    OccupantsAre(locations);
  }

  /** Every listed cluster has a layout, and there is no other. */
  lemma {:induction false} LayoutsCoverClusters(clusters: seq<Cluster>, svgs: seq<string>, id: int)
    requires |clusters| == |svgs|
    ensures id in LayoutsOf(clusters, svgs) <==> exists i :: 0 <= i < |clusters| && clusters[i].id == id
  {
    if clusters != [] {
      var n := |clusters| - 1;
      LayoutsCoverClusters(clusters[..n], svgs[..n], id);
      if i :| 0 <= i < |clusters| && clusters[i].id == id {
        if i < n { assert clusters[..n][i].id == id; }
      }
    }
  }

  /** A cluster that no later one repeats has the layout of its own drawing. */
  lemma {:induction false} LayoutOfLast(clusters: seq<Cluster>, svgs: seq<string>, i: nat)
    requires |clusters| == |svgs| && i < |clusters|
    requires forall j :: i < j < |clusters| ==> clusters[j].id != clusters[i].id
    ensures clusters[i].id in LayoutsOf(clusters, svgs)
    ensures LayoutsOf(clusters, svgs)[clusters[i].id] == Parsed(svgs[i])
  {
    var n := |clusters| - 1;
    if i < n {
      LayoutOfLast(clusters[..n], svgs[..n], i);
    }
  }

  // ---- The state machine ----

  datatype Outcome = Loaded(data: Data) | Failed(data: Data)

  datatype Phase =
    | Start
    | HitOccupants(cached: Data)
    | HitStore(data: Data)
    | Listing
    | Drawing(list: seq<Cluster>, svgs: seq<string>)
    | MissOccupants(list: seq<Cluster>, svgs: seq<string>)
    | MissStore(data: Data)
    | Finished(outcome: Outcome)

  datatype Call = Call(campus: string, force: bool, phase: Phase)

  /** One answered network request: which call asked, for what, and what came back. */
  datatype Fetch =
    | ListFetched(call: nat, campus: string, list: seq<Cluster>)
    | DrawingFetched(call: nat, link: string, svg: string)
    | LocationsFetched(call: nat, campus: string, locations: seq<Location>)

  datatype State = State(cache: Entry, calls: seq<Call>, fetched: set<Fetch>)

  const INITIAL := State(Entry("", EMPTY_DATA), [], {})

  datatype Answer =
    | Fails
    | ListAnswer(list: seq<Cluster>)
    | DrawingAnswer(svg: string)
    | LocationsAnswer(locations: seq<Location>)

  datatype Step = Arrive(campus: string, force: bool) | Do(c: nat, answer: Answer)

  function SetPhase(s: State, c: nat, phase: Phase): State
    requires c < |s.calls|
  {
    s.(calls := s.calls[c := s.calls[c].(phase := phase)])
  }

  function Note(s: State, f: Fetch): State {
    s.(fetched := s.fetched + {f})
  }

  /** The next thing to do once the list and some drawings are there. */
  function Drawn(list: seq<Cluster>, svgs: seq<string>): Phase {
    if |svgs| < |list| then Drawing(list, svgs) else MissOccupants(list, svgs)
  }

  function Advance(s: State, c: nat, answer: Answer): State
    requires c < |s.calls|
  {
    var call := s.calls[c];
    match call.phase
    case Start =>
      if !call.force && s.cache.campus == call.campus && |s.cache.data.clusters| > 0
      then SetPhase(s, c, HitOccupants(s.cache.data))
      else SetPhase(s, c, Listing)
    case HitOccupants(cached) => (
      match answer
      case Fails => SetPhase(s, c, Finished(Failed(cached)))
      case LocationsAnswer(l) =>
        Note(SetPhase(s, c, HitStore(cached.(occupants := OccupantsOf(l)))), LocationsFetched(c, call.campus, l))
      case _ => s)
    case HitStore(data) =>
      SetPhase(s, c, Finished(Loaded(data))).(cache := s.cache.(data := s.cache.data.(occupants := data.occupants)))
    case Listing => (
      match answer
      case Fails => SetPhase(s, c, Finished(Failed(EMPTY_DATA)))
      case ListAnswer(l) => Note(SetPhase(s, c, Drawn(Ordered(l), [])), ListFetched(c, call.campus, l))
      case _ => s)
    case Drawing(list, svgs) => (
      match answer
      case Fails => SetPhase(s, c, Finished(Failed(EMPTY_DATA)))
      case DrawingAnswer(svg) =>
        if |svgs| < |list|
        then Note(SetPhase(s, c, Drawn(list, svgs + [svg])), DrawingFetched(c, list[|svgs|].cdn, svg))
        else s
      case _ => s)
    case MissOccupants(list, svgs) => (
      match answer
      case Fails => SetPhase(s, c, Finished(Failed(EMPTY_DATA)))
      case LocationsAnswer(l) =>
        if |svgs| == |list|
        then Note(SetPhase(s, c, MissStore(Data(list, LayoutsOf(list, svgs), OccupantsOf(l)))),
                  LocationsFetched(c, call.campus, l))
        else s
      case _ => s)
    case MissStore(data) => SetPhase(s, c, Finished(Loaded(data))).(cache := Entry(call.campus, data))
    case Finished(_) => s
  }

  function Exec(s: State, step: Step): State {
    match step
    case Arrive(campus, force) => s.(calls := s.calls + [Call(campus, force, Start)])
    case Do(c, answer) => if c < |s.calls| then Advance(s, c, answer) else s
  }

  function Run(s: State, steps: seq<Step>): State
    decreases |steps|
  {
    if steps == [] then s else Run(Exec(s, steps[0]), steps[1..])
  }

  // ---- Where data came from ----

  ghost predicate DrawnBy(fetched: set<Fetch>, call: nat, clusters: seq<Cluster>, svgs: seq<string>) {
    |svgs| <= |clusters| && forall i :: 0 <= i < |svgs| ==> DrawingFetched(call, clusters[i].cdn, svgs[i]) in fetched
  }

  ghost predicate ListedBy(fetched: set<Fetch>, call: nat, campus: string, clusters: seq<Cluster>) {
    exists raw :: ListFetched(call, campus, raw) in fetched && clusters == Ordered(raw)
  }

  /** One call fetched this list for this campus, sorted it, and fetched the drawing of every cluster in it. */
  ghost predicate FullyFetched(fetched: set<Fetch>, call: nat, campus: string, clusters: seq<Cluster>,
                               layouts: map<int, Layout>) {
    && ListedBy(fetched, call, campus, clusters)
    && exists svgs ::
         |svgs| == |clusters| && DrawnBy(fetched, call, clusters, svgs) && layouts == LayoutsOf(clusters, svgs)
  }

  ghost predicate Known(fetched: set<Fetch>, campus: string, data: Data) {
    exists call :: FullyFetched(fetched, call, campus, data.clusters, data.layouts)
  }

  ghost predicate SeatedBy(fetched: set<Fetch>, call: nat, campus: string, occupants: map<string, Occupant>) {
    exists l :: LocationsFetched(call, campus, l) in fetched && occupants == OccupantsOf(l)
  }

  /** What an error-free result promises. */
  ghost predicate Authentic(fetched: set<Fetch>, c: nat, call: Call, data: Data) {
    && Known(fetched, call.campus, data)
    && SeatedBy(fetched, c, call.campus, data.occupants)
    && (call.force ==> FullyFetched(fetched, c, call.campus, data.clusters, data.layouts))
  }

  ghost predicate CallOk(fetched: set<Fetch>, c: nat, call: Call) {
    match call.phase
    case HitOccupants(cached) => !call.force && Known(fetched, call.campus, cached)
    case HitStore(data) => !call.force && Authentic(fetched, c, call, data)
    case Drawing(list, svgs) => ListedBy(fetched, c, call.campus, list) && DrawnBy(fetched, c, list, svgs)
    case MissOccupants(list, svgs) =>
      |svgs| == |list| && ListedBy(fetched, c, call.campus, list) && DrawnBy(fetched, c, list, svgs)
    case MissStore(data) =>
      FullyFetched(fetched, c, call.campus, data.clusters, data.layouts) && Authentic(fetched, c, call, data)
    case Finished(Loaded(data)) => Authentic(fetched, c, call, data)
    case _ => true
  }

  /** Nothing is said of the cached occupants: they may belong to another campus. */
  ghost predicate CacheOk(s: State) {
    s.cache.data.clusters != [] ==> Known(s.fetched, s.cache.campus, s.cache.data)
  }

  ghost predicate Inv(s: State) {
    CacheOk(s) && forall c :: 0 <= c < |s.calls| ==> CallOk(s.fetched, c, s.calls[c])
  }

  // ---- The invariant is kept ----

  lemma FullyFetchedMore(fetched: set<Fetch>, more: set<Fetch>, call: nat, campus: string, clusters: seq<Cluster>,
                         layouts: map<int, Layout>)
    requires fetched <= more && FullyFetched(fetched, call, campus, clusters, layouts)
    ensures FullyFetched(more, call, campus, clusters, layouts)
  {
    ListedMore(fetched, more, call, campus, clusters);
    var svgs :| |svgs| == |clusters| && DrawnBy(fetched, call, clusters, svgs) && layouts == LayoutsOf(clusters, svgs);
    assert DrawnBy(more, call, clusters, svgs);
  }

  lemma ListedMore(fetched: set<Fetch>, more: set<Fetch>, call: nat, campus: string, clusters: seq<Cluster>)
    requires fetched <= more && ListedBy(fetched, call, campus, clusters)
    ensures ListedBy(more, call, campus, clusters)
  {
    var raw :| ListFetched(call, campus, raw) in fetched && clusters == Ordered(raw);
    assert ListFetched(call, campus, raw) in more;
  }

  lemma KnownMore(fetched: set<Fetch>, more: set<Fetch>, campus: string, data: Data)
    requires fetched <= more && Known(fetched, campus, data)
    ensures Known(more, campus, data)
  {
    var call :| FullyFetched(fetched, call, campus, data.clusters, data.layouts);
    FullyFetchedMore(fetched, more, call, campus, data.clusters, data.layouts);
  }

  lemma AuthenticMore(fetched: set<Fetch>, more: set<Fetch>, c: nat, call: Call, data: Data)
    requires fetched <= more && Authentic(fetched, c, call, data)
    ensures Authentic(more, c, call, data)
  {
    KnownMore(fetched, more, call.campus, data);
    var l :| LocationsFetched(c, call.campus, l) in fetched && data.occupants == OccupantsOf(l);
    assert LocationsFetched(c, call.campus, l) in more;
    if call.force {
      FullyFetchedMore(fetched, more, c, call.campus, data.clusters, data.layouts);
    }
  }

  lemma CallOkMore(fetched: set<Fetch>, more: set<Fetch>, c: nat, call: Call)
    requires fetched <= more && CallOk(fetched, c, call)
    ensures CallOk(more, c, call)
  {
    match call.phase
    case HitOccupants(cached) => KnownMore(fetched, more, call.campus, cached);
    case HitStore(data) => AuthenticMore(fetched, more, c, call, data);
    case Drawing(list, svgs) => ListedMore(fetched, more, c, call.campus, list);
    case MissOccupants(list, svgs) => ListedMore(fetched, more, c, call.campus, list);
    case MissStore(data) =>
      AuthenticMore(fetched, more, c, call, data);
      FullyFetchedMore(fetched, more, c, call.campus, data.clusters, data.layouts);
    case Finished(Loaded(data)) => AuthenticMore(fetched, more, c, call, data);
    case _ =>
  }

  lemma ListingAnswered(s: State, c: nat, answer: Answer)
    requires c < |s.calls| && s.calls[c].phase.Listing?
    ensures CallOk(Advance(s, c, answer).fetched, c, Advance(s, c, answer).calls[c])
  {
    if answer.ListAnswer? {
      var s' := Advance(s, c, answer);
      assert ListFetched(c, s.calls[c].campus, answer.list) in s'.fetched;
      assert ListedBy(s'.fetched, c, s.calls[c].campus, Ordered(answer.list));
    }
  }

  lemma HitAnswered(s: State, c: nat, answer: Answer)
    requires c < |s.calls| && s.calls[c].phase.HitOccupants? && CallOk(s.fetched, c, s.calls[c])
    ensures CallOk(Advance(s, c, answer).fetched, c, Advance(s, c, answer).calls[c])
  {
    if answer.LocationsAnswer? {
      var s', call := Advance(s, c, answer), s.calls[c];
      assert LocationsFetched(c, call.campus, answer.locations) in s'.fetched;
      KnownMore(s.fetched, s'.fetched, call.campus, call.phase.cached);
      var k :| FullyFetched(s'.fetched, k, call.campus, call.phase.cached.clusters, call.phase.cached.layouts);
      var data := call.phase.cached.(occupants := OccupantsOf(answer.locations));
      assert FullyFetched(s'.fetched, k, call.campus, data.clusters, data.layouts);
    }
  }

  lemma MissAnswered(s: State, c: nat, answer: Answer)
    requires c < |s.calls| && s.calls[c].phase.MissOccupants? && CallOk(s.fetched, c, s.calls[c])
    ensures CallOk(Advance(s, c, answer).fetched, c, Advance(s, c, answer).calls[c])
  {
    if answer.LocationsAnswer? {
      var s', call := Advance(s, c, answer), s.calls[c];
      assert LocationsFetched(c, call.campus, answer.locations) in s'.fetched;
      ListedMore(s.fetched, s'.fetched, c, call.campus, call.phase.list);
      assert FullyFetched(s'.fetched, c, call.campus, call.phase.list, LayoutsOf(call.phase.list, call.phase.svgs));
    }
  }

  lemma DrawingAnswered(s: State, c: nat, answer: Answer)
    requires c < |s.calls| && s.calls[c].phase.Drawing? && CallOk(s.fetched, c, s.calls[c])
    ensures CallOk(Advance(s, c, answer).fetched, c, Advance(s, c, answer).calls[c])
  {
    CallOkMore(s.fetched, Advance(s, c, answer).fetched, c, s.calls[c]);
  }

  lemma StartsOrStores(s: State, c: nat, answer: Answer)
    requires CacheOk(s) && c < |s.calls| && CallOk(s.fetched, c, s.calls[c])
    requires s.calls[c].phase.Start? || s.calls[c].phase.HitStore? || s.calls[c].phase.MissStore?
    ensures CallOk(Advance(s, c, answer).fetched, c, Advance(s, c, answer).calls[c])
  {
  }

  lemma ActingCall(s: State, c: nat, answer: Answer)
    requires Inv(s) && c < |s.calls|
    ensures CallOk(Advance(s, c, answer).fetched, c, Advance(s, c, answer).calls[c])
  {
    assert CallOk(s.fetched, c, s.calls[c]);
    match s.calls[c].phase
    case HitOccupants(_) => HitAnswered(s, c, answer);
    case Listing => ListingAnswered(s, c, answer);
    case Drawing(_, _) => DrawingAnswered(s, c, answer);
    case MissOccupants(_, _) => MissAnswered(s, c, answer);
    case Finished(_) =>
    case _ => StartsOrStores(s, c, answer);
  }

  lemma CacheStep(s: State, c: nat, answer: Answer)
    requires Inv(s) && c < |s.calls|
    ensures CacheOk(Advance(s, c, answer))
  {
    var s' := Advance(s, c, answer);
    assert CallOk(s.fetched, c, s.calls[c]);
    if s.cache.data.clusters != [] {
      KnownMore(s.fetched, s'.fetched, s.cache.campus, s.cache.data);
      var k :| FullyFetched(s'.fetched, k, s.cache.campus, s.cache.data.clusters, s.cache.data.layouts);
    }
  }

  lemma InvStep(s: State, step: Step)
    requires Inv(s)
    ensures Inv(Exec(s, step))
  {
    var s' := Exec(s, step);
    if step.Do? && step.c < |s.calls| {
      CacheStep(s, step.c, step.answer);
      forall d | 0 <= d < |s'.calls|
        ensures CallOk(s'.fetched, d, s'.calls[d])
      {
        assert CallOk(s.fetched, d, s.calls[d]);
        if d == step.c { ActingCall(s, d, step.answer); } else { CallOkMore(s.fetched, s'.fetched, d, s.calls[d]); }
      }
    }
  }

  lemma {:induction false} InvRun(s: State, steps: seq<Step>)
    requires Inv(s)
    ensures Inv(Run(s, steps))
    decreases |steps|
  {
    if steps != [] {
      InvStep(s, steps[0]);
      InvRun(Exec(s, steps[0]), steps[1..]);
    }
  }

  // ---- Main results ----

  lemma OrderIsStrictWeak()
    ensures Sorting.StrictWeakOrder(Before)
  {
  }

  /** Step i of the run is the answer that this fetch notes, to a call that was waiting for just that. */
  ghost predicate AnsweredAt(steps: seq<Step>, i: nat, f: Fetch) {
    i < |steps| && AnswersWith(Run(INITIAL, steps[..i]), steps[i], f)
  }

  ghost predicate AnswersWith(s: State, step: Step, f: Fetch) {
    && step.Do? && step.c == f.call < |s.calls|
    && (var call := s.calls[f.call];
        match f
        case ListFetched(_, campus, list) =>
          step.answer == ListAnswer(list) && call.campus == campus && call.phase.Listing?
        case DrawingFetched(_, link, svg) =>
          && step.answer == DrawingAnswer(svg) && call.phase.Drawing?
          && |call.phase.svgs| < |call.phase.list| && call.phase.list[|call.phase.svgs|].cdn == link
        case LocationsFetched(_, campus, l) =>
          && step.answer == LocationsAnswer(l) && call.campus == campus
          && (call.phase.HitOccupants? || call.phase.MissOccupants?))
  }

  lemma NewlyFetched(s: State, step: Step, f: Fetch)
    requires f in Exec(s, step).fetched && f !in s.fetched
    ensures AnswersWith(s, step, f)
  {
  }

  /** What was fetched is what the remote side answered, for the campus or link that was asked for. */
  lemma {:induction false} FetchesAreAnswers(steps: seq<Step>, f: Fetch) returns (i: nat)
    requires f in Run(INITIAL, steps).fetched
    ensures AnsweredAt(steps, i, f)
  {
    assert steps != [];
    var n := |steps| - 1;
    assert steps == steps[..n] + [steps[n]] && [steps[n]][1..] == [];
    RunTwo(INITIAL, steps[..n], [steps[n]]);
    if f in Run(INITIAL, steps[..n]).fetched {
      i := FetchesAreAnswers(steps[..n], f);
      assert steps[..n][..i] == steps[..i];
    } else {
      i := n;
      NewlyFetched(Run(INITIAL, steps[..n]), steps[n], f);
    }
  }

  /** Under every interleaving, an error-free result is authentic: its list and drawings were fetched by
      one call for the requested campus, its occupants by this call for that campus; the clusters are the
      stable order by number of the list as fetched, and each of them has a layout. */
  lemma LoadedIsAuthentic(steps: seq<Step>, c: nat, data: Data)
    requires c < |Run(INITIAL, steps).calls|
    requires Run(INITIAL, steps).calls[c].phase == Finished(Loaded(data))
    ensures var s := Run(INITIAL, steps);
            Authentic(s.fetched, c, s.calls[c], data)
    ensures Sorting.Sorted(Before, data.clusters)
    ensures forall i, j :: 0 <= i < j < |data.clusters| ==>
              NumberIn(data.clusters[i].name) <= NumberIn(data.clusters[j].name)
    ensures forall id :: id in data.layouts <==> exists i :: 0 <= i < |data.clusters| && data.clusters[i].id == id
  {
    InvRun(INITIAL, steps);
    var s := Run(INITIAL, steps);
    assert CallOk(s.fetched, c, s.calls[c]);
    var k :| FullyFetched(s.fetched, k, s.calls[c].campus, data.clusters, data.layouts);
    var raw :| ListFetched(k, s.calls[c].campus, raw) in s.fetched && data.clusters == Ordered(raw);
    OrderIsStrictWeak();
    Sorting.SortIsStable(Before, raw);
    var svgs :| |svgs| == |data.clusters| && DrawnBy(s.fetched, k, data.clusters, svgs)
                && data.layouts == LayoutsOf(data.clusters, svgs);
    forall id
      ensures id in data.layouts <==> exists i :: 0 <= i < |data.clusters| && data.clusters[i].id == id
    {
      LayoutsCoverClusters(data.clusters, svgs, id);
    }
    forall i, j | 0 <= i < j < |data.clusters|
      ensures NumberIn(data.clusters[i].name) <= NumberIn(data.clusters[j].name)
    {
      assert !Before(data.clusters[j], data.clusters[i]);
    }
  }

  /** What an error-free result shows: who sits where is what this call's own fetch for the campus answered;
      the layout of a cluster is the drawing fetched from its own link; the clusters are the fetched list. */
  lemma LoadedShows(steps: seq<Step>, c: nat, data: Data) returns (k: nat, raw: seq<Cluster>, l: seq<Location>)
    requires c < |Run(INITIAL, steps).calls|
    requires Run(INITIAL, steps).calls[c].phase == Finished(Loaded(data))
    ensures var s, campus := Run(INITIAL, steps), Run(INITIAL, steps).calls[c].campus;
            && LocationsFetched(c, campus, l) in s.fetched && SeatsAre(data.occupants, l)
            && ListFetched(k, campus, raw) in s.fetched && multiset(data.clusters) == multiset(raw)
            && forall i :: 0 <= i < |data.clusters| && LastOfId(data.clusters, i) ==>
                 LayoutFetched(s.fetched, k, data.clusters[i], data.layouts)
  {
    LoadedIsAuthentic(steps, c, data);
    var s := Run(INITIAL, steps);
    var campus := s.calls[c].campus;
    k :| FullyFetched(s.fetched, k, campus, data.clusters, data.layouts);
    raw :| ListFetched(k, campus, raw) in s.fetched && data.clusters == Ordered(raw);
    Sorting.SortIsPermutation(Before, raw);
    l :| LocationsFetched(c, campus, l) in s.fetched && data.occupants == OccupantsOf(l);
    OccupantsAre(l);
    LayoutsFetched(s.fetched, k, data.clusters, data.layouts);
  }

  predicate LastOfId(clusters: seq<Cluster>, i: nat)
    requires i < |clusters|
  {
    forall j :: i < j < |clusters| ==> clusters[j].id != clusters[i].id
  }

  ghost predicate LayoutFetched(fetched: set<Fetch>, k: nat, cluster: Cluster, layouts: map<int, Layout>) {
    && cluster.id in layouts
    && exists svg :: DrawingFetched(k, cluster.cdn, svg) in fetched && layouts[cluster.id].svg == svg
  }

  lemma LayoutsFetched(fetched: set<Fetch>, k: nat, clusters: seq<Cluster>, layouts: map<int, Layout>)
    requires exists svgs ::
               |svgs| == |clusters| && DrawnBy(fetched, k, clusters, svgs) && layouts == LayoutsOf(clusters, svgs)
    ensures forall i :: 0 <= i < |clusters| && LastOfId(clusters, i) ==> LayoutFetched(fetched, k, clusters[i], layouts)
  {
    var svgs :| |svgs| == |clusters| && DrawnBy(fetched, k, clusters, svgs) && layouts == LayoutsOf(clusters, svgs);
    forall i | 0 <= i < |clusters| && LastOfId(clusters, i)
      ensures LayoutFetched(fetched, k, clusters[i], layouts)
    {
      LayoutOfLast(clusters, svgs, i);
      assert DrawingFetched(k, clusters[i].cdn, svgs[i]) in fetched;
    }
  }

  /** A remote side that always answers the same. */
  datatype World = World(list: string -> seq<Cluster>, svg: string -> string, locations: string -> seq<Location>)

  ghost predicate Steady(w: World, fetched: set<Fetch>) {
    forall f :: f in fetched ==>
      match f
      case ListFetched(_, campus, list) => list == w.list(campus)
      case DrawingFetched(_, link, svg) => svg == w.svg(link)
      case LocationsFetched(_, campus, l) => l == w.locations(campus)
  }

  /** What a single uncached load of the campus returns. */
  function Uncached(w: World, campus: string): Data {
    var clusters := Ordered(w.list(campus));
    Data(clusters, LayoutsOf(clusters, seq(|clusters|, i requires 0 <= i < |clusters| => w.svg(clusters[i].cdn))),
         OccupantsOf(w.locations(campus)))
  }

  /** Against a steady remote side the cache cannot be told from no cache, whatever the interleaving. */
  lemma CacheIsTransparent(w: World, steps: seq<Step>, c: nat, data: Data)
    requires c < |Run(INITIAL, steps).calls|
    requires Run(INITIAL, steps).calls[c].phase == Finished(Loaded(data))
    requires Steady(w, Run(INITIAL, steps).fetched)
    ensures data == Uncached(w, Run(INITIAL, steps).calls[c].campus)
  {
    LoadedIsAuthentic(steps, c, data);
    var s := Run(INITIAL, steps);
    var campus := s.calls[c].campus;
    var k :| FullyFetched(s.fetched, k, campus, data.clusters, data.layouts);
    var raw :| ListFetched(k, campus, raw) in s.fetched && data.clusters == Ordered(raw);
    assert raw == w.list(campus);
    var svgs :| |svgs| == |data.clusters| && DrawnBy(s.fetched, k, data.clusters, svgs)
                && data.layouts == LayoutsOf(data.clusters, svgs);
    forall i | 0 <= i < |svgs|
      ensures svgs[i] == w.svg(data.clusters[i].cdn)
    {
      assert DrawingFetched(k, data.clusters[i].cdn, svgs[i]) in s.fetched;
    }
    assert svgs == seq(|svgs|, i requires 0 <= i < |svgs| => w.svg(data.clusters[i].cdn));
    var l :| LocationsFetched(c, campus, l) in s.fetched && data.occupants == OccupantsOf(l);
    assert l == w.locations(campus);
  }

  // ---- The racy write ----

  lemma RunTwo(s: State, a: seq<Step>, b: seq<Step>)
    ensures Run(s, a + b) == Run(Run(s, a), b)
    decreases |a|
  {
    if a == [] {
      assert a + b == b;
    } else {
      assert (a + b)[1..] == a[1..] + b;
      RunTwo(Exec(s, a[0]), a[1..], b);
    }
  }

  /** A forced load of a campus with one cluster, undisturbed, starting with call number n. */
  function LoadScript(n: nat, campus: string, cluster: Cluster, l: seq<Location>): seq<Step> {
    [Arrive(campus, true), Do(n, Fails), Do(n, ListAnswer([cluster])), Do(n, DrawingAnswer("")),
     Do(n, LocationsAnswer(l)), Do(n, Fails)]
  }

  lemma RunFrom(s: State, script: seq<Step>, i: nat)
    requires i < |script|
    ensures Run(s, script[i..]) == Run(Exec(s, script[i]), script[i + 1..])
  {
    assert script[i..][1..] == script[i + 1..];
  }

  lemma OneCluster(cluster: Cluster)
    ensures Ordered([cluster]) == [cluster] && LayoutsOf([cluster], [""]) == map[cluster.id := Parsed("")]
  {
    assert [cluster][1..] == [];
    assert Sorting.Sort(Before, []) == [];
    assert [cluster][..0] == [] && [""][..0] == [];
  }

  lemma LoadBegins(s: State, campus: string, cluster: Cluster, l: seq<Location>) returns (s3: State)
    ensures var script := LoadScript(|s.calls|, campus, cluster, l); Run(s, script) == Run(s3, script[3..])
    ensures s3.calls == s.calls + [Call(campus, true, Drawing([cluster], []))] && s3.cache == s.cache
  {
    var n, script := |s.calls|, LoadScript(|s.calls|, campus, cluster, l);
    OneCluster(cluster);
    assert script[0..] == script;
    RunFrom(s, script, 0);
    var s1 := Exec(s, script[0]);
    RunFrom(s1, script, 1);
    var s2 := Exec(s1, script[1]);
    RunFrom(s2, script, 2);
    s3 := Exec(s2, script[2]);
  }

  lemma LoadRuns(s: State, campus: string, cluster: Cluster, l: seq<Location>)
    ensures var s' := Run(s, LoadScript(|s.calls|, campus, cluster, l));
            && s'.cache == Entry(campus, Data([cluster], map[cluster.id := Parsed("")], OccupantsOf(l)))
            && |s'.calls| == |s.calls| + 1 && s'.calls[..|s.calls|] == s.calls
  {
    var n, script := |s.calls|, LoadScript(|s.calls|, campus, cluster, l);
    OneCluster(cluster);
    var s3 := LoadBegins(s, campus, cluster, l);
    RunFrom(s3, script, 3);
    var s4 := Exec(s3, script[3]);
    assert s4.calls[n].phase == MissOccupants([cluster], [""]);
    RunFrom(s4, script, 4);
    var s5 := Exec(s4, script[4]);
    RunFrom(s5, script, 5);
    assert script[6..] == [];
  }

  /** The occupants write after a hit goes to whatever entry is cached by then: any occupants fetched for
      campus A can end up in the entry of campus B. LoadedIsAuthentic holds all the same. */
  lemma OccupantsCanLandInAnotherEntry(a: string, b: string, cluster: Cluster, seated: seq<Location>,
                                       other: seq<Location>)
    returns (steps: seq<Step>)
    ensures var s := Run(INITIAL, steps);
            s.cache.campus == b && s.cache.data.occupants == OccupantsOf(seated)
    ensures |Run(INITIAL, steps).calls| > 1 && Run(INITIAL, steps).calls[1].campus == a
    ensures LocationsFetched(1, a, seated) in Run(INITIAL, steps).fetched
  {
    LoadRuns(INITIAL, a, cluster, other);
    var s1 := Run(INITIAL, LoadScript(0, a, cluster, other));
    var hit := [Arrive(a, false), Do(1, Fails), Do(1, LocationsAnswer(seated))];
    var h1 := Exec(s1, hit[0]);
    var h2 := Exec(h1, hit[1]);
    var s2 := Exec(h2, hit[2]);
    assert hit[1..][1..] == hit[2..] && hit[2..][1..] == [];
    assert Run(h2, hit[2..]) == Run(s2, []);
    assert Run(s1, hit) == s2;
    LoadRuns(s2, b, cluster, other);
    var s3 := Run(s2, LoadScript(2, b, cluster, other));
    assert s3.calls[1] == s2.calls[1];
    var s4 := Exec(s3, Do(1, Fails));
    assert Run(s3, [Do(1, Fails)]) == Run(s4, []) by { assert [Do(1, Fails)][1..] == []; }
    RunTwo(INITIAL, LoadScript(0, a, cluster, other), hit);
    RunTwo(INITIAL, LoadScript(0, a, cluster, other) + hit, LoadScript(2, b, cluster, other));
    RunTwo(INITIAL, LoadScript(0, a, cluster, other) + hit + LoadScript(2, b, cluster, other), [Do(1, Fails)]);
    steps := LoadScript(0, a, cluster, other) + hit + LoadScript(2, b, cluster, other) + [Do(1, Fails)];
    FetchedOnlyGrows(s2, LoadScript(2, b, cluster, other));
  }

  lemma {:induction false} FetchedOnlyGrows(s: State, steps: seq<Step>)
    ensures s.fetched <= Run(s, steps).fetched
    decreases |steps|
  {
    if steps != [] { FetchedOnlyGrows(Exec(s, steps[0]), steps[1..]); }
  }

  // ---- Whose occupants are cached ----

  predicate WritesCache(s: State, step: Step) {
    step.Do? && step.c < |s.calls| && (s.calls[step.c].phase.HitStore? || s.calls[step.c].phase.MissStore?)
  }

  /** The call that wrote the cache last along the run, or before it. */
  function LastWriter(s: State, steps: seq<Step>, before: Option<nat>): Option<nat>
    decreases |steps|
  {
    if steps == [] then before
    else LastWriter(Exec(s, steps[0]), steps[1..], if WritesCache(s, steps[0]) then Some(steps[0].c) else before)
  }

  /** The cached occupants are those the writer fetched, for the campus it was called for. */
  ghost predicate WrittenBy(s: State, writer: Option<nat>) {
    match writer
    case None => s.cache == INITIAL.cache
    case Some(c) => c < |s.calls| && SeatedBy(s.fetched, c, s.calls[c].campus, s.cache.data.occupants)
  }

  lemma WriterStep(s: State, step: Step, writer: Option<nat>)
    requires Inv(s) && WrittenBy(s, writer)
    ensures WrittenBy(Exec(s, step), if WritesCache(s, step) then Some(step.c) else writer)
  {
    if WritesCache(s, step) {
      assert CallOk(s.fetched, step.c, s.calls[step.c]);
    }
  }

  lemma {:induction false} WriterRun(s: State, steps: seq<Step>, writer: Option<nat>)
    requires Inv(s) && WrittenBy(s, writer)
    ensures WrittenBy(Run(s, steps), LastWriter(s, steps, writer))
    decreases |steps|
  {
    if steps != [] {
      InvStep(s, steps[0]);
      WriterStep(s, steps[0], writer);
      WriterRun(Exec(s, steps[0]), steps[1..], if WritesCache(s, steps[0]) then Some(steps[0].c) else writer);
    }
  }

  /** Against a steady remote side that seats the two campuses differently, the cached occupants are those of
      the cached campus if and only if the last write came from a call for that campus. */
  lemma CachedOccupantsExactly(w: World, steps: seq<Step>, c: nat)
    requires LastWriter(INITIAL, steps, None) == Some(c) && Steady(w, Run(INITIAL, steps).fetched)
    ensures var s := Run(INITIAL, steps);
            && c < |s.calls|
            && (s.calls[c].campus == s.cache.campus
                || OccupantsOf(w.locations(s.calls[c].campus)) != OccupantsOf(w.locations(s.cache.campus)) ==>
                  (s.cache.data.occupants == OccupantsOf(w.locations(s.cache.campus)) <==>
                     s.calls[c].campus == s.cache.campus))
  {
    WriterRun(INITIAL, steps, None);
    var s := Run(INITIAL, steps);
    var l :| LocationsFetched(c, s.calls[c].campus, l) in s.fetched && s.cache.data.occupants == OccupantsOf(l);
  }

  // ---- The method itself, undisturbed ----

  /** An undisturbed load, against a remote side that answers with list, svg and locations, where None is a
      failed request: a hit refetches the occupants only; a miss fetches everything or leaves the cache alone. */
  ghost predicate LoadsAs(before: Entry, campus: string, force: bool, list: Option<seq<Cluster>>,
                          svg: string -> Option<string>, locations: Option<seq<Location>>, r: Outcome, after: Entry) {
    if !force && before.campus == campus && |before.data.clusters| > 0 then
      if locations.None? then r == Failed(before.data) && after == before
      else
        && r == Loaded(before.data.(occupants := OccupantsOf(locations.value)))
        && after == Entry(campus, r.data)
    else if list.None? || locations.None? || (exists c :: c in Ordered(list.value) && svg(c.cdn).None?) then
      r == Failed(EMPTY_DATA) && after == before
    else
      && r.Loaded? && after == Entry(campus, r.data)
      && r.data.clusters == Ordered(list.value) && r.data.occupants == OccupantsOf(locations.value)
      && exists svgs :: DrawingsOf(r.data.clusters, svg, svgs) && r.data.layouts == LayoutsOf(r.data.clusters, svgs)
  }

  ghost predicate DrawingsOf(clusters: seq<Cluster>, svg: string -> Option<string>, svgs: seq<string>) {
    |svgs| == |clusters| && forall i :: 0 <= i < |svgs| ==> svg(clusters[i].cdn) == Some(svgs[i])
  }

  ghost predicate LeadsTo(s: State, t: State) {
    exists steps :: Run(s, steps) == t
  }

  lemma LeadsOn(s: State, t: State, step: Step)
    requires LeadsTo(s, t)
    ensures LeadsTo(s, Exec(t, step))
  {
    var steps :| Run(s, steps) == t;
    RunTwo(s, steps, [step]);
    assert [step][1..] == [];
    assert Run(s, steps + [step]) == Exec(t, step);
  }

  /** The drawings are fetched one by one, until all are there or one is missing. */
  lemma Draws(s0: State, s: State, n: nat, list: seq<Cluster>, svg: string -> Option<string>)
    returns (t: State, svgs: seq<string>)
    requires LeadsTo(s0, s) && n < |s.calls| && s.calls[n].phase == Drawn(list, [])
    ensures LeadsTo(s0, t) && t.cache == s.cache && |svgs| <= |list|
    ensures t.calls == s.calls[n := s.calls[n].(phase := Drawn(list, svgs))]
    ensures DrawingsOf(list[..|svgs|], svg, svgs) && (|svgs| == |list| || svg(list[|svgs|].cdn).None?)
  {
    t, svgs := s, [];
    while |svgs| < |list| && svg(list[|svgs|].cdn).Some?
      invariant |svgs| <= |list| && LeadsTo(s0, t) && t.cache == s.cache
      invariant t.calls == s.calls[n := s.calls[n].(phase := Drawn(list, svgs))]
      invariant DrawingsOf(list[..|svgs|], svg, svgs)
      decreases |list| - |svgs|
    {
      var step := Do(n, DrawingAnswer(svg(list[|svgs|].cdn).value));
      LeadsOn(s0, t, step);
      t, svgs := Exec(t, step), svgs + [svg(list[|svgs|].cdn).value];
    }
  }

  lemma SameDrawings(clusters: seq<Cluster>, svg: string -> Option<string>, a: seq<string>, b: seq<string>)
    requires DrawingsOf(clusters, svg, a) && DrawingsOf(clusters, svg, b)
    ensures a == b
  {
  }

  lemma HitIsARun(s0: State, s: State, n: nat, locations: Option<seq<Location>>) returns (t: State)
    requires LeadsTo(s0, s) && n < |s.calls| && s.calls[n].phase == HitOccupants(s.cache.data)
    ensures LeadsTo(s0, t)
    ensures if locations.None? then
              t.cache == s.cache && t.calls == s.calls[n := s.calls[n].(phase := Finished(Failed(s.cache.data)))]
            else
              var data := s.cache.data.(occupants := OccupantsOf(locations.value));
              && t.cache == Entry(s.cache.campus, data)
              && t.calls == s.calls[n := s.calls[n].(phase := Finished(Loaded(data)))]
  {
    var step := Do(n, if locations.None? then Fails else LocationsAnswer(locations.value));
    LeadsOn(s0, s, step);
    t := Exec(s, step);
    if locations.Some? {
      LeadsOn(s0, t, Do(n, Fails));
      t := Exec(t, Do(n, Fails));
    }
  }

  /** All drawings are there: what the locations still decide. */
  lemma MissEnds(s0: State, s: State, n: nat, list: seq<Cluster>, svgs: seq<string>, locations: Option<seq<Location>>)
    returns (t: State)
    requires LeadsTo(s0, s) && n < |s.calls| && |svgs| == |list| && s.calls[n].phase == MissOccupants(list, svgs)
    ensures LeadsTo(s0, t)
    ensures if locations.None? then
              t.cache == s.cache && t.calls == s.calls[n := s.calls[n].(phase := Finished(Failed(EMPTY_DATA)))]
            else
              var data := Data(list, LayoutsOf(list, svgs), OccupantsOf(locations.value));
              && t.cache == Entry(s.calls[n].campus, data)
              && t.calls == s.calls[n := s.calls[n].(phase := Finished(Loaded(data)))]
  {
    var step := Do(n, if locations.None? then Fails else LocationsAnswer(locations.value));
    LeadsOn(s0, s, step);
    t := Exec(s, step);
    if locations.Some? {
      LeadsOn(s0, t, Do(n, Fails));
      t := Exec(t, Do(n, Fails));
    }
  }

  /** The list is there: what the drawings and the locations still decide. */
  lemma ListedIsARun(s0: State, s: State, n: nat, clusters: seq<Cluster>, svg: string -> Option<string>,
                     locations: Option<seq<Location>>) returns (t: State, svgs: seq<string>)
    requires LeadsTo(s0, s) && n < |s.calls| && s.calls[n].phase == Drawn(clusters, [])
    ensures LeadsTo(s0, t)
    ensures if locations.None? || !DrawingsOf(clusters, svg, svgs) then
              && (locations.None? || exists c :: c in clusters && svg(c.cdn).None?)
              && t.cache == s.cache && t.calls == s.calls[n := s.calls[n].(phase := Finished(Failed(EMPTY_DATA)))]
            else
              var data := Data(clusters, LayoutsOf(clusters, svgs), OccupantsOf(locations.value));
              && t.cache == Entry(s.calls[n].campus, data)
              && t.calls == s.calls[n := s.calls[n].(phase := Finished(Loaded(data)))]
  {
    t, svgs := Draws(s0, s, n, clusters, svg);
    if |svgs| < |clusters| {
      assert clusters[|svgs|] in clusters;
      LeadsOn(s0, t, Do(n, Fails));
      t := Exec(t, Do(n, Fails));
    } else {
      assert clusters[..|svgs|] == clusters;
      t := MissEnds(s0, t, n, clusters, svgs, locations);
    }
  }

  lemma NoneMissing(clusters: seq<Cluster>, svg: string -> Option<string>, svgs: seq<string>)
    requires DrawingsOf(clusters, svg, svgs)
    ensures !exists c :: c in clusters && svg(c.cdn).None?
  {
  }

  lemma MissIsARun(s0: State, s: State, n: nat, list: Option<seq<Cluster>>, svg: string -> Option<string>,
                   locations: Option<seq<Location>>, r: Outcome, after: Entry) returns (t: State)
    requires LeadsTo(s0, s) && n < |s.calls| && s.calls[n].phase == Listing
    requires LoadsAs(s.cache, s.calls[n].campus, true, list, svg, locations, r, after)
    ensures LeadsTo(s0, t) && t.cache == after && t.calls == s.calls[n := s.calls[n].(phase := Finished(r))]
  {
    var step := Do(n, if list.None? then Fails else ListAnswer(list.value));
    LeadsOn(s0, s, step);
    t := Exec(s, step);
    if list.Some? {
      var clusters, svgs := Ordered(list.value), [];
      t, svgs := ListedIsARun(s0, t, n, clusters, svg, locations);
      if locations.Some? && DrawingsOf(clusters, svg, svgs) {
        NoneMissing(clusters, svg, svgs);
        var all :| DrawingsOf(clusters, svg, all) && r.data.layouts == LayoutsOf(clusters, all);
        SameDrawings(clusters, svg, svgs, all);
      }
    }
  }

  /** LoadClusters run alone is a run of the step machine, from any state. */
  lemma LoadIsARun(s: State, campus: string, force: bool, list: Option<seq<Cluster>>, svg: string -> Option<string>,
                   locations: Option<seq<Location>>, r: Outcome, after: Entry) returns (t: State)
    requires LoadsAs(s.cache, campus, force, list, svg, locations, r, after)
    ensures LeadsTo(s, t) && t.cache == after && t.calls == s.calls + [Call(campus, force, Finished(r))]
  {
    var n := |s.calls|;
    assert Run(s, []) == s;
    LeadsOn(s, s, Arrive(campus, force));
    t := Exec(s, Arrive(campus, force));
    LeadsOn(s, t, Do(n, Fails));
    t := Exec(t, Do(n, Fails));
    if t.calls[n].phase.Listing? {
      t := MissIsARun(s, t, n, list, svg, locations, r, after);
    } else {
      t := HitIsARun(s, t, n, locations);
    }
  }

  class ClusterService {
    var cache: Entry

    constructor ()
      ensures cache == INITIAL.cache
    {
      cache := Entry("", EMPTY_DATA);
    }

    /** The remote side answers with list, svg and locations; None is a failed request. */
    method LoadClusters(campus: string, force: bool, list: Option<seq<Cluster>>,
                        svg: string -> Option<string>, locations: Option<seq<Location>>) returns (r: Outcome)
      modifies this
      ensures LoadsAs(old(cache), campus, force, list, svg, locations, r, cache)
    {
      if !force && cache.campus == campus && |cache.data.clusters| > 0 {
        var cached := cache.data;
        if locations.None? {
          return Failed(cached);
        }
        var occupants := BuildOccupants(locations.value);
        cache := cache.(data := cache.data.(occupants := occupants));
        return Loaded(cached.(occupants := occupants));
      }
      if list.None? {
        return Failed(EMPTY_DATA);
      }
      var clusters := Ordered(list.value);
      var layouts, svgs := BuildLayouts(clusters, svg);
      if layouts.None? {
        return Failed(EMPTY_DATA);
      }
      if locations.None? {
        return Failed(EMPTY_DATA);
      }
      var occupants := BuildOccupants(locations.value);
      cache := Entry(campus, Data(clusters, layouts.value, occupants));
      return Loaded(cache.data);
    }
  }
}
