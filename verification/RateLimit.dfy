/** The lookup rate limiter: check, slow lookup, record, with no lock around the three.

    A call reads the clock, counts recent usage rows, resolves the badge, reads the clock again and
    inserts one row. Each of those is one step; steps of different calls interleave freely, and a
    count or an insert reaches the table some time after the clock reading it uses. A step that is
    not possible in a state leaves that state as it is, so every sequence of steps is a run. */
module RateLimit {

  datatype Window = Minute | Hour

  function Span(w: Window): nat {
    match w
    case Minute => 60_000
    case Hour => 3_600_000
  }

  /** A limit of zero (or less) means unlimited. */
  datatype Limits = Limits(perMinute: int, perHour: int) {
    function Of(w: Window): int {
      match w
      case Minute => perMinute
      case Hour => perHour
    }
  }

  datatype Row = Row(key: int, ts: int)

  datatype Outcome =
    | RateLimited(w: Window, at: int)
    | LookupFailed
    | Answered(recorded: bool)

  datatype Phase =
    | CheckMinute
    | CountMinute
    | CheckHour
    | CountHour
    | Looking
    | Found
    | Recording(ts: int)
    | Finished(outcome: Outcome)

  /** minuteAt and hourAt are the clock readings behind the two counts. */
  datatype Call = Call(key: int, phase: Phase, minuteAt: int, hourAt: int) {
    function ReadAt(w: Window): int {
      match w
      case Minute => minuteAt
      case Hour => hourAt
    }

    /** Past the count for window w, and neither finished nor recorded yet. */
    predicate InFlight(w: Window) {
      phase.Looking? || phase.Found? || phase.Recording? || (w.Minute? && (phase.CheckHour? || phase.CountHour?))
    }
  }

  datatype State = State(now: int, rows: seq<Row>, calls: seq<Call>)

  /** Do(c, ok) lets call c take its next step; ok says whether the query or the lookup succeeded. */
  datatype Step = Tick(d: nat) | Arrive(key: int) | Do(c: nat, ok: bool)

  // ---- Counting ----

  predicate InSpan(r: Row, key: int, lo: int, hi: int) {
    r.key == key && lo <= r.ts <= hi
  }

  function RowsIn(rows: seq<Row>, key: int, lo: int, hi: int): nat {
    if rows == [] then 0
    else RowsIn(rows[..|rows| - 1], key, lo, hi) + if InSpan(rows[|rows| - 1], key, lo, hi) then 1 else 0
  }

  /** SELECT COUNT(*) ... WHERE api_key_id = key AND timestamp >= since. */
  function CountSince(rows: seq<Row>, key: int, since: int): nat {
    if rows == [] then 0
    else
      var last := rows[|rows| - 1];
      CountSince(rows[..|rows| - 1], key, since) + if last.key == key && since <= last.ts then 1 else 0
  }

  predicate Lands(c: Call, key: int, w: Window, upTo: int) {
    c.key == key && c.InFlight(w) && c.ReadAt(w) <= upTo
  }

  /** Calls in flight for w that counted no later than `upTo`, so that may still add a row there. */
  function Landing(calls: seq<Call>, key: int, w: Window, upTo: int): nat {
    if calls == [] then 0
    else Landing(calls[..|calls| - 1], key, w, upTo) + if Lands(calls[|calls| - 1], key, w, upTo) then 1 else 0
  }

  function Active(calls: seq<Call>, key: int, w: Window): nat {
    if calls == [] then 0
    else
      var last := calls[|calls| - 1];
      Active(calls[..|calls| - 1], key, w) + if last.key == key && last.InFlight(w) then 1 else 0
  }

  // ---- Steps ----

  function Exec(lim: int -> Limits, s: State, step: Step): State {
    match step
    case Tick(d) => s.(now := s.now + d)
    case Arrive(key) => s.(calls := s.calls + [Call(key, CheckMinute, s.now, s.now)])
    case Do(c, ok) => if c < |s.calls| then Advance(lim(s.calls[c].key), s, c, ok) else s
  }

  /** True when the count for window w lets the call through; a failed query lets it through too. */
  predicate Passes(l: Limits, rows: seq<Row>, call: Call, w: Window, ok: bool) {
    l.Of(w) <= 0 || !ok || CountSince(rows, call.key, call.ReadAt(w) - Span(w)) < l.Of(w)
  }

  function NextCall(l: Limits, s: State, call: Call, ok: bool): Call {
    match call.phase
    case CheckMinute => call.(phase := CountMinute, minuteAt := s.now)
    case CountMinute =>
      call.(phase := if Passes(l, s.rows, call, Minute, ok) then CheckHour
                     else Finished(RateLimited(Minute, call.minuteAt)))
    case CheckHour => call.(phase := CountHour, hourAt := s.now)
    case CountHour =>
      call.(phase := if Passes(l, s.rows, call, Hour, ok) then Looking
                     else Finished(RateLimited(Hour, call.hourAt)))
    case Looking => call.(phase := if ok then Found else Finished(LookupFailed))
    case Found => call.(phase := Recording(s.now))
    case Recording(_) => call.(phase := Finished(Answered(ok)))
    case Finished(_) => call
  }

  function Advance(l: Limits, s: State, c: nat, ok: bool): State
    requires c < |s.calls|
  {
    var call := s.calls[c];
    var rows := if call.phase.Recording? && ok then s.rows + [Row(call.key, call.phase.ts)] else s.rows;
    State(s.now, rows, s.calls[c := NextCall(l, s, call, ok)])
  }

  function Run(lim: int -> Limits, s: State, steps: seq<Step>): State
    decreases |steps|
  {
    if steps == [] then s else Run(lim, Exec(lim, s, steps[0]), steps[1..])
  }

  function Initial(now: int): State {
    State(now, [], [])
  }

  // ---- Which runs the bound speaks of ----

  /** The step is a count for key and window w whose query fails. */
  predicate CountFails(s: State, step: Step, key: int, w: Window) {
    step.Do? && step.c < |s.calls| && !step.ok && s.calls[step.c].key == key
    && (if w.Minute? then s.calls[step.c].phase.CountMinute? else s.calls[step.c].phase.CountHour?)
  }

  /** How many counts for key and window w fail along the run. */
  function Failures(lim: int -> Limits, s: State, steps: seq<Step>, key: int, w: Window): nat
    decreases |steps|
  {
    if steps == [] then 0
    else (if CountFails(s, steps[0], key, w) then 1 else 0) + Failures(lim, Exec(lim, s, steps[0]), steps[1..], key, w)
  }

  ghost predicate CountsSucceed(lim: int -> Limits, s: State, steps: seq<Step>, key: int, w: Window) {
    Failures(lim, s, steps, key, w) == 0
  }

  /** Never more than most calls of the key are between their count for w and their record. */
  ghost predicate AtMostInFlight(lim: int -> Limits, s: State, steps: seq<Step>, key: int, w: Window, most: nat)
    decreases |steps|
  {
    steps == [] ||
    var next := Exec(lim, s, steps[0]);
    Active(next.calls, key, w) <= most && AtMostInFlight(lim, next, steps[1..], key, w, most)
  }

  // ---- Counting lemmas ----

  lemma {:induction false} CountCoversSpan(rows: seq<Row>, key: int, since: int, lo: int, hi: int)
    requires since <= lo
    ensures RowsIn(rows, key, lo, hi) <= CountSince(rows, key, since)
  {
    if rows != [] {
      CountCoversSpan(rows[..|rows| - 1], key, since, lo, hi);
    }
  }

  lemma {:induction false} CountIsSpan(rows: seq<Row>, key: int, since: int, hi: int)
    requires forall r :: r in rows ==> r.ts <= hi
    ensures CountSince(rows, key, since) == RowsIn(rows, key, since, hi)
  {
    if rows != [] {
      CountIsSpan(rows[..|rows| - 1], key, since, hi);
      assert rows[|rows| - 1] in rows;
    }
  }

  lemma AppendRow(rows: seq<Row>, r: Row, key: int, lo: int, hi: int)
    ensures RowsIn(rows + [r], key, lo, hi) == RowsIn(rows, key, lo, hi) + if InSpan(r, key, lo, hi) then 1 else 0
  {
    assert (rows + [r])[..|rows|] == rows;
  }

  lemma {:induction false} WidenSpan(rows: seq<Row>, key: int, lo: int, hi: int, hi': int)
    requires hi <= hi'
    ensures RowsIn(rows, key, lo, hi) <= RowsIn(rows, key, lo, hi')
  {
    if rows != [] {
      WidenSpan(rows[..|rows| - 1], key, lo, hi, hi');
    }
  }

  lemma {:induction false} LandingAtMostActive(calls: seq<Call>, key: int, w: Window, upTo: int)
    ensures Landing(calls, key, w, upTo) <= Active(calls, key, w)
  {
    if calls != [] {
      LandingAtMostActive(calls[..|calls| - 1], key, w, upTo);
    }
  }

  lemma {:induction false} LandingUpdate(calls: seq<Call>, i: nat, c: Call, key: int, w: Window, upTo: int)
    requires i < |calls|
    ensures Landing(calls[i := c], key, w, upTo) + (if Lands(calls[i], key, w, upTo) then 1 else 0)
         == Landing(calls, key, w, upTo) + (if Lands(c, key, w, upTo) then 1 else 0)
  {
    var n := |calls| - 1;
    if i == n {
      assert calls[i := c][..n] == calls[..n];
    } else {
      assert calls[i := c][..n] == calls[..n][i := c];
      LandingUpdate(calls[..n], i, c, key, w, upTo);
    }
  }

  // ---- The invariant ----

  /** Clock readings never lie in the future, and a row's timestamp is read after both counts. */
  ghost predicate Timely(s: State) {
    && (forall r :: r in s.rows ==> r.ts <= s.now)
    && (forall c :: c in s.calls ==>
          && c.minuteAt <= s.now && c.hourAt <= s.now
          && (c.phase.Recording? ==> c.minuteAt <= c.phase.ts <= s.now && c.hourAt <= c.phase.ts))
  }

  /** Rows already in the span that starts at a, plus the calls that may still land in it. */
  function Load(s: State, key: int, w: Window, a: int): nat {
    RowsIn(s.rows, key, a, a + Span(w)) + Landing(s.calls, key, w, a + Span(w))
  }

  ghost predicate Budget(s: State, key: int, w: Window, budget: int) {
    forall a: int :: Load(s, key, w, a) <= budget
  }

  lemma TimelyStep(lim: int -> Limits, s: State, step: Step)
    requires Timely(s)
    ensures Timely(Exec(lim, s, step))
  {
    var s' := Exec(lim, s, step);
    if step.Do? && step.c < |s.calls| {
      assert s.calls[step.c] in s.calls;
      forall c | c in s'.calls
        ensures c.minuteAt <= s.now && c.hourAt <= s.now
        ensures c.phase.Recording? ==> c.minuteAt <= c.phase.ts <= s.now && c.hourAt <= c.phase.ts
      {
        var i :| 0 <= i < |s'.calls| && s'.calls[i] == c;
        if i != step.c { assert s.calls[i] in s.calls; }
      }
    }
  }

  /** A call that passes its count when the clock reading minus the span lies at or before a met fewer rows than L. */
  lemma PassingLoad(lim: int -> Limits, s: State, c: nat, ok: bool, key: int, w: Window, most: nat, a: int)
    requires c < |s.calls| && lim(key).Of(w) > 0
    requires !CountFails(s, Do(c, ok), key, w)
    requires Active(Exec(lim, s, Do(c, ok)).calls, key, w) <= most
    requires !s.calls[c].InFlight(w) && Lands(Exec(lim, s, Do(c, ok)).calls[c], key, w, a + Span(w))
    ensures Load(Exec(lim, s, Do(c, ok)), key, w, a) <= lim(key).Of(w) + most - 1
  {
    var s' := Exec(lim, s, Do(c, ok));
    var call := s.calls[c];
    assert Passes(lim(key), s.rows, call, w, ok);
    CountCoversSpan(s.rows, key, call.ReadAt(w) - Span(w), a, a + Span(w));
    LandingAtMostActive(s'.calls, key, w, a + Span(w));
  }

  lemma DoLoad(lim: int -> Limits, s: State, c: nat, ok: bool, key: int, w: Window, a: int)
    requires c < |s.calls| && Timely(s)
    requires s.calls[c].InFlight(w) || !Lands(Exec(lim, s, Do(c, ok)).calls[c], key, w, a + Span(w))
    ensures Load(Exec(lim, s, Do(c, ok)), key, w, a) <= Load(s, key, w, a)
  {
    var s' := Exec(lim, s, Do(c, ok));
    var call := s.calls[c];
    assert call in s.calls;
    LandingUpdate(s.calls, c, s'.calls[c], key, w, a + Span(w));
    if call.phase.Recording? && ok {
      AppendRow(s.rows, Row(call.key, call.phase.ts), key, a, a + Span(w));
    }
  }

  /** A failed count lets one more call through, whatever the rows. */
  lemma FailingLoad(lim: int -> Limits, s: State, c: nat, ok: bool, key: int, w: Window, a: int)
    requires c < |s.calls| && CountFails(s, Do(c, ok), key, w)
    ensures Load(Exec(lim, s, Do(c, ok)), key, w, a) <= Load(s, key, w, a) + 1
  {
    LandingUpdate(s.calls, c, Exec(lim, s, Do(c, ok)).calls[c], key, w, a + Span(w));
  }

  lemma DoBudget(lim: int -> Limits, s: State, c: nat, ok: bool, key: int, w: Window, most: nat, failed: nat, a: int)
    requires lim(key).Of(w) > 0 && c < |s.calls| && Timely(s)
    requires Load(s, key, w, a) <= lim(key).Of(w) + most - 1 + failed
    requires Active(Exec(lim, s, Do(c, ok)).calls, key, w) <= most
    ensures Load(Exec(lim, s, Do(c, ok)), key, w, a)
         <= lim(key).Of(w) + most - 1 + failed + if CountFails(s, Do(c, ok), key, w) then 1 else 0
  {
    if CountFails(s, Do(c, ok), key, w) {
      FailingLoad(lim, s, c, ok, key, w, a);
    } else if s.calls[c].InFlight(w) || !Lands(Exec(lim, s, Do(c, ok)).calls[c], key, w, a + Span(w)) {
      DoLoad(lim, s, c, ok, key, w, a);
    } else {
      PassingLoad(lim, s, c, ok, key, w, most, a);
    }
  }

  lemma BudgetStep(lim: int -> Limits, s: State, step: Step, key: int, w: Window, most: nat, failed: nat)
    requires lim(key).Of(w) > 0
    requires Timely(s) && Budget(s, key, w, lim(key).Of(w) + most - 1 + failed)
    requires Active(Exec(lim, s, step).calls, key, w) <= most
    ensures Budget(Exec(lim, s, step), key, w,
                   lim(key).Of(w) + most - 1 + failed + if CountFails(s, step, key, w) then 1 else 0)
  {
    var s' := Exec(lim, s, step);
    var budget := lim(key).Of(w) + most - 1 + failed;
    forall a: int
      ensures Load(s', key, w, a) <= budget + if CountFails(s, step, key, w) then 1 else 0
    {
      assert Load(s, key, w, a) <= budget;
      match step
      case Tick(_) =>
      case Arrive(k) => assert s'.calls[..|s.calls|] == s.calls;
      case Do(c, ok) => if c < |s.calls| { DoBudget(lim, s, c, ok, key, w, most, failed, a); }
    }
  }

  lemma {:induction false} BudgetRun(lim: int -> Limits, s: State, steps: seq<Step>, key: int, w: Window,
                                     most: nat, failed: nat)
    requires lim(key).Of(w) > 0
    requires Timely(s) && Budget(s, key, w, lim(key).Of(w) + most - 1 + failed)
    requires AtMostInFlight(lim, s, steps, key, w, most)
    ensures Budget(Run(lim, s, steps), key, w,
                   lim(key).Of(w) + most - 1 + failed + Failures(lim, s, steps, key, w))
    decreases |steps|
  {
    if steps != [] {
      TimelyStep(lim, s, steps[0]);
      BudgetStep(lim, s, steps[0], key, w, most, failed);
      BudgetRun(lim, Exec(lim, s, steps[0]), steps[1..], key, w, most,
                failed + if CountFails(s, steps[0], key, w) then 1 else 0);
    }
  }

  // ---- Main results ----

  /** Over every interleaving, no closed span of one window length holds more than L + most - 1 rows of the key,
      and one more for every count that failed. */
  lemma FailuresCostOneEach(lim: int -> Limits, now: int, steps: seq<Step>, key: int, w: Window, most: nat, a: int)
    requires lim(key).Of(w) > 0 && AtMostInFlight(lim, Initial(now), steps, key, w, most)
    ensures RowsIn(Run(lim, Initial(now), steps).rows, key, a, a + Span(w))
         <= lim(key).Of(w) + most - 1 + Failures(lim, Initial(now), steps, key, w)
  {
    var s := Initial(now);
    BudgetRun(lim, s, steps, key, w, most, 0);
    var end := Run(lim, s, steps);
    assert Load(end, key, w, a) <= lim(key).Of(w) + most - 1 + Failures(lim, s, steps, key, w);
  }

  /** When every count succeeds, no closed span of one window length holds more than L + most - 1 rows of the key. */
  lemma SlidingWindowBound(lim: int -> Limits, now: int, steps: seq<Step>, key: int, w: Window, most: nat, a: int)
    requires lim(key).Of(w) > 0
    requires CountsSucceed(lim, Initial(now), steps, key, w)
    requires AtMostInFlight(lim, Initial(now), steps, key, w, most)
    ensures RowsIn(Run(lim, Initial(now), steps).rows, key, a, a + Span(w)) <= lim(key).Of(w) + most - 1
  {
    FailuresCostOneEach(lim, now, steps, key, w, most, a);
  }

  /** Calls made one after the other never exceed the limit itself, however slow the lookups are. */
  lemma SequentialCallsKeepTheLimit(lim: int -> Limits, now: int, steps: seq<Step>, key: int, w: Window, a: int)
    requires lim(key).Of(w) > 0
    requires CountsSucceed(lim, Initial(now), steps, key, w)
    requires AtMostInFlight(lim, Initial(now), steps, key, w, 1)
    ensures RowsIn(Run(lim, Initial(now), steps).rows, key, a, a + Span(w)) <= lim(key).Of(w)
  {
    SlidingWindowBound(lim, now, steps, key, w, 1, a);
  }

  /** The limits by the clock, with at most so many calls in flight and no failed count. */
  lemma LimitsByTheClock(lim: int -> Limits, now: int, steps: seq<Step>, key: int, most: nat, a: int)
    requires CountsSucceed(lim, Initial(now), steps, key, Minute) && CountsSucceed(lim, Initial(now), steps, key, Hour)
    requires AtMostInFlight(lim, Initial(now), steps, key, Minute, most)
    requires AtMostInFlight(lim, Initial(now), steps, key, Hour, most)
    ensures var rows := Run(lim, Initial(now), steps).rows;
            && (lim(key).perMinute > 0 ==> RowsIn(rows, key, a, a + 60_000) <= lim(key).perMinute + most - 1)
            && (lim(key).perHour > 0 ==> RowsIn(rows, key, a, a + 3_600_000) <= lim(key).perHour + most - 1)
  {
    if lim(key).perMinute > 0 { SlidingWindowBound(lim, now, steps, key, Minute, most, a); }
    if lim(key).perHour > 0 { SlidingWindowBound(lim, now, steps, key, Hour, most, a); }
  }

  // ---- Accounting: one row per answered and recorded call, none for any other ----

  function Recorded(calls: seq<Call>, key: int): nat {
    if calls == [] then 0
    else
      var last := calls[|calls| - 1];
      Recorded(calls[..|calls| - 1], key)
      + if last.key == key && last.phase == Finished(Answered(true)) then 1 else 0
  }

  function RowsOf(rows: seq<Row>, key: int): nat {
    if rows == [] then 0
    else RowsOf(rows[..|rows| - 1], key) + if rows[|rows| - 1].key == key then 1 else 0
  }

  lemma {:induction false} RecordedUpdate(calls: seq<Call>, i: nat, c: Call, key: int)
    requires i < |calls|
    ensures Recorded(calls[i := c], key)
              + (if calls[i].key == key && calls[i].phase == Finished(Answered(true)) then 1 else 0)
         == Recorded(calls, key) + (if c.key == key && c.phase == Finished(Answered(true)) then 1 else 0)
  {
    var n := |calls| - 1;
    if i == n {
      assert calls[i := c][..n] == calls[..n];
    } else {
      assert calls[i := c][..n] == calls[..n][i := c];
      RecordedUpdate(calls[..n], i, c, key);
    }
  }

  lemma RowsAreRecordedDo(l: Limits, s: State, c: nat, ok: bool, key: int)
    requires c < |s.calls| && RowsOf(s.rows, key) == Recorded(s.calls, key)
    ensures RowsOf(Advance(l, s, c, ok).rows, key) == Recorded(Advance(l, s, c, ok).calls, key)
  {
    var s' := Advance(l, s, c, ok);
    RecordedUpdate(s.calls, c, s'.calls[c], key);
    if s.calls[c].phase.Recording? && ok {
      assert s'.rows[..|s.rows|] == s.rows;
    }
  }

  lemma RowsAreRecordedStep(lim: int -> Limits, s: State, step: Step, key: int)
    requires RowsOf(s.rows, key) == Recorded(s.calls, key)
    ensures RowsOf(Exec(lim, s, step).rows, key) == Recorded(Exec(lim, s, step).calls, key)
  {
    match step
    case Tick(_) =>
    case Arrive(_) => assert Exec(lim, s, step).calls[..|s.calls|] == s.calls;
    case Do(c, ok) => if c < |s.calls| { RowsAreRecordedDo(lim(s.calls[c].key), s, c, ok, key); }
  }

  /** Over every run the key's rows number exactly its answered and recorded calls: no other call adds one. */
  lemma {:induction false} RowsAreRecordedCalls(lim: int -> Limits, s: State, steps: seq<Step>, key: int)
    requires RowsOf(s.rows, key) == Recorded(s.calls, key)
    ensures var end := Run(lim, s, steps);
            RowsOf(end.rows, key) == Recorded(end.calls, key)
    decreases |steps|
  {
    if steps != [] {
      RowsAreRecordedStep(lim, s, steps[0], key);
      RowsAreRecordedCalls(lim, Exec(lim, s, steps[0]), steps[1..], key);
    }
  }

  /** A rejected call really met a full window: L rows at or after its clock reading minus the span. */
  ghost predicate FairRejection(lim: int -> Limits, s: State, c: Call) {
    c.phase.Finished? && c.phase.outcome.RateLimited? ==>
      var w := c.phase.outcome.w;
      0 < lim(c.key).Of(w) <= RowsIn(s.rows, c.key, c.phase.outcome.at - Span(w), s.now)
  }

  ghost predicate Justified(lim: int -> Limits, s: State) {
    forall c :: c in s.calls ==> FairRejection(lim, s, c)
  }

  /** Rows are only added, so a rejection stays justified. */
  lemma StaysFair(lim: int -> Limits, s: State, step: Step, c: Call)
    requires Timely(s) && FairRejection(lim, s, c)
    ensures FairRejection(lim, Exec(lim, s, step), c)
  {
    var s' := Exec(lim, s, step);
    if c.phase.Finished? && c.phase.outcome.RateLimited? {
      var lo := c.phase.outcome.at - Span(c.phase.outcome.w);
      WidenSpan(s.rows, c.key, lo, s.now, s'.now);
      if s'.rows != s.rows {
        AppendRow(s.rows, s'.rows[|s.rows|], c.key, lo, s'.now);
      }
    }
  }

  lemma NewRejectionIsFair(lim: int -> Limits, s: State, i: nat, ok: bool)
    requires Timely(s) && Justified(lim, s) && i < |s.calls|
    ensures FairRejection(lim, Exec(lim, s, Do(i, ok)), Exec(lim, s, Do(i, ok)).calls[i])
  {
    var call, call' := s.calls[i], Exec(lim, s, Do(i, ok)).calls[i];
    assert FairRejection(lim, s, call);
    if call.phase.Finished? {
      StaysFair(lim, s, Do(i, ok), call);
    } else if call'.phase.Finished? && call'.phase.outcome.RateLimited? {
      CountIsSpan(s.rows, call.key, call'.phase.outcome.at - Span(call'.phase.outcome.w), s.now);
    }
  }

  lemma JustifiedStep(lim: int -> Limits, s: State, step: Step)
    requires Timely(s) && Justified(lim, s)
    ensures Justified(lim, Exec(lim, s, step))
  {
    var s' := Exec(lim, s, step);
    forall c | c in s'.calls
      ensures FairRejection(lim, s', c)
    {
      if c in s.calls {
        StaysFair(lim, s, step, c);
      } else if step.Do? && step.c < |s.calls| {
        NewRejectionIsFair(lim, s, step.c, step.ok);
      }
    }
  }

  /** Over every run, no call is rejected while its window still has room. */
  lemma {:induction false} RejectionsAreJustified(lim: int -> Limits, s: State, steps: seq<Step>)
    requires Timely(s) && Justified(lim, s)
    ensures Justified(lim, Run(lim, s, steps))
    decreases |steps|
  {
    if steps != [] {
      TimelyStep(lim, s, steps[0]);
      JustifiedStep(lim, s, steps[0]);
      RejectionsAreJustified(lim, Exec(lim, s, steps[0]), steps[1..]);
    }
  }

  /** The windows are a minute and an hour: a rejection met a full one, which ended at its clock reading. */
  lemma RejectionsMetFullWindows(lim: int -> Limits, now: int, steps: seq<Step>, c: Call)
    requires c in Run(lim, Initial(now), steps).calls
    ensures var end := Run(lim, Initial(now), steps);
            && (forall at :: c.phase == Finished(RateLimited(Minute, at)) ==>
                  0 < lim(c.key).perMinute <= RowsIn(end.rows, c.key, at - 60_000, end.now))
            && (forall at :: c.phase == Finished(RateLimited(Hour, at)) ==>
                  0 < lim(c.key).perHour <= RowsIn(end.rows, c.key, at - 3_600_000, end.now))
  {
    RejectionsAreJustified(lim, Initial(now), steps);
    assert FairRejection(lim, Run(lim, Initial(now), steps), c);
  }

  // ---- The bound is exact, and it rests on the counts succeeding ----

  lemma {:induction false} RunAppend(lim: int -> Limits, s: State, steps: seq<Step>, step: Step, key: int, w: Window,
                                     most: nat)
    requires AtMostInFlight(lim, s, steps, key, w, most)
    requires Active(Exec(lim, Run(lim, s, steps), step).calls, key, w) <= most
    ensures Run(lim, s, steps + [step]) == Exec(lim, Run(lim, s, steps), step)
    ensures AtMostInFlight(lim, s, steps + [step], key, w, most)
    ensures Failures(lim, s, steps + [step], key, w)
         == Failures(lim, s, steps, key, w) + if CountFails(Run(lim, s, steps), step, key, w) then 1 else 0
    decreases |steps|
  {
    if steps == [] {
      assert [step][1..] == [];
    } else {
      assert (steps + [step])[1..] == steps[1..] + [step];
      RunAppend(lim, Exec(lim, s, steps[0]), steps[1..], step, key, w, most);
    }
  }

  /** Which runs are looked for: of one key, with most calls in flight. */
  datatype Scene = Scene(now: int, key: int, most: nat)

  /** A number of failed counts for either window. */
  datatype Failed = Failed(minute: nat, hour: nat) {
    function Of(w: Window): nat {
      match w
      case Minute => minute
      case Hour => hour
    }

    function Plus(more: Failed): Failed {
      Failed(minute + more.minute, hour + more.hour)
    }
  }

  function FailedBy(s: State, step: Step, key: int): Failed {
    Failed(if CountFails(s, step, key, Minute) then 1 else 0, if CountFails(s, step, key, Hour) then 1 else 0)
  }

  /** The run has no more calls in flight than the scene allows, and just this many failed counts. */
  ghost predicate FollowsFor(lim: int -> Limits, v: Scene, w: Window, failed: nat, steps: seq<Step>) {
    && AtMostInFlight(lim, Initial(v.now), steps, v.key, w, v.most)
    && Failures(lim, Initial(v.now), steps, v.key, w) == failed
  }

  ghost predicate Follows(lim: int -> Limits, v: Scene, failed: Failed, steps: seq<Step>) {
    FollowsFor(lim, v, Minute, failed.minute, steps) && FollowsFor(lim, v, Hour, failed.hour, steps)
  }

  /** Some run with just these failed counts leads to s. */
  ghost predicate Reached(lim: int -> Limits, v: Scene, failed: Failed, s: State) {
    exists steps :: Follows(lim, v, failed, steps) && Run(lim, Initial(v.now), steps) == s
  }

  lemma FollowsOn(lim: int -> Limits, v: Scene, w: Window, failed: nat, steps: seq<Step>, s: State, step: Step)
    requires FollowsFor(lim, v, w, failed, steps) && Run(lim, Initial(v.now), steps) == s
    requires Active(Exec(lim, s, step).calls, v.key, w) <= v.most
    ensures FollowsFor(lim, v, w, failed + if CountFails(s, step, v.key, w) then 1 else 0, steps + [step])
    ensures Run(lim, Initial(v.now), steps + [step]) == Exec(lim, s, step)
  {
    RunAppend(lim, Initial(v.now), steps, step, v.key, w, v.most);
  }

  lemma FollowsBoth(lim: int -> Limits, v: Scene, failed: Failed, steps: seq<Step>, s: State, step: Step)
    requires Follows(lim, v, failed, steps) && Run(lim, Initial(v.now), steps) == s
    requires Active(Exec(lim, s, step).calls, v.key, Minute) <= v.most
    requires Active(Exec(lim, s, step).calls, v.key, Hour) <= v.most
    ensures Follows(lim, v, failed.Plus(FailedBy(s, step, v.key)), steps + [step])
    ensures Run(lim, Initial(v.now), steps + [step]) == Exec(lim, s, step)
  {
    FollowsOn(lim, v, Minute, failed.minute, steps, s, step);
    FollowsOn(lim, v, Hour, failed.hour, steps, s, step);
    var more := FailedBy(s, step, v.key);
    assert FollowsFor(lim, v, Minute, failed.minute + more.minute, steps + [step]);
    assert FollowsFor(lim, v, Hour, failed.hour + more.hour, steps + [step]);
  }

  lemma ReachedStep(lim: int -> Limits, v: Scene, failed: Failed, s: State, step: Step)
    requires Reached(lim, v, failed, s)
    requires Active(Exec(lim, s, step).calls, v.key, Minute) <= v.most
    requires Active(Exec(lim, s, step).calls, v.key, Hour) <= v.most
    ensures Reached(lim, v, failed.Plus(FailedBy(s, step, v.key)), Exec(lim, s, step))
  {
    var steps :| Follows(lim, v, failed, steps) && Run(lim, Initial(v.now), steps) == s;
    FollowsBoth(lim, v, failed, steps, s, step);
  }

  lemma {:induction false} ActiveUpdate(calls: seq<Call>, i: nat, c: Call, key: int, w: Window)
    requires i < |calls|
    ensures Active(calls[i := c], key, w) + (if calls[i].key == key && calls[i].InFlight(w) then 1 else 0)
         == Active(calls, key, w) + (if c.key == key && c.InFlight(w) then 1 else 0)
  {
    var n := |calls| - 1;
    if i == n {
      assert calls[i := c][..n] == calls[..n];
    } else {
      assert calls[i := c][..n] == calls[..n][i := c];
      ActiveUpdate(calls[..n], i, c, key, w);
    }
  }

  /** At time now: this many rows, all of the key and of now; the last pending calls wait to insert; no other
      call of the key is in flight. */
  ghost predicate Staged(s: State, v: Scene, rows: nat, pending: nat) {
    && s.now == v.now && |s.rows| == rows && (forall r :: r in s.rows ==> r == Row(v.key, v.now))
    && pending <= |s.calls|
    && Active(s.calls, v.key, Minute) == pending && Active(s.calls, v.key, Hour) == pending
    && (forall i :: |s.calls| - pending <= i < |s.calls| ==>
          s.calls[i].key == v.key && s.calls[i].phase == Recording(v.now))
  }

  lemma {:induction false} AllNow(rows: seq<Row>, key: int, now: int, w: Window)
    requires forall r :: r in rows ==> r == Row(key, now)
    ensures RowsIn(rows, key, now, now + Span(w)) == |rows| && CountSince(rows, key, now - Span(w)) == |rows|
  {
    if rows != [] {
      var n := |rows| - 1;
      assert rows[n] in rows && forall r :: r in rows[..n] ==> r in rows;
      AllNow(rows[..n], key, now, w);
    }
  }

  function Other(w: Window): Window {
    if w.Minute? then Hour else Minute
  }

  /** As Staged, with one more call, in the given phase, that has read the clock at now throughout. */
  ghost predicate Midway(s: State, v: Scene, rows: nat, pending: nat, phase: Phase) {
    && |s.calls| > pending
    && s.calls[|s.calls| - 1] == Call(v.key, phase, v.now, v.now)
    && Staged(s.(calls := s.calls[..|s.calls| - 1]), v, rows, pending)
  }

  function Following(phase: Phase, now: int): Phase {
    match phase
    case CheckMinute => CountMinute
    case CountMinute => CheckHour
    case CheckHour => CountHour
    case CountHour => Looking
    case Looking => Found
    case Found => Recording(now)
    case _ => phase
  }

  function StepsLeft(phase: Phase): nat {
    match phase
    case CheckMinute => 6
    case CountMinute => 5
    case CheckHour => 4
    case CountHour => 3
    case Looking => 2
    case Found => 1
    case _ => 0
  }

  /** The limit for w lets a call through that counts this many rows. */
  predicate Admits(l: Limits, w: Window, rows: nat) {
    l.Of(w) <= 0 || rows < l.Of(w)
  }

  /** A call whose counts fail just where the limits would reject it: the answer to its step in this phase. */
  function AnswerIn(l: Limits, rows: nat, phase: Phase): bool {
    match phase
    case CountMinute => Admits(l, Minute, rows)
    case CountHour => Admits(l, Hour, rows)
    case _ => true
  }

  /** The failures still to come for such a call. */
  function FailuresLeft(l: Limits, rows: nat, phase: Phase): Failed {
    Failed(LeftFor(l, Minute, rows, phase), LeftFor(l, Hour, rows, phase))
  }

  function LeftFor(l: Limits, w: Window, rows: nat, phase: Phase): nat {
    if !Admits(l, w, rows) && StepsLeft(phase) >= StepsLeft(if w.Minute? then CountMinute else CountHour) then 1 else 0
  }

  lemma YoungestMoves(lim: int -> Limits, v: Scene, s: State, rows: nat, pending: nat, phase: Phase)
    requires Midway(s, v, rows, pending, phase) && StepsLeft(phase) > 0
    ensures NextCall(lim(v.key), s, s.calls[|s.calls| - 1], AnswerIn(lim(v.key), rows, phase))
         == Call(v.key, Following(phase, v.now), v.now, v.now)
  {
    AllNow(s.rows, v.key, v.now, Minute);
    AllNow(s.rows, v.key, v.now, Hour);
  }

  lemma YoungestFailsFor(s: State, key: int, l: Limits, w: Window, rows: nat, phase: Phase)
    requires s.calls != [] && s.calls[|s.calls| - 1].key == key && s.calls[|s.calls| - 1].phase == phase
    requires StepsLeft(phase) > 0
    ensures LeftFor(l, w, rows, phase) == LeftFor(l, w, rows, Following(phase, s.now))
              + if CountFails(s, Do(|s.calls| - 1, AnswerIn(l, rows, phase)), key, w) then 1 else 0
  {
    match w
    case Minute =>
    case Hour =>
  }

  lemma YoungestFails(s: State, key: int, l: Limits, rows: nat, phase: Phase, failed: Failed)
    requires s.calls != [] && s.calls[|s.calls| - 1].key == key && s.calls[|s.calls| - 1].phase == phase
    requires StepsLeft(phase) > 0
    ensures var failing := FailedBy(s, Do(|s.calls| - 1, AnswerIn(l, rows, phase)), key);
            failed.Plus(failing).Plus(FailuresLeft(l, rows, Following(phase, s.now)))
              == failed.Plus(FailuresLeft(l, rows, phase))
  {
    YoungestFailsFor(s, key, l, Minute, rows, phase);
    YoungestFailsFor(s, key, l, Hour, rows, phase);
  }

  lemma YoungestStep(lim: int -> Limits, v: Scene, s: State, rows: nat, pending: nat, phase: Phase)
    requires Midway(s, v, rows, pending, phase) && StepsLeft(phase) > 0
    ensures var step := Do(|s.calls| - 1, AnswerIn(lim(v.key), rows, phase));
            Midway(Exec(lim, s, step), v, rows, pending, Following(phase, v.now))
  {
    var n, ok := |s.calls| - 1, AnswerIn(lim(v.key), rows, phase);
    YoungestMoves(lim, v, s, rows, pending, phase);
    var s' := Exec(lim, s, Do(n, ok));
    assert s'.calls[..n] == s.calls[..n] && s'.rows == s.rows && s'.now == s.now;
    assert s'.(calls := s'.calls[..n]) == s.(calls := s.calls[..n]);
  }

  lemma MidwayActive(s: State, v: Scene, rows: nat, pending: nat, phase: Phase)
    requires Midway(s, v, rows, pending, phase)
    ensures Active(s.calls, v.key, Minute) <= pending + 1 && Active(s.calls, v.key, Hour) <= pending + 1
    ensures phase == Recording(v.now) ==> Staged(s, v, rows, pending + 1)
  {
  }

  lemma NoneAfter(failed: Failed, l: Limits, rows: nat, now: int)
    ensures failed.Plus(FailuresLeft(l, rows, Recording(now))) == failed
  {
  }

  lemma ReachNext(lim: int -> Limits, v: Scene, failed: Failed, s: State, rows: nat, pending: nat, phase: Phase)
    returns (s': State)
    requires Reached(lim, v, failed, s) && pending < v.most
    requires Midway(s, v, rows, pending, phase) && StepsLeft(phase) > 0
    ensures Midway(s', v, rows, pending, Following(phase, v.now))
    ensures var step := Do(|s.calls| - 1, AnswerIn(lim(v.key), rows, phase));
            Reached(lim, v, failed.Plus(FailedBy(s, step, v.key)), s')
  {
    var step := Do(|s.calls| - 1, AnswerIn(lim(v.key), rows, phase));
    YoungestStep(lim, v, s, rows, pending, phase);
    s' := Exec(lim, s, step);
    MidwayActive(s', v, rows, pending, Following(phase, v.now));
    ReachedStep(lim, v, failed, s, step);
  }

  /** Lets the youngest call go on until it waits to insert. */
  lemma {:induction false} ReachInsert(lim: int -> Limits, v: Scene, failed: Failed, s: State, rows: nat, pending: nat,
                                       phase: Phase) returns (s': State)
    requires Reached(lim, v, failed, s) && pending < v.most
    requires Midway(s, v, rows, pending, phase) && StepsLeft(phase) > 0
    ensures Reached(lim, v, failed.Plus(FailuresLeft(lim(v.key), rows, phase)), s')
    ensures Staged(s', v, rows, pending + 1)
    decreases StepsLeft(phase)
  {
    var failing := FailedBy(s, Do(|s.calls| - 1, AnswerIn(lim(v.key), rows, phase)), v.key);
    YoungestFails(s, v.key, lim(v.key), rows, phase, failed);
    s' := ReachNext(lim, v, failed, s, rows, pending, phase);
    if phase.Found? {
      NoneAfter(failed.Plus(failing), lim(v.key), rows, v.now);
      MidwayActive(s', v, rows, pending, Following(phase, v.now));
    } else {
      s' := ReachInsert(lim, v, failed.Plus(failing), s', rows, pending, Following(phase, v.now));
    }
  }

  /** A run of the scene with just these failed counts leads to s, staged like this. */
  ghost predicate At(lim: int -> Limits, v: Scene, failed: Failed, s: State, rows: nat, pending: nat) {
    Reached(lim, v, failed, s) && Staged(s, v, rows, pending)
  }

  /** One more call that waits to insert. */
  lemma ReachAdmit(lim: int -> Limits, v: Scene, failed: Failed, s: State, rows: nat, pending: nat) returns (s': State)
    requires At(lim, v, failed, s, rows, pending) && pending < v.most
    ensures At(lim, v, failed.Plus(FailuresLeft(lim(v.key), rows, CheckMinute)), s', rows, pending + 1)
  {
    s' := Exec(lim, s, Arrive(v.key));
    assert s'.calls[..|s.calls|] == s.calls;
    ReachedStep(lim, v, failed, s, Arrive(v.key));
    assert failed.Plus(FailedBy(s, Arrive(v.key), v.key)) == failed;
    assert s'.(calls := s.calls) == s;
    s' := ReachInsert(lim, v, failed, s', rows, pending, CheckMinute);
  }

  lemma InsertStages(lim: int -> Limits, v: Scene, s: State, rows: nat, pending: nat)
    requires Staged(s, v, rows, pending) && pending > 0
    ensures Staged(Exec(lim, s, Do(|s.calls| - pending, true)), v, rows + 1, pending - 1)
  {
    var c := |s.calls| - pending;
    var s' := Exec(lim, s, Do(c, true));
    ActiveUpdate(s.calls, c, s'.calls[c], v.key, Minute);
    ActiveUpdate(s.calls, c, s'.calls[c], v.key, Hour);
    assert s'.rows == s.rows + [Row(v.key, v.now)];
  }

  /** The longest waiting call inserts its row. */
  lemma ReachRow(lim: int -> Limits, v: Scene, failed: Failed, s: State, rows: nat, pending: nat) returns (s': State)
    requires At(lim, v, failed, s, rows, pending) && 0 < pending <= v.most
    ensures At(lim, v, failed, s', rows + 1, pending - 1)
  {
    InsertStages(lim, v, s, rows, pending);
    s' := Exec(lim, s, Do(|s.calls| - pending, true));
    ReachedStep(lim, v, failed, s, Do(|s.calls| - pending, true));
    assert failed.Plus(FailedBy(s, Do(|s.calls| - pending, true), v.key)) == failed;
  }

  lemma ReachStart(lim: int -> Limits, v: Scene)
    ensures At(lim, v, Failed(0, 0), Initial(v.now), 0, 0)
  {
    assert Follows(lim, v, Failed(0, 0), []) && Run(lim, Initial(v.now), []) == Initial(v.now);
  }

  // ---- What a number of rows costs ----

  /** The failed counts for w without which no more than L + most - 1 of n rows get into one window. */
  function Needed(l: Limits, w: Window, most: nat, n: nat): nat {
    if l.Of(w) > 0 && n > l.Of(w) + most - 1 then n - (l.Of(w) + most - 1) else 0
  }

  function Excess(l: Limits, rows: nat): Failed {
    Failed(if l.perMinute > 0 && rows > l.perMinute then rows - l.perMinute else 0,
           if l.perHour > 0 && rows > l.perHour then rows - l.perHour else 0)
  }

  lemma ExcessOneMore(l: Limits, rows: nat)
    ensures Excess(l, rows).Plus(FailuresLeft(l, rows, CheckMinute)) == Excess(l, rows + 1)
  {
  }

  /** Calls that count before any row is there, and wait. */
  lemma ReachWaiting(lim: int -> Limits, v: Scene, waiting: nat) returns (s: State)
    requires waiting < v.most
    ensures At(lim, v, Failed(0, 0), s, 0, waiting)
  {
    s := Initial(v.now);
    ReachStart(lim, v);
    for pending := 0 to waiting
      invariant At(lim, v, Failed(0, 0), s, 0, pending)
    {
      s := ReachAdmit(lim, v, Failed(0, 0), s, 0, pending);
    }
  }

  /** Calls in turn beside the waiting ones: each meets the rows of those before it, and its counts fail where
      the limits would reject it. */
  lemma ReachInTurn(lim: int -> Limits, v: Scene, s: State, waiting: nat, rows: nat) returns (s': State)
    requires At(lim, v, Failed(0, 0), s, 0, waiting) && waiting < v.most
    ensures At(lim, v, Excess(lim(v.key), rows), s', rows, waiting)
  {
    s' := s;
    for done := 0 to rows
      invariant At(lim, v, Excess(lim(v.key), done), s', done, waiting)
    {
      s' := ReachAdmit(lim, v, Excess(lim(v.key), done), s', done, waiting);
      ExcessOneMore(lim(v.key), done);
      s' := ReachRow(lim, v, Excess(lim(v.key), done + 1), s', done, waiting + 1);
    }
  }

  lemma ReachAllRows(lim: int -> Limits, v: Scene, failed: Failed, s: State, rows: nat, waiting: nat)
    returns (s': State)
    requires At(lim, v, failed, s, rows, waiting) && waiting <= v.most
    ensures At(lim, v, failed, s', rows + waiting, 0)
  {
    s' := s;
    for inserted := 0 to waiting
      invariant At(lim, v, failed, s', rows + inserted, waiting - inserted)
    {
      s' := ReachRow(lim, v, failed, s', rows + inserted, waiting - inserted);
    }
  }

  /** The run gets n rows into the closed window of either length that starts with it, with exactly the failed
      counts that needs. */
  ghost predicate GetsCheaply(lim: int -> Limits, v: Scene, n: nat, w: Window, steps: seq<Step>) {
    && AtMostInFlight(lim, Initial(v.now), steps, v.key, w, v.most)
    && Failures(lim, Initial(v.now), steps, v.key, w) == Needed(lim(v.key), w, v.most, n)
    && WindowRows(Run(lim, Initial(v.now), steps).rows, v.key, w, v.now) == n
  }

  lemma ReachAtOnce(lim: int -> Limits, v: Scene, n: nat) returns (s: State, failed: Failed)
    requires v.most > 0
    ensures At(lim, v, failed, s, n, 0)
    ensures failed == Failed(Needed(lim(v.key), Minute, v.most, n), Needed(lim(v.key), Hour, v.most, n))
  {
    var waiting := if n < v.most then (if n == 0 then 0 else n - 1) else v.most - 1;
    s := ReachWaiting(lim, v, waiting);
    s := ReachInTurn(lim, v, s, waiting, n - waiting);
    failed := Excess(lim(v.key), n - waiting);
    s := ReachAllRows(lim, v, failed, s, n - waiting, waiting);
  }

  lemma StagedAtOnce(lim: int -> Limits, v: Scene, n: nat, w: Window, steps: seq<Step>, s: State)
    requires FollowsFor(lim, v, w, Needed(lim(v.key), w, v.most, n), steps) && Run(lim, Initial(v.now), steps) == s
    requires Staged(s, v, n, 0)
    ensures GetsCheaply(lim, v, n, w, steps)
  {
    AllNow(s.rows, v.key, v.now, w);
  }

  /** Any number of rows at once is reached with exactly the failed counts it needs, for both windows at the
      same time: most - 1 calls count first and wait while the others follow in turn. */
  lemma CheapestRun(lim: int -> Limits, v: Scene, n: nat) returns (steps: seq<Step>)
    requires v.most > 0
    ensures GetsCheaply(lim, v, n, Minute, steps) && GetsCheaply(lim, v, n, Hour, steps)
  {
    var s, failed := ReachAtOnce(lim, v, n);
    steps :| Follows(lim, v, failed, steps) && Run(lim, Initial(v.now), steps) == s;
    StagedAtOnce(lim, v, n, Minute, steps, s);
    StagedAtOnce(lim, v, n, Hour, steps, s);
  }

  function WindowRows(rows: seq<Row>, key: int, w: Window, a: int): nat {
    RowsIn(rows, key, a, a + Span(w))
  }

  lemma {:induction false} FewerForHour(calls: seq<Call>, key: int)
    ensures Active(calls, key, Hour) <= Active(calls, key, Minute)
  {
    if calls != [] { FewerForHour(calls[..|calls| - 1], key); }
  }

  lemma {:induction false} InFlightForHour(lim: int -> Limits, s: State, steps: seq<Step>, key: int, most: nat)
    requires AtMostInFlight(lim, s, steps, key, Minute, most)
    ensures AtMostInFlight(lim, s, steps, key, Hour, most)
    decreases |steps|
  {
    if steps != [] {
      FewerForHour(Exec(lim, s, steps[0]).calls, key);
      InFlightForHour(lim, Exec(lim, s, steps[0]), steps[1..], key, most);
    }
  }

  /** No run gets rows into a closed minute for less: both limits have to be overcome. */
  lemma MinuteNeedsFailures(lim: int -> Limits, now: int, steps: seq<Step>, key: int, most: nat, w: Window, a: int)
    requires AtMostInFlight(lim, Initial(now), steps, key, Minute, most)
    ensures Failures(lim, Initial(now), steps, key, w)
         >= Needed(lim(key), w, most, WindowRows(Run(lim, Initial(now), steps).rows, key, Minute, a))
  {
    if lim(key).Of(w) > 0 {
      InFlightForHour(lim, Initial(now), steps, key, most);
      FailuresCostOneEach(lim, now, steps, key, w, most, a);
      WidenSpan(Run(lim, Initial(now), steps).rows, key, a, a + Span(Minute), a + Span(Hour));
    }
  }

  ghost predicate Affords(lim: int -> Limits, v: Scene, failed: Failed, steps: seq<Step>) {
    && AtMostInFlight(lim, Initial(v.now), steps, v.key, Minute, v.most)
    && Failures(lim, Initial(v.now), steps, v.key, Minute) <= failed.minute
    && Failures(lim, Initial(v.now), steps, v.key, Hour) <= failed.hour
  }

  /** A run that these failed counts pay for gets n rows into the closed minute that starts with it. */
  ghost predicate Reachable(lim: int -> Limits, v: Scene, failed: Failed, n: nat) {
    exists steps :: Affords(lim, v, failed, steps)
                    && WindowRows(Run(lim, Initial(v.now), steps).rows, v.key, Minute, v.now) == n
  }

  /** With any two limits, n rows can get into one closed minute if and only if enough counts of the one window
      and enough of the other may fail. */
  lemma MinuteReachedExactly(lim: int -> Limits, v: Scene, failed: Failed, n: nat)
    requires v.most > 0
    ensures Reachable(lim, v, failed, n) <==>
              && Needed(lim(v.key), Minute, v.most, n) <= failed.minute
              && Needed(lim(v.key), Hour, v.most, n) <= failed.hour
  {
    if Needed(lim(v.key), Minute, v.most, n) <= failed.minute && Needed(lim(v.key), Hour, v.most, n) <= failed.hour {
      var steps := CheapestRun(lim, v, n);
      assert Affords(lim, v, failed, steps);
    }
    if Reachable(lim, v, failed, n) {
      var steps :| Affords(lim, v, failed, steps)
                   && WindowRows(Run(lim, Initial(v.now), steps).rows, v.key, Minute, v.now) == n;
      MinuteNeedsFailures(lim, v.now, steps, v.key, v.most, Minute, v.now);
      MinuteNeedsFailures(lim, v.now, steps, v.key, v.most, Hour, v.now);
    }
  }

  /** The price of failed counts is reached, for any number of them. If the other window is limited too, its
      counts fail as often as that takes. */
  lemma CostIsAttained(lim: int -> Limits, now: int, key: int, w: Window, most: nat, failures: nat)
    returns (steps: seq<Step>)
    requires lim(key).Of(w) > 0 && most > 0
    ensures Failures(lim, Initial(now), steps, key, w) == failures
    ensures Failures(lim, Initial(now), steps, key, Other(w))
         == Needed(lim(key), Other(w), most, lim(key).Of(w) + most - 1 + failures)
    ensures AtMostInFlight(lim, Initial(now), steps, key, w, most)
    ensures RowsIn(Run(lim, Initial(now), steps).rows, key, now, now + Span(w)) == lim(key).Of(w) + most - 1 + failures
  {
    var n := lim(key).Of(w) + most - 1 + failures;
    steps := CheapestRun(lim, Scene(now, key, most), n);
    assert GetsCheaply(lim, Scene(now, key, most), n, w, steps);
    assert GetsCheaply(lim, Scene(now, key, most), n, Other(w), steps);
  }

  /** The bound is reached when every count for the window succeeds. */
  lemma BoundIsAttained(lim: int -> Limits, now: int, key: int, w: Window, most: nat) returns (steps: seq<Step>)
    requires lim(key).Of(w) > 0 && most > 0
    ensures CountsSucceed(lim, Initial(now), steps, key, w)
    ensures Failures(lim, Initial(now), steps, key, Other(w))
         == Needed(lim(key), Other(w), most, lim(key).Of(w) + most - 1)
    ensures AtMostInFlight(lim, Initial(now), steps, key, w, most)
    ensures RowsIn(Run(lim, Initial(now), steps).rows, key, now, now + Span(w)) == lim(key).Of(w) + most - 1
  {
    steps := CostIsAttained(lim, now, key, w, most, 0);
  }

  /** The run has at most this many calls in flight, and failed counts, for w. */
  ghost predicate Admissible(lim: int -> Limits, v: Scene, w: Window, failures: nat, steps: seq<Step>) {
    && AtMostInFlight(lim, Initial(v.now), steps, v.key, w, v.most)
    && Failures(lim, Initial(v.now), steps, v.key, w) <= failures
  }

  /** The run has no more than bound rows of the key in any closed window. */
  ghost predicate KeepsWithin(lim: int -> Limits, v: Scene, w: Window, steps: seq<Step>, bound: int) {
    forall a :: WindowRows(Run(lim, Initial(v.now), steps).rows, v.key, w, a) <= bound
  }

  /** L + most - 1 bounds every run with at most this many failed counts for the window, whatever the counts
      for the other do, if and only if none may fail. */
  lemma BoundNeedsCounts(lim: int -> Limits, v: Scene, w: Window, failures: nat)
    requires lim(v.key).Of(w) > 0 && v.most > 0
    ensures var bound := lim(v.key).Of(w) + v.most - 1;
            (forall steps :: Admissible(lim, v, w, failures, steps) ==> KeepsWithin(lim, v, w, steps, bound)) <==>
              failures == 0
  {
    var bound := lim(v.key).Of(w) + v.most - 1;
    if failures == 0 {
      forall steps | Admissible(lim, v, w, failures, steps)
        ensures KeepsWithin(lim, v, w, steps, bound)
      {
        forall a
          ensures WindowRows(Run(lim, Initial(v.now), steps).rows, v.key, w, a) <= bound
        {
          SlidingWindowBound(lim, v.now, steps, v.key, w, v.most, a);
        }
      }
    } else {
      var steps := CostIsAttained(lim, v.now, v.key, w, v.most, failures);
      assert Admissible(lim, v, w, failures, steps);
      assert WindowRows(Run(lim, Initial(v.now), steps).rows, v.key, w, v.now) > bound;
    }
  }

  /** A failed count lets the call through: a sequential caller reaches any number of rows, with one failed
      count of a window for every row beyond its limit. */
  lemma FailedCountsRemoveTheLimit(lim: int -> Limits, now: int, key: int, n: nat) returns (steps: seq<Step>)
    ensures AtMostInFlight(lim, Initial(now), steps, key, Minute, 1)
    ensures Failures(lim, Initial(now), steps, key, Minute)
         == if 0 < lim(key).perMinute < n then n - lim(key).perMinute else 0
    ensures Failures(lim, Initial(now), steps, key, Hour)
         == if 0 < lim(key).perHour < n then n - lim(key).perHour else 0
    ensures RowsIn(Run(lim, Initial(now), steps).rows, key, now, now + Span(Minute)) == n
    ensures RowsIn(Run(lim, Initial(now), steps).rows, key, now, now + Span(Hour)) == n
  {
    steps := CheapestRun(lim, Scene(now, key, 1), n);
  }

  // ---- The handler itself ----

  /** The table and the outcome of one undisturbed call that reads the clock at t1, t2 and t3. */
  function Undisturbed(l: Limits, rows: seq<Row>, key: int, t1: int, t2: int, t3: int,
                       minuteOk: bool, hourOk: bool, lookupOk: bool, insertOk: bool): (seq<Row>, Outcome)
  {
    if l.perMinute > 0 && minuteOk && CountSince(rows, key, t1 - Span(Minute)) >= l.perMinute then
      (rows, RateLimited(Minute, t1))
    else if l.perHour > 0 && hourOk && CountSince(rows, key, t2 - Span(Hour)) >= l.perHour then
      (rows, RateLimited(Hour, t2))
    else if !lookupOk then (rows, LookupFailed)
    else (if insertOk then rows + [Row(key, t3)] else rows, Answered(insertOk))
  }

  function Alone(now: int, rows: seq<Row>, call: Call): State {
    State(now, rows, [call])
  }

  lemma AloneStep(lim: int -> Limits, now: int, rows: seq<Row>, call: Call, ok: bool)
    ensures var rows' := if call.phase.Recording? && ok then rows + [Row(call.key, call.phase.ts)] else rows;
            var next := NextCall(lim(call.key), Alone(now, rows, call), call, ok);
            Exec(lim, Alone(now, rows, call), Do(0, ok)) == Alone(now, rows', next)
  {
    var next := NextCall(lim(call.key), Alone(now, rows, call), call, ok);
    assert [call][0 := next] == [next];
  }

  ghost predicate LeadsTo(lim: int -> Limits, s: State, end: State) {
    exists steps :: Run(lim, s, steps) == end
  }

  lemma LeadsFirst(lim: int -> Limits, s: State, step: Step, end: State)
    requires LeadsTo(lim, Exec(lim, s, step), end)
    ensures LeadsTo(lim, s, end)
  {
    var steps :| Run(lim, Exec(lim, s, step), steps) == end;
    assert ([step] + steps)[1..] == steps;
    assert Run(lim, s, [step] + steps) == end;
  }

  /** The step machine lets an undisturbed call end in just this way. */
  lemma {:induction false} UndisturbedFrom(lim: int -> Limits, now: int, rows: seq<Row>, call: Call,
                                           t1: int, t2: int, t3: int,
                                           minuteOk: bool, hourOk: bool, lookupOk: bool, insertOk: bool,
                                           end: (seq<Row>, Outcome)) returns (last: State)
    requires t1 <= t2 <= t3 && call.phase != CountMinute && call.phase != CountHour
    requires !call.phase.Finished? && !call.phase.Recording?
    requires match call.phase
             case CheckMinute =>
               now == t1 && end == Undisturbed(lim(call.key), rows, call.key, t1, t2, t3,
                                               minuteOk, hourOk, lookupOk, insertOk)
             case CheckHour =>
               now == t2 && end == Undisturbed(lim(call.key), rows, call.key, t1, t2, t3,
                                               false, hourOk, lookupOk, insertOk)
             case Looking =>
               now == t2 && end == Undisturbed(lim(call.key), rows, call.key, t1, t2, t3,
                                               false, false, lookupOk, insertOk)
             case _ =>
               now == t3 && end == Undisturbed(lim(call.key), rows, call.key, t1, t2, t3,
                                               false, false, true, insertOk)
    ensures LeadsTo(lim, Alone(now, rows, call), last)
    ensures last.rows == end.0 && |last.calls| == 1 && last.calls[0].phase == Finished(end.1)
    decreases StepsLeft(call.phase)
  {
    var s := Alone(now, rows, call);
    var count := if call.phase.CheckMinute? then minuteOk else if call.phase.CheckHour? then hourOk else lookupOk;
    var first := NextCall(lim(call.key), s, call, count);
    AloneStep(lim, now, rows, call, count);
    if call.phase.Looking? {
      if first.phase.Finished? {
        last := Alone(now, rows, first);
        EndsHere(lim, last);
      } else {
        last := UndisturbedFrom(lim, t3, rows, first, t1, t2, t3, minuteOk, hourOk, lookupOk, insertOk, end);
        LeadsFirst(lim, Alone(now, rows, first), Tick(t3 - now), last);
      }
    } else {
      var ok := if call.phase.Found? then insertOk else count;
      var second := NextCall(lim(call.key), Alone(now, rows, first), first, ok);
      AloneStep(lim, now, rows, first, ok);
      if second.phase.Finished? {
        last := Exec(lim, Alone(now, rows, first), Do(0, ok));
        EndsHere(lim, last);
      } else {
        var next := if second.phase.CheckHour? then t2 else now;
        last := UndisturbedFrom(lim, next, rows, second, t1, t2, t3, minuteOk, hourOk, lookupOk, insertOk, end);
        LeadsFirst(lim, Alone(now, rows, second), Tick(next - now), last);
      }
      LeadsFirst(lim, Alone(now, rows, first), Do(0, ok), last);
    }
    LeadsFirst(lim, s, Do(0, count), last);
  }

  lemma EndsHere(lim: int -> Limits, s: State)
    ensures LeadsTo(lim, s, s)
  {
    assert Run(lim, s, []) == s;
  }

  /** performLookup run alone is a run of the step machine on the same table. */
  lemma UndisturbedIsARun(lim: int -> Limits, rows: seq<Row>, key: int, t1: int, t2: int, t3: int,
                          minuteOk: bool, hourOk: bool, lookupOk: bool, insertOk: bool) returns (last: State)
    requires t1 <= t2 <= t3
    ensures var end := Undisturbed(lim(key), rows, key, t1, t2, t3, minuteOk, hourOk, lookupOk, insertOk);
            && LeadsTo(lim, State(t1, rows, []), last)
            && last.rows == end.0 && |last.calls| == 1 && last.calls[0].phase == Finished(end.1)
  {
    var call := Call(key, CheckMinute, t1, t1);
    last := UndisturbedFrom(lim, t1, rows, call, t1, t2, t3, minuteOk, hourOk, lookupOk, insertOk,
                            Undisturbed(lim(key), rows, key, t1, t2, t3, minuteOk, hourOk, lookupOk, insertOk));
    assert Exec(lim, State(t1, rows, []), Arrive(key)) == Alone(t1, rows, call);
    LeadsFirst(lim, State(t1, rows, []), Arrive(key), last);
  }

  class UsageLog {
    var rows: seq<Row>

    constructor ()
      ensures rows == []
    {
      rows := [];
    }

    method CountUsageSince(key: int, since: int) returns (n: nat)
      ensures n == CountSince(rows, key, since)
    {
      n := 0;
      for i := 0 to |rows|
        invariant n == CountSince(rows[..i], key, since)
      {
        assert rows[..i + 1][..i] == rows[..i];
        if rows[i].key == key && since <= rows[i].ts {
          n := n + 1;
        }
      }
      assert rows[..|rows|] == rows;
    }

    method PerformLookup(key: int, l: Limits, t1: int, t2: int, t3: int,
                         minuteOk: bool, hourOk: bool, lookupOk: bool, insertOk: bool)
      returns (out: Outcome)
      requires t1 <= t2 <= t3
      modifies this
      ensures (rows, out) == Undisturbed(l, old(rows), key, t1, t2, t3, minuteOk, hourOk, lookupOk, insertOk)
    {
      if l.perMinute > 0 {
        var n := CountUsageSince(key, t1 - Span(Minute));
        if minuteOk && n >= l.perMinute {
          return RateLimited(Minute, t1);
        }
      }
      if l.perHour > 0 {
        var n := CountUsageSince(key, t2 - Span(Hour));
        if hourOk && n >= l.perHour {
          return RateLimited(Hour, t2);
        }
      }
      if !lookupOk {
        return LookupFailed;
      }
      if insertOk {
        rows := rows + [Row(key, t3)];
      }
      return Answered(insertOk);
    }
  }
}
