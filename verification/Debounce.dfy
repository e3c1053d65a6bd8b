/** The card reader loop: which reads are reported, across PC/SC failures and restarts. Durations are in
    milliseconds of a clock that never goes back. */
module Debounce {
  import opened Text

  const DEBOUNCE_MS := 2500
  const POLL_MS := 500
  const RESTART_MS := 5000

  datatype Status = Changed | TimedOut | ReaderGone | Broken

  /** What PC/SC answers in one turn of the loop, and how long it and the callback take. A turn without a
      context only tries to establish one. */
  datatype Poll = Poll(context: bool, listed: bool, status: Status, present: bool, uid: Option<string>,
                       took: nat, callback: nat)

  datatype Read = Read(uid: string, at: int, reported: bool)

  datatype Mode = Down | Up(haveReader: bool, lastUid: string, lastAt: int)

  datatype State = State(clock: int, mode: Mode, log: seq<Read>)

  predicate Suppressed(uid: string, lastUid: string, lastAt: int, now: int) {
    uid == lastUid && now - lastAt < DEBOUNCE_MS
  }

  /** One turn, when a failed run is followed by a pause. */
  function Step(pause: nat, s: State, p: Poll): State {
    var now := s.clock + p.took;
    if s.mode.Down? then
      if p.context then State(now, Up(false, "", 0), s.log) else State(now + pause, Down, s.log)
    else if !s.mode.haveReader && !p.listed then State(now + POLL_MS, s.mode, s.log)
    else if p.status == ReaderGone then State(now, s.mode.(haveReader := false), s.log)
    else if p.status == Broken then State(now + pause, Down, s.log)
    else if !p.present || p.uid.None? then State(now, s.mode.(haveReader := true), s.log)
    else if Suppressed(p.uid.value, s.mode.lastUid, s.mode.lastAt, now) then
      State(now, s.mode.(haveReader := true), s.log + [Read(p.uid.value, now, false)])
    else State(now + p.callback, Up(true, p.uid.value, now), s.log + [Read(p.uid.value, now, true)])
  }

  function Exec(pause: nat, clock: nat, script: seq<Poll>): State {
    if script == [] then State(clock, Down, [])
    else Step(pause, Exec(pause, clock, script[..|script| - 1]), script[|script| - 1])
  }

  // ---- The loops ----

  lemma ExecOneMore(pause: nat, clock: nat, script: seq<Poll>, i: nat)
    requires i < |script|
    ensures Exec(pause, clock, script[..i + 1]) == Step(pause, Exec(pause, clock, script[..i]), script[i])
  {
    assert script[..i + 1][..i] == script[..i];
  }

  /** The body of the run's loop. */
  method Turn(p: Poll, haveReader0: bool, lastUid0: string, lastAt0: int, clock0: int, log0: seq<Read>)
    returns (failed: bool, haveReader: bool, lastUid: string, lastAt: int, clock: int, log: seq<Read>)
    ensures Step(RESTART_MS, State(clock0, Up(haveReader0, lastUid0, lastAt0), log0), p)
         == if failed then State(clock + RESTART_MS, Down, log) else State(clock, Up(haveReader, lastUid, lastAt), log)
  {
    failed, haveReader, lastUid, lastAt, clock, log := false, haveReader0, lastUid0, lastAt0, clock0 + p.took, log0;
    if !haveReader {
      if !p.listed {
        clock := clock + POLL_MS;
        return;
      }
      haveReader := true;
    }
    if p.status == ReaderGone {
      haveReader := false;
      return;
    }
    if p.status == Broken {
      failed := true;
      return;
    }
    if !p.present { return; }
    if p.uid.None? { return; }
    var uid, now := p.uid.value, clock;
    if uid == lastUid && now - lastAt < DEBOUNCE_MS {
      log := log + [Read(uid, now, false)];
      return;
    }
    lastUid, lastAt := uid, now;
    log, clock := log + [Read(uid, now, true)], clock + p.callback;
  }

  /** One run, until PC/SC breaks or the script ends. */
  method RunPcsc(script: seq<Poll>, i0: nat, clock0: int, log0: seq<Read>, ghost start: nat)
    returns (failed: bool, i: nat, clock: int, log: seq<Read>)
    requires i0 < |script| && Exec(RESTART_MS, start, script[..i0]) == State(clock0, Down, log0)
    ensures i0 < i <= |script| && (!failed ==> i == |script|)
    ensures var s := Exec(RESTART_MS, start, script[..i]);
            if failed then s == State(clock + RESTART_MS, Down, log) else s.clock == clock && s.log == log
  {
    i, clock, log := i0 + 1, clock0 + script[i0].took, log0;
    ExecOneMore(RESTART_MS, start, script, i0);
    if !script[i0].context {
      return true, i, clock, log;
    }
    var lastUid, lastAt, haveReader := "", 0, false;
    while i < |script|
      invariant i0 < i <= |script|
      invariant Exec(RESTART_MS, start, script[..i]) == State(clock, Up(haveReader, lastUid, lastAt), log)
    {
      ExecOneMore(RESTART_MS, start, script, i);
      failed, haveReader, lastUid, lastAt, clock, log := Turn(script[i], haveReader, lastUid, lastAt, clock, log);
      i := i + 1;
      if failed {
        return;
      }
    }
    failed := false;
  }

  /** Restarts the run after five seconds whenever it fails. */
  method PcscRunLoop(script: seq<Poll>, start: nat) returns (log: seq<Read>)
    ensures log == Exec(RESTART_MS, start, script).log
  {
    var i: nat, clock: int, failed := 0, start, true;
    log := [];
    while i < |script|
      invariant i <= |script| && (failed || i == |script|)
      invariant failed ==> Exec(RESTART_MS, start, script[..i]) == State(clock, Down, log)
      invariant Exec(RESTART_MS, start, script[..i]).log == log
      decreases |script| - i
    {
      failed, i, clock, log := RunPcsc(script, i, clock, log, start);
      if failed {
        clock := clock + RESTART_MS;
      }
    }
    assert script[..|script|] == script;
  }

  // ---- What is reported ----

  /** The last reported read. */
  function LastReport(log: seq<Read>): (r: Option<Read>)
    ensures r.Some? ==> r.value in log && r.value.reported
  {
    if log == [] then None
    else if log[|log| - 1].reported then Some(log[|log| - 1]) else LastReport(log[..|log| - 1])
  }

  /** The badge reported last is this one, less than the debounce time ago. */
  predicate TooSoon(log: seq<Read>, uid: string, at: int) {
    var last := LastReport(log);
    last.Some? && last.value.uid == uid && at - last.value.at < DEBOUNCE_MS
  }

  /** An empty UID, in the first 2500 ms of the clock, before any report: what a new run starts out as if it
      had reported at time 0. */
  predicate BlankAtBoot(log: seq<Read>, uid: string, at: int) {
    uid == "" && at < DEBOUNCE_MS && LastReport(log).None?
  }

  /** A debouncer that never forgets: every read, whatever run it falls in, is reported unless it is too soon,
      or an empty UID at boot. */
  ghost predicate Remembers(log: seq<Read>) {
    forall i :: 0 <= i < |log| ==>
      (log[i].reported <==> !TooSoon(log[..i], log[i].uid, log[i].at) && !BlankAtBoot(log[..i], log[i].uid, log[i].at))
  }

  /** Read times never decrease and do not pass the clock. */
  ghost predicate Timed(s: State) {
    && (forall i, j :: 0 <= i <= j < |s.log| ==> s.log[i].at <= s.log[j].at)
    && (forall i :: 0 <= i < |s.log| ==> s.log[i].at <= s.clock)
  }

  /** What a run remembers of the reports: its own last one, if any; reports of earlier runs are old. */
  ghost predicate Memory(clock: int, mode: Mode, last: Option<Read>) {
    && (last.Some? ==>
          && last.value.at >= 0
          && ((mode.Up? && mode.lastUid == last.value.uid && mode.lastAt == last.value.at)
             || last.value.at + DEBOUNCE_MS <= clock))
    && (mode.Up? && (mode.lastUid != "" || mode.lastAt != 0) ==>
          last.Some? && mode.lastUid == last.value.uid && mode.lastAt == last.value.at)
  }

  ghost predicate Inv(s: State) {
    0 <= s.clock && Timed(s) && Memory(s.clock, s.mode, LastReport(s.log)) && Remembers(s.log)
  }

  lemma RememberOneMore(log: seq<Read>, r: Read)
    requires Remembers(log)
    requires r.reported <==> !TooSoon(log, r.uid, r.at) && !BlankAtBoot(log, r.uid, r.at)
    ensures Remembers(log + [r])
  {
    var all := log + [r];
    forall i | 0 <= i < |all|
      ensures all[..i] == log[..if i < |log| then i else |log|]
    {
    }
    assert log[..|log|] == log;
  }

  lemma LastOneMore(log: seq<Read>, r: Read)
    ensures LastReport(log + [r]) == if r.reported then Some(r) else LastReport(log)
  {
    assert (log + [r])[..|log|] == log;
  }

  lemma TimedOneMore(s: State, r: Read, s': State)
    requires Timed(s) && s.clock <= r.at <= s'.clock && s'.log == s.log + [r]
    ensures Timed(s')
  {
  }

  /** A read in a run is suppressed exactly when it is too soon, or an empty UID at boot. */
  lemma RunDecides(s: State, uid: string, now: int)
    requires s.mode.Up? && Memory(s.clock, s.mode, LastReport(s.log)) && 0 <= s.clock <= now
    ensures Suppressed(uid, s.mode.lastUid, s.mode.lastAt, now) <==>
              TooSoon(s.log, uid, now) || BlankAtBoot(s.log, uid, now)
  {
  }

  /** The turns that get as far as the debounce. */
  predicate Reads(s: State, p: Poll) {
    && s.mode.Up? && (s.mode.haveReader || p.listed) && p.status != ReaderGone && p.status != Broken
    && p.present && p.uid.Some?
  }

  function ReadBy(s: State, p: Poll): Read
    requires Reads(s, p)
  {
    var now := s.clock + p.took;
    Read(p.uid.value, now, !Suppressed(p.uid.value, s.mode.lastUid, s.mode.lastAt, now))
  }

  lemma LogGrows(pause: nat, s: State, p: Poll)
    ensures Step(pause, s, p).log == if Reads(s, p) then s.log + [ReadBy(s, p)] else s.log
    ensures Step(pause, s, p).clock >= s.clock + p.took
  {
  }

  lemma MemoryKept(pause: nat, s: State, p: Poll, last: Option<Read>, last': Option<Read>)
    requires pause >= DEBOUNCE_MS && 0 <= s.clock && Memory(s.clock, s.mode, last)
    requires (last.Some? ==> last.value.at <= s.clock)
    requires last' == if Reads(s, p) && ReadBy(s, p).reported then Some(ReadBy(s, p)) else last
    ensures Memory(Step(pause, s, p).clock, Step(pause, s, p).mode, last')
  {
  }

  lemma StepKeeps(pause: nat, s: State, p: Poll)
    requires pause >= DEBOUNCE_MS && Inv(s)
    ensures Inv(Step(pause, s, p))
  {
    var s' := Step(pause, s, p);
    LogGrows(pause, s, p);
    if Reads(s, p) {
      var r := ReadBy(s, p);
      LastOneMore(s.log, r);
      TimedOneMore(s, r, s');
      RunDecides(s, r.uid, r.at);
      RememberOneMore(s.log, r);
    }
    MemoryKept(pause, s, p, LastReport(s.log), LastReport(s'.log));
  }

  lemma {:induction false} InvRun(pause: nat, start: nat, script: seq<Poll>)
    requires pause >= DEBOUNCE_MS
    ensures Inv(Exec(pause, start, script))
  {
    if script != [] {
      InvRun(pause, start, script[..|script| - 1]);
      StepKeeps(pause, Exec(pause, start, script[..|script| - 1]), script[|script| - 1]);
    }
  }

  /** A restart forgets the last badge, yet nobody can tell: what a run with any failures reports is what a
      debouncer that never forgets reports of the same reads. */
  lemma RestartsDoNotShow(start: nat, script: seq<Poll>)
    ensures Remembers(Exec(RESTART_MS, start, script).log)
  {
    InvRun(RESTART_MS, start, script);
  }

  function Seen(uid: string): Poll {
    Poll(true, true, Changed, true, Some(uid), 0, 0)
  }

  function Failure(): Poll {
    Poll(true, true, Broken, false, None, 0, 0)
  }

  /** The pause after a failure is what makes this so, and 2500 ms is exactly what is needed. */
  lemma PauseMustCoverDebounce(pause: nat)
    ensures (forall start: nat, script :: Remembers(Exec(pause, start, script).log)) <==> pause >= 2500
  {
    if pause >= DEBOUNCE_MS {
      forall start: nat, script
        ensures Remembers(Exec(pause, start, script).log)
      {
        InvRun(pause, start, script);
      }
    } else {
      ShortPauseForgets(pause);
    }
  }

  lemma ExecLast(pause: nat, start: nat, script: seq<Poll>, p: Poll)
    ensures Exec(pause, start, script + [p]) == Step(pause, Exec(pause, start, script), p)
  {
    assert (script + [p])[..|script|] == script;
  }

  lemma BadgeThenFailure(pause: nat)
    ensures Exec(pause, 2500, [Seen("A"), Seen("A"), Failure()]) == State(2500 + pause, Down, [Read("A", 2500, true)])
  {
    var script := [Seen("A"), Seen("A"), Failure()];
    assert script[..2][..1] == script[..1] && script[..1][..0] == [];
    assert Exec(pause, 2500, script[..1]) == State(2500, Up(false, "", 0), []);
    assert Exec(pause, 2500, script[..2]) == State(2500, Up(true, "A", 2500), [Read("A", 2500, true)]);
  }

  lemma BadgeAfterPause(pause: nat, s: State)
    requires s == State(2500 + pause, Down, [Read("A", 2500, true)])
    ensures Step(pause, Step(pause, s, Seen("A")), Seen("A")).log
         == [Read("A", 2500, true), Read("A", 2500 + pause, true)]
  {
    assert Step(pause, s, Seen("A")) == State(2500 + pause, Up(false, "", 0), s.log);
  }

  lemma ShortPauseForgets(pause: nat)
    requires pause < DEBOUNCE_MS
    ensures exists script :: !Remembers(Exec(pause, 2500, script).log)
  {
    var script := [Seen("A"), Seen("A"), Failure()];
    BadgeThenFailure(pause);
    ExecLast(pause, 2500, script, Seen("A"));
    ExecLast(pause, 2500, script + [Seen("A")], Seen("A"));
    BadgeAfterPause(pause, Exec(pause, 2500, script));
    TooSoonAgain(Exec(pause, 2500, script + [Seen("A")] + [Seen("A")]).log, pause);
  }

  lemma TooSoonAgain(log: seq<Read>, pause: nat)
    requires pause < DEBOUNCE_MS && log == [Read("A", 2500, true), Read("A", 2500 + pause, true)]
    ensures !Remembers(log)
  {
    assert TooSoon(log[..1], log[1].uid, log[1].at);
  }

  // ---- What that means for a badge ----

  /** Nothing is reported strictly between i and j. */
  ghost predicate Consecutive(log: seq<Read>, i: int, j: int) {
    0 <= i < j < |log| && log[i].reported && log[j].reported && forall k :: i < k < j ==> !log[k].reported
  }

  lemma {:induction false} LastReportAt(log: seq<Read>, i: nat)
    requires i < |log| && log[i].reported && forall k :: i < k < |log| ==> !log[k].reported
    ensures LastReport(log) == Some(log[i])
  {
    if i < |log| - 1 { LastReportAt(log[..|log| - 1], i); }
  }

  lemma {:induction false} LastReportIndex(log: seq<Read>) returns (i: nat)
    requires LastReport(log).Some?
    ensures i < |log| && LastReport(log) == Some(log[i]) && log[i].reported
    ensures forall k :: i < k < |log| ==> !log[k].reported
  {
    if log[|log| - 1].reported {
      i := |log| - 1;
    } else {
      i := LastReportIndex(log[..|log| - 1]);
    }
  }

  /** Every card that the reader shows and that can be read is noted, at the time it was read, and reported unless
      the same text was noted by this run less than 2500 ms before. */
  lemma EveryCardIsRead(pause: nat, s: State, p: Poll)
    ensures var now, s' := s.clock + p.took, Step(pause, s, p);
            if s.mode.Up? && (s.mode.haveReader || p.listed) && p.status != ReaderGone && p.status != Broken
               && p.present && p.uid.Some?
            then
              var again := p.uid.value == s.mode.lastUid && now - s.mode.lastAt < 2500;
              && s'.log == s.log + [Read(p.uid.value, now, !again)]
              && (if again then s'.mode == s.mode.(haveReader := true) && s'.clock == now
                  else s'.mode == Up(true, p.uid.value, now) && s'.clock == now + p.callback)
            else s'.log == s.log
  {
  }

  /** A run that fails, or cannot begin, is followed by a pause of five seconds and forgets the last badge; a
      missing reader is looked for again after half a second. */
  lemma FailuresPause(s: State, p: Poll)
    ensures var now, s' := s.clock + p.took, Step(RESTART_MS, s, p);
            && (s.mode.Down? ==>
                  if p.context then s'.mode == Up(false, "", 0) && s'.clock == now
                  else s'.mode == Down && s'.clock == now + 5000)
            && (s.mode.Up? && !s.mode.haveReader && !p.listed ==> s'.mode == s.mode && s'.clock == now + 500)
            && (s.mode.Up? && (s.mode.haveReader || p.listed) && p.status == Broken ==>
                  s'.mode == Down && s'.clock == now + 5000)
            && (s.mode.Up? && (s.mode.haveReader || p.listed) && p.status == ReaderGone ==>
                  s'.mode == s.mode.(haveReader := false) && s'.clock == now)
            && (s.mode.Up? && (s.mode.haveReader || p.listed) && p.status != Broken && p.status != ReaderGone
                && (!p.present || p.uid.None?) ==>
                  s'.mode == s.mode.(haveReader := true) && s'.clock == now)
  {
  }

  /** Two reports in a row of the same badge are at least 2500 ms apart, however often PC/SC failed between. */
  lemma SameBadgeIsSpaced(start: nat, script: seq<Poll>, i: int, j: int)
    requires var log := Exec(RESTART_MS, start, script).log;
             Consecutive(log, i, j) && log[i].uid == log[j].uid
    ensures var log := Exec(RESTART_MS, start, script).log; log[j].at - log[i].at >= 2500
  {
    InvRun(RESTART_MS, start, script);
    var log := Exec(RESTART_MS, start, script).log;
    LastReportAt(log[..j], i);
  }

  lemma WhyTooSoon(s: State, j: int) returns (i: nat)
    requires Timed(s) && 0 <= j < |s.log| && TooSoon(s.log[..j], s.log[j].uid, s.log[j].at)
    ensures i < j && s.log[i].reported && (forall k :: i < k < j ==> !s.log[k].reported)
    ensures s.log[i].uid == s.log[j].uid && 0 <= s.log[j].at - s.log[i].at < DEBOUNCE_MS
  {
    var before := s.log[..j];
    i := LastReportIndex(before);
    forall k | i < k < j
      ensures !s.log[k].reported
    {
      assert before[k] == s.log[k];
    }
  }

  /** A suppressed read is of the badge reported last, less than 2500 ms before: another badge is never dropped.
      The one other case is an empty UID in the first 2500 ms of the clock with nothing reported before. */
  lemma SuppressedWasJustReported(start: nat, script: seq<Poll>, j: int) returns (i: nat)
    requires var log := Exec(RESTART_MS, start, script).log; 0 <= j < |log| && !log[j].reported
    ensures var log := Exec(RESTART_MS, start, script).log;
            if forall k :: 0 <= k < j ==> !log[k].reported then log[j].uid == "" && log[j].at < 2500
            else
              && i < j && log[i].reported && (forall k :: i < k < j ==> !log[k].reported)
              && log[i].uid == log[j].uid && 0 <= log[j].at - log[i].at < 2500
  {
    InvRun(RESTART_MS, start, script);
    var s := Exec(RESTART_MS, start, script);
    if TooSoon(s.log[..j], s.log[j].uid, s.log[j].at) {
      i := WhyTooSoon(s, j);
    } else {
      i := 0;
      if k :| 0 <= k < j && s.log[k].reported { OneReport(s.log[..j], k); }
    }
  }

  lemma BlankAtOnce(s: State, p: Poll)
    requires s == State(0, Down, []) && p == Seen("")
    ensures Step(RESTART_MS, Step(RESTART_MS, s, p), p).log == [Read("", 0, false)]
  {
    EveryCardIsRead(RESTART_MS, s, p);
    FailuresPause(s, p);
    var up := Step(RESTART_MS, s, p);
    EveryCardIsRead(RESTART_MS, up, p);
    assert up.log + [Read("", 0, false)] == [Read("", 0, false)];
  }

  /** A card without UID bytes at the very start is dropped although nothing was reported. */
  lemma BlankIsDropped(script: seq<Poll>)
    requires |script| == 2 && script[0] == Seen("") && script[1] == Seen("")
    ensures Exec(RESTART_MS, 0, script).log == [Read("", 0, false)]
  {
    ExecOneMore(RESTART_MS, 0, script, 0);
    ExecOneMore(RESTART_MS, 0, script, 1);
    assert script[..2] == script && script[..0] == [];
    BlankAtOnce(Exec(RESTART_MS, 0, script[..0]), script[0]);
  }

  lemma LaterReport(log: seq<Read>, i: nat) returns (last: nat)
    requires i < |log| && log[i].reported
    ensures i <= last < |log| && LastReport(log) == Some(log[last]) && log[last].reported
    ensures forall k :: last < k < |log| ==> !log[k].reported
  {
    OneReport(log, i);
    last := LastReportIndex(log);
  }

  /** The debounce is not per badge. A badge reported less than 2500 ms ago is reported again exactly when
      another report came after its latest one. */
  lemma ReportedAgainExactly(start: nat, script: seq<Poll>, i: int, j: int)
    requires var log := Exec(RESTART_MS, start, script).log;
             && 0 <= i < j < |log| && log[i].reported && log[i].uid == log[j].uid && log[j].at - log[i].at < 2500
             && (forall k :: i < k < j && log[k].reported ==> log[k].uid != log[j].uid)
    ensures var log := Exec(RESTART_MS, start, script).log;
            log[j].reported <==> exists k :: i < k < j && log[k].reported
  {
    InvRun(RESTART_MS, start, script);
    var log := Exec(RESTART_MS, start, script).log;
    var last := LaterReport(log[..j], i);
    Prefix(log, j);
    assert LastReport(log[..j]) == Some(log[last]);
    if last == i {
      assert forall k :: i < k < j ==> !log[k].reported;
    }
  }

  lemma Prefix(log: seq<Read>, j: nat)
    requires j <= |log|
    ensures |log[..j]| == j && forall k :: 0 <= k < j ==> log[..j][k] == log[k]
  {
  }

  lemma {:induction false} OneReport(log: seq<Read>, k: nat)
    requires k < |log| && log[k].reported
    ensures LastReport(log).Some?
  {
    if !log[|log| - 1].reported { OneReport(log[..|log| - 1], k); }
  }

  /** Badge A, badge B, badge A again, all at once: A is reported twice. */
  lemma AlternatingBadges()
    ensures Exec(RESTART_MS, 2500, [Seen(""), Seen("A"), Seen("B"), Seen("A")]).log
         == [Read("A", 2500, true), Read("B", 2500, true), Read("A", 2500, true)]
  {
    var script := [Seen(""), Seen("A"), Seen("B"), Seen("A")];
    assert script[..3][..2] == script[..2] && script[..2][..1] == script[..1] && script[..1][..0] == [];
    assert Exec(RESTART_MS, 2500, script[..1]) == State(2500, Up(false, "", 0), []);
    assert Exec(RESTART_MS, 2500, script[..2]) == State(2500, Up(true, "A", 2500), [Read("A", 2500, true)]);
  }
}
