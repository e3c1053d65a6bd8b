/** The badge client's persistent connection to the lookup server.

    A reply frame carries no UID, so matching replies to taps rests on the order of the frames and on
    the client dropping the connection after any failure. Requests and frames carry the number of the
    tap they belong to; that number is bookkeeping, which no step of the client or the server reads.
    A step that is not possible in a state leaves it as it is, so every sequence of steps is a run. */
module LookupProtocol {

  const POLL_MS := 20
  const RECV_TIMEOUT_MS := 15_000

  datatype Request = Request(uid: string, tap: nat)

  /** Noise is anything parse_lookup_json rejects: a control frame, a fragment, a damaged text. */
  datatype Frame = Reply(payload: string, tap: nat) | ErrorFrame(tap: nat) | Noise

  datatype Server = Reading | Handling(req: Request) | Gone

  /** One connection: what travels to the server, the server's loop, what travels back. */
  datatype Conn = Conn(toServer: seq<Request>, server: Server, toClient: seq<Frame>) {
    function Pending(): seq<Request> {
      toServer + if server.Handling? then [server.req] else []
    }
  }

  datatype Mode = Connecting | WebSocket | Http

  datatype Phase = Idle | Tapping(uid: string) | Waiting(uid: string, waited: nat)

  datatype Result = Success(payload: string) | Failure

  datatype Tap = Tap(uid: string, result: Result)

  /** One lookup the server completed. */
  datatype Served = Served(tap: nat, uid: string, payload: string)

  /** taps holds the finished taps in order; in WebSocket mode the last connection is the client's. */
  datatype State = State(mode: Mode, phase: Phase, conns: seq<Conn>, taps: seq<Tap>, served: seq<Served>)

  datatype Attempt = Connected | Unsupported | Refused

  datatype PollOutcome = FrameReady | Again | Broken

  datatype LookupOutcome = Resolved(payload: string) | RateLimited | LookupFailed

  datatype Step =
    | Connect(attempt: Attempt)
    | Begin(uid: string)
    | Send(ok: bool, delivered: bool)
    | Poll(outcome: PollOutcome)
    | HttpLookup(lookup: LookupOutcome, received: bool)
    | ServerRead(c: nat)
    | ServerLeaves(c: nat)
    | ServerAnswer(c: nat, lookup: LookupOutcome, written: bool)
    | LoseRequest(c: nat, i: nat)
    | LoseFrame(c: nat, i: nat)
    | Disturb(c: nat)

  const START := State(Connecting, Idle, [], [], [])

  // ---- Client steps ----

  function Finish(s: State, uid: string, r: Result): State {
    s.(phase := Idle, taps := s.taps + [Tap(uid, r)])
  }

  /** ws_close: the connection is abandoned, and the next tap connects anew. */
  function FinishAndClose(s: State, uid: string): State {
    Finish(s, uid, Failure).(mode := Connecting)
  }

  function Last(s: State): nat
    requires s.conns != []
  {
    |s.conns| - 1
  }

  function SetConn(s: State, c: nat, conn: Conn): State
    requires c < |s.conns|
  {
    s.(conns := s.conns[c := conn])
  }

  function ClientConnect(s: State, attempt: Attempt): State {
    if !s.mode.Connecting? then s
    else match attempt
      case Connected => s.(mode := WebSocket, conns := s.conns + [Conn([], Reading, [])])
      case Unsupported => s.(mode := Http)
      case Refused => s
  }

  function ClientSend(s: State, ok: bool, delivered: bool): State {
    if !s.mode.WebSocket? || !s.phase.Tapping? || s.conns == [] then s
    else
      var conn := s.conns[Last(s)];
      var sent := if delivered then conn.(toServer := conn.toServer + [Request(s.phase.uid, |s.taps|)]) else conn;
      var s' := SetConn(s, Last(s), sent);
      if ok then s'.(phase := Waiting(s.phase.uid, 0)) else FinishAndClose(s', s.phase.uid)
  }

  /** What curl_ws_recv reports in a state: a frame can be late, but none is reported when none is there. */
  datatype Seen = SawFrame(frame: Frame) | SawNothing | SawBreak

  function Observed(s: State, outcome: PollOutcome): Seen {
    match outcome
    case Broken => SawBreak
    case Again => SawNothing
    case FrameReady =>
      if s.conns == [] || s.conns[|s.conns| - 1].toClient == [] then SawNothing
      else SawFrame(s.conns[|s.conns| - 1].toClient[0])
  }

  function ClientPoll(s: State, outcome: PollOutcome): State {
    if !s.phase.Waiting? then s
    else
      match Observed(s, outcome)
      case SawBreak => FinishAndClose(s, s.phase.uid)
      case SawNothing =>
        var waited := s.phase.waited + POLL_MS;
        if waited < RECV_TIMEOUT_MS then s.(phase := Waiting(s.phase.uid, waited))
        else FinishAndClose(s, s.phase.uid)
      case SawFrame(frame) =>
        if s.conns == [] || s.conns[Last(s)].toClient == [] then s
        else
          var conn := s.conns[Last(s)];
          var s' := SetConn(s, Last(s), conn.(toClient := conn.toClient[1..]));
          if frame.Reply? then Finish(s', s.phase.uid, Success(frame.payload)) else FinishAndClose(s', s.phase.uid)
  }

  /** http_lookup: one request, one response, nothing left over. */
  function ClientHttp(s: State, lookup: LookupOutcome, received: bool): State {
    if !s.mode.Http? || !s.phase.Tapping? then s
    else
      var uid := s.phase.uid;
      if !lookup.Resolved? || uid == "" then Finish(s, uid, Failure)
      else
        var s' := s.(served := s.served + [Served(|s.taps|, uid, lookup.payload)]);
        Finish(s', uid, if received then Success(lookup.payload) else Failure)
  }

  // ---- Server and network steps ----

  /** One turn of lookupWS: exactly one frame per request, unless writing it fails. */
  function Answer(s: State, c: nat, lookup: LookupOutcome, written: bool): State
    requires c < |s.conns| && s.conns[c].server.Handling?
  {
    var conn := s.conns[c];
    var req := conn.server.req;
    if req.uid != "" && lookup.Resolved? then
      var s' := s.(served := s.served + [Served(req.tap, req.uid, lookup.payload)]);
      SetConn(s', c, if written
                     then conn.(server := Reading, toClient := conn.toClient + [Reply(lookup.payload, req.tap)])
                     else conn.(server := Gone))
    else
      SetConn(s, c, if written then conn.(server := Reading, toClient := conn.toClient + [ErrorFrame(req.tap)])
                    else conn.(server := Reading))
  }

  function Exec(s: State, step: Step): State {
    match step
    case Connect(attempt) => ClientConnect(s, attempt)
    case Begin(uid) => if s.phase.Idle? then s.(phase := Tapping(uid)) else s
    case Send(ok, delivered) => ClientSend(s, ok, delivered)
    case Poll(outcome) => ClientPoll(s, outcome)
    case HttpLookup(lookup, received) => ClientHttp(s, lookup, received)
    case ServerRead(c) =>
      if c < |s.conns| && s.conns[c].server.Reading? && s.conns[c].toServer != [] then
        var conn := s.conns[c];
        SetConn(s, c, conn.(toServer := conn.toServer[1..], server := Handling(conn.toServer[0])))
      else s
    case ServerLeaves(c) =>
      if c < |s.conns| then SetConn(s, c, s.conns[c].(server := Gone)) else s
    case ServerAnswer(c, lookup, written) =>
      if c < |s.conns| && s.conns[c].server.Handling? then Answer(s, c, lookup, written) else s
    case LoseRequest(c, i) =>
      if c < |s.conns| && i < |s.conns[c].toServer| then
        var conn := s.conns[c];
        SetConn(s, c, conn.(toServer := conn.toServer[..i] + conn.toServer[i + 1..]))
      else s
    case LoseFrame(c, i) =>
      if c < |s.conns| && i < |s.conns[c].toClient| then
        var conn := s.conns[c];
        SetConn(s, c, conn.(toClient := conn.toClient[..i] + conn.toClient[i + 1..]))
      else s
    case Disturb(c) =>
      if c < |s.conns| then SetConn(s, c, s.conns[c].(toClient := s.conns[c].toClient + [Noise])) else s
  }

  function Run(s: State, steps: seq<Step>): State
    decreases |steps|
  {
    if steps == [] then s else Run(Exec(s, steps[0]), steps[1..])
  }

  // ---- The invariant ----

  /** Tap number t was made, or is being made, with this UID. */
  predicate Known(s: State, t: nat, uid: string) {
    if t < |s.taps| then s.taps[t].uid == uid
    else t == |s.taps| && s.phase.Waiting? && s.phase.uid == uid
  }

  /** The server completed the lookup that the reply frame answers. */
  ghost predicate Backed(served: seq<Served>, f: Frame)
    requires f.Reply?
  {
    exists uid :: Served(f.tap, uid, f.payload) in served
  }

  function Real(frames: seq<Frame>): nat {
    if frames == [] then 0 else Real(frames[1..]) + if frames[0].Noise? then 0 else 1
  }

  function Outstanding(conn: Conn): nat {
    |conn.Pending()| + Real(conn.toClient)
  }

  /** Holds of every connection, abandoned ones included. */
  ghost predicate ConnOk(s: State, conn: Conn) {
    && Outstanding(conn) <= 1
    && (forall r :: r in conn.Pending() ==> Known(s, r.tap, r.uid))
    && (forall f :: f in conn.toClient && f.Reply? ==> Backed(s.served, f))
  }

  /** What is outstanding on the client's own connection belongs to the tap in progress; between taps nothing is. */
  ghost predicate CurrentOk(s: State) {
    s.mode.WebSocket? ==>
      && s.conns != []
      && (var conn := s.conns[|s.conns| - 1];
          if s.phase.Waiting? then
            && (forall r :: r in conn.Pending() ==> r.tap == |s.taps|)
            && (forall f :: f in conn.toClient && !f.Noise? ==> f.tap == |s.taps|)
          else Outstanding(conn) == 0)
  }

  ghost predicate Inv(s: State) {
    && (s.phase.Waiting? ==> s.mode.WebSocket?)
    && CurrentOk(s)
    && (forall c :: 0 <= c < |s.conns| ==> ConnOk(s, s.conns[c]))
    && (forall v :: v in s.served ==> Known(s, v.tap, v.uid))
    && (forall t :: 0 <= t < |s.taps| && s.taps[t].result.Success? ==>
          Served(t, s.taps[t].uid, s.taps[t].result.payload) in s.served)
  }

  lemma {:induction false} RealAppend(frames: seq<Frame>, f: Frame)
    ensures Real(frames + [f]) == Real(frames) + if f.Noise? then 0 else 1
  {
    if frames != [] {
      assert (frames + [f])[1..] == frames[1..] + [f];
      RealAppend(frames[1..], f);
    }
  }

  lemma {:induction false} RealRemove(frames: seq<Frame>, i: nat)
    requires i < |frames|
    ensures Real(frames[..i] + frames[i + 1..]) == Real(frames) - if frames[i].Noise? then 0 else 1
  {
    if i == 0 {
      assert frames[..i] + frames[i + 1..] == frames[1..];
    } else {
      assert (frames[..i] + frames[i + 1..])[1..] == frames[1..][..i - 1] + frames[1..][i..];
      RealRemove(frames[1..], i - 1);
    }
  }

  /** A connection may be replaced by one with no new pending request and only rightful frames. */
  lemma ReplaceConn(s: State, c: nat, conn: Conn)
    requires Inv(s) && c < |s.conns| && ConnOk(s, conn)
    requires forall r :: r in conn.Pending() ==> r in s.conns[c].Pending()
    requires s.mode.WebSocket? && c == |s.conns| - 1 && !s.phase.Waiting? ==> Outstanding(conn) == 0
    requires s.mode.WebSocket? && c == |s.conns| - 1 && s.phase.Waiting? ==>
               forall f :: f in conn.toClient && !f.Noise? ==> f.tap == |s.taps|
    ensures Inv(SetConn(s, c, conn))
  {
    var s' := SetConn(s, c, conn);
    forall d | 0 <= d < |s'.conns|
      ensures ConnOk(s', s'.conns[d])
    {
      assert ConnOk(s, s.conns[d]);
      assert ConnOk(s, s'.conns[d]);
    }
  }

  /** Whatever a connection only loses, or gains as noise, keeps the invariant. */
  lemma ShrinkConn(s: State, c: nat, conn: Conn)
    requires Inv(s) && c < |s.conns|
    requires Outstanding(conn) <= Outstanding(s.conns[c])
    requires forall r :: r in conn.Pending() ==> r in s.conns[c].Pending()
    requires forall f :: f in conn.toClient && !f.Noise? ==> f in s.conns[c].toClient
    ensures Inv(SetConn(s, c, conn))
  {
    assert ConnOk(s, s.conns[c]);
    assert ConnOk(s, conn);
    ReplaceConn(s, c, conn);
  }

  lemma ReadStep(s: State, c: nat)
    requires Inv(s)
    ensures Inv(Exec(s, ServerRead(c)))
  {
    if c < |s.conns| && s.conns[c].server.Reading? && s.conns[c].toServer != [] {
      var conn := s.conns[c];
      ShrinkConn(s, c, conn.(toServer := conn.toServer[1..], server := Handling(conn.toServer[0])));
    }
  }

  lemma LeaveStep(s: State, c: nat)
    requires Inv(s)
    ensures Inv(Exec(s, ServerLeaves(c)))
  {
    if c < |s.conns| {
      ShrinkConn(s, c, s.conns[c].(server := Gone));
    }
  }

  lemma LoseRequestStep(s: State, c: nat, i: nat)
    requires Inv(s)
    ensures Inv(Exec(s, LoseRequest(c, i)))
  {
    if c < |s.conns| && i < |s.conns[c].toServer| {
      var conn := s.conns[c];
      ShrinkConn(s, c, conn.(toServer := conn.toServer[..i] + conn.toServer[i + 1..]));
    }
  }

  lemma LoseFrameStep(s: State, c: nat, i: nat)
    requires Inv(s)
    ensures Inv(Exec(s, LoseFrame(c, i)))
  {
    if c < |s.conns| && i < |s.conns[c].toClient| {
      var conn := s.conns[c];
      RealRemove(conn.toClient, i);
      ShrinkConn(s, c, conn.(toClient := conn.toClient[..i] + conn.toClient[i + 1..]));
    }
  }

  lemma DisturbStep(s: State, c: nat)
    requires Inv(s)
    ensures Inv(Exec(s, Disturb(c)))
  {
    if c < |s.conns| {
      var conn := s.conns[c];
      RealAppend(conn.toClient, Noise);
      ShrinkConn(s, c, conn.(toClient := conn.toClient + [Noise]));
    }
  }

  /** A connection that handles a request has nothing else outstanding. */
  lemma HandlingIsAlone(s: State, c: nat)
    requires Inv(s) && c < |s.conns| && s.conns[c].server.Handling?
    ensures s.conns[c].toServer == [] && Real(s.conns[c].toClient) == 0
    ensures s.conns[c].Pending() == [s.conns[c].server.req]
  {
    assert ConnOk(s, s.conns[c]);
    assert |s.conns[c].Pending()| == |s.conns[c].toServer| + 1;
  }

  lemma BackedMore(served: seq<Served>, v: Served, f: Frame)
    requires f.Reply? && Backed(served, f)
    ensures Backed(served + [v], f)
  {
    var uid :| Served(f.tap, uid, f.payload) in served;
    assert Served(f.tap, uid, f.payload) in served + [v];
  }

  lemma ServeConn(s: State, conn: Conn, v: Served)
    requires ConnOk(s, conn)
    ensures ConnOk(s.(served := s.served + [v]), conn)
  {
    forall f | f in conn.toClient && f.Reply?
      ensures Backed(s.served + [v], f)
    {
      BackedMore(s.served, v, f);
    }
  }

  lemma Serve(s: State, v: Served)
    requires Inv(s) && Known(s, v.tap, v.uid)
    ensures Inv(s.(served := s.served + [v]))
  {
    var s' := s.(served := s.served + [v]);
    forall d | 0 <= d < |s'.conns|
      ensures ConnOk(s', s'.conns[d])
    {
      assert ConnOk(s, s.conns[d]);
      ServeConn(s, s.conns[d], v);
    }
  }

  lemma AnswerError(s: State, c: nat, written: bool)
    requires Inv(s) && c < |s.conns| && s.conns[c].server.Handling?
    ensures var conn := s.conns[c].(server := Reading);
            Inv(SetConn(s, c, if written then conn.(toClient := conn.toClient + [ErrorFrame(s.conns[c].server.req.tap)])
                              else conn))
  {
    HandlingIsAlone(s, c);
    var conn := s.conns[c];
    assert ConnOk(s, conn) && conn.server.req in conn.Pending();
    RealAppend(conn.toClient, ErrorFrame(conn.server.req.tap));
    var conn' := conn.(server := Reading, toClient := conn.toClient + [ErrorFrame(conn.server.req.tap)]);
    if written {
      assert conn'.Pending() == [];
      ReplaceConn(s, c, conn');
    } else {
      ShrinkConn(s, c, conn.(server := Reading));
    }
  }

  /** The request leaves the server and its lookup is noted. */
  lemma AnswerTaken(s: State, c: nat, payload: string, server: Server) returns (s2: State)
    requires Inv(s) && c < |s.conns| && s.conns[c].server.Handling? && !server.Handling?
    ensures var req := s.conns[c].server.req;
            s2 == SetConn(s, c, s.conns[c].(server := server))
                  .(served := s.served + [Served(req.tap, req.uid, payload)])
    ensures Inv(s2) && Outstanding(s2.conns[c]) == 0
    ensures s2.mode.WebSocket? && c == |s2.conns| - 1 && s2.phase.Waiting? ==> s.conns[c].server.req.tap == |s2.taps|
  {
    HandlingIsAlone(s, c);
    var conn := s.conns[c];
    var req := conn.server.req;
    assert ConnOk(s, conn) && req in conn.Pending();
    var idle := conn.(server := server);
    assert idle.Pending() == [];
    var s1 := SetConn(s, c, idle);
    ShrinkConn(s, c, idle);
    Serve(s1, Served(req.tap, req.uid, payload));
    s2 := s1.(served := s1.served + [Served(req.tap, req.uid, payload)]);
  }

  /** A rightful reply goes out on a connection with nothing outstanding. */
  lemma SendReply(s: State, c: nat, v: Served)
    requires Inv(s) && c < |s.conns| && Outstanding(s.conns[c]) == 0 && v in s.served
    requires s.mode.WebSocket? && c == |s.conns| - 1 ==> s.phase.Waiting? && v.tap == |s.taps|
    ensures Inv(SetConn(s, c, s.conns[c].(toClient := s.conns[c].toClient + [Reply(v.payload, v.tap)])))
  {
    var conn := s.conns[c];
    var f := Reply(v.payload, v.tap);
    var full := conn.(toClient := conn.toClient + [f]);
    assert ConnOk(s, conn);
    RealAppend(conn.toClient, f);
    assert full.Pending() == conn.Pending() == [];
    assert Served(f.tap, v.uid, f.payload) == v;
    assert Backed(s.served, f);
    assert ConnOk(s, full);
    QuietFramesAreNoise(conn.toClient);
    ReplaceConn(s, c, full);
  }

  lemma AnswerResolved(s: State, c: nat, payload: string, written: bool)
    requires Inv(s) && c < |s.conns| && s.conns[c].server.Handling?
    requires s.conns[c].server.req.uid != ""
    ensures Inv(Answer(s, c, Resolved(payload), written))
  {
    var req := s.conns[c].server.req;
    var s2 := AnswerTaken(s, c, payload, if written then Reading else Gone);
    if written {
      CurrentRequest(s, c);
      SendReply(s2, c, Served(req.tap, req.uid, payload));
      assert SetConn(s2, c, s2.conns[c].(toClient := s2.conns[c].toClient + [Reply(payload, req.tap)]))
          == Answer(s, c, Resolved(payload), written);
    }
  }

  lemma CurrentRequest(s: State, c: nat)
    requires Inv(s) && c < |s.conns| && s.conns[c].server.Handling?
    ensures s.mode.WebSocket? && c == |s.conns| - 1 ==> s.phase.Waiting?
  {
    HandlingIsAlone(s, c);
  }

  lemma ServerAnswerStep(s: State, c: nat, lookup: LookupOutcome, written: bool)
    requires Inv(s)
    ensures Inv(Exec(s, ServerAnswer(c, lookup, written)))
  {
    if c < |s.conns| && s.conns[c].server.Handling? {
      if s.conns[c].server.req.uid != "" && lookup.Resolved? {
        AnswerResolved(s, c, lookup.payload, written);
      } else {
        AnswerError(s, c, written);
      }
    }
  }

  // ---- Client steps keep the invariant ----

  lemma KnownStays(s: State, s': State, conn: Conn)
    requires ConnOk(s, conn) && s'.served == s.served
    requires forall t, uid :: Known(s, t, uid) ==> Known(s', t, uid)
    ensures ConnOk(s', conn)
  {
  }

  /** A state that differs in nothing the connections are judged by. */
  lemma ConnsStay(s: State, s': State)
    requires s'.conns == s.conns && s'.served == s.served
    requires forall t, uid :: Known(s, t, uid) ==> Known(s', t, uid)
    requires forall c :: 0 <= c < |s.conns| ==> ConnOk(s, s.conns[c])
    ensures forall c :: 0 <= c < |s'.conns| ==> ConnOk(s', s'.conns[c])
  {
    forall c | 0 <= c < |s'.conns|
      ensures ConnOk(s', s'.conns[c])
    {
      KnownStays(s, s', s.conns[c]);
    }
  }

  lemma ConnectStep(s: State, attempt: Attempt)
    requires Inv(s)
    ensures Inv(Exec(s, Connect(attempt)))
  {
    if s.mode.Connecting? && attempt.Connected? {
      var s' := Exec(s, Connect(attempt));
      var unused := Conn([], Reading, []);
      assert unused.Pending() == [];
      assert ConnOk(s, unused);
      forall d | 0 <= d < |s'.conns|
        ensures ConnOk(s', s'.conns[d])
      {
        assert ConnOk(s, s'.conns[d]);
        KnownStays(s, s', s'.conns[d]);
      }
    } else {
      ConnsStay(s, Exec(s, Connect(attempt)));
    }
  }

  lemma BeginStep(s: State, uid: string)
    requires Inv(s)
    ensures Inv(Exec(s, Begin(uid)))
  {
    var s' := Exec(s, Begin(uid));
    ConnsStay(s, s');
  }

  /** Ending a tap that did not succeed, with the connection abandoned. */
  lemma FailStep(s: State)
    requires Inv(s) && !s.phase.Idle?
    ensures Inv(FinishAndClose(s, s.phase.uid))
  {
    var s' := FinishAndClose(s, s.phase.uid);
    ConnsStay(s, s');
  }

  /** The client starts waiting on a connection that had nothing outstanding and now holds at most its request. */
  lemma SentStep(s: State, delivered: bool)
    requires Inv(s) && s.mode.WebSocket? && s.phase.Tapping?
    ensures Inv(ClientSend(s, true, delivered))
  {
    var s' := ClientSend(s, true, delivered);
    var n := |s.conns| - 1;
    var conn := s.conns[n];
    assert ConnOk(s, conn) && conn.Pending() == [];
    QuietFramesAreNoise(conn.toClient);
    assert s'.conns[n].Pending() == if delivered then [Request(s.phase.uid, |s.taps|)] else [];
    forall d | 0 <= d < |s'.conns|
      ensures ConnOk(s', s'.conns[d])
    {
      assert ConnOk(s, s.conns[d]);
    }
  }

  lemma SendStep(s: State, ok: bool, delivered: bool)
    requires Inv(s)
    ensures Inv(Exec(s, Send(ok, delivered)))
  {
    if s.mode.WebSocket? && s.phase.Tapping? {
      SentStep(s, delivered);
      if !ok {
        FailStep(ClientSend(s, true, delivered));
        assert Exec(s, Send(ok, delivered)) == FinishAndClose(ClientSend(s, true, delivered), s.phase.uid);
      }
    }
  }

  lemma {:induction false} QuietFramesAreNoise(frames: seq<Frame>)
    ensures Real(frames) == 0 <==> forall f :: f in frames ==> f.Noise?
  {
    if frames != [] {
      QuietFramesAreNoise(frames[1..]);
      assert forall f :: f in frames <==> f == frames[0] || f in frames[1..];
    }
  }

  lemma WaitStep(s: State)
    requires Inv(s) && s.phase.Waiting?
    ensures Inv(s.(phase := Waiting(s.phase.uid, s.phase.waited + POLL_MS)))
  {
    var s' := s.(phase := Waiting(s.phase.uid, s.phase.waited + POLL_MS));
    ConnsStay(s, s');
  }

  lemma QuietPollStep(s: State, outcome: PollOutcome)
    requires Inv(s) && s.phase.Waiting? && Observed(s, outcome) == SawNothing
    ensures Inv(Exec(s, Poll(outcome)))
  {
    if s.phase.waited + POLL_MS < RECV_TIMEOUT_MS {
      WaitStep(s);
    } else {
      FailStep(s);
    }
  }

  lemma PollStep(s: State, outcome: PollOutcome)
    requires Inv(s)
    ensures Inv(Exec(s, Poll(outcome)))
  {
    if s.phase.Waiting? {
      match Observed(s, outcome)
      case SawBreak => FailStep(s);
      case SawNothing => QuietPollStep(s, outcome);
      case SawFrame(frame) => ReceiveStep(s, frame);
    }
  }

  /** A reply at the head of a waiting client's connection is the rightful one, and nothing is left behind it. */
  lemma HeadReply(s: State, frame: Frame)
    requires Inv(s) && s.phase.Waiting? && Observed(s, FrameReady) == SawFrame(frame) && frame.Reply?
    ensures s.mode.WebSocket? && Served(|s.taps|, s.phase.uid, frame.payload) in s.served
    ensures Outstanding(Popped(s).conns[|s.conns| - 1]) == 0
  {
    var conn := s.conns[|s.conns| - 1];
    assert ConnOk(s, conn) && frame in conn.toClient;
    assert conn.(toClient := conn.toClient[1..]).Pending() == conn.Pending();
    assert Backed(s.served, frame);
    var uid :| Served(frame.tap, uid, frame.payload) in s.served;
    assert Known(s, frame.tap, uid);
  }

  lemma FinishSuccess(s: State, payload: string)
    requires Inv(s) && s.phase.Waiting? && Served(|s.taps|, s.phase.uid, payload) in s.served
    requires s.conns != [] && Outstanding(s.conns[|s.conns| - 1]) == 0
    ensures Inv(Finish(s, s.phase.uid, Success(payload)))
  {
    ConnsStay(s, Finish(s, s.phase.uid, Success(payload)));
  }

  lemma PopFrame(s: State)
    requires Inv(s) && s.phase.Waiting? && s.conns != [] && s.conns[|s.conns| - 1].toClient != []
    ensures Inv(Popped(s))
  {
    var conn := s.conns[|s.conns| - 1];
    ShrinkConn(s, |s.conns| - 1, conn.(toClient := conn.toClient[1..]));
  }

  /** The state after the head frame has been taken off the client's connection. */
  function Popped(s: State): State
    requires s.conns != [] && s.conns[|s.conns| - 1].toClient != []
  {
    var conn := s.conns[|s.conns| - 1];
    SetConn(s, |s.conns| - 1, conn.(toClient := conn.toClient[1..]))
  }

  /** The frame at the head of the client's connection ends the tap. */
  lemma ReceiveStep(s: State, frame: Frame)
    requires Inv(s) && s.phase.Waiting? && Observed(s, FrameReady) == SawFrame(frame)
    ensures Inv(Exec(s, Poll(FrameReady)))
  {
    PopFrame(s);
    if frame.Reply? {
      HeadReply(s, frame);
      FinishSuccess(Popped(s), frame.payload);
    } else {
      FailStep(Popped(s));
    }
    ReceiveOutcome(s, frame);
  }

  lemma ReceiveOutcome(s: State, frame: Frame)
    requires s.phase.Waiting? && Observed(s, FrameReady) == SawFrame(frame)
    ensures Exec(s, Poll(FrameReady)) ==
            if frame.Reply? then Finish(Popped(s), s.phase.uid, Success(frame.payload))
            else FinishAndClose(Popped(s), s.phase.uid)
  {
  }

  lemma HttpAnswered(s: State, payload: string, r: Result)
    requires Inv(s) && s.mode.Http? && s.phase.Tapping? && (r.Success? ==> r.payload == payload)
    ensures Inv(Finish(s.(served := s.served + [Served(|s.taps|, s.phase.uid, payload)]), s.phase.uid, r))
  {
    var s1 := Finish(s, s.phase.uid, Failure);
    ConnsStay(s, s1);
    Serve(s1, Served(|s.taps|, s.phase.uid, payload));
    var s2 := s1.(served := s1.served + [Served(|s.taps|, s.phase.uid, payload)]);
    var s' := Finish(s.(served := s2.served), s.phase.uid, r);
    assert s2.served[|s.served|] == Served(|s.taps|, s.phase.uid, payload);
    ConnsStay(s2, s');
  }

  lemma HttpStep(s: State, lookup: LookupOutcome, received: bool)
    requires Inv(s)
    ensures Inv(Exec(s, HttpLookup(lookup, received)))
  {
    if s.mode.Http? && s.phase.Tapping? {
      if lookup.Resolved? && s.phase.uid != "" {
        HttpAnswered(s, lookup.payload, if received then Success(lookup.payload) else Failure);
      } else {
        ConnsStay(s, Finish(s, s.phase.uid, Failure));
      }
    }
  }

  lemma OneStep(s: State, step: Step)
    requires Inv(s)
    ensures Inv(Exec(s, step))
  {
    match step
    case Connect(attempt) => ConnectStep(s, attempt);
    case Begin(uid) => BeginStep(s, uid);
    case Send(ok, delivered) => SendStep(s, ok, delivered);
    case Poll(outcome) => PollStep(s, outcome);
    case HttpLookup(lookup, received) => HttpStep(s, lookup, received);
    case ServerAnswer(c, lookup, written) => ServerAnswerStep(s, c, lookup, written);
    case ServerRead(c) => ReadStep(s, c);
    case ServerLeaves(c) => LeaveStep(s, c);
    case LoseRequest(c, i) => LoseRequestStep(s, c, i);
    case LoseFrame(c, i) => LoseFrameStep(s, c, i);
    case Disturb(c) => DisturbStep(s, c);
  }

  lemma {:induction false} InvRun(s: State, steps: seq<Step>)
    requires Inv(s)
    ensures Inv(Run(s, steps))
    decreases |steps|
  {
    if steps != [] {
      OneStep(s, steps[0]);
      InvRun(Exec(s, steps[0]), steps[1..]);
    }
  }

  lemma InvStart()
    ensures Inv(START)
  {
  }

  // ---- Main results ----

  /** Step i of the run resolved a lookup of this UID to this payload for tap t: the server answered a request
      it was handling, or the client's own HTTP request was answered. */
  predicate ResolvedAt(steps: seq<Step>, i: nat, t: nat, uid: string, payload: string) {
    i < |steps|
    && (var before, step := Run(START, steps[..i]), steps[i];
        || (step.ServerAnswer? && step.lookup == Resolved(payload) && step.c < |before.conns|
            && before.conns[step.c].server == Handling(Request(uid, t)))
        || (step.HttpLookup? && step.lookup == Resolved(payload) && before.mode.Http?
            && before.phase == Tapping(uid) && |before.taps| == t))
  }

  lemma NewlyServed(s: State, step: Step, v: Served)
    requires v in Exec(s, step).served && v !in s.served
    ensures || (step.ServerAnswer? && step.lookup == Resolved(v.payload) && step.c < |s.conns|
                && s.conns[step.c].server == Handling(Request(v.uid, v.tap)))
            || (step.HttpLookup? && step.lookup == Resolved(v.payload) && s.mode.Http?
                && s.phase == Tapping(v.uid) && |s.taps| == v.tap)
  {
  }

  lemma {:induction false} ServedByAStep(steps: seq<Step>, v: Served) returns (i: nat)
    requires v in Run(START, steps).served
    ensures ResolvedAt(steps, i, v.tap, v.uid, v.payload)
  {
    var n := |steps| - 1;
    assert steps != [];
    assert steps == steps[..n] + [steps[n]];
    RunLast(START, steps[..n], steps[n]);
    if v in Run(START, steps[..n]).served {
      i := ServedByAStep(steps[..n], v);
      assert steps[..n][..i] == steps[..i];
    } else {
      i := n;
      NewlyServed(Run(START, steps[..n]), steps[n], v);
    }
  }

  /** Every successful tap returns what a lookup of that tap's own UID, made for that tap, was resolved to. */
  lemma RepliesMatchTaps(steps: seq<Step>, t: nat) returns (i: nat)
    requires t < |Run(START, steps).taps| && Run(START, steps).taps[t].result.Success?
    ensures var tap := Run(START, steps).taps[t];
            && Served(t, tap.uid, tap.result.payload) in Run(START, steps).served
            && ResolvedAt(steps, i, t, tap.uid, tap.result.payload)
  {
    InvStart();
    InvRun(START, steps);
    var tap := Run(START, steps).taps[t];
    i := ServedByAStep(steps, Served(t, tap.uid, tap.result.payload));
  }

  /** The server sends one frame for every request it answers: the lookup's payload when a UID was given and
      resolved, an error otherwise. When the frame cannot be written it stops only in the first case. */
  lemma OneFramePerAnswer(s: State, c: nat, lookup: LookupOutcome, written: bool)
    requires c < |s.conns| && s.conns[c].server.Handling?
    ensures var was, now := s.conns[c], Exec(s, ServerAnswer(c, lookup, written)).conns;
            var resolved := lookup.Resolved? && was.server.req.uid != "";
            && |now| == |s.conns| && (forall d :: 0 <= d < |now| && d != c ==> now[d] == s.conns[d])
            && now[c].toServer == was.toServer
            && now[c].toClient == was.toClient
                 + (if !written then []
                    else if resolved then [Reply(lookup.payload, was.server.req.tap)]
                    else [ErrorFrame(was.server.req.tap)])
            && now[c].server == if resolved && !written then Gone else Reading
  {
  }

  /** Connecting opens one connection more and forgets none; a request and whatever disturbs a connection go
      behind what is there. */
  lemma ConnectionsOnlyGrow(s: State, attempt: Attempt, ok: bool, c: nat)
    ensures s.mode.Connecting? ==>
              Exec(s, Connect(attempt)).conns
                == if attempt.Connected? then s.conns + [Conn([], Reading, [])] else s.conns
    ensures s.mode.WebSocket? && s.phase.Tapping? && s.conns != [] ==>
              var n := |s.conns| - 1;
              var was, now := s.conns[n], Exec(s, Send(ok, true)).conns;
              && |now| == n + 1 && now[..n] == s.conns[..n]
              && now[n] == Conn(was.toServer + [Request(s.phase.uid, |s.taps|)], was.server, was.toClient)
    ensures c < |s.conns| ==> Exec(s, Disturb(c)).conns[c].toClient == s.conns[c].toClient + [Noise]
  {
  }

  lemma RunSteps(s: State, a: Step, b: Step, c: Step)
    ensures Run(s, [a, b, c]) == Exec(Exec(Exec(s, a), b), c)
  {
    assert [a, b, c][1..] == [b, c] && [b, c][1..] == [c] && [c][1..] == [];
    var s1 := Exec(s, a);
    var s2 := Exec(s1, b);
    assert Run(s2, [c]) == Run(Exec(s2, c), []);
    assert Run(s1, [b, c]) == Run(s2, [c]);
  }

  /** An undisturbed first tap: the server's resolution of the UID is the result. */
  lemma UndisturbedTapSucceeds(uid: string, payload: string)
    requires uid != ""
    ensures Run(Run(START, [Connect(Connected), Begin(uid), Send(true, true)]),
                [ServerRead(0), ServerAnswer(0, Resolved(payload), true), Poll(FrameReady)]).taps
         == [Tap(uid, Success(payload))]
  {
    RunSteps(START, Connect(Connected), Begin(uid), Send(true, true));
    var s := Run(START, [Connect(Connected), Begin(uid), Send(true, true)]);
    var s1 := Exec(Exec(START, Connect(Connected)), Begin(uid));
    assert s1.conns == [Conn([], Reading, [])];
    assert Exec(s1, Send(true, true)).conns[0] == Conn([Request(uid, 0)], Reading, []);
    assert s.conns == [Conn([Request(uid, 0)], Reading, [])];
    RunSteps(s, ServerRead(0), ServerAnswer(0, Resolved(payload), true), Poll(FrameReady));
    var s2 := Exec(s, ServerRead(0));
    assert s2.conns == [Conn([], Handling(Request(uid, 0)), [])];
    OneFramePerAnswer(s2, 0, Resolved(payload), true);
    var s3 := Exec(s2, ServerAnswer(0, Resolved(payload), true));
    assert s3.conns[0] == Conn([], Reading, [Reply(payload, 0)]);
    assert Observed(s3, FrameReady) == SawFrame(Reply(payload, 0));
  }

  /** The same over HTTP. */
  lemma UndisturbedHttpTapSucceeds(uid: string, payload: string)
    requires uid != ""
    ensures Run(START, [Connect(Unsupported), Begin(uid), HttpLookup(Resolved(payload), true)]).taps
         == [Tap(uid, Success(payload))]
  {
    RunSteps(START, Connect(Unsupported), Begin(uid), HttpLookup(Resolved(payload), true));
  }

  // ---- One lookup per tap ----

  /** Requests still pending on later connections belong to later taps, and none of them was served. */
  ghost predicate Uniq(s: State) {
    && (forall c, d, q, r :: 0 <= c < d < |s.conns| && q in s.conns[c].Pending() && r in s.conns[d].Pending() ==>
          q.tap < r.tap)
    && (forall c, r, v :: 0 <= c < |s.conns| && r in s.conns[c].Pending() && v in s.served ==> v.tap != r.tap)
    && (forall i, j :: 0 <= i < j < |s.served| ==> s.served[i].tap != s.served[j].tap)
  }

  /** Steps that bring no new request and serve nothing. */
  lemma UniqShrink(s: State, s': State)
    requires Uniq(s) && s'.served == s.served && |s'.conns| == |s.conns|
    requires forall c, r :: 0 <= c < |s.conns| && r in s'.conns[c].Pending() ==> r in s.conns[c].Pending()
    ensures Uniq(s')
  {
  }

  lemma UniqOneConn(s: State, c: nat, conn: Conn)
    requires Uniq(s) && c < |s.conns| && forall r :: r in conn.Pending() ==> r in s.conns[c].Pending()
    ensures Uniq(SetConn(s, c, conn))
  {
    UniqShrink(s, SetConn(s, c, conn));
  }

  lemma UniqServer(s: State, step: Step)
    requires Uniq(s)
    requires step.ServerRead? || step.ServerLeaves? || step.LoseRequest? || step.LoseFrame? || step.Disturb?
    ensures Uniq(Exec(s, step))
  {
    if step.c < |s.conns| && Exec(s, step) != s {
      UniqOneConn(s, step.c, Exec(s, step).conns[step.c]);
    }
  }

  lemma UniqServe(s: State, v: Served)
    requires Uniq(s)
    requires forall u :: u in s.served ==> u.tap != v.tap
    requires forall c, r :: 0 <= c < |s.conns| && r in s.conns[c].Pending() ==> r.tap != v.tap
    ensures Uniq(s.(served := s.served + [v]))
  {
  }

  lemma UniqAnswer(s: State, c: nat, lookup: LookupOutcome, written: bool)
    requires Inv(s) && Uniq(s) && c < |s.conns| && s.conns[c].server.Handling?
    ensures Uniq(Answer(s, c, lookup, written))
  {
    HandlingIsAlone(s, c);
    var s', req := Answer(s, c, lookup, written), s.conns[c].server.req;
    assert req in s.conns[c].Pending() && s'.conns[c].Pending() == [];
    var s1 := SetConn(s, c, s'.conns[c]);
    UniqOneConn(s, c, s'.conns[c]);
    if s'.served != s.served {
      var v := Served(req.tap, req.uid, lookup.payload);
      forall d, r | 0 <= d < |s1.conns| && r in s1.conns[d].Pending()
        ensures r.tap != v.tap
      {
        assert d != c && r in s.conns[d].Pending();
        if d < c { assert r.tap < req.tap; } else { assert req.tap < r.tap; }
      }
      UniqServe(s1, v);
      assert s' == s1.(served := s1.served + [v]);
    } else {
      assert s' == s1;
    }
  }

  lemma UniqSend(s: State, ok: bool, delivered: bool)
    requires Inv(s) && Uniq(s) && s.mode.WebSocket? && s.phase.Tapping?
    ensures Uniq(ClientSend(s, ok, delivered))
  {
    var s', n := ClientSend(s, ok, delivered), |s.conns| - 1;
    assert s.conns[n].Pending() == [];
    forall c, r | 0 <= c < |s'.conns| && r in s'.conns[c].Pending()
      ensures if c == n then r.tap == |s.taps| else r in s.conns[c].Pending() && r.tap < |s.taps|
    {
      if c != n {
        assert ConnOk(s, s.conns[c]);
      } else {
        assert s'.conns[n].Pending() == if delivered then [Request(s.phase.uid, |s.taps|)] else [];
      }
    }
    forall c, r, v | 0 <= c < |s'.conns| && r in s'.conns[c].Pending() && v in s'.served
      ensures v.tap != r.tap
    {
      assert Known(s, v.tap, v.uid);
    }
  }

  lemma UniqHttp(s: State, lookup: LookupOutcome, received: bool)
    requires Inv(s) && Uniq(s) && s.mode.Http? && s.phase.Tapping?
    ensures Uniq(ClientHttp(s, lookup, received))
  {
    var s' := ClientHttp(s, lookup, received);
    forall c, r, v | 0 <= c < |s'.conns| && r in s'.conns[c].Pending() && v in s'.served
      ensures v.tap != r.tap
    {
      assert ConnOk(s, s.conns[c]) && Known(s, r.tap, r.uid);
    }
    assert forall v :: v in s.served ==> Known(s, v.tap, v.uid);
  }

  lemma UniqPoll(s: State, outcome: PollOutcome)
    requires Uniq(s)
    ensures Uniq(ClientPoll(s, outcome))
  {
    var s' := ClientPoll(s, outcome);
    forall c, r | 0 <= c < |s.conns| && r in s'.conns[c].Pending()
      ensures r in s.conns[c].Pending()
    {
      assert s'.conns[c].Pending() == s.conns[c].Pending();
    }
    UniqShrink(s, s');
  }

  lemma UniqNewConn(s: State, conn: Conn)
    requires Uniq(s) && conn.Pending() == []
    ensures Uniq(s.(conns := s.conns + [conn]))
  {
    var s' := s.(conns := s.conns + [conn]);
    forall c, r | 0 <= c < |s'.conns| && r in s'.conns[c].Pending()
      ensures c < |s.conns| && r in s.conns[c].Pending()
    {
    }
  }

  lemma UniqConnect(s: State, attempt: Attempt)
    requires Uniq(s)
    ensures Uniq(ClientConnect(s, attempt))
  {
    var unused := Conn([], Reading, []);
    assert unused.Pending() == [];
    UniqNewConn(s, unused);
    UniqShrink(s, s.(mode := Http));
    UniqShrink(s.(conns := s.conns + [unused]), s.(mode := WebSocket, conns := s.conns + [unused]));
  }

  lemma UniqClient(s: State, step: Step)
    requires Inv(s) && Uniq(s)
    requires step.Connect? || step.Begin? || step.Send? || step.Poll? || step.HttpLookup?
    ensures Uniq(Exec(s, step))
  {
    match step
    case Connect(attempt) => UniqConnect(s, attempt);
    case Begin(uid) => UniqShrink(s, Exec(s, step));
    case Send(ok, delivered) => if s.mode.WebSocket? && s.phase.Tapping? { UniqSend(s, ok, delivered); }
    case Poll(outcome) => UniqPoll(s, outcome);
    case HttpLookup(lookup, received) => if s.mode.Http? && s.phase.Tapping? { UniqHttp(s, lookup, received); }
  }

  lemma UniqStep(s: State, step: Step)
    requires Inv(s) && Uniq(s)
    ensures Uniq(Exec(s, step))
  {
    match step
    case ServerAnswer(c, lookup, written) =>
      if c < |s.conns| && s.conns[c].server.Handling? { UniqAnswer(s, c, lookup, written); }
    case ServerRead(_) => UniqServer(s, step);
    case ServerLeaves(_) => UniqServer(s, step);
    case LoseRequest(_, _) => UniqServer(s, step);
    case LoseFrame(_, _) => UniqServer(s, step);
    case Disturb(_) => UniqServer(s, step);
    case _ => UniqClient(s, step);
  }

  lemma {:induction false} UniqRun(s: State, steps: seq<Step>)
    requires Inv(s) && Uniq(s)
    ensures Uniq(Run(s, steps))
    decreases |steps|
  {
    if steps != [] {
      OneStep(s, steps[0]);
      UniqStep(s, steps[0]);
      UniqRun(Exec(s, steps[0]), steps[1..]);
    }
  }

  /** A tap causes at most one completed lookup, so that lookup is the only one it could be matched to. */
  lemma OneLookupPerTap(steps: seq<Step>, i: nat, j: nat)
    requires i < j < |Run(START, steps).served|
    ensures Run(START, steps).served[i].tap != Run(START, steps).served[j].tap
  {
    InvStart();
    UniqRun(START, steps);
  }

  lemma QuietBetweenTaps(s: State)
    requires Inv(s) && s.mode.WebSocket? && !s.phase.Waiting?
    ensures && s.conns != []
            && s.conns[|s.conns| - 1].Pending() == []
            && forall f :: f in s.conns[|s.conns| - 1].toClient ==> f.Noise?
  {
    QuietFramesAreNoise(s.conns[|s.conns| - 1].toClient);
  }

  /** When a tap starts on an open connection, no request of an earlier tap and no reply to one is left on it. */
  lemma NothingOutstandingBetweenTaps(steps: seq<Step>)
    requires Run(START, steps).mode.WebSocket? && !Run(START, steps).phase.Waiting?
    ensures var s := Run(START, steps);
            && s.conns != []
            && s.conns[|s.conns| - 1].Pending() == []
            && forall f :: f in s.conns[|s.conns| - 1].toClient ==> f.Noise?
  {
    InvStart();
    InvRun(START, steps);
    QuietBetweenTaps(Run(START, steps));
  }

  // ---- The bounded wait for a reply ----

  datatype Received = Got(payload: string) | NoResult | StillWaiting

  /** ws_recv_result as a function of what successive receives report. */
  function Receive(seen: seq<Seen>, waited: nat): Received
    decreases |seen|
  {
    if waited >= RECV_TIMEOUT_MS then NoResult
    else if seen == [] then StillWaiting
    else match seen[0]
      case SawFrame(Reply(payload, _)) => Got(payload)
      case SawFrame(_) => NoResult
      case SawBreak => NoResult
      case SawNothing => Receive(seen[1..], waited + POLL_MS)
  }

  /** What the receives of the tap in progress report along a run, up to the one that ends it. */
  function SeenAlong(s: State, steps: seq<Step>): seq<Seen>
    decreases |steps|
  {
    if steps == [] || !s.phase.Waiting? then []
    else
      var rest := SeenAlong(Exec(s, steps[0]), steps[1..]);
      if steps[0].Poll? then [Observed(s, steps[0].outcome)] + rest else rest
  }

  /** Whatever server and network do in between, a waiting tap ends with what the receive loop returns. */
  lemma {:induction false} TapEndsWithReceive(s: State, steps: seq<Step>)
    requires s.phase.Waiting? && s.mode.WebSocket? && s.conns != [] && s.phase.waited < RECV_TIMEOUT_MS
    ensures var end := Run(s, steps);
            match Receive(SeenAlong(s, steps), s.phase.waited)
            case Got(payload) => |end.taps| > |s.taps| && end.taps[|s.taps|] == Tap(s.phase.uid, Success(payload))
            case NoResult => |end.taps| > |s.taps| && end.taps[|s.taps|] == Tap(s.phase.uid, Failure)
            case StillWaiting => end.taps == s.taps && end.phase.Waiting?
    decreases |steps|
  {
    if steps != [] {
      var s' := Exec(s, steps[0]);
      assert Run(s, steps) == Run(s', steps[1..]);
      WaitingStep(s, steps[0]);
      if steps[0].Poll? {
        assert ([Observed(s, steps[0].outcome)] + SeenAlong(s', steps[1..]))[1..] == SeenAlong(s', steps[1..]);
      }
      if s'.phase.Waiting? {
        TapEndsWithReceive(s', steps[1..]);
      } else {
        TapsOnlyGrow(s', steps[1..]);
        assert SeenAlong(s, steps) == [Observed(s, steps[0].outcome)];
        LastPoll(s, steps[0].outcome);
      }
    }
  }

  /** Only a receive moves a waiting tap, and it either ends the tap or waits a little longer. */
  lemma WaitingStep(s: State, step: Step)
    requires s.phase.Waiting? && s.mode.WebSocket? && s.conns != [] && s.phase.waited < RECV_TIMEOUT_MS
    ensures var s' := Exec(s, step);
            && s'.conns != []
            && (s'.phase.Waiting? ==>
                  && s'.mode.WebSocket? && s'.taps == s.taps && s'.phase.uid == s.phase.uid
                  && s'.phase.waited == s.phase.waited + (if step.Poll? then POLL_MS else 0) < RECV_TIMEOUT_MS
                  && (step.Poll? ==> Observed(s, step.outcome).SawNothing?))
            && (!s'.phase.Waiting? ==> step.Poll?)
  {
  }

  lemma LastPoll(s: State, outcome: PollOutcome)
    requires s.phase.Waiting? && s.phase.waited < RECV_TIMEOUT_MS && s.conns != []
    requires !Exec(s, Poll(outcome)).phase.Waiting?
    ensures match Receive([Observed(s, outcome)], s.phase.waited)
            case Got(payload) => Exec(s, Poll(outcome)).taps == s.taps + [Tap(s.phase.uid, Success(payload))]
            case NoResult => Exec(s, Poll(outcome)).taps == s.taps + [Tap(s.phase.uid, Failure)]
            case StillWaiting => false
  {
    if Observed(s, outcome).SawNothing? {
      assert [Observed(s, outcome)][1..] == [];
      assert s.phase.waited + POLL_MS >= RECV_TIMEOUT_MS;
      assert Receive([Observed(s, outcome)], s.phase.waited) == Receive([], s.phase.waited + POLL_MS) == NoResult;
    }
  }

  lemma {:induction false} TapsOnlyGrow(s: State, steps: seq<Step>)
    ensures s.taps <= Run(s, steps).taps
    decreases |steps|
  {
    if steps != [] {
      TapsOnlyGrow(Exec(s, steps[0]), steps[1..]);
    }
  }

  const MAX_POLLS := RECV_TIMEOUT_MS / POLL_MS

  /** The loop returns what arrives first if that is within 750 receives, and gives up otherwise. */
  lemma {:induction false} ReceiveIsFirstArrival(seen: seq<Seen>, polled: nat, i: nat)
    requires polled <= 750 && i <= |seen|
    requires forall j :: 0 <= j < i ==> seen[j].SawNothing?
    requires polled + i >= 750 || (i < |seen| && !seen[i].SawNothing?)
    ensures Receive(seen, polled * 20) ==
            if polled + i < 750 && seen[i].SawFrame? && seen[i].frame.Reply? then Got(seen[i].frame.payload)
            else NoResult
    decreases i
  {
    if polled < 750 && i > 0 {
      ReceiveIsFirstArrival(seen[1..], polled + 1, i - 1);
    }
  }

  // ---- One tap as a run ----

  function AfterAttempts(mode: Mode, attempts: seq<Attempt>): Mode
    decreases |attempts|
  {
    if !mode.Connecting? || attempts == [] then mode
    else match attempts[0]
      case Connected => WebSocket
      case Unsupported => Http
      case Refused => AfterAttempts(mode, attempts[1..])
  }

  /** How a tap ends: with which result, and in which mode it leaves the client. */
  function TapOutcome(mode: Mode, attempts: seq<Attempt>, sent: bool, seen: seq<Seen>, http: Result): (Mode, Result) {
    var connected := AfterAttempts(mode, attempts);
    if connected.Http? then (Http, http)
    else if !sent then (Connecting, Failure)
    else
      match Receive(seen, 0)
      case Got(payload) => (WebSocket, Success(payload))
      case _ => (Connecting, Failure)
  }

  function Connects(attempts: seq<Attempt>): seq<Step> {
    seq(|attempts|, i requires 0 <= i < |attempts| => Connect(attempts[i]))
  }

  lemma {:induction false} RunLast(s: State, steps: seq<Step>, step: Step)
    ensures Run(s, steps + [step]) == Exec(Run(s, steps), step)
    decreases |steps|
  {
    if steps == [] {
      assert [step][1..] == [];
    } else {
      assert (steps + [step])[1..] == steps[1..] + [step];
      RunLast(Exec(s, steps[0]), steps[1..], step);
    }
  }

  lemma {:induction false} ConnectRun(s: State, attempts: seq<Attempt>)
    requires s.phase.Idle? && (s.mode.WebSocket? ==> s.conns != [])
    ensures var c := Run(s, Connects(attempts));
            && c.mode == AfterAttempts(s.mode, attempts) && c.phase.Idle? && c.taps == s.taps
            && (c.mode.WebSocket? ==> c.conns != [])
    decreases |attempts|
  {
    if attempts != [] {
      assert Connects(attempts)[1..] == Connects(attempts[1..]);
      ConnectRun(Exec(s, Connect(attempts[0])), attempts[1..]);
    }
  }

  /** The state of the client after it has connected and taken up a tap. */
  function Taken(s: State, attempts: seq<Attempt>, uid: string): State {
    Run(s, Connects(attempts) + [Begin(uid)])
  }

  lemma TakenUp(s: State, attempts: seq<Attempt>, uid: string)
    requires s.phase.Idle? && (s.mode.WebSocket? ==> s.conns != [])
    ensures var t := Taken(s, attempts, uid);
            && t.mode == AfterAttempts(s.mode, attempts) && t.phase == Tapping(uid) && t.taps == s.taps
            && (t.mode.WebSocket? ==> t.conns != [])
  {
    ConnectRun(s, attempts);
    RunLast(s, Connects(attempts), Begin(uid));
  }

  /** In HTTP mode a tap is one request. */
  lemma HttpTapIsARun(s: State, attempts: seq<Attempt>, uid: string, lookup: LookupOutcome, received: bool, sent: bool,
                      seen: seq<Seen>) returns (http: Result)
    requires s.phase.Idle? && (s.mode.WebSocket? ==> s.conns != []) && AfterAttempts(s.mode, attempts).Http?
    ensures var end := Exec(Taken(s, attempts, uid), HttpLookup(lookup, received));
            && end.taps == s.taps + [Tap(uid, http)] && end.phase.Idle?
            && (end.mode, http) == TapOutcome(s.mode, attempts, sent, seen, http)
  {
    TakenUp(s, attempts, uid);
    http := if lookup.Resolved? && uid != "" && received then Success(lookup.payload) else Failure;
  }

  /** A tap whose request cannot be sent ends at once. */
  lemma UnsentTapIsARun(s: State, attempts: seq<Attempt>, uid: string, delivered: bool, seen: seq<Seen>, http: Result)
    requires s.phase.Idle? && (s.mode.WebSocket? ==> s.conns != []) && AfterAttempts(s.mode, attempts).WebSocket?
    ensures var end := Exec(Taken(s, attempts, uid), Send(false, delivered));
            var outcome := TapOutcome(s.mode, attempts, false, seen, http);
            end.taps == s.taps + [Tap(uid, outcome.1)] && end.mode == outcome.0 && end.phase.Idle?
  {
    TakenUp(s, attempts, uid);
  }

  /** The last of these steps, and none before it, ends the tap that is waiting in s. */
  ghost predicate EndsTap(s: State, steps: seq<Step>) {
    steps != [] && Run(s, steps[..|steps| - 1]).taps == s.taps && Run(s, steps).taps != s.taps
  }

  lemma {:induction false} StillWaits(s: State, steps: seq<Step>)
    requires s.phase.Waiting? && s.mode.WebSocket? && s.conns != [] && s.phase.waited < RECV_TIMEOUT_MS
    requires Run(s, steps).taps == s.taps
    ensures var t := Run(s, steps);
            && t.phase.Waiting? && t.mode.WebSocket? && t.conns != [] && t.phase.waited < RECV_TIMEOUT_MS
            && t.phase.uid == s.phase.uid
    decreases |steps|
  {
    if steps != [] {
      var next := Exec(s, steps[0]);
      WaitingStep(s, steps[0]);
      TapsOnlyGrow(next, steps[1..]);
      if !next.phase.Waiting? { LastPoll(s, steps[0].outcome); }
      StillWaits(next, steps[1..]);
    }
  }

  lemma LastPollMode(s: State, outcome: PollOutcome)
    requires s.phase.Waiting? && s.mode.WebSocket? && s.conns != []
    requires !Exec(s, Poll(outcome)).phase.Waiting?
    ensures var end := Exec(s, Poll(outcome));
            && end.phase.Idle? && |end.taps| == |s.taps| + 1
            && end.mode == if end.taps[|s.taps|].result.Success? then WebSocket else Connecting
  {
  }

  /** A tap whose request was sent: whatever server and network do in between, it ends as the method does on
      what its receives report. */
  lemma SentTapIsARun(s: State, attempts: seq<Attempt>, uid: string, delivered: bool, steps: seq<Step>, http: Result)
    requires s.phase.Idle? && (s.mode.WebSocket? ==> s.conns != []) && AfterAttempts(s.mode, attempts).WebSocket?
    requires EndsTap(Exec(Taken(s, attempts, uid), Send(true, delivered)), steps)
    ensures var sent := Exec(Taken(s, attempts, uid), Send(true, delivered));
            var end, outcome := Run(sent, steps), TapOutcome(s.mode, attempts, true, SeenAlong(sent, steps), http);
            end.taps == s.taps + [Tap(uid, outcome.1)] && end.mode == outcome.0 && end.phase.Idle?
  {
    TakenUp(s, attempts, uid);
    var sent, n := Exec(Taken(s, attempts, uid), Send(true, delivered)), |steps| - 1;
    StillWaits(sent, steps[..n]);
    var last := Run(sent, steps[..n]);
    assert steps == steps[..n] + [steps[n]];
    RunLast(sent, steps[..n], steps[n]);
    WaitingStep(last, steps[n]);
    LastPollMode(last, steps[n].outcome);
    LastPoll(last, steps[n].outcome);
    TapEndsWithReceive(sent, steps);
  }

  // ---- The client object ----

  class LookupClient {
    var mode: Mode
    /** ws.curl is not NULL. */
    var open: bool

    ghost predicate Valid()
      reads this
    {
      open <==> mode.WebSocket?
    }

    constructor ()
      ensures Valid() && mode.Connecting?
    {
      mode, open := Connecting, false;
    }

    /** ensure_connected retries for ever; attempts is what successive ws_connect calls return. */
    method EnsureConnected(attempts: seq<Attempt>) returns (used: nat)
      requires Valid()
      requires mode.Connecting? ==> exists i :: 0 <= i < |attempts| && !attempts[i].Refused?
      modifies this
      ensures Valid() && !mode.Connecting?
      ensures mode == AfterAttempts(old(mode), attempts)
      ensures !old(mode).Connecting? ==> mode == old(mode) && used == 0
      ensures old(mode).Connecting? ==>
                && 0 < used <= |attempts| && (forall i :: 0 <= i < used - 1 ==> attempts[i].Refused?)
                && mode == (if attempts[used - 1].Connected? then WebSocket else Http)
                && !attempts[used - 1].Refused?
    {
      used := 0;
      while mode.Connecting?
        invariant Valid()
        invariant mode.Connecting? ==> old(mode).Connecting?
        invariant used <= |attempts| && AfterAttempts(old(mode), attempts) == AfterAttempts(mode, attempts[used..])
        invariant mode.Connecting? ==> forall i :: 0 <= i < used ==> attempts[i].Refused?
        invariant old(mode).Connecting? && !mode.Connecting? ==>
                    && 0 < used && (forall i :: 0 <= i < used - 1 ==> attempts[i].Refused?)
                    && mode == (if attempts[used - 1].Connected? then WebSocket else Http)
                    && !attempts[used - 1].Refused?
        invariant !old(mode).Connecting? ==> mode == old(mode) && used == 0
        decreases mode.Connecting?, |attempts| - used
      {
        assert attempts[used..][1..] == attempts[used + 1..];
        match attempts[used] {
          case Connected => mode, open := WebSocket, true;
          case Unsupported => mode := Http;
          case Refused =>
        }
        used := used + 1;
      }
    }

    /** ws_recv_result; seen is what successive curl_ws_recv calls report. */
    method ReceiveResult(seen: seq<Seen>) returns (r: Received)
      requires |seen| >= MAX_POLLS
      ensures r == Receive(seen, 0) && !r.StillWaiting?
    {
      var waited, i := 0, 0;
      while waited < RECV_TIMEOUT_MS
        invariant waited == i * POLL_MS && i <= MAX_POLLS
        invariant Receive(seen, 0) == Receive(seen[i..], waited)
      {
        assert seen[i..][1..] == seen[i + 1..];
        match seen[i] {
          case SawFrame(frame) => return if frame.Reply? then Got(frame.payload) else NoResult;
          case SawBreak => return NoResult;
          case SawNothing =>
        }
        waited, i := waited + POLL_MS, i + 1;
      }
      return NoResult;
    }

    method CloseSocket()
      modifies this
      ensures Valid() && mode.Connecting?
    {
      open, mode := false, Connecting;
    }

    /** lookup_client_tap: any failure on the socket, an error frame included, abandons the connection. */
    method Tap(attempts: seq<Attempt>, sent: bool, seen: seq<Seen>, http: Result) returns (r: Result)
      requires Valid() && |seen| >= MAX_POLLS
      requires mode.Connecting? ==> exists i :: 0 <= i < |attempts| && !attempts[i].Refused?
      modifies this
      ensures Valid() && (mode, r) == TapOutcome(old(mode), attempts, sent, seen, http)
      ensures mode.Http? ==> r == http
      ensures !mode.Http? && r.Success? ==> mode.WebSocket? && sent && Receive(seen, 0) == Got(r.payload)
      ensures !mode.Http? && r.Failure? ==> mode.Connecting? && !(sent && Receive(seen, 0).Got?)
      ensures old(mode).Http? ==> mode.Http?
      ensures old(mode).WebSocket? ==> !mode.Http?
    {
      var _ := EnsureConnected(attempts);
      if mode.Http? {
        return http;
      }
      if !sent {
        CloseSocket();
        return Failure;
      }
      var got := ReceiveResult(seen);
      if !got.Got? {
        CloseSocket();
        return Failure;
      }
      return Success(got.payload);
    }
  }
}
