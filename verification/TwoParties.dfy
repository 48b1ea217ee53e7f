/**
 Two endpoints over reliable first-in first-out channels, in every interleaving. Each runs `accept`
 or `register_inbound` of the connection manager, and remembers what its transport did for it.
 */
module TwoParties {
  import opened Wrappers
  import opened Handshake
  import opened Manager

  datatype Role = Acceptor | Responder

  /**
   Where the call stands. Refusing and Closing are an inbound refusal on its way out; Done and Gone are the
   two ends.
   */
  datatype Place = Starting | HelloSent | HelloTaken | AckSent | Refusing | Closing | Done | Gone

  /** `wire` is what sends and receives have come to so far. */
  datatype Endpoint = Endpoint(role: Role, ctx: HandshakeContext, place: Place, session: Session, wire: Wire)

  /** `inbox` holds what is on its way to each side; closing either transport closes both. */
  datatype System = System(ends: seq<Endpoint>, inbox: seq<seq<Message>>, closed: bool)

  const NOTHING := Wire(false, None, false, None)
  const AGREED := AckMessage(Some(Ack(true, Some(""))))

  function Other(i: nat): nat { 1 - i % 2 }

  ghost predicate TwoSided(s: System) {
    |s.ends| == 2 && |s.inbox| == 2
  }

  predicate Final(p: Place) {
    p.Done? || p.Gone?
  }

  // ---------- one endpoint's next action ----------

  datatype Action = Sending(m: Message) | Receiving | Leaving | Resting

  function NextAction(e: Endpoint): Action {
    match e.place
    case Starting => if e.role == Acceptor then Sending(HelloMessage(Some(LocalHello(e.ctx)))) else Receiving
    case HelloSent => Receiving
    case HelloTaken => Sending(AGREED)
    case AckSent => Receiving
    case Refusing => Sending(AckMessage(Some(Ack(false, e.session.reason))))
    case Closing => Leaving
    case Done => Resting
    case Gone => Resting
  }

  /** The clean-up of a call that does not establish: the session is closed, unless that raises. */
  function Left(e: Endpoint, session: Session): Endpoint {
    e.(place := Gone, session := match OnClose(session) case Ok(t) => t case Err(_) => session)
  }

  /** The session has moved on to SEND_HELLO before its HELLO is handed to the transport. */
  function Ready(e: Endpoint): Session {
    if e.place == Starting && e.role == Acceptor then e.session.(state := SendHello) else e.session
  }

  function AfterSending(e: Endpoint): Endpoint {
    match e.place
    case Starting => e.(place := HelloSent, session := Ready(e), wire := e.wire.(helloSent := true))
    case HelloTaken =>
      if e.role == Acceptor then e.(place := AckSent, wire := e.wire.(ackSent := true))
      else e.(place := Done, session := e.session.(state := Established), wire := e.wire.(ackSent := true))
    case _ => e.(place := Closing)
  }

  function AfterHello(e: Endpoint, m: Message): Endpoint {
    var took := e.(wire := e.wire.(first := Some(m)));
    match OnHello(e.ctx, e.session, m)
    case Err(_) => Left(took, e.session)
    case Ok(t) =>
      if t.state != Rejected then took.(place := HelloTaken, session := t)
      else if e.role == Acceptor then Left(took, t)
      else took.(place := Refusing, session := t)
  }

  function AfterAck(e: Endpoint, m: Message): Endpoint {
    var took := e.(wire := e.wire.(second := Some(m)));
    match OnAck(e.session, m)
    case Err(_) => Left(took, e.session)
    case Ok(t) => if t.state == Established then took.(place := Done, session := t) else Left(took, t)
  }

  // ---------- the system ----------

  function Put(s: System, i: nat, e: Endpoint): System
    requires i < |s.ends|
  {
    s.(ends := s.ends[i := e], closed := s.closed || e.place == Gone)
  }

  /** Whether side i can go on: a receive waits while its channel is open and empty. */
  ghost predicate CanStep(s: System, i: nat)
    requires TwoSided(s) && i < 2
  {
    match NextAction(s.ends[i])
    case Sending(_) => true
    case Receiving => s.closed || s.inbox[i] != []
    case Leaving => true
    case Resting => false
  }

  ghost function Next(s: System, i: nat): System
    requires TwoSided(s) && i < 2 && CanStep(s, i)
  {
    var e := s.ends[i];
    match NextAction(e)
    case Leaving => Put(s, i, Left(e, e.session))
    case Resting => s
    case Sending(m) =>
      if !s.closed then
        var t := Put(s, i, AfterSending(e));
        t.(inbox := t.inbox[Other(i) := t.inbox[Other(i)] + [m]])
      // A refusal's HELLO_ACK may fail without consequence; any other failed send ends the call.
      else if e.place == Refusing then Put(s, i, e.(place := Closing))
      else Put(s, i, Left(e, Ready(e)))
    case Receiving =>
      if s.closed then Put(s, i, Left(e, e.session))
      else
        var m := s.inbox[i][0];
        var t := Put(s, i, if e.place == AckSent then AfterAck(e, m) else AfterHello(e, m));
        t.(inbox := t.inbox[i := t.inbox[i][1..]])
  }

  function Fresh(role: Role, ctx: HandshakeContext): Endpoint {
    Endpoint(role, ctx, Starting, FRESH, NOTHING)
  }

  function Begin(x: Endpoint, y: Endpoint): System {
    System([x, y], [[], []], false)
  }

  /** A run: which side moves at each step. */
  ghost predicate Run(states: seq<System>, sides: seq<nat>) {
    && |states| == |sides| + 1
    && forall k :: 0 <= k < |sides| ==> StepAt(states, sides, k)
  }

  ghost predicate StepAt(states: seq<System>, sides: seq<nat>, k: nat)
    requires k + 1 < |states| && k < |sides|
  {
    && sides[k] < 2 && TwoSided(states[k]) && CanStep(states[k], sides[k])
    && states[k + 1] == Next(states[k], sides[k])
  }

  /** Same protocol version, network and genesis: the only thing about the parties the outcome depends on. */
  predicate Compatible(a: HandshakeContext, b: HandshakeContext) {
    a.protocolVersion == b.protocolVersion && a.networkId == b.networkId && a.genesisHash == b.genesisHash
  }

  // ---------- each endpoint does what the manager's method does with the same wire ----------

  function OutcomeOf(e: Endpoint): Outcome {
    if e.role == Acceptor then AcceptOutcome(e.ctx, e.wire) else InboundOutcome(e.ctx, e.wire)
  }

  ghost predicate TookHello(e: Endpoint, from: HandshakeState, refused: bool) {
    && e.wire.first.Some? && e.wire.second.None?
    && OnHello(e.ctx, FRESH.(state := from), e.wire.first.value) == Ok(e.session)
    && (e.session.state == Rejected <==> refused)
  }

  ghost predicate Ended(e: Endpoint) {
    if e.place == Done then OutcomeOf(e) == Agreed(e.session) && e.session.state == Established
    else
      && e.session.state != Established
      && OutcomeOf(e)
         == if e.session.state == Rejected then Refused else if e.session.state == New then Stuck else Failed
  }

  ghost predicate Faithful(e: Endpoint) {
    match e.place
    case Starting => e.session == FRESH && e.wire == NOTHING
    case HelloSent =>
      && e.role == Acceptor && e.session == FRESH.(state := SendHello)
      && e.wire == NOTHING.(helloSent := true)
    case HelloTaken =>
      if e.role == Acceptor then TookHello(e, SendHello, false) && e.wire.helloSent && !e.wire.ackSent
      else TookHello(e, New, false) && !e.wire.ackSent
    case AckSent => e.role == Acceptor && TookHello(e, SendHello, false) && e.wire.helloSent && e.wire.ackSent
    case Refusing => e.role == Responder && TookHello(e, New, true)
    case Closing => e.role == Responder && TookHello(e, New, true)
    case _ => Ended(e)
  }

  lemma {:induction false} SendingIsFaithful(e: Endpoint)
    requires Faithful(e) && NextAction(e).Sending?
    ensures Faithful(AfterSending(e))
    ensures e.place != Refusing ==> Faithful(Left(e, Ready(e)))
    ensures e.place == Refusing ==> Faithful(e.(place := Closing))
  {
  }

  lemma {:induction false} TakingIsFaithful(e: Endpoint, m: Message)
    requires Faithful(e) && NextAction(e).Receiving?
    ensures Faithful(if e.place == AckSent then AfterAck(e, m) else AfterHello(e, m))
    ensures Faithful(Left(e, e.session))
  {
  }

  lemma {:induction false} StepIsFaithful(s: System, i: nat, j: nat)
    requires TwoSided(s) && i < 2 && j < 2 && CanStep(s, i) && Faithful(s.ends[i]) && Faithful(s.ends[j])
    ensures TwoSided(Next(s, i)) && Faithful(Next(s, i).ends[j])
    ensures Next(s, i).ends[j].role == s.ends[j].role && Next(s, i).ends[j].ctx == s.ends[j].ctx
  {
    var e := s.ends[i];
    match NextAction(e)
    case Sending(_) => SendingIsFaithful(e);
    case Receiving =>
      if s.inbox[i] != [] {
        TakingIsFaithful(e, s.inbox[i][0]);
      } else {
        TakingIsFaithful(e, OtherMessage);
      }
    case _ =>
  }

  /**
   In any run with any peer, an endpoint that has ended did exactly what the manager's method does
   when its transport behaves as it did here: established with that session, refused by or refusing
   the peer, failed on a closed transport, or stuck before its first HELLO.
   */
  lemma {:induction false} EndsAsTheManagerDoes(states: seq<System>, sides: seq<nat>, x: Endpoint, y: Endpoint, k: nat,
                                                i: nat)
    requires Run(states, sides) && states[0] == Begin(x, y) && k < |states| && i < 2
    requires x == Fresh(x.role, x.ctx) && y == Fresh(y.role, y.ctx)
    ensures TwoSided(states[k]) && Faithful(states[k].ends[i])
    ensures states[k].ends[i].role == states[0].ends[i].role && states[k].ends[i].ctx == states[0].ends[i].ctx
    ensures Final(states[k].ends[i].place) ==> Ended(states[k].ends[i])
    decreases k
  {
    if k > 0 {
      EndsAsTheManagerDoes(states, sides, x, y, k - 1, i);
      assert StepAt(states, sides, k - 1);
      EndsAsTheManagerDoes(states, sides, x, y, k - 1, sides[k - 1]);
      StepIsFaithful(states[k - 1], sides[k - 1], i);
    }
  }

  // ---------- what is on the way ----------

  /** The messages an endpoint has sent so far, a refusal apart. */
  function Sent(e: Endpoint): seq<Message> {
    var hello := if e.role == Acceptor && e.wire.helloSent then [HelloMessage(Some(LocalHello(e.ctx)))] else [];
    hello + if e.wire.ackSent then [AGREED] else []
  }

  function Received(e: Endpoint): nat {
    if e.wire.first.None? then 0 else if e.wire.second.None? then 1 else 2
  }

  /** While nothing is closed: what is on the way to side i is what the other sent and it has not yet taken. */
  ghost predicate OnTheWay(s: System, i: nat)
    requires TwoSided(s) && i < 2
  {
    var e, peer := s.ends[i], s.ends[Other(i)];
    Received(e) <= |Sent(peer)| && s.inbox[i] == Sent(peer)[Received(e)..]
  }

  // ---------- both accept ----------

  /** What is known of a side when both accept. */
  ghost predicate AcceptingSide(s: System, i: nat)
    requires TwoSided(s) && i < 2
  {
    var e, peer := s.ends[i], s.ends[Other(i)];
    && e.role == Acceptor && Faithful(e)
    && (e.wire.first.Some? && !s.closed ==> e.wire.first == Some(HelloMessage(Some(LocalHello(peer.ctx)))))
    && (e.place in {HelloTaken, AckSent, Done} ==>
          && e.wire.first == Some(HelloMessage(Some(LocalHello(peer.ctx)))) && Compatible(e.ctx, peer.ctx)
          && e.session.capabilities == Some(e.ctx.features * peer.ctx.features))
    && (s.closed ==> !Compatible(e.ctx, peer.ctx))
    && (!s.closed ==> e.place != Gone && OnTheWay(s, i))
  }

  ghost predicate BothAccept(s: System) {
    TwoSided(s) && AcceptingSide(s, 0) && AcceptingSide(s, 1)
  }

  lemma {:induction false} OneMoreSent(e: Endpoint, n: nat)
    requires e.role == Acceptor && Faithful(e) && NextAction(e).Sending? && n <= |Sent(e)|
    ensures Sent(AfterSending(e)) == Sent(e) + [NextAction(e).m] && Received(AfterSending(e)) == Received(e)
    ensures Sent(AfterSending(e))[n..] == Sent(e)[n..] + [NextAction(e).m]
  {
  }

  lemma {:induction false} AcceptSendKeeps(s: System, i: nat)
    requires BothAccept(s) && i < 2 && CanStep(s, i) && !s.closed && NextAction(s.ends[i]).Sending?
    ensures AcceptingSide(Next(s, i), i) && AcceptingSide(Next(s, i), Other(i))
  {
    assert AcceptingSide(s, i) && AcceptingSide(s, Other(i));
    SendingIsFaithful(s.ends[i]);
    OneMoreSent(s.ends[i], Received(s.ends[Other(i)]));
  }

  lemma {:induction false} HeadOfInbox(s: System, i: nat)
    requires TwoSided(s) && i < 2 && OnTheWay(s, i) && s.inbox[i] != []
    ensures var sent, n := Sent(s.ends[Other(i)]), Received(s.ends[i]);
            n < |sent| && s.inbox[i][0] == sent[n] && s.inbox[i][1..] == sent[n + 1..]
  {
  }

  lemma {:induction false} HelloTakenFrom(e: Endpoint, peer: HandshakeContext)
    requires e.role == Acceptor && Faithful(e) && e.place == HelloSent
    ensures var t := AfterHello(e, HelloMessage(Some(LocalHello(peer))));
            && Faithful(t) && t.role == e.role && t.ctx == e.ctx && Received(t) == 1 && Sent(t) == Sent(e)
            && t.wire.first == Some(HelloMessage(Some(LocalHello(peer))))
            && if Compatible(e.ctx, peer)
               then t.place == HelloTaken && t.session.capabilities == Some(e.ctx.features * peer.features)
               else t.place == Gone
  {
    TakingIsFaithful(e, HelloMessage(Some(LocalHello(peer))));
  }

  lemma {:induction false} AcceptTakeHelloKeeps(s: System, i: nat)
    requires BothAccept(s) && i < 2 && CanStep(s, i) && !s.closed && s.ends[i].place == HelloSent
    ensures AcceptingSide(Next(s, i), i) && AcceptingSide(Next(s, i), Other(i))
  {
    assert AcceptingSide(s, i) && AcceptingSide(s, Other(i));
    HeadOfInbox(s, i);
    assert s.inbox[i][0] == HelloMessage(Some(LocalHello(s.ends[Other(i)].ctx)));
    HelloTakenFrom(s.ends[i], s.ends[Other(i)].ctx);
  }

  lemma {:induction false} AcceptTakeAckKeeps(s: System, i: nat)
    requires BothAccept(s) && i < 2 && CanStep(s, i) && !s.closed && s.ends[i].place == AckSent
    ensures BothAccept(Next(s, i))
  {
    assert AcceptingSide(s, i) && AcceptingSide(s, Other(i));
    HeadOfInbox(s, i);
    var e, t := s.ends[i], Next(s, i);
    TakingIsFaithful(e, s.inbox[i][0]);
    assert s.inbox[i][0] == AGREED;
    assert e.session.state == WaitHelloAck;
    assert AcceptingSide(t, i) && AcceptingSide(t, Other(i));
  }

  lemma {:induction false} AcceptClosedKeeps(s: System, i: nat)
    requires BothAccept(s) && i < 2 && CanStep(s, i) && s.closed
    ensures BothAccept(Next(s, i))
  {
    assert AcceptingSide(s, i) && AcceptingSide(s, Other(i));
    StepIsFaithful(s, i, i);
    StepIsFaithful(s, i, Other(i));
    assert AcceptingSide(Next(s, i), i) && AcceptingSide(Next(s, i), Other(i));
  }

  lemma {:induction false} AcceptStepKeeps(s: System, i: nat)
    requires BothAccept(s) && i < 2 && CanStep(s, i)
    ensures BothAccept(Next(s, i))
  {
    assert AcceptingSide(s, i);
    if s.closed {
      AcceptClosedKeeps(s, i);
    } else if NextAction(s.ends[i]).Sending? {
      AcceptSendKeeps(s, i);
      assert AcceptingSide(Next(s, i), 0) && AcceptingSide(Next(s, i), 1);
    } else if s.ends[i].place == HelloSent {
      AcceptTakeHelloKeeps(s, i);
      assert AcceptingSide(Next(s, i), 0) && AcceptingSide(Next(s, i), 1);
    } else {
      AcceptTakeAckKeeps(s, i);
    }
  }

  // ---------- one accepts, the other is inbound ----------

  /**
   Side i accepts, the other is inbound: the acceptor never gets past its HELLO, the inbound side goes by
   compatibility.
   */
  ghost predicate Mixed(s: System, i: nat)
    requires i < 2
  {
    && TwoSided(s)
    && var e, peer := s.ends[i], s.ends[Other(i)];
       && e.role == Acceptor && peer.role == Responder && Faithful(e) && Faithful(peer)
       && e.place in {Starting, HelloSent, Gone}
       && (e.place == Starting ==> !s.closed && peer.place == Starting)
       && (peer.wire.first.Some? ==> peer.wire.first == Some(HelloMessage(Some(LocalHello(e.ctx)))))
       && (peer.place in {HelloTaken, Done} ==>
             Compatible(peer.ctx, e.ctx) && peer.session.capabilities == Some(peer.ctx.features * e.ctx.features))
       && (peer.place in {Refusing, Closing, Gone} ==> !Compatible(peer.ctx, e.ctx) && peer.session.state == Rejected)
       && (s.closed ==> peer.place in {Refusing, Closing, Gone, Done})
       && (s.closed <==> e.place == Gone || peer.place == Gone)
       && (!s.closed ==> MixedInboxes(s, i))
  }

  ghost predicate MixedInboxes(s: System, i: nat)
    requires TwoSided(s) && i < 2
  {
    var e, peer := s.ends[i], s.ends[Other(i)];
    && s.inbox[Other(i)]
       == (if e.place == HelloSent && peer.place == Starting then [HelloMessage(Some(LocalHello(e.ctx)))] else [])
    && s.inbox[i] == match peer.place
                     case Done => [AGREED]
                     case Closing => [AckMessage(Some(Ack(false, peer.session.reason)))]
                     case _ => []
  }

  lemma {:induction false} MixedAcceptorStep(s: System, i: nat)
    requires i < 2 && Mixed(s, i) && CanStep(s, i)
    ensures Mixed(Next(s, i), i)
  {
    StepIsFaithful(s, i, i);
    StepIsFaithful(s, i, Other(i));
  }

  lemma {:induction false} MixedInboundStep(s: System, i: nat)
    requires i < 2 && Mixed(s, i) && CanStep(s, Other(i))
    ensures Mixed(Next(s, Other(i)), i)
  {
    var j := Other(i);
    assert Other(j) == i;
    StepIsFaithful(s, j, i);
    StepIsFaithful(s, j, j);
    var e, peer := s.ends[i], s.ends[j];
    assert Compatible(peer.ctx, e.ctx) <==> ValidateHello(peer.ctx, LocalHello(e.ctx)) == None;
  }

  // ---------- progress ----------

  function Ahead(e: Endpoint): nat {
    match e.place
    case Starting => 4
    case HelloSent => 3
    case HelloTaken => 2
    case AckSent => 1
    case Refusing => 2
    case Closing => 1
    case _ => 0
  }

  lemma {:induction false} StepNearsEnd(s: System, i: nat)
    requires TwoSided(s) && i < 2 && CanStep(s, i)
    ensures var t := Next(s, i);
            TwoSided(t) && Ahead(t.ends[0]) + Ahead(t.ends[1]) < Ahead(s.ends[0]) + Ahead(s.ends[1])
  {
    var e := s.ends[i];
    assert Next(s, i).ends[Other(i)] == s.ends[Other(i)];
  }

  ghost predicate Live(s: System)
    requires TwoSided(s)
  {
    CanStep(s, 0) || CanStep(s, 1) || (Final(s.ends[0].place) && Final(s.ends[1].place))
  }

  lemma {:induction false} AcceptingIsLive(s: System)
    requires BothAccept(s)
    ensures Live(s)
  {
    assert AcceptingSide(s, 0) && AcceptingSide(s, 1);
  }

  lemma {:induction false} MixedIsLive(s: System, i: nat)
    requires i < 2 && Mixed(s, i)
    ensures Live(s)
  {
  }

  /** What stays true along a run, by the roles of its two ends. */
  ghost predicate Kept(s: System) {
    BothAccept(s) || Mixed(s, 0) || Mixed(s, 1)
  }

  lemma {:induction false} StepKeeps(s: System, i: nat)
    requires Kept(s) && i < 2 && CanStep(s, i)
    ensures BothAccept(s) ==> BothAccept(Next(s, i))
    ensures Mixed(s, 0) ==> Mixed(Next(s, i), 0)
    ensures Mixed(s, 1) ==> Mixed(Next(s, i), 1)
  {
    if BothAccept(s) {
      AcceptStepKeeps(s, i);
    }
    if Mixed(s, i) {
      MixedAcceptorStep(s, i);
    }
    if Mixed(s, Other(i)) {
      MixedInboundStep(s, Other(i));
    }
  }

  lemma {:induction false} BeginKeeps(x: Endpoint, y: Endpoint)
    requires x == Fresh(x.role, x.ctx) && y == Fresh(y.role, y.ctx) && (x.role == Acceptor || y.role == Acceptor)
    ensures var s := Begin(x, y);
            if x.role == y.role then BothAccept(s) else if x.role == Acceptor then Mixed(s, 0) else Mixed(s, 1)
  {
    var s := Begin(x, y);
    if x.role == y.role {
      assert AcceptingSide(s, 0) && AcceptingSide(s, 1);
    }
  }

  /** What each combination of roles guarantees at every step of every run. */
  lemma {:induction false} RunsKeep(states: seq<System>, sides: seq<nat>, x: Endpoint, y: Endpoint, k: nat)
    requires Run(states, sides) && states[0] == Begin(x, y) && k < |states|
    requires x == Fresh(x.role, x.ctx) && y == Fresh(y.role, y.ctx) && (x.role == Acceptor || y.role == Acceptor)
    ensures if x.role == y.role then BothAccept(states[k]) else if x.role == Acceptor then Mixed(states[k], 0)
            else Mixed(states[k], 1)
    ensures states[k].ends[0].ctx == x.ctx && states[k].ends[1].ctx == y.ctx
    decreases k
  {
    if k == 0 {
      BeginKeeps(x, y);
    } else {
      RunsKeep(states, sides, x, y, k - 1);
      assert StepAt(states, sides, k - 1);
      StepKeeps(states[k - 1], sides[k - 1]);
      StepKeepsParties(states[k - 1], sides[k - 1]);
    }
  }

  lemma {:induction false} StepKeepsParties(s: System, i: nat)
    requires TwoSided(s) && i < 2 && CanStep(s, i)
    ensures forall j ::
              0 <= j < 2 ==> Next(s, i).ends[j].ctx == s.ends[j].ctx && Next(s, i).ends[j].role == s.ends[j].role
  {
  }

  // ---------- the results ----------

  /**
   Unless both wait for the other's HELLO, no interleaving blocks: one side can go on until both have ended,
   within eight steps.
   */
  lemma {:induction false} NeverDeadlocked(states: seq<System>, sides: seq<nat>, x: Endpoint, y: Endpoint, k: nat)
    requires Run(states, sides) && states[0] == Begin(x, y) && k < |states|
    requires x == Fresh(x.role, x.ctx) && y == Fresh(y.role, y.ctx)
    ensures TwoSided(states[k])
    ensures if x.role == Responder == y.role then k == 0 && !CanStep(states[0], 0) && !CanStep(states[0], 1)
            else Live(states[k])
    ensures Ahead(states[k].ends[0]) + Ahead(states[k].ends[1]) + k <= 8
  {
    RunsNearEnd(states, sides, x, y, k);
    if x.role == Acceptor || y.role == Acceptor {
      RunsKeep(states, sides, x, y, k);
      if x.role == y.role {
        AcceptingIsLive(states[k]);
      } else {
        MixedIsLive(states[k], if x.role == Acceptor then 0 else 1);
      }
    } else {
      BothWait(states, sides);
    }
  }

  lemma {:induction false} BothWait(states: seq<System>, sides: seq<nat>)
    requires Run(states, sides) && TwoSided(states[0]) && !CanStep(states[0], 0) && !CanStep(states[0], 1)
    ensures sides == []
  {
    assert sides != [] ==> StepAt(states, sides, 0);
  }

  lemma {:induction false} RunsNearEnd(states: seq<System>, sides: seq<nat>, x: Endpoint, y: Endpoint, k: nat)
    requires Run(states, sides) && states[0] == Begin(x, y) && k < |states| && x.place == y.place == Starting
    ensures TwoSided(states[k]) && Ahead(states[k].ends[0]) + Ahead(states[k].ends[1]) + k <= 8
  {
    if k > 0 {
      RunsNearEnd(states, sides, x, y, k - 1);
      assert StepAt(states, sides, k - 1);
      StepNearsEnd(states[k - 1], sides[k - 1]);
    }
  }

  /** Established at any moment of any run means compatible, and the capabilities are the shared features. */
  lemma {:induction false} EstablishedMeansCompatible(states: seq<System>, sides: seq<nat>, x: Endpoint, y: Endpoint,
                                                      k: nat, i: nat)
    requires Run(states, sides) && states[0] == Begin(x, y) && k < |states| && i < 2
    requires x == Fresh(x.role, x.ctx) && y == Fresh(y.role, y.ctx)
    ensures TwoSided(states[k])
    ensures states[k].ends[i].session.state == Established
            ==> Compatible(x.ctx, y.ctx)
                && states[k].ends[i].session.capabilities == Some(x.ctx.features * y.ctx.features)
  {
    NeverDeadlocked(states, sides, x, y, k);
    EndsAsTheManagerDoes(states, sides, x, y, k, i);
    assert x.ctx.features * y.ctx.features == y.ctx.features * x.ctx.features;
    if x.role == Acceptor || y.role == Acceptor {
      RunsKeep(states, sides, x, y, k);
      EstablishedIsDone(states[k].ends[i]);
      if BothAccept(states[k]) {
        assert AcceptingSide(states[k], i);
      }
    }
  }

  lemma {:induction false} EstablishedIsDone(e: Endpoint)
    requires Faithful(e)
    ensures e.session.state == Established <==> e.place == Done
  {
  }

  ghost predicate Finished(s: System, i: nat, shared: set<string>)
    requires TwoSided(s) && i < 2
  {
    s.ends[i].place == Done && s.ends[i].session.state == Established && s.ends[i].session.capabilities == Some(shared)
  }

  /**
   Two accepting endpoints, when a run can go no further: both are established, with equal capabilities, or
   neither is, exactly by compatibility.
   */
  lemma {:induction false} BothOrNeither(states: seq<System>, sides: seq<nat>, x: Endpoint, y: Endpoint)
    requires Run(states, sides) && states[0] == Begin(x, y)
    requires x == Fresh(Acceptor, x.ctx) && y == Fresh(Acceptor, y.ctx)
    requires var s := states[|sides|]; TwoSided(s) && !CanStep(s, 0) && !CanStep(s, 1)
    ensures var s := states[|sides|];
            if Compatible(x.ctx, y.ctx) then forall i :: 0 <= i < 2 ==> Finished(s, i, x.ctx.features * y.ctx.features)
            else forall i :: 0 <= i < 2 ==> s.ends[i].place == Gone && s.ends[i].session.state != Established
  {
    NeverDeadlocked(states, sides, x, y, |sides|);
    RunsKeep(states, sides, x, y, |sides|);
    var s := states[|sides|];
    assert AcceptingSide(s, 0) && AcceptingSide(s, 1);
    assert x.ctx.features * y.ctx.features == y.ctx.features * x.ctx.features;
  }

  /**
   One accepting and one inbound endpoint, in either order: in no run are both ever established.
   When a run can go no further the accepting side has given up, and the inbound side is
   established exactly if the two are compatible.
   */
  lemma {:induction false} MixedRolesDisagree(states: seq<System>, sides: seq<nat>, x: Endpoint, y: Endpoint, k: nat)
    requires Run(states, sides) && states[0] == Begin(x, y) && k < |states|
    requires x == Fresh(x.role, x.ctx) && y == Fresh(y.role, y.ctx) && x.role != y.role
    ensures TwoSided(states[k])
    ensures var s, i := states[k], if x.role == Acceptor then 0 else 1;
            && s.ends[i].session.state != Established
            && (!CanStep(s, 0) && !CanStep(s, 1)
                ==> && s.ends[i].place == Gone
                    && if Compatible(x.ctx, y.ctx) then Finished(s, Other(i), x.ctx.features * y.ctx.features)
                       else s.ends[Other(i)].place == Gone && s.ends[Other(i)].session.state == Rejected)
  {
    NeverDeadlocked(states, sides, x, y, k);
    RunsKeep(states, sides, x, y, k);
    assert x.ctx.features * y.ctx.features == y.ctx.features * x.ctx.features;
  }
}
