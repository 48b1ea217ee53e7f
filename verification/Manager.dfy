/** The connection manager: capacity, bans, and the two handshake roles it drives. */
module Manager {
  import opened Wrappers
  import opened Handshake

  const BAN_AFTER := 3

  /**
   What the transport does during one attempt: whether sends get through, and what the receives yield (None:
   they raise).
   */
  datatype Wire = Wire(helloSent: bool, first: Option<Message>, ackSent: bool, second: Option<Message>)

  datatype Outcome = Agreed(session: Session) | Refused | Failed | Stuck

  datatype Books = Books(connections: map<string, Session>, rejects: map<string, nat>, banned: set<string>)

  const EMPTY := Books(map[], map[], {})

  // ---------- one attempt ----------

  function Stopped(b: Books, id: string, key: string, max: nat): Option<TransportError> {
    if key in b.banned then Some(LimitError)
    else if |b.connections| >= max then Some(LimitError)
    else if id in b.connections then Some(StateError)
    else None
  }

  function AcceptOutcome(ctx: HandshakeContext, w: Wire): Outcome {
    if !w.helloSent || w.first.None? then Failed
    else
      match OnHello(ctx, FRESH.(state := SendHello), w.first.value)
      case Err(_) => Failed
      case Ok(s) =>
        if s.state == Rejected then Refused
        else if !w.ackSent || w.second.None? then Failed
        else
          match OnAck(s, w.second.value)
          case Err(_) => Failed
          case Ok(t) => if t.state == Rejected then Refused else Agreed(t)
  }

  /**
   A receive that raises before any HELLO leaves the session in NEW, whose close raises too: the entry is
   never removed.
   */
  function InboundOutcome(ctx: HandshakeContext, w: Wire): Outcome {
    if w.first.None? then Stuck
    else
      match OnHello(ctx, FRESH, w.first.value)
      case Err(_) => Failed
      case Ok(s) =>
        if s.state == Rejected then Refused
        else if !w.ackSent then Failed
        else Agreed(s.(state := Established))
  }

  function CountReject(b: Books, key: string): Books {
    var n := (if key in b.rejects then b.rejects[key] else 0) + 1;
    b.(rejects := b.rejects[key := n], banned := if n >= BAN_AFTER then b.banned + {key} else b.banned)
  }

  function Entered(b: Books, id: string, key: string, outcome: Outcome): Books {
    match outcome
    case Agreed(s) => b.(connections := b.connections[id := s])
    case Refused => CountReject(b, key)
    case Failed => b
    case Stuck => b.(connections := b.connections[id := FRESH])
  }

  function Reported(outcome: Outcome): Result<Session, TransportError> {
    match outcome
    case Agreed(s) => Ok(s)
    case Refused => Err(ValidationError)
    case _ => Err(IOError)
  }

  lemma {:induction false} PutAndTakenOut(m: map<string, Session>, id: string, s: Session)
    requires id !in m
    ensures m[id := s] - {id} == m
  {
  }

  // ---------- the manager object ----------

  class ConnectionManager {
    const context: HandshakeContext
    const maxConnections: nat
    var connections: map<string, Session>
    var rejectCounts: map<string, nat>
    var bannedPeers: set<string>

    function View(): Books
      reads this
    {
      Books(connections, rejectCounts, bannedPeers)
    }

    constructor (context: HandshakeContext, maxConnections: nat)
      ensures this.context == context && this.maxConnections == maxConnections && View() == EMPTY
    {
      this.context, this.maxConnections := context, maxConnections;
      connections, rejectCounts, bannedPeers := map[], map[], {};
    }

    method Prepare(id: string, key: string) returns (r: Result<HandshakeSession, TransportError>)
      modifies this`connections
      ensures match Stopped(old(View()), id, key, maxConnections)
              case Some(e) => r == Err(e) && View() == old(View())
              case None => r.Ok? && fresh(r.value) && r.value.context == context && r.value.View() == FRESH
                           && View() == old(View()).(connections := old(connections)[id := FRESH])
    {
      if key in bannedPeers { return Err(LimitError); }
      if |connections| >= maxConnections { return Err(LimitError); }
      if id in connections { return Err(StateError); }
      var session := new HandshakeSession(context);
      connections := connections[id := session.View()];
      return Ok(session);
    }

    method RecordReject(key: string)
      modifies this`rejectCounts, this`bannedPeers
      ensures View() == CountReject(old(View()), key)
    {
      var n := (if key in rejectCounts then rejectCounts[key] else 0) + 1;
      rejectCounts := rejectCounts[key := n];
      if n >= BAN_AFTER {
        bannedPeers := bannedPeers + {key};
      }
    }

    /** Outbound: HELLO both ways, then HELLO_ACK both ways. Whatever fails, the entry is taken out again. */
    method Accept(id: string, key: string, w: Wire) returns (r: Result<Session, TransportError>)
      modifies this
      ensures match Stopped(old(View()), id, key, maxConnections)
              case Some(e) => r == Err(e) && View() == old(View())
              case None => var outcome := AcceptOutcome(context, w);
                           r == Reported(outcome) && View() == Entered(old(View()), id, key, outcome)
    {
      var prepared := Prepare(id, key);
      if prepared.Err? { return Err(prepared.error); }
      PutAndTakenOut(old(connections), id, FRESH);
      var outcome := DriveAccept(prepared.value, key, w);
      Settle(prepared.value, id, outcome);
      return Reported(outcome);
    }

    method DriveAccept(session: HandshakeSession, key: string, w: Wire) returns (outcome: Outcome)
      requires session.context == context && session.View() == FRESH
      modifies session, this`rejectCounts, this`bannedPeers
      ensures outcome == AcceptOutcome(context, w)
      ensures View() == if outcome.Refused? then CountReject(old(View()), key) else old(View())
      ensures session.state != New
    {
      var hello := session.SendLocalHello();
      if !w.helloSent || w.first.None? { return Failed; }
      var handled := session.HandleHello(w.first.value);
      if session.state == Rejected {
        RecordReject(key);
        return Refused;
      }
      var ack := session.BuildHelloAck(true, "");
      if !w.ackSent || w.second.None? { return Failed; }
      handled := session.HandleHelloAck(w.second.value);
      if session.state == Rejected {
        RecordReject(key);
        return Refused;
      }
      return Agreed(session.View());
    }

    /**
     The clean-up both roles end with: an entry that is not established is closed and taken out, unless
     closing raises.
     */
    method Settle(session: HandshakeSession, id: string, outcome: Outcome)
      modifies session, this`connections
      ensures connections == if outcome.Agreed? then old(connections)[id := outcome.session]
                             else if old(session.state) == New then old(connections) else old(connections) - {id}
    {
      if outcome.Agreed? {
        connections := connections[id := outcome.session];
        return;
      }
      var closed := session.Close();
      if closed.Ok? {
        connections := connections - {id};
      }
    }

    /** Inbound: the peer's HELLO first, then our HELLO_ACK. */
    method RegisterInbound(id: string, key: string, w: Wire) returns (r: Result<Session, TransportError>)
      modifies this
      ensures match Stopped(old(View()), id, key, maxConnections)
              case Some(e) => r == Err(e) && View() == old(View())
              case None => var outcome := InboundOutcome(context, w);
                           r == Reported(outcome) && View() == Entered(old(View()), id, key, outcome)
    {
      var prepared := Prepare(id, key);
      if prepared.Err? { return Err(prepared.error); }
      PutAndTakenOut(old(connections), id, FRESH);
      var outcome := DriveInbound(prepared.value, key, w);
      Settle(prepared.value, id, outcome);
      r := Reported(outcome);
    }

    method DriveInbound(session: HandshakeSession, key: string, w: Wire) returns (outcome: Outcome)
      requires session.context == context && session.View() == FRESH
      modifies session, this`rejectCounts, this`bannedPeers
      ensures outcome == InboundOutcome(context, w)
      ensures View() == if outcome.Refused? then CountReject(old(View()), key) else old(View())
      ensures session.state == New <==> outcome.Stuck?
    {
      if w.first.None? { return Stuck; }
      var handled := session.HandleHello(w.first.value);
      if session.state == Rejected {
        RecordReject(key);
        return Refused;
      }
      var ack := session.BuildHelloAck(true, "");
      if !w.ackSent { return Failed; }
      var moved := session.TransitionTo(Established);
      return Agreed(session.View());
    }

    /** The entry goes first, then the session is closed. */
    method Remove(id: string)
      modifies this`connections
      ensures View() == old(View()).(connections := old(connections) - {id})
    {
      connections := connections - {id};
    }
  }

  // ---------- what an attempt can come to ----------

  /**
   An outbound attempt succeeds exactly when a compatible HELLO and a positive HELLO_ACK arrive and both
   sends get through.
   */
  lemma {:induction false} AcceptSucceedsWhen(ctx: HandshakeContext, w: Wire)
    ensures AcceptOutcome(ctx, w).Agreed?
            <==> && w.helloSent && w.ackSent
                 && w.first.Some? && w.first.value.HelloMessage? && w.first.value.hello.Some?
                 && ValidateHello(ctx, w.first.value.hello.value) == None
                 && w.second.Some? && w.second.value.AckMessage? && w.second.value.ack.Some?
                    && w.second.value.ack.value.ok
    ensures AcceptOutcome(ctx, w).Agreed?
            ==> var s := AcceptOutcome(ctx, w).session;
                s.state == Established && s.capabilities == Some(ctx.features * w.first.value.hello.value.features)
    ensures !AcceptOutcome(ctx, w).Stuck?
  {
  }

  /** A HELLO that decodes, of the same protocol version, network and genesis. */
  predicate GoodHello(ctx: HandshakeContext, m: Message) {
    && m.HelloMessage? && m.hello.Some?
    && m.hello.value.protocolVersion == ctx.protocolVersion
    && m.hello.value.networkId == ctx.networkId && m.hello.value.genesisHash == ctx.genesisHash
  }

  predicate GoodAck(m: Message) {
    m.AckMessage? && m.ack.Some? && m.ack.value.ok
  }

  /**
   What either kind of attempt comes to, message by message: refused on a bad HELLO or HELLO_ACK, failed where
   the transport fails first, stuck where an inbound one never got a HELLO, and agreed otherwise.
   */
  lemma {:induction false} OutcomesExactlyWhen(ctx: HandshakeContext, w: Wire)
    ensures AcceptOutcome(ctx, w).Refused?
            <==> && w.helloSent && w.first.Some?
                 && (!GoodHello(ctx, w.first.value) || (w.ackSent && w.second.Some? && !GoodAck(w.second.value)))
    ensures AcceptOutcome(ctx, w).Failed?
            <==> || !w.helloSent || w.first.None?
                 || (GoodHello(ctx, w.first.value) && (!w.ackSent || w.second.None?))
    ensures InboundOutcome(ctx, w).Refused? <==> w.first.Some? && !GoodHello(ctx, w.first.value)
    ensures InboundOutcome(ctx, w).Failed? <==> w.first.Some? && GoodHello(ctx, w.first.value) && !w.ackSent
    ensures InboundOutcome(ctx, w).Stuck? <==> w.first.None?
    ensures InboundOutcome(ctx, w).Agreed?
            ==> var s := InboundOutcome(ctx, w).session;
                && s.state == Established && s.peer == w.first.value.hello
                && s.capabilities == Some(ctx.features * w.first.value.hello.value.features)
  {
  }

  /** An attempt goes ahead exactly when the peer is not banned, a slot is free and the id is not taken. */
  lemma {:induction false} GoesAheadExactlyWhen(b: Books, id: string, key: string, max: nat)
    ensures Stopped(b, id, key, max) == None <==> key !in b.banned && |b.connections| < max && id !in b.connections
    ensures Stopped(b, id, key, max) == Some(LimitError) <==> key in b.banned || |b.connections| >= max
  {
  }

  // ---------- any sequence of attempts ----------

  datatype Attempt =
    | Accepting(id: string, key: string, w: Wire)
    | Inbound(id: string, key: string, w: Wire)
    | Removing(id: string)

  function After(ctx: HandshakeContext, max: nat, b: Books, a: Attempt): Books {
    match a
    case Accepting(id, key, w) =>
      if Stopped(b, id, key, max).Some? then b else Entered(b, id, key, AcceptOutcome(ctx, w))
    case Inbound(id, key, w) =>
      if Stopped(b, id, key, max).Some? then b else Entered(b, id, key, InboundOutcome(ctx, w))
    case Removing(id) => b.(connections := b.connections - {id})
  }

  function AfterAll(ctx: HandshakeContext, max: nat, b: Books, attempts: seq<Attempt>): Books
    decreases |attempts|
  {
    if attempts == [] then b else AfterAll(ctx, max, After(ctx, max, b, attempts[0]), attempts[1..])
  }

  /** Never over capacity; every entry is established with a sound session, or still waits for its HELLO. */
  ghost predicate SlotsInOrder(ctx: HandshakeContext, max: nat, connections: map<string, Session>) {
    && |connections| <= max
    && forall id ::
         id in connections
         ==> connections[id] == FRESH || (connections[id].state == Established && Sound(ctx, connections[id]))
  }

  /** Banned means three refusals, and there are never more. */
  ghost predicate BansInOrder(rejects: map<string, nat>, banned: set<string>) {
    && (forall key :: key in rejects ==> rejects[key] <= BAN_AFTER)
    && (forall key :: key in banned <==> key in rejects && rejects[key] == BAN_AFTER)
  }

  ghost predicate InOrder(ctx: HandshakeContext, max: nat, b: Books) {
    SlotsInOrder(ctx, max, b.connections) && BansInOrder(b.rejects, b.banned)
  }

  lemma {:induction false} AgreedIsSound(ctx: HandshakeContext, w: Wire)
    ensures AcceptOutcome(ctx, w).Agreed?
            ==> AcceptOutcome(ctx, w).session.state == Established && Sound(ctx, AcceptOutcome(ctx, w).session)
    ensures InboundOutcome(ctx, w).Agreed?
            ==> InboundOutcome(ctx, w).session.state == Established && Sound(ctx, InboundOutcome(ctx, w).session)
  {
  }

  lemma {:induction false} NewSlot(ctx: HandshakeContext, max: nat, connections: map<string, Session>, id: string,
                                   s: Session)
    requires SlotsInOrder(ctx, max, connections) && |connections| < max && id !in connections
    requires s == FRESH || (s.state == Established && Sound(ctx, s))
    ensures SlotsInOrder(ctx, max, connections[id := s])
  {
  }

  lemma {:induction false} EnteredKeepsOrder(ctx: HandshakeContext, max: nat, b: Books, id: string, key: string,
                                             outcome: Outcome)
    requires InOrder(ctx, max, b) && Stopped(b, id, key, max).None?
    requires outcome.Agreed? ==> outcome.session.state == Established && Sound(ctx, outcome.session)
    ensures InOrder(ctx, max, Entered(b, id, key, outcome))
  {
    match outcome
    case Agreed(s) => NewSlot(ctx, max, b.connections, id, s);
    case Stuck => NewSlot(ctx, max, b.connections, id, FRESH);
    case _ =>
  }

  lemma {:induction false} RemovalShrinks(m: map<string, Session>, id: string)
    ensures |m - {id}| <= |m|
  {
    assert (m - {id}).Keys <= m.Keys;
    SubsetSize((m - {id}).Keys, m.Keys);
  }

  lemma {:induction false} SubsetSize(a: set<string>, b: set<string>)
    requires a <= b
    ensures |a| <= |b|
    decreases |a|
  {
    if a != {} {
      var x :| x in a;
      SubsetSize(a - {x}, b - {x});
    }
  }

  /** Over any sequence of attempts the books stay in order, and a ban is never lifted. */
  lemma {:induction false} BooksStayInOrder(ctx: HandshakeContext, max: nat, b: Books, attempts: seq<Attempt>)
    requires InOrder(ctx, max, b)
    ensures InOrder(ctx, max, AfterAll(ctx, max, b, attempts))
    ensures b.banned <= AfterAll(ctx, max, b, attempts).banned
    decreases |attempts|
  {
    if attempts != [] {
      AttemptKeepsOrder(ctx, max, b, attempts[0]);
      BooksStayInOrder(ctx, max, After(ctx, max, b, attempts[0]), attempts[1..]);
    }
  }

  lemma {:induction false} AttemptKeepsOrder(ctx: HandshakeContext, max: nat, b: Books, a: Attempt)
    requires InOrder(ctx, max, b)
    ensures InOrder(ctx, max, After(ctx, max, b, a)) && b.banned <= After(ctx, max, b, a).banned
  {
    match a
    case Accepting(id, key, w) =>
      AgreedIsSound(ctx, w);
      if Stopped(b, id, key, max).None? {
        EnteredKeepsOrder(ctx, max, b, id, key, AcceptOutcome(ctx, w));
      }
    case Inbound(id, key, w) =>
      AgreedIsSound(ctx, w);
      if Stopped(b, id, key, max).None? {
        EnteredKeepsOrder(ctx, max, b, id, key, InboundOutcome(ctx, w));
      }
    case Removing(id) =>
      RemovalKeepsOrder(ctx, max, b, id);
  }

  lemma {:induction false} RemovalKeepsOrder(ctx: HandshakeContext, max: nat, b: Books, id: string)
    requires InOrder(ctx, max, b)
    ensures InOrder(ctx, max, b.(connections := b.connections - {id}))
  {
    RemovalShrinks(b.connections, id);
  }

  /** An entry of an inbound attempt that got no HELLO stays, and keeps its id taken, until it is removed. */
  lemma {:induction false} EntriesStayUntilRemoved(ctx: HandshakeContext, max: nat, b: Books, id: string,
                                                   attempts: seq<Attempt>)
    requires id in b.connections && forall i :: 0 <= i < |attempts| ==> attempts[i] != Removing(id)
    ensures var after := AfterAll(ctx, max, b, attempts);
            id in after.connections && after.connections[id] == b.connections[id]
    decreases |attempts|
  {
    if attempts != [] {
      assert attempts[0] != Removing(id);
      EntriesStayUntilRemoved(ctx, max, After(ctx, max, b, attempts[0]), id, attempts[1..]);
    }
  }

  // ---------- bans ----------

  /** The attempt went ahead with this peer and ended in a refusal. */
  predicate RefusedNow(ctx: HandshakeContext, max: nat, b: Books, a: Attempt, key: string) {
    && !a.Removing? && a.key == key
    && key !in b.banned && |b.connections| < max && a.id !in b.connections
    && (if a.Accepting? then AcceptOutcome(ctx, a.w).Refused? else InboundOutcome(ctx, a.w).Refused?)
  }

  function Refusals(ctx: HandshakeContext, max: nat, b: Books, attempts: seq<Attempt>, key: string): nat
    decreases |attempts|
  {
    if attempts == [] then 0
    else
      (if RefusedNow(ctx, max, b, attempts[0], key) then 1 else 0)
        + Refusals(ctx, max, After(ctx, max, b, attempts[0]), attempts[1..], key)
  }

  function Counted(b: Books, key: string): nat {
    if key in b.rejects then b.rejects[key] else 0
  }

  lemma {:induction false} OneAttemptCounts(ctx: HandshakeContext, max: nat, b: Books, a: Attempt, key: string)
    ensures Counted(After(ctx, max, b, a), key) == Counted(b, key) + if RefusedNow(ctx, max, b, a, key) then 1 else 0
  {
    if !a.Removing? {
      GoesAheadExactlyWhen(b, a.id, a.key, max);
    }
  }

  lemma {:induction false} AttemptsCount(ctx: HandshakeContext, max: nat, b: Books, attempts: seq<Attempt>, key: string)
    ensures Counted(AfterAll(ctx, max, b, attempts), key) == Counted(b, key) + Refusals(ctx, max, b, attempts, key)
    decreases |attempts|
  {
    if attempts != [] {
      OneAttemptCounts(ctx, max, b, attempts[0], key);
      AttemptsCount(ctx, max, After(ctx, max, b, attempts[0]), attempts[1..], key);
    }
  }

  /**
   Over any attempts with a new manager a peer is banned exactly once it was refused three times, and never
   a fourth time.
   */
  lemma {:induction false} BannedExactlyAfterThree(ctx: HandshakeContext, max: nat, attempts: seq<Attempt>, key: string)
    ensures key in AfterAll(ctx, max, EMPTY, attempts).banned <==> Refusals(ctx, max, EMPTY, attempts, key) == 3
    ensures Refusals(ctx, max, EMPTY, attempts, key) <= 3
  {
    BooksStayInOrder(ctx, max, EMPTY, attempts);
    AttemptsCount(ctx, max, EMPTY, attempts, key);
  }
}
