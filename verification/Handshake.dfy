/** The HELLO / HELLO_ACK session, one endpoint at a time. */
module Handshake {
  import opened Wrappers

  datatype HandshakeState = New | SendHello | WaitHelloAck | Validating | Established | Rejected | Closed

  function Allowed(s: HandshakeState): set<HandshakeState> {
    match s
    case New => {SendHello, Validating, Rejected}
    case SendHello => {WaitHelloAck, Rejected, Closed}
    case WaitHelloAck => {Established, Rejected, Closed}
    case Validating => {Established, Rejected, Closed}
    case Established => {Closed, Rejected}
    case Rejected => {Closed}
    case Closed => {}
  }

  datatype Hello = Hello(protocolVersion: int, networkId: string, genesisHash: string, features: set<string>)

  datatype Ack = Ack(ok: bool, reason: Option<string>)

  /** An envelope; a payload that does not decode is None. */
  datatype Message = HelloMessage(hello: Option<Hello>) | AckMessage(ack: Option<Ack>) | OtherMessage

  datatype HandshakeContext = HandshakeContext(networkId: string, genesisHash: string, features: set<string>,
                                               protocolVersion: int)

  datatype TransportError = StateError | ValidationError | LimitError | IOError

  const INVALID_HELLO := "invalid HELLO payload"
  const INVALID_ACK := "invalid HELLO_ACK payload"

  /** The reason a HELLO is refused, if it is. */
  function ValidateHello(ctx: HandshakeContext, h: Hello): Option<string> {
    if h.protocolVersion != ctx.protocolVersion then Some("unsupported protocol version")
    else if h.networkId != ctx.networkId then Some("wrong network_id")
    else if h.genesisHash != ctx.genesisHash then Some("wrong genesis_hash")
    else None
  }

  datatype Session = Session(
    state: HandshakeState,
    peer: Option<Hello>,
    capabilities: Option<set<string>>,
    reason: Option<string>)

  const FRESH := Session(New, None, None, None)

  function LocalHello(ctx: HandshakeContext): Hello {
    Hello(ctx.protocolVersion, ctx.networkId, ctx.genesisHash, ctx.features)
  }

  // ---------- what each call makes of a session; Err is an exception, which leaves the session as it was ----------

  function Move(s: Session, to: HandshakeState): Result<Session, TransportError> {
    if to in Allowed(s.state) then Ok(s.(state := to)) else Err(StateError)
  }

  function Refuse(s: Session, reason: string): Result<Session, TransportError> {
    if s.state in {Established, Closed} then Err(StateError) else Ok(s.(state := Rejected, reason := Some(reason)))
  }

  function OnHello(ctx: HandshakeContext, s: Session, m: Message): Result<Session, TransportError> {
    if !m.HelloMessage? then Refuse(s, "expected HELLO")
    else if s.state !in {New, SendHello, WaitHelloAck} then Refuse(s, "unexpected HELLO")
    else if m.hello.None? then Refuse(s, INVALID_HELLO)
    else
      match ValidateHello(ctx, m.hello.value)
      case Some(reason) => Refuse(s, reason)
      case None =>
        var known := s.(peer := m.hello, capabilities := Some(ctx.features * m.hello.value.features));
        match s.state
        case SendHello => Ok(known.(state := WaitHelloAck))
        case New => Ok(known.(state := Validating))
        case _ => Ok(known)
  }

  function OnAck(s: Session, m: Message): Result<Session, TransportError> {
    if !m.AckMessage? then Refuse(s, "expected HELLO_ACK")
    else if s.state != WaitHelloAck then Refuse(s, "unexpected HELLO_ACK")
    else if m.ack.None? then Refuse(s, INVALID_ACK)
    else if !m.ack.value.ok then Refuse(s, match m.ack.value.reason case None => "rejected" case Some(r) => r)
    else Ok(s.(state := Established))
  }

  /** Closing raises from NEW, which the table does not let go straight to CLOSED. */
  function OnClose(s: Session): Result<Session, TransportError> {
    if s.state in {Rejected, Closed} then Ok(s) else Move(s, Closed)
  }

  class HandshakeSession {
    const context: HandshakeContext
    var state: HandshakeState
    var peerInfo: Option<Hello>
    var capabilities: Option<set<string>>
    var rejectReason: Option<string>

    function View(): Session
      reads this
    {
      Session(state, peerInfo, capabilities, rejectReason)
    }

    constructor (context: HandshakeContext)
      ensures this.context == context && View() == FRESH
    {
      this.context := context;
      state, peerInfo, capabilities, rejectReason := New, None, None, None;
    }

    method TransitionTo(to: HandshakeState) returns (r: Result<(), TransportError>)
      modifies this`state
      ensures match Move(old(View()), to)
              case Ok(s) => r == Ok(()) && View() == s
              case Err(e) => r == Err(e) && View() == old(View())
    {
      if to !in Allowed(state) { return Err(StateError); }
      state := to;
      return Ok(());
    }

    method Reject(reason: string) returns (r: Result<(), TransportError>)
      modifies this
      ensures match Refuse(old(View()), reason)
              case Ok(s) => r == Ok(()) && View() == s
              case Err(e) => r == Err(e) && View() == old(View())
    {
      if state in {Established, Closed} { return Err(StateError); }
      rejectReason := Some(reason);
      if state != Rejected {
        r := TransitionTo(Rejected);
      } else {
        r := Ok(());
      }
    }

    method SendLocalHello() returns (r: Result<Message, TransportError>)
      modifies this`state
      ensures old(state) == New
              ==> r == Ok(HelloMessage(Some(LocalHello(context)))) && View() == old(View()).(state := SendHello)
      ensures old(state) != New ==> r == Err(StateError) && View() == old(View())
    {
      if state != New { return Err(StateError); }
      var moved := TransitionTo(SendHello);
      return Ok(HelloMessage(Some(LocalHello(context))));
    }

    method HandleHello(m: Message) returns (r: Result<(), TransportError>)
      modifies this
      ensures match OnHello(context, old(View()), m)
              case Ok(s) => r == Ok(()) && View() == s
              case Err(e) => r == Err(e) && View() == old(View())
    {
      if !m.HelloMessage? {
        r := Reject("expected HELLO");
        return;
      }
      if state !in {New, SendHello, WaitHelloAck} {
        r := Reject("unexpected HELLO");
        return;
      }
      if m.hello.None? {
        r := Reject(INVALID_HELLO);
        return;
      }
      var refusal := ValidateHello(context, m.hello.value);
      if refusal.Some? {
        r := Reject(refusal.value);
        return;
      }
      peerInfo := m.hello;
      capabilities := Some(context.features * m.hello.value.features);
      if state == SendHello {
        r := TransitionTo(WaitHelloAck);
      } else if state == New {
        r := TransitionTo(Validating);
      } else {
        r := Ok(());
      }
    }

    method HandleHelloAck(m: Message) returns (r: Result<(), TransportError>)
      modifies this
      ensures match OnAck(old(View()), m)
              case Ok(s) => r == Ok(()) && View() == s
              case Err(e) => r == Err(e) && View() == old(View())
    {
      if !m.AckMessage? {
        r := Reject("expected HELLO_ACK");
        return;
      }
      if state != WaitHelloAck {
        r := Reject("unexpected HELLO_ACK");
        return;
      }
      if m.ack.None? {
        r := Reject(INVALID_ACK);
        return;
      }
      if !m.ack.value.ok {
        r := Reject(match m.ack.value.reason case None => "rejected" case Some(s) => s);
        return;
      }
      r := TransitionTo(Established);
    }

    method BuildHelloAck(ok: bool, reason: string) returns (r: Result<Message, TransportError>)
      ensures r == if state in {Validating, WaitHelloAck, Rejected} then Ok(AckMessage(Some(Ack(ok, Some(reason)))))
              else Err(StateError)
    {
      if state !in {Validating, WaitHelloAck, Rejected} { return Err(StateError); }
      return Ok(AckMessage(Some(Ack(ok, Some(reason)))));
    }

    method Close() returns (r: Result<(), TransportError>)
      modifies this`state
      ensures match OnClose(old(View()))
              case Ok(s) => r == Ok(()) && View() == s
              case Err(e) => r == Err(e) && View() == old(View())
    {
      if state in {Rejected, Closed} { return Ok(()); }
      r := TransitionTo(Closed);
    }
  }

  // ---------- over any sequence of calls ----------

  datatype Call =
    | SendsHello
    | GetsHello(m: Message)
    | GetsAck(m: Message)
    | Refuses(reason: string)
    | Closes
    | Transitions(to: HandshakeState)

  function After(ctx: HandshakeContext, s: Session, c: Call): Session {
    var r := match c
             case SendsHello => if s.state == New then Move(s, SendHello) else Err(StateError)
             case GetsHello(m) => OnHello(ctx, s, m)
             case GetsAck(m) => OnAck(s, m)
             case Refuses(reason) => Refuse(s, reason)
             case Closes => OnClose(s)
             case Transitions(to) => Move(s, to);
    match r
    case Ok(next) => next
    case Err(_) => s
  }

  function AfterAll(ctx: HandshakeContext, s: Session, calls: seq<Call>): Session
    decreases |calls|
  {
    if calls == [] then s else AfterAll(ctx, After(ctx, s, calls[0]), calls[1..])
  }

  /**
   Whoever is waiting for an answer or established knows a peer of its own network and exactly the shared
   features; a refusal has a reason.
   */
  ghost predicate Sound(ctx: HandshakeContext, s: Session) {
    && (s.state in {WaitHelloAck, Validating, Established} ==> s.peer.Some?)
    && (s.peer.Some? ==>
          && ValidateHello(ctx, s.peer.value) == None
          && s.capabilities == Some(ctx.features * s.peer.value.features))
    && (s.peer.None? ==> s.capabilities == None)
    && (s.state == Rejected ==> s.reason.Some?)
  }

  /** A bare transition into a state whose HELLO, or whose reason, is missing. */
  predicate Unearned(s: Session, c: Call) {
    && c.Transitions? && c.to in Allowed(s.state)
    && ((c.to in {WaitHelloAck, Validating, Established} && s.peer.None?) || (c.to == Rejected && s.reason.None?))
  }

  /** One call keeps a session sound exactly when it is not such a transition. */
  lemma {:induction false} CallKeepsSound(ctx: HandshakeContext, s: Session, c: Call)
    requires Sound(ctx, s)
    ensures Sound(ctx, After(ctx, s, c)) <==> !Unearned(s, c)
  {
  }

  lemma {:induction false} CallFollowsTable(ctx: HandshakeContext, s: Session, c: Call)
    ensures var t := After(ctx, s, c).state;
            && (t == s.state || t in Allowed(s.state))
            && (s.state == Established && t == Rejected ==> c == Transitions(Rejected))
            && (s.state == Rejected && t == Closed ==> c == Transitions(Closed))
            && (s.state == New ==> t !in {WaitHelloAck, Established, Closed})
  {
  }

  lemma {:induction false} AfterOneMore(ctx: HandshakeContext, s: Session, calls: seq<Call>, k: nat)
    requires k < |calls|
    ensures AfterAll(ctx, s, calls[..k + 1]) == After(ctx, AfterAll(ctx, s, calls[..k]), calls[k])
    decreases |calls|
  {
    if k == 0 {
      assert calls[..1][1..] == [];
    } else {
      assert calls[..k + 1][1..] == calls[1..][..k] && calls[..k][1..] == calls[1..][..k - 1];
      AfterOneMore(ctx, After(ctx, s, calls[0]), calls[1..], k - 1);
    }
  }

  ghost predicate SoundAt(ctx: HandshakeContext, s: Session, calls: seq<Call>, k: nat)
    requires k <= |calls|
  {
    Sound(ctx, AfterAll(ctx, s, calls[..k]))
  }

  ghost predicate EarnedAt(ctx: HandshakeContext, s: Session, calls: seq<Call>, k: nat)
    requires k < |calls|
  {
    !Unearned(AfterAll(ctx, s, calls[..k]), calls[k])
  }

  /**
   Over any calls in any order, bare transitions included: a sound session stays sound throughout exactly
   when every transition is earned.
   */
  lemma {:induction false} SoundThroughoutExactlyWhen(ctx: HandshakeContext, s: Session, calls: seq<Call>)
    requires Sound(ctx, s)
    ensures (forall k :: 0 <= k <= |calls| ==> SoundAt(ctx, s, calls, k))
            <==> (forall k :: 0 <= k < |calls| ==> EarnedAt(ctx, s, calls, k))
  {
    if forall k :: 0 <= k <= |calls| ==> SoundAt(ctx, s, calls, k) {
      forall k | 0 <= k < |calls| ensures EarnedAt(ctx, s, calls, k) {
        assert SoundAt(ctx, s, calls, k) && SoundAt(ctx, s, calls, k + 1);
        AfterOneMore(ctx, s, calls, k);
        CallKeepsSound(ctx, AfterAll(ctx, s, calls[..k]), calls[k]);
      }
    }
    if forall k :: 0 <= k < |calls| ==> EarnedAt(ctx, s, calls, k) {
      forall k | 0 <= k <= |calls| ensures SoundAt(ctx, s, calls, k) {
        EarnedStaysSound(ctx, s, calls, k);
      }
    }
  }

  lemma {:induction false} EarnedStaysSound(ctx: HandshakeContext, s: Session, calls: seq<Call>, k: nat)
    requires Sound(ctx, s) && k <= |calls| && forall i :: 0 <= i < |calls| ==> EarnedAt(ctx, s, calls, i)
    ensures SoundAt(ctx, s, calls, k)
  {
    if k > 0 {
      EarnedStaysSound(ctx, s, calls, k - 1);
      assert SoundAt(ctx, s, calls, k - 1) && EarnedAt(ctx, s, calls, k - 1);
      AfterOneMore(ctx, s, calls, k - 1);
      CallKeepsSound(ctx, AfterAll(ctx, s, calls[..k - 1]), calls[k - 1]);
    }
  }

  function Rank(s: HandshakeState): nat {
    match s
    case New => 0
    case SendHello => 1
    case WaitHelloAck => 2
    case Validating => 2
    case Established => 3
    case Rejected => 4
    case Closed => 5
  }

  /**
   No session goes back, whatever is called. A closed one stays closed; a rejected one can only be
   closed, and an established one only be rejected instead of closed, by a bare transition.
   */
  lemma {:induction false} SessionsOnlyAdvance(ctx: HandshakeContext, s: Session, calls: seq<Call>)
    ensures var t := AfterAll(ctx, s, calls).state;
            && (t == s.state || Rank(s.state) < Rank(t))
            && (s.state == Closed ==> t == Closed)
            && (s.state == Rejected ==> t == Rejected || (t == Closed && Transitions(Closed) in calls))
            && (s.state == Established
                ==> t in {Established, Closed} || (t == Rejected && Transitions(Rejected) in calls))
    decreases |calls|
  {
    if calls != [] {
      var c, rest := calls[0], calls[1..];
      var next := After(ctx, s, c);
      CallFollowsTable(ctx, s, c);
      SessionsOnlyAdvance(ctx, next, rest);
      assert forall x :: x in rest ==> x in calls;
      assert c in calls;
    }
  }

  // ---------- what a message does, case by case ----------

  /** A HELLO of this protocol version, network and genesis. */
  predicate Agrees(ctx: HandshakeContext, h: Hello) {
    h.protocolVersion == ctx.protocolVersion && h.networkId == ctx.networkId && h.genesisHash == ctx.genesisHash
  }

  predicate ExpectsHello(s: HandshakeState) {
    s == New || s == SendHello || s == WaitHelloAck
  }

  predicate WelcomeHello(ctx: HandshakeContext, s: Session, m: Message) {
    m.HelloMessage? && m.hello.Some? && ExpectsHello(s.state) && Agrees(ctx, m.hello.value)
  }

  /** A HELLO that is not welcome, by the first thing wrong with it. */
  predicate HelloReason(ctx: HandshakeContext, s: Session, m: Message, reason: string) {
    && (reason == "expected HELLO" <==> !m.HelloMessage?)
    && (m.HelloMessage? ==>
          && (reason == "unexpected HELLO" <==> !ExpectsHello(s.state))
          && (ExpectsHello(s.state) && m.hello.None? ==> reason == "invalid HELLO payload")
          && (ExpectsHello(s.state) && m.hello.Some? ==>
                var h := m.hello.value;
                && (reason == "unsupported protocol version" <==> h.protocolVersion != ctx.protocolVersion)
                && (reason == "wrong network_id"
                    <==> h.protocolVersion == ctx.protocolVersion && h.networkId != ctx.networkId)
                && (reason == "wrong genesis_hash"
                    <==> h.protocolVersion == ctx.protocolVersion && h.networkId == ctx.networkId)))
  }

  /** A feature is shared exactly when both sides have it. */
  predicate SharedFeatures(ours: set<string>, theirs: set<string>, shared: set<string>) {
    && (forall f :: f in shared ==> f in ours && f in theirs)
    && (forall f :: f in ours ==> f in theirs ==> f in shared)
  }

  /**
   A welcome HELLO teaches the session its peer and the shared features and moves it on from NEW and
   SEND_HELLO; any other message raises once the session is established or closed, and else rejects it.
   */
  lemma {:induction false} HelloExactly(ctx: HandshakeContext, s: Session, m: Message)
    ensures var r := OnHello(ctx, s, m);
            if WelcomeHello(ctx, s, m) then
              && r.Ok? && r.value.peer == m.hello && r.value.reason == s.reason
              && r.value.capabilities.Some?
              && SharedFeatures(ctx.features, m.hello.value.features, r.value.capabilities.value)
              && r.value.state == (if s.state == New then Validating else WaitHelloAck)
            else if s.state == Established || s.state == Closed then r == Err(StateError)
            else
              && r.Ok? && r.value.reason.Some? && HelloReason(ctx, s, m, r.value.reason.value)
              && r.value == Session(Rejected, s.peer, s.capabilities, r.value.reason)
  {
  }

  /** A positive HELLO_ACK establishes the session, in WAIT_HELLO_ACK only. */
  lemma {:induction false} AckExactly(s: Session, m: Message)
    ensures var r := OnAck(s, m);
            if m.AckMessage? && m.ack.Some? && m.ack.value.ok && s.state == WaitHelloAck then
              r == Ok(s.(state := Established))
            else if s.state == Established || s.state == Closed then r == Err(StateError)
            else
              && r.Ok? && r.value.reason.Some?
              && r.value == Session(Rejected, s.peer, s.capabilities, r.value.reason)
              && (m.AckMessage? && m.ack.Some? && s.state == WaitHelloAck
                  ==> r.value.reason.value == match m.ack.value.reason case None => "rejected" case Some(x) => x)
  {
  }

  /** The table lets a session move up only, never past the exchange it is in, and close from anywhere but NEW. */
  lemma {:induction false} TableExactly(from: HandshakeState, to: HandshakeState)
    ensures to in Allowed(from)
            <==> && Rank(from) < Rank(to)
                 && (to == Established ==> Rank(from) == 2)
                 && (to == WaitHelloAck ==> from == SendHello)
                 && (to == Validating ==> from == New)
                 && (to == Closed ==> from != New)
  {
  }
}
