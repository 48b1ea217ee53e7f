/**
 The historical key lookup against history. The truth about a height is the state after the block
 at that height; the lookup is asked of any later state, which has forgotten some records since.
 */
module RegistryLookup {
  import opened Wrappers
  import opened Bytes
  import opened Types
  import opened Governance
  import opened Registry
  import opened RegistryHistory
  import opened RegistryEffects
  import opened Blocks
  import opened Chain

  // ---------- one later transaction ----------

  /** The curator's record that is not the latest. */
  function Former(m: seq<Record>): Record
    requires |m| == 2
  {
    if Latest(m) == m[0] then m[1] else m[0]
  }

  /**
   A later transaction of the same curator changes what is answered about (key, x) when the latest
   record does not vouch for the key and either it rotates that very key out, from then on vouching for
   it, with no other record vouching yet; or it does not, and drops the other record, which did.
   */
  predicate ChangesLookup(s: State, tx: GovernanceTx, key: bytes, x: nat) {
    var m := Matches(s, tx.curatorId);
    && !tx.action.Register? && m != []
    && var retires := tx.action.Rotate? && key == Latest(m).publicKey;
       && !Vouches(Latest(m), key, x)
       && (retires <==> !(|m| == 2 && Vouches(Former(m), key, x)))
  }

  lemma {:induction false} AnswerOfOne(s: State, id: bytes, a: Record, key: bytes, x: nat)
    requires Matches(s, id) == [a]
    ensures KeyWasValidAt(s, id, key, x) <==> Vouches(a, key, x)
  {
    assert a in [a];
  }

  lemma {:induction false} AnswerOfTwo(s: State, id: bytes, a: Record, b: Record, key: bytes, x: nat)
    requires Matches(s, id) == [a, b]
    ensures KeyWasValidAt(s, id, key, x) <==> Vouches(a, key, x) || Vouches(b, key, x)
  {
    assert a in [a, b] && b in [a, b];
  }

  /** What is answered before: what the curator's records vouch for. */
  lemma {:induction false} AnswerBefore(s: State, id: bytes, key: bytes, x: nat)
    requires WellFormed(s)
    ensures var m := Matches(s, id);
            KeyWasValidAt(s, id, key, x)
            <==> m != [] && (Vouches(Latest(m), key, x) || (|m| == 2 && Vouches(Former(m), key, x)))
  {
    var m := Matches(s, id);
    assert Shape(m);
    if |m| == 1 {
      AnswerOfOne(s, id, m[0], key, x);
      assert m == [m[0]];
    } else if |m| == 2 {
      assert m == [m[0], m[1]] && Latest(m) in {m[0], m[1]};
      AnswerOfTwo(s, id, m[0], m[1], key, x);
    }
  }

  lemma {:induction false} EndedSays(c: Record, until: nat, txid: Hash, key: bytes, x: nat)
    requires x < until
    ensures Vouches(c.(revocation := Some(until), latestRotationTxid := Some(txid)), key, x)
            <==> (c.publicKey == key && c.activation <= x) || (c.previousKey == Some(key) && x < c.activation)
  {
  }

  lemma {:induction false} PendingSays(r: Record, key: bytes, x: nat)
    requires x < r.activation
    ensures Vouches(r, key, x) <==> r.previousKey == Some(key)
  {
  }

  /**
   What is answered afterwards about a height up to the block: the latest record's word, and for the key a
   rotation retires, always yes.
   */
  lemma {:induction false} AnswerAfter(s: State, tx: GovernanceTx, height: nat, t: State, key: bytes, x: nat)
    requires Effect(s, tx, height, t) && x <= height
    ensures KeyWasValidAt(t, tx.curatorId, key, x)
            <==> AnswersLater(Matches(s, tx.curatorId), tx.action.Rotate?, key, x)
  {
    EffectOnMatches(s, tx, height, t, tx.curatorId);
    var n := NewRecords(s, tx);
    match tx.action
    case Register(_, _) =>
      AnswerOfOne(t, tx.curatorId, n[0], key, x);
      PendingSays(n[0], key, x);
    case Rotate(_, activation, _, _) =>
      AnswerOfTwo(t, tx.curatorId, n[0], n[1], key, x);
      EndedSays(Latest(Matches(s, tx.curatorId)), activation, TxidOf(tx), key, x);
      PendingSays(n[1], key, x);
    case Revoke(revocation, _, _) =>
      AnswerOfOne(t, tx.curatorId, n[0], key, x);
      EndedSays(Latest(Matches(s, tx.curatorId)), revocation, TxidOf(tx), key, x);
  }

  predicate AnswersLater(m: seq<Record>, rotated: bool, key: bytes, x: nat) {
    && m != []
    && var c := Latest(m);
       || (c.publicKey == key && (c.activation <= x || rotated))
       || (c.previousKey == Some(key) && x < c.activation)
  }

  /**
   An accepted transaction at or above height x changes the answer about x exactly in those two ways, and
   only for its own curator.
   */
  lemma {:induction false} AnswerChangesExactlyWhen(s: State, tx: GovernanceTx, height: nat, t: State, id: bytes,
                                                    key: bytes, x: nat)
    requires WellFormed(s) && Effect(s, tx, height, t) && x <= height
    ensures (KeyWasValidAt(t, id, key, x) <==> KeyWasValidAt(s, id, key, x))
            <==> !(id == tx.curatorId && ChangesLookup(s, tx, key, x))
  {
    if id != tx.curatorId {
      EffectOnMatches(s, tx, height, t, id);
    } else {
      AnswerBefore(s, id, key, x);
      AnswerAfter(s, tx, height, t, key, x);
      assert Shape(Matches(s, id));
    }
  }

  // ---------- a later run ----------

  /** The states a run passes through, from the state after height x on, by transactions of later blocks. */
  ghost predicate Trace(ctx: Context, states: seq<State>, later: seq<Step>, x: nat) {
    Stepwise(ctx, states, later, x) && WellFormed(states[0])
  }

  ghost predicate Stepwise(ctx: Context, states: seq<State>, later: seq<Step>, x: nat) {
    && |states| == |later| + 1
    && forall k :: 0 <= k < |later| ==> LaterStep(ctx, states, later, k, x)
  }

  ghost predicate LaterStep(ctx: Context, states: seq<State>, later: seq<Step>, k: nat, x: nat)
    requires k < |later| && |states| == |later| + 1
  {
    later[k].height > x && Apply(ctx, states[k], later[k].tx, later[k].height) == Ok(states[k + 1])
  }

  lemma {:induction false} StatesOf(ctx: Context, past: State, later: seq<Step>, x: nat) returns (states: seq<State>)
    requires Run(ctx, past, later).Ok? && forall k :: 0 <= k < |later| ==> later[k].height > x
    ensures Stepwise(ctx, states, later, x) && states[0] == past && states[|later|] == Run(ctx, past, later).value
    decreases |later|
  {
    if later == [] {
      states := [past];
    } else {
      var next := Apply(ctx, past, later[0].tx, later[0].height).value;
      var others := StatesOf(ctx, next, later[1..], x);
      OneStateMore(ctx, past, later[0], others, later[1..], x);
      assert later == [later[0]] + later[1..];
      states := [past] + others;
    }
  }

  lemma {:induction false} OneStateMore(ctx: Context, past: State, step: Step, others: seq<State>, rest: seq<Step>,
                                        x: nat)
    requires step.height > x && Stepwise(ctx, others, rest, x)
    requires Apply(ctx, past, step.tx, step.height) == Ok(others[0])
    ensures Stepwise(ctx, [past] + others, [step] + rest, x)
  {
    var states, later := [past] + others, [step] + rest;
    forall k | 0 <= k < |later| ensures LaterStep(ctx, states, later, k, x) {
      if k > 0 {
        assert LaterStep(ctx, others, rest, k - 1, x);
      }
    }
  }

  lemma {:induction false} TraceIsWellFormed(ctx: Context, states: seq<State>, later: seq<Step>, x: nat, k: nat)
    requires Trace(ctx, states, later, x) && k <= |later|
    ensures WellFormed(states[k])
  {
    if k > 0 {
      TraceIsWellFormed(ctx, states, later, x, k - 1);
      assert LaterStep(ctx, states, later, k - 1, x);
      ApplyKeepsWellFormed(ctx, states[k - 1], later[k - 1].tx, later[k - 1].height);
    }
  }

  /** The lookup asked of a later state says what was in force at x in the state after x. */
  ghost predicate RightIn(past: State, now: State, id: bytes, key: bytes, x: nat) {
    KeyWasValidAt(now, id, key, x) <==> KeyInForce(past, id, key, x)
  }

  predicate TurnsAt(s: State, tx: GovernanceTx, id: bytes, key: bytes, x: nat) {
    tx.curatorId == id && ChangesLookup(s, tx, key, x)
  }

  /** From one state to the next the answer stays right, or wrong, exactly when the step does not turn it. */
  lemma {:induction false} RightnessStep(ctx: Context, states: seq<State>, later: seq<Step>, k: nat, id: bytes,
                                         key: bytes, x: nat)
    requires Trace(ctx, states, later, x) && k < |later|
    ensures RightIn(states[0], states[k + 1], id, key, x)
            <==> (RightIn(states[0], states[k], id, key, x) <==> !TurnsAt(states[k], later[k].tx, id, key, x))
  {
    TraceIsWellFormed(ctx, states, later, x, k);
    assert LaterStep(ctx, states, later, k, x);
    AppliedHasEffect(ctx, states[k], later[k].tx, later[k].height);
    AnswerChangesExactlyWhen(states[k], later[k].tx, later[k].height, states[k + 1], id, key, x);
  }

  // Answers that turn now and then, step by step.

  function Parity(b: bool): nat { if b then 1 else 0 }

  function Turns(turned: seq<bool>): nat {
    if turned == [] then 0 else Turns(turned[..|turned| - 1]) + Parity(turned[|turned| - 1])
  }

  ghost predicate Alternates(right: seq<bool>, turned: seq<bool>) {
    |right| == |turned| + 1 && forall k :: 0 <= k < |turned| ==> (right[k + 1] <==> (right[k] <==> !turned[k]))
  }

  lemma {:induction false} TurnsDecide(right: seq<bool>, turned: seq<bool>)
    requires Alternates(right, turned)
    ensures right[|turned|] <==> (Parity(!right[0]) + Turns(turned)) % 2 == 0
    ensures (forall k :: 0 <= k < |right| ==> right[k]) <==> right[0] && forall k :: 0 <= k < |turned| ==> !turned[k]
    decreases |turned|
  {
    if turned != [] {
      var n := |turned| - 1;
      TurnsDecide(right[..n + 1], turned[..n]);
      assert right[n + 1] <==> (right[n] <==> !turned[n]);
      assert forall k :: 0 <= k < |right| ==> (k <= n ==> right[k] == right[..n + 1][k]);
      assert forall k :: 0 <= k < n ==> turned[k] == turned[..n][k];
    }
  }

  ghost function RightList(states: seq<State>, id: bytes, key: bytes, x: nat): (r: seq<bool>)
    requires states != []
    ensures |r| == |states|
  {
    seq(|states|, k requires 0 <= k < |states| => RightIn(states[0], states[k], id, key, x))
  }

  function TurnList(states: seq<State>, later: seq<Step>, id: bytes, key: bytes, x: nat): (r: seq<bool>)
    requires |states| == |later| + 1
    ensures |r| == |later|
  {
    seq(|later|, k requires 0 <= k < |later| => TurnsAt(states[k], later[k].tx, id, key, x))
  }

  lemma {:induction false} ListsAlternate(ctx: Context, states: seq<State>, later: seq<Step>, id: bytes, key: bytes,
                                          x: nat)
    requires Trace(ctx, states, later, x)
    ensures Alternates(RightList(states, id, key, x), TurnList(states, later, id, key, x))
    ensures RightList(states, id, key, x)[0] <==> !ClaimedEarly(states[0], id, key, x)
  {
    KeyWasValidAtIsExact(states[0], id, key, x);
    forall k | 0 <= k < |later|
      ensures RightIn(states[0], states[k + 1], id, key, x)
              <==> (RightIn(states[0], states[k], id, key, x) <==> !TurnsAt(states[k], later[k].tx, id, key, x))
    {
      RightnessStep(ctx, states, later, k, id, key, x);
    }
  }

  /**
   The lookup about height x, asked of the state a later run ends in, agrees with the state after x
   exactly when its answer was turned an even number of times, a too early claim in that first state
   counting as one.
   */
  lemma {:induction false} LookupAgainstHistory(ctx: Context, states: seq<State>, later: seq<Step>, id: bytes,
                                                key: bytes, x: nat)
    requires Trace(ctx, states, later, x)
    ensures RightIn(states[0], states[|later|], id, key, x) <==> TurnedEvenly(states, later, id, key, x)
  {
    ListsAlternate(ctx, states, later, id, key, x);
    ByTurns(RightList(states, id, key, x), TurnList(states, later, id, key, x), ClaimedEarly(states[0], id, key, x));
    LastOfRightList(states, id, key, x);
  }

  lemma {:induction false} ByTurns(right: seq<bool>, turned: seq<bool>, wrong: bool)
    requires Alternates(right, turned) && (right[0] <==> !wrong)
    ensures right[|turned|] <==> (Parity(wrong) + Turns(turned)) % 2 == 0
  {
    TurnsDecide(right, turned);
  }

  lemma {:induction false} LastOfRightList(states: seq<State>, id: bytes, key: bytes, x: nat)
    requires states != []
    ensures RightList(states, id, key, x)[|states| - 1] == RightIn(states[0], states[|states| - 1], id, key, x)
  {
  }

  ghost predicate TurnedEvenly(states: seq<State>, later: seq<Step>, id: bytes, key: bytes, x: nat)
    requires |states| == |later| + 1
  {
    (Parity(ClaimedEarly(states[0], id, key, x)) + Turns(TurnList(states, later, id, key, x))) % 2 == 0
  }

  ghost predicate RightThroughout(states: seq<State>, id: bytes, key: bytes, x: nat)
    requires states != []
  {
    forall k :: 0 <= k < |states| ==> RightIn(states[0], states[k], id, key, x)
  }

  ghost predicate NeverTurns(states: seq<State>, later: seq<Step>, id: bytes, key: bytes, x: nat)
    requires |states| == |later| + 1
  {
    forall k :: 0 <= k < |later| ==> !TurnsAt(states[k], later[k].tx, id, key, x)
  }

  /** It is right in every state on the way exactly when nothing was claimed early and no step turns it. */
  lemma {:induction false} RightThroughoutExactlyWhen(ctx: Context, states: seq<State>, later: seq<Step>, id: bytes,
                                                      key: bytes, x: nat)
    requires Trace(ctx, states, later, x)
    ensures RightThroughout(states, id, key, x)
            <==> !ClaimedEarly(states[0], id, key, x) && NeverTurns(states, later, id, key, x)
  {
    ListsAlternate(ctx, states, later, id, key, x);
    TurnsDecide(RightList(states, id, key, x), TurnList(states, later, id, key, x));
    AllOfRightList(states, id, key, x);
    AllOfTurnList(states, later, id, key, x);
  }

  lemma {:induction false} AllOfRightList(states: seq<State>, id: bytes, key: bytes, x: nat)
    requires states != []
    ensures RightThroughout(states, id, key, x) <==> forall k :: 0 <= k < |states| ==> RightList(states, id, key, x)[k]
  {
    var right := RightList(states, id, key, x);
    assert forall k :: 0 <= k < |states| ==> right[k] == RightIn(states[0], states[k], id, key, x);
  }

  lemma {:induction false} AllOfTurnList(states: seq<State>, later: seq<Step>, id: bytes, key: bytes, x: nat)
    requires |states| == |later| + 1
    ensures NeverTurns(states, later, id, key, x)
            <==> forall k :: 0 <= k < |later| ==> !TurnList(states, later, id, key, x)[k]
  {
    var turned := TurnList(states, later, id, key, x);
    assert forall k :: 0 <= k < |later| ==> turned[k] == TurnsAt(states[k], later[k].tx, id, key, x);
  }

  // ---------- along a chain ----------

  function MutationsBetween(chain: seq<Block>, x: nat, n: nat): seq<Step>
    requires x <= n < |chain|
    decreases n
  {
    if n == x then [] else MutationsBetween(chain, x, n - 1) + Mutations(chain[n].transactions, n)
  }

  lemma {:induction false} MutationsAreOfBlock(transactions: seq<Transaction>, height: nat)
    ensures forall k ::
              0 <= k < |Mutations(transactions, height)| ==> Mutations(transactions, height)[k].height == height
  {
    if transactions != [] {
      MutationsAreOfBlock(transactions[1..], height);
    }
  }

  lemma {:induction false} BetweenIsLater(chain: seq<Block>, x: nat, n: nat)
    requires x <= n < |chain|
    ensures forall k :: 0 <= k < |MutationsBetween(chain, x, n)| ==> MutationsBetween(chain, x, n)[k].height > x
    decreases n
  {
    if n > x {
      BetweenIsLater(chain, x, n - 1);
      MutationsAreOfBlock(chain[n].transactions, n);
    }
  }

  lemma {:induction false} BetweenIsARun(ctx: Context, chain: seq<Block>, x: nat, n: nat)
    requires x <= n < |chain| && StateAfter(ctx, chain, n).Ok?
    ensures StateAfter(ctx, chain, x).Ok?
    ensures Run(ctx, StateAfter(ctx, chain, x).value, MutationsBetween(chain, x, n)) == StateAfter(ctx, chain, n)
    decreases n
  {
    if n > x {
      BetweenIsARun(ctx, chain, x, n - 1);
      BlockIsARun(ctx, StateAfter(ctx, chain, n - 1).value, chain[n].transactions, n);
      RunSplits(ctx, StateAfter(ctx, chain, x).value, MutationsBetween(chain, x, n - 1),
                Mutations(chain[n].transactions, n));
    }
  }

  /** Along an accepted chain: the registry after block n, asked about block x, against the registry after block x. */
  lemma {:induction false} HistoricalLookup(rules: Rules, chain: seq<Block>, x: nat, n: nat, id: bytes, key: bytes)
    returns (states: seq<State>)
    requires ValidChain(rules, chain) && x <= n < |chain|
    ensures Trace(rules.ctx, states, MutationsBetween(chain, x, n), x)
    ensures StateAfter(rules.ctx, chain, x) == Ok(states[0])
            && StateAfter(rules.ctx, chain, n) == Ok(states[|states| - 1])
    ensures RightIn(states[0], states[|states| - 1], id, key, x)
            <==> TurnedEvenly(states, MutationsBetween(chain, x, n), id, key, x)
  {
    states := TraceOfChain(rules, chain, x, n);
    LookupAgainstHistory(rules.ctx, states, MutationsBetween(chain, x, n), id, key, x);
  }

  lemma {:induction false} TraceOfChain(rules: Rules, chain: seq<Block>, x: nat, n: nat) returns (states: seq<State>)
    requires ValidChain(rules, chain) && x <= n < |chain|
    ensures Trace(rules.ctx, states, MutationsBetween(chain, x, n), x)
    ensures StateAfter(rules.ctx, chain, x) == Ok(states[0])
            && StateAfter(rules.ctx, chain, n) == Ok(states[|states| - 1])
  {
    ValidChainsReplay(rules, chain, n);
    BetweenIsARun(rules.ctx, chain, x, n);
    BetweenIsLater(chain, x, n);
    ChainStatesAreWellFormed(rules, chain, x);
    states := StatesOf(rules.ctx, StateAfter(rules.ctx, chain, x).value, MutationsBetween(chain, x, n), x);
  }
}
