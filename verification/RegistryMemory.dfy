/**
 What the historical key lookup still remembers. A later state answers about height x from one record
 that its curator's last change was based on, so the answer is a function of the records right after
 x and of the curator's own later transactions.
 */
module RegistryMemory {
  import opened Wrappers
  import opened Bytes
  import opened Types
  import opened Governance
  import opened Registry
  import opened RegistryHistory
  import opened RegistryEffects
  import opened RegistryLookup
  import opened Blocks
  import opened Chain

  // ---------- the curator's latest record ----------

  /** What the lookup uses of a record besides its revocation. */
  datatype Holder = Holder(key: bytes, activation: nat, previous: Option<bytes>)

  function HolderOf(s: State, id: bytes): Option<Holder> {
    var m := Matches(s, id);
    if m == [] then None else Some(Holder(Latest(m).publicKey, Latest(m).activation, Latest(m).previousKey))
  }

  /** A rotation whose new record would not be the latest leaves the retired one in that place. */
  function AfterOwn(h: Option<Holder>, action: Action, registered: bytes): Option<Holder> {
    match action
    case Register(activation, _) => Some(Holder(registered, activation, None))
    case Rotate(newKey, activation, _, _) =>
      if h.Some? && activation > h.value.activation then Some(Holder(newKey, activation, Some(h.value.key))) else h
    case Revoke(_, _, _) => h
  }

  /** Only the curator's own transactions matter. */
  function HolderAfter(h: Option<Holder>, steps: seq<Step>, id: bytes): Option<Holder> {
    if steps == [] then h
    else
      var below, last := HolderAfter(h, steps[..|steps| - 1], id), steps[|steps| - 1].tx;
      if last.curatorId == id then AfterOwn(below, last.action, last.publicKey) else below
  }

  lemma {:induction false} HolderOfEffect(s: State, tx: GovernanceTx, height: nat, t: State, id: bytes)
    requires Effect(s, tx, height, t)
    ensures HolderOf(t, id)
            == if id == tx.curatorId then AfterOwn(HolderOf(s, id), tx.action, tx.publicKey) else HolderOf(s, id)
  {
    EffectOnMatches(s, tx, height, t, id);
    if id == tx.curatorId {
      LatestOfNew(NewRecords(s, tx));
    }
  }

  lemma {:induction false} LatestOfNew(n: seq<Record>)
    requires 1 <= |n| <= 2
    ensures Latest(n) == if |n| == 2 && n[1].activation > n[0].activation then n[1] else n[0]
  {
    if |n| == 2 {
      assert n[1..] == [n[1]];
    }
  }

  lemma {:induction false} HolderAlongTrace(ctx: Context, states: seq<State>, later: seq<Step>, x: nat, id: bytes,
                                            k: nat)
    requires Trace(ctx, states, later, x) && k <= |later|
    ensures HolderOf(states[k], id) == HolderAfter(HolderOf(states[0], id), later[..k], id)
  {
    if k > 0 {
      HolderAlongTrace(ctx, states, later, x, id, k - 1);
      assert LaterStep(ctx, states, later, k - 1, x);
      AppliedHasEffect(ctx, states[k - 1], later[k - 1].tx, later[k - 1].height);
      HolderOfEffect(states[k - 1], later[k - 1].tx, later[k - 1].height, states[k], id);
      assert later[..k][..k - 1] == later[..k - 1];
    }
  }

  // ---------- the answer in closed form ----------

  /** How many steps there are up to and with the curator's last own one; 0 if there is none. */
  function LastOwn(steps: seq<Step>, id: bytes): (n: nat)
    ensures n <= |steps| && (n > 0 ==> steps[n - 1].tx.curatorId == id)
    ensures forall k :: n <= k < |steps| ==> steps[k].tx.curatorId != id
  {
    if steps == [] then 0
    else if steps[|steps| - 1].tx.curatorId == id then |steps| else LastOwn(steps[..|steps| - 1], id)
  }

  /**
   What the record below the last change says about an earlier height; rotated out, it speaks for its key at
   all of them.
   */
  predicate HolderSays(h: Option<Holder>, rotated: bool, key: bytes, x: nat) {
    && h.Some?
    && (|| (h.value.key == key && (h.value.activation <= x || rotated))
        || (h.value.previous == Some(key) && x < h.value.activation))
  }

  predicate Remembers(past: State, later: seq<Step>, id: bytes, key: bytes, x: nat) {
    var n := LastOwn(later, id);
    if n == 0 then KeyWasValidAt(past, id, key, x)
    else HolderSays(HolderAfter(HolderOf(past, id), later[..n - 1], id), later[n - 1].tx.action.Rotate?, key, x)
  }

  lemma {:induction false} SaysAfterOwn(s: State, tx: GovernanceTx, height: nat, t: State, key: bytes, x: nat)
    requires Effect(s, tx, height, t) && x <= height
    ensures KeyWasValidAt(t, tx.curatorId, key, x) <==> HolderSays(HolderOf(s, tx.curatorId), tx.action.Rotate?, key, x)
  {
    AnswerAfter(s, tx, height, t, key, x);
  }

  lemma {:induction false} OtherLeavesRecords(ctx: Context, states: seq<State>, later: seq<Step>, x: nat, id: bytes,
                                              k: nat)
    requires Trace(ctx, states, later, x) && k < |later| && later[k].tx.curatorId != id
    ensures Matches(states[k + 1], id) == Matches(states[k], id)
  {
    assert LaterStep(ctx, states, later, k, x);
    AppliedHasEffect(ctx, states[k], later[k].tx, later[k].height);
    EffectOnMatches(states[k], later[k].tx, later[k].height, states[k + 1], id);
  }

  ghost predicate OthersOnly(later: seq<Step>, id: bytes, n: nat) {
    forall i :: n <= i < |later| ==> later[i].tx.curatorId != id
  }

  lemma {:induction false} OthersLeaveRecords(ctx: Context, states: seq<State>, later: seq<Step>, x: nat, id: bytes,
                                              n: nat, k: nat)
    requires Trace(ctx, states, later, x) && n <= k <= |later| && OthersOnly(later, id, n)
    ensures Matches(states[k], id) == Matches(states[n], id)
    decreases k
  {
    if n < k {
      OthersLeaveRecords(ctx, states, later, x, id, n, k - 1);
      OtherLeavesRecords(ctx, states, later, x, id, k - 1);
    }
  }

  lemma {:induction false} SameRecordsSameAnswer(s: State, t: State, id: bytes, key: bytes, x: nat)
    requires Matches(s, id) == Matches(t, id)
    ensures KeyWasValidAt(s, id, key, x) <==> KeyWasValidAt(t, id, key, x)
  {
  }

  /** The lookup about height x asked of any later state, in terms of the state after x and the transactions since. */
  lemma {:induction false} LookupInClosedForm(ctx: Context, states: seq<State>, later: seq<Step>, id: bytes,
                                              key: bytes, x: nat)
    requires Trace(ctx, states, later, x)
    ensures KeyWasValidAt(states[|later|], id, key, x) <==> Remembers(states[0], later, id, key, x)
  {
    var n := LastOwn(later, id);
    OthersLeaveRecords(ctx, states, later, x, id, n, |later|);
    SameRecordsSameAnswer(states[n], states[|later|], id, key, x);
    if n > 0 {
      HolderAlongTrace(ctx, states, later, x, id, n - 1);
      assert LaterStep(ctx, states, later, n - 1, x);
      AppliedHasEffect(ctx, states[n - 1], later[n - 1].tx, later[n - 1].height);
      SaysAfterOwn(states[n - 1], later[n - 1].tx, later[n - 1].height, states[n], key, x);
    }
  }

  /** Along an accepted chain: what the registry after block n answers about block x. */
  lemma {:induction false} HistoricalLookupInClosedForm(rules: Rules, chain: seq<Block>, x: nat, n: nat, id: bytes,
                                                        key: bytes)
    requires ValidChain(rules, chain) && x <= n < |chain|
    ensures StateAfter(rules.ctx, chain, x).Ok? && StateAfter(rules.ctx, chain, n).Ok?
    ensures KeyWasValidAt(StateAfter(rules.ctx, chain, n).value, id, key, x)
            <==> Remembers(StateAfter(rules.ctx, chain, x).value, MutationsBetween(chain, x, n), id, key, x)
  {
    var states := TraceOfChain(rules, chain, x, n);
    LookupInClosedForm(rules.ctx, states, MutationsBetween(chain, x, n), id, key, x);
  }

  // ---------- after so many rotations ----------

  /** Every own step rotates, and comes into force later than the record it replaces. */
  ghost predicate RotatesUpwards(h: Option<Holder>, steps: seq<Step>, id: bytes) {
    forall k :: 0 <= k < |steps| && steps[k].tx.curatorId == id ==> RotatesUpAt(h, steps, id, k)
  }

  predicate RotatesUpAt(h: Option<Holder>, steps: seq<Step>, id: bytes, k: nat)
    requires k < |steps|
  {
    var below := HolderAfter(h, steps[..k], id);
    steps[k].tx.action.Rotate? && below.Some? && steps[k].tx.action.activation > below.value.activation
  }

  /** The curator's keys in order: the one in the latest record, then each one rotated in. */
  function KeysInOrder(first: bytes, steps: seq<Step>, id: bytes): (keys: seq<bytes>)
    ensures keys != [] && keys[0] == first
  {
    if steps == [] then [first]
    else
      var below, last := KeysInOrder(first, steps[..|steps| - 1], id), steps[|steps| - 1].tx;
      if last.curatorId == id && last.action.Rotate? then below + [last.action.newPublicKey] else below
  }

  lemma {:induction false} UpwardsPrefix(h: Option<Holder>, steps: seq<Step>, id: bytes, n: nat)
    requires RotatesUpwards(h, steps, id) && n <= |steps|
    ensures RotatesUpwards(h, steps[..n], id)
  {
    forall k | 0 <= k < n && steps[..n][k].tx.curatorId == id ensures RotatesUpAt(h, steps[..n], id, k) {
      assert RotatesUpAt(h, steps, id, k) && steps[..n][..k] == steps[..k];
    }
  }

  /** Rotating upwards the latest record always has the newest key and remembers the one before it. */
  lemma {:induction false} HolderOfRotations(h: Holder, steps: seq<Step>, id: bytes, x: nat)
    requires RotatesUpwards(Some(h), steps, id) && forall k :: 0 <= k < |steps| ==> LaterThan(steps[k], x)
    ensures var keys, now := KeysInOrder(h.key, steps, id), HolderAfter(Some(h), steps, id);
            if |keys| == 1 then now == Some(h)
            else now.Some? && now.value.key == keys[|keys| - 1] && now.value.previous == Some(keys[|keys| - 2])
                 && now.value.activation > x
    decreases |steps|
  {
    if steps != [] {
      var n := |steps| - 1;
      UpwardsPrefix(Some(h), steps, id, n);
      HolderOfRotations(h, steps[..n], id, x);
      if steps[n].tx.curatorId == id {
        assert RotatesUpAt(Some(h), steps, id, n) && LaterThan(steps[n], x);
      }
    }
  }

  /** In force later than height x, as every transaction of a block above x is. */
  predicate LaterThan(step: Step, x: nat) {
    EffectiveAt(step.tx) > x
  }

  lemma {:induction false} TraceIsLater(ctx: Context, states: seq<State>, later: seq<Step>, x: nat)
    requires Trace(ctx, states, later, x)
    ensures forall k :: 0 <= k < |later| ==> LaterThan(later[k], x)
  {
    forall k | 0 <= k < |later| ensures LaterThan(later[k], x) {
      assert LaterStep(ctx, states, later, k, x);
      AppliedHasEffect(ctx, states[k], later[k].tx, later[k].height);
    }
  }

  lemma {:induction false} KeysUpToLastOwn(first: bytes, h: Option<Holder>, steps: seq<Step>, id: bytes)
    requires RotatesUpwards(h, steps, id)
    ensures var n := LastOwn(steps, id);
            KeysInOrder(first, steps, id)
            == if n == 0 then [first] else KeysInOrder(first, steps[..n - 1], id) + [NewKey(steps, n)]
    decreases |steps|
  {
    if steps != [] {
      var m := |steps| - 1;
      if steps[m].tx.curatorId == id {
        assert RotatesUpAt(h, steps, id, m);
      } else {
        UpwardsPrefix(h, steps, id, m);
        KeysUpToLastOwn(first, h, steps[..m], id);
        SkipOther(first, steps, id);
      }
    }
  }

  lemma {:induction false} SkipOther(first: bytes, steps: seq<Step>, id: bytes)
    requires steps != [] && steps[|steps| - 1].tx.curatorId != id
    ensures var m := |steps| - 1;
            && KeysInOrder(first, steps, id) == KeysInOrder(first, steps[..m], id)
            && LastOwn(steps, id) == LastOwn(steps[..m], id)
            && (LastOwn(steps, id) > 0 ==> steps[..m][..LastOwn(steps, id) - 1] == steps[..LastOwn(steps, id) - 1])
  {
  }

  function NewKey(steps: seq<Step>, n: nat): bytes
    requires 0 < n <= |steps|
  {
    if steps[n - 1].tx.action.Rotate? then steps[n - 1].tx.action.newPublicKey else []
  }

  /** What is remembered of height x after the keys in order, the first of them the holder's own. */
  predicate RemembersOfKeys(h: Holder, keys: seq<bytes>, key: bytes, x: nat)
    requires |keys| >= 2
  {
    var n := |keys| - 1;
    if n == 1 then key == h.key || (h.previous == Some(key) && x < h.activation)
    else key == keys[n - 1] || key == keys[n - 2]
  }

  lemma {:induction false} HolderSaysKeys(h: Holder, below: seq<Step>, id: bytes, newest: bytes, key: bytes, x: nat)
    requires RotatesUpwards(Some(h), below, id) && forall k :: 0 <= k < |below| ==> LaterThan(below[k], x)
    ensures HolderSays(HolderAfter(Some(h), below, id), true, key, x)
            <==> RemembersOfKeys(h, KeysInOrder(h.key, below, id) + [newest], key, x)
  {
    HolderOfRotations(h, below, id, x);
  }

  lemma {:induction false} RotationsSay(past: State, h: Holder, later: seq<Step>, id: bytes, key: bytes, x: nat)
    requires HolderOf(past, id) == Some(h) && RotatesUpwards(Some(h), later, id)
    requires forall k :: 0 <= k < |later| ==> LaterThan(later[k], x)
    ensures var keys := KeysInOrder(h.key, later, id);
            Remembers(past, later, id, key, x)
            <==> if |keys| == 1 then KeyWasValidAt(past, id, key, x) else RemembersOfKeys(h, keys, key, x)
  {
    var n := LastOwn(later, id);
    KeysUpToLastOwn(h.key, Some(h), later, id);
    if n > 0 {
      assert RotatesUpAt(Some(h), later, id, n - 1);
      UpwardsPrefix(Some(h), later, id, n - 1);
      HolderSaysKeys(h, later[..n - 1], id, NewKey(later, n), key, x);
    }
  }

  /**
   After no rotation the answer is that of the state after x. After one it is yes for the key retired,
   at every height, and for that key's own predecessor before it. After two or more it is yes for
   exactly the two keys before the newest, whatever was in force at x.
   */
  lemma {:induction false} RotationsRemember(ctx: Context, states: seq<State>, later: seq<Step>, id: bytes, key: bytes,
                                             x: nat)
    requires Trace(ctx, states, later, x) && HolderOf(states[0], id).Some?
    requires RotatesUpwards(HolderOf(states[0], id), later, id)
    ensures var h := HolderOf(states[0], id).value;
            var keys := KeysInOrder(h.key, later, id);
            KeyWasValidAt(states[|later|], id, key, x)
            <==> if |keys| == 1 then KeyWasValidAt(states[0], id, key, x) else RemembersOfKeys(h, keys, key, x)
  {
    LookupInClosedForm(ctx, states, later, id, key, x);
    TraceIsLater(ctx, states, later, x);
    RotationsSay(states[0], HolderOf(states[0], id).value, later, id, key, x);
  }

  /**
   So from the second rotation on it is wrong about the key before the newest, unless that was in force
   at x, and from the third on about the key that was, unless that is one of the two before the newest.
   */
  lemma {:induction false} RotationsMislead(ctx: Context, states: seq<State>, later: seq<Step>, id: bytes, x: nat)
    requires Trace(ctx, states, later, x) && HolderOf(states[0], id).Some?
    requires RotatesUpwards(HolderOf(states[0], id), later, id)
    ensures var past, now := states[0], states[|later|];
            var keys := KeysInOrder(HolderOf(past, id).value.key, later, id);
            var n := |keys| - 1;
            && (n >= 2 && !KeyInForce(past, id, keys[n - 1], x) ==> !RightIn(past, now, id, keys[n - 1], x))
            && (n >= 3 && KeyInForce(past, id, keys[0], x) && keys[0] !in keys[n - 2..n]
                ==> !RightIn(past, now, id, keys[0], x))
  {
    var keys := KeysInOrder(HolderOf(states[0], id).value.key, later, id);
    RotationsRemember(ctx, states, later, id, keys[0], x);
    if |keys| > 2 {
      RotationsRemember(ctx, states, later, id, keys[|keys| - 2], x);
    }
  }
}
