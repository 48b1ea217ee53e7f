/** What makes one block acceptable, and how its transactions change the registry. */
module Blocks {
  import opened Wrappers
  import opened Bytes
  import opened Types
  import opened Governance
  import opened Registry
  import opened Merkle
  import opened Difficulty

  /**
   One network's rules. `powValue` reads a block hash as a number, `schemaValid` is the mandatory
   transaction schema and `validator` the caller's own check, both without side effects.
   */
  datatype Rules = Rules(
    ctx: Context,
    genesisHeader: Header,
    genesisRegistryRoot: Hash,
    alpha: bool,
    alphaGenesis: Hash,
    powValue: Hash -> nat,
    schemaValid: Transaction -> bool,
    validator: Transaction -> bool)

  const FUTURE_LIMIT := 2 * 60 * 60

  function Pairing(): (Hash, Hash) -> Hash {
    (l: Hash, r: Hash) => PairHash(l, r)
  }

  function Leaves(transactions: seq<Transaction>): (r: seq<Hash>)
    ensures |r| == |transactions|
  {
    seq(|transactions|, i requires 0 <= i < |transactions| => ObjectHash(transactions[i]))
  }

  function MerkleRootOf(b: Block): Hash {
    if b.transactions == [] then ZERO_HASH else Root(Leaves(b.transactions), Pairing())
  }

  predicate SatisfiesPow(rules: Rules, b: Block) {
    rules.powValue(BlockHash(b)) <= b.header.target
  }

  predicate IsGenesis(rules: Rules, b: Block) {
    b.header.prevHash == ZERO_HASH && BlockHash(b) == rules.alphaGenesis
  }

  predicate AllPass(transactions: seq<Transaction>, check: Transaction -> bool) {
    forall i :: 0 <= i < |transactions| ==> check(transactions[i])
  }

  /** Block verification; each optional argument switches its check on. */
  predicate Verify(rules: Rules, b: Block, reference: Option<int>, allowGenesis: bool, median: Option<int>,
                   expected: Option<nat>, validator: Option<Transaction -> bool>) {
    && b.header.version == PROTOCOL_VERSION
    && ((allowGenesis && IsGenesis(rules, b)) ||
        (&& MIN_TARGET <= b.header.target <= MAX_TARGET
         && MerkleRootOf(b) == b.header.merkleRoot
         && SatisfiesPow(rules, b)
         && (expected.Some? ==> b.header.target == expected.value)
         && b.header.timestamp > 0
         && (reference.Some? ==> b.header.timestamp <= reference.value + FUTURE_LIMIT)
         && (median.Some? ==> b.header.timestamp > median.value)
         && AllPass(b.transactions, rules.schemaValid)
         && (validator.Some? ==> AllPass(b.transactions, validator.value))))
  }

  /** Blocks with equal hashes and equally many transactions that both match their Merkle root are the same block. */
  lemma {:induction false} HashDeterminesBlock(a: Block, b: Block)
    requires BlockHash(a) == BlockHash(b) && |a.transactions| == |b.transactions|
    requires MerkleRootOf(a) == a.header.merkleRoot && MerkleRootOf(b) == b.header.merkleRoot
    ensures a == b
  {
    var x, y := Leaves(a.transactions), Leaves(b.transactions);
    if x != [] {
      RootDeterminesLeaves(x, y, Pairing());
      forall i | 0 <= i < |x| ensures a.transactions[i] == b.transactions[i] {
        assert x[i] == y[i];
      }
    }
  }

  // ---------- what a Merkle root leaves open ----------

  function PairDepth(h: Hash): nat {
    match h
    case PairHash(l, _) => 1 + PairDepth(l)
    case _ => 0
  }

  ghost predicate AllAtDepth(level: seq<Hash>, d: nat) {
    forall i :: 0 <= i < |level| ==> PairDepth(level[i]) == d
  }

  lemma {:induction false} RootDepth(level: seq<Hash>, d: nat)
    requires level != [] && AllAtDepth(level, d)
    ensures PairDepth(Root(level, Pairing())) == d + Height(|level|)
    decreases |level|
  {
    if |level| > 1 {
      var next := NextLevel(level, Pairing());
      forall i | 0 <= i < |next| ensures PairDepth(next[i]) == d + 1 {
        assert next[i] == Node(level, i, Pairing());
      }
      RootDepth(next, d + 1);
    }
  }

  /** y is x followed by entries of x. */
  ghost predicate Repeats<T(!new)>(x: seq<T>, y: seq<T>) {
    x <= y && forall j :: 0 <= j < |y| ==> y[j] in x
  }

  lemma {:induction false} RepeatsBelow(x: seq<Hash>, y: seq<Hash>)
    requires 1 < |x| <= |y| && Repeats(NextLevel(x, Pairing()), NextLevel(y, Pairing()))
    ensures Repeats(x, y)
  {
    var p, q := NextLevel(x, Pairing()), NextLevel(y, Pairing());
    forall j | 0 <= j < |x| ensures x[j] == y[j] {
      assert p[j / 2] == q[j / 2] && p[j / 2] == Node(x, j / 2, Pairing()) && q[j / 2] == Node(y, j / 2, Pairing());
    }
    forall j | 0 <= j < |y| ensures y[j] in x {
      assert q[j / 2] in p;
      var i :| 0 <= i < |p| && p[i] == q[j / 2];
      assert p[i] == Node(x, i, Pairing()) && q[j / 2] == Node(y, j / 2, Pairing());
      assert x[2 * i] in x;
    }
  }

  /** Levels with equal roots are equal up to entries repeated at the end of the longer one. */
  lemma {:induction false} EqualRootsUpToRepeats(x: seq<Hash>, y: seq<Hash>, d: nat)
    requires 0 < |x| <= |y| && AllAtDepth(x, d) && AllAtDepth(y, d)
    requires Root(x, Pairing()) == Root(y, Pairing())
    ensures Repeats(x, y)
    decreases |y|
  {
    RootDepth(x, d);
    RootDepth(y, d);
    if |x| > 1 {
      var p, q := NextLevel(x, Pairing()), NextLevel(y, Pairing());
      forall i | 0 <= i < |p| ensures PairDepth(p[i]) == d + 1 {
        assert p[i] == Node(x, i, Pairing());
      }
      forall i | 0 <= i < |q| ensures PairDepth(q[i]) == d + 1 {
        assert q[i] == Node(y, i, Pairing());
      }
      EqualRootsUpToRepeats(p, q, d + 1);
      RepeatsBelow(x, y);
    }
  }

  /**
   Of two blocks with one hash that both match their Merkle root, the longer only repeats transactions of
   the shorter.
   */
  lemma {:induction false} EqualHashesUpToRepeats(a: Block, b: Block)
    requires BlockHash(a) == BlockHash(b) && |a.transactions| <= |b.transactions|
    requires MerkleRootOf(a) == a.header.merkleRoot && MerkleRootOf(b) == b.header.merkleRoot
    ensures Repeats(a.transactions, b.transactions)
  {
    var x, y := Leaves(a.transactions), Leaves(b.transactions);
    assert AllAtDepth(x, 0) && AllAtDepth(y, 0);
    if x == [] {
      if y != [] {
        RootOfLeaves(b.transactions);
      }
    } else {
      EqualRootsUpToRepeats(x, y, 0);
      forall j | 0 <= j < |x| ensures a.transactions[j] == b.transactions[j] {
        assert x[j] == y[j];
      }
      forall j | 0 <= j < |y| ensures b.transactions[j] in a.transactions {
        assert y[j] in x;
        var i :| 0 <= i < |x| && x[i] == y[j];
        assert a.transactions[i] == b.transactions[j];
      }
    }
  }

  lemma {:induction false} RootOfLeaves(transactions: seq<Transaction>)
    requires transactions != []
    ensures Root(Leaves(transactions), Pairing()) != ZERO_HASH
  {
    var x := Leaves(transactions);
    if |x| > 1 {
      RootIsAPair(x);
    }
  }

  lemma {:induction false} RootIsAPair(level: seq<Hash>)
    requires |level| > 1
    ensures Root(level, Pairing()).PairHash?
    decreases |level|
  {
    var next := NextLevel(level, Pairing());
    assert next[0] == Node(level, 0, Pairing());
    if |next| > 1 {
      RootIsAPair(next);
    }
  }

  // ---------- registry mutations ----------

  /** The mutation a transaction carries, if any. */
  function Parse(tx: Transaction, networkId: bytes): Result<Option<GovernanceTx>, Fault> {
    match tx
    case Other(_) => Ok(None)
    case MalformedGovernance(_) => Err(GovernanceFault)
    case Governance(body) => if body.networkId == networkId then Ok(Some(body)) else Err(GovernanceFault)
  }

  function ApplyOne(ctx: Context, s: State, tx: Transaction, height: nat): Result<State, Fault> {
    match Parse(tx, ctx.networkId)
    case Err(e) => Err(e)
    case Ok(None) => Ok(s)
    case Ok(Some(body)) => Apply(ctx, s, body, height)
  }

  function ApplyAll(ctx: Context, s: State, transactions: seq<Transaction>, height: nat): Result<State, Fault>
    decreases |transactions|
  {
    if transactions == [] then Ok(s)
    else
      match ApplyOne(ctx, s, transactions[0], height)
      case Err(e) => Err(e)
      case Ok(next) => ApplyAll(ctx, next, transactions[1..], height)
  }

  /** The loop over a block's transactions, used by the ledger and by fork choice. */
  method ApplyTransactions(ctx: Context, state: State, transactions: seq<Transaction>, height: nat)
    returns (r: Result<State, Fault>)
    ensures r == ApplyAll(ctx, state, transactions, height)
  {
    var s := state;
    for i := 0 to |transactions|
      invariant ApplyAll(ctx, s, transactions[i..], height) == ApplyAll(ctx, state, transactions, height)
    {
      match ApplyOne(ctx, s, transactions[i], height) {
        case Err(e) => return Err(e);
        case Ok(next) => s := next;
      }
    }
    return Ok(s);
  }

  function GenesisState(ctx: Context): State {
    Genesis(ctx.networkId, ctx.keys, ctx.threshold)
  }

  /** The registry after the block at `height`, replayed from genesis. */
  function StateAfter(ctx: Context, chain: seq<Block>, height: nat): Result<State, Fault>
    requires height < |chain|
  {
    if height == 0 then Ok(GenesisState(ctx))
    else
      match StateAfter(ctx, chain, height - 1)
      case Err(e) => Err(e)
      case Ok(s) => ApplyAll(ctx, s, chain[height].transactions, height)
  }

  method Replay(ctx: Context, chain: seq<Block>, height: nat) returns (r: Result<State, Fault>)
    requires height < |chain|
    ensures r == StateAfter(ctx, chain, height)
  {
    var s := GenesisState(ctx);
    for h := 1 to height + 1
      invariant StateAfter(ctx, chain, h - 1) == Ok(s)
    {
      var next := ApplyTransactions(ctx, s, chain[h].transactions, h);
      if next.Err? {
        ReplayStaysStuck(ctx, chain, h, height);
        return next;
      }
      s := next.value;
    }
    return Ok(s);
  }

  lemma {:induction false} ReplayStaysStuck(ctx: Context, chain: seq<Block>, h: nat, height: nat)
    requires h <= height < |chain| && StateAfter(ctx, chain, h).Err?
    ensures StateAfter(ctx, chain, height) == StateAfter(ctx, chain, h)
    decreases height
  {
    if h < height {
      ReplayStaysStuck(ctx, chain, h, height - 1);
    }
  }

  /** The state at a height depends on nothing above it. */
  lemma {:induction false} StateOfPrefix(ctx: Context, chain: seq<Block>, n: nat, height: nat)
    requires height < n <= |chain|
    ensures StateAfter(ctx, chain[..n], height) == StateAfter(ctx, chain, height)
  {
    if height > 0 {
      StateOfPrefix(ctx, chain, n, height - 1);
    }
  }

  // ---------- every mutation of a chain, in order ----------

  /** The mutations of one block. */
  function Mutations(transactions: seq<Transaction>, height: nat): seq<Step> {
    if transactions == [] then []
    else
      (match transactions[0]
       case Governance(body) => [Step(body, height)]
       case _ => []) + Mutations(transactions[1..], height)
  }

  function MutationsUpTo(chain: seq<Block>, height: nat): seq<Step>
    requires height < |chain|
  {
    if height == 0 then [] else MutationsUpTo(chain, height - 1) + Mutations(chain[height].transactions, height)
  }
}
