/**
 What the ledger asks of a block, spelled out: every condition of admission and of full validation, field by
 field.
 */
module Admission {
  import opened Wrappers
  import opened Bytes
  import opened Types
  import opened Sorting
  import opened Governance
  import opened Registry
  import opened Merkle
  import opened MedianTime
  import opened Difficulty
  import opened Blocks
  import opened Chain

  // ---------- transactions ----------

  /** The schema and the caller's validator both take the transaction. */
  predicate Passes(rules: Rules, tx: Transaction) {
    rules.schemaValid(tx) && rules.validator(tx)
  }

  ghost predicate EachPasses(rules: Rules, transactions: seq<Transaction>) {
    forall tx :: tx in transactions ==> Passes(rules, tx)
  }

  lemma {:induction false} EachIsAll(rules: Rules, transactions: seq<Transaction>)
    ensures EachPasses(rules, transactions)
            <==> AllPass(transactions, rules.schemaValid) && AllPass(transactions, rules.validator)
  {
    if EachPasses(rules, transactions) {
      forall i | 0 <= i < |transactions|
        ensures rules.schemaValid(transactions[i]) && rules.validator(transactions[i]) {
        assert Passes(rules, transactions[i]);
      }
    }
  }

  /** A registry mutation the parser takes: its body is well formed and names this network. */
  predicate ParsesFor(tx: Transaction, networkId: bytes) {
    match tx
    case Other(_) => true
    case MalformedGovernance(_) => false
    case Governance(body) => body.networkId == networkId
  }

  ghost predicate AllParse(transactions: seq<Transaction>, networkId: bytes) {
    forall tx :: tx in transactions ==> ParsesFor(tx, networkId)
  }

  /** The mutations a block carries, in order; everything else in it leaves the registry alone. */
  function Carried(transactions: seq<Transaction>): seq<GovernanceTx> {
    if transactions == [] then []
    else (if transactions[0].Governance? then [transactions[0].tx] else []) + Carried(transactions[1..])
  }

  /** Applied one after the other, all at one height; None as soon as one is refused. */
  function AppliedInTurn(ctx: Context, s: State, mutations: seq<GovernanceTx>, height: nat): Option<State>
    decreases |mutations|
  {
    if mutations == [] then Some(s)
    else
      match Apply(ctx, s, mutations[0], height)
      case Err(_) => None
      case Ok(next) => AppliedInTurn(ctx, next, mutations[1..], height)
  }

  /** A block changes the registry exactly by its mutations in order, and is refused if one does not parse or apply. */
  lemma {:induction false} BlockAppliesExactlyWhen(ctx: Context, s: State, transactions: seq<Transaction>, height: nat)
    ensures var r, t := ApplyAll(ctx, s, transactions, height), AppliedInTurn(ctx, s, Carried(transactions), height);
            && (r.Ok? <==> AllParse(transactions, ctx.networkId) && t.Some?)
            && (r.Ok? ==> Some(r.value) == t)
    decreases |transactions|
  {
    if transactions != [] {
      var tx, rest := transactions[0], transactions[1..];
      FirstParses(transactions, ctx.networkId);
      match tx
      case Other(_) =>
        BlockAppliesExactlyWhen(ctx, s, rest, height);
        assert [] + Carried(rest) == Carried(rest);
      case MalformedGovernance(_) =>
      case Governance(body) =>
        assert ([body] + Carried(rest))[1..] == Carried(rest);
        if body.networkId == ctx.networkId && Apply(ctx, s, body, height).Ok? {
          BlockAppliesExactlyWhen(ctx, Apply(ctx, s, body, height).value, rest, height);
        }
    }
  }

  lemma {:induction false} FirstParses(transactions: seq<Transaction>, networkId: bytes)
    requires transactions != []
    ensures AllParse(transactions, networkId)
            <==> ParsesFor(transactions[0], networkId) && AllParse(transactions[1..], networkId)
  {
    if ParsesFor(transactions[0], networkId) && AllParse(transactions[1..], networkId) {
      forall tx | tx in transactions ensures ParsesFor(tx, networkId) {
        assert tx == transactions[0] || tx in transactions[1..];
      }
    }
  }

  // ---------- blocks ----------

  /** The hash of each transaction, in order. */
  function Hashes(transactions: seq<Transaction>): (r: seq<Hash>)
    ensures |r| == |transactions|
  {
    if transactions == [] then [] else [ObjectHash(transactions[0])] + Hashes(transactions[1..])
  }

  lemma {:induction false} HashesAreLeaves(transactions: seq<Transaction>)
    ensures Hashes(transactions) == Leaves(transactions)
  {
    if transactions != [] {
      HashesAreLeaves(transactions[1..]);
      assert Leaves(transactions) == [ObjectHash(transactions[0])] + Leaves(transactions[1..]);
    }
  }

  /** The exponent of the largest power of two below n. */
  function SplitAt(n: nat): (e: nat)
    requires n >= 2
    ensures Pow2(e) < n <= 2 * Pow2(e)
  {
    if n == 2 then 0 else 1 + SplitAt((n + 1) / 2)
  }

  /** A hash paired with itself, k times over. */
  function Doubled(x: Hash, k: nat): Hash
    decreases k
  {
    if k == 0 then x else Doubled(PairHash(x, x), k - 1)
  }

  /**
   The tree over a list of hashes, from its parts: on the left the first 2^e of them, 2^e being the largest
   power of two below their number, and on the right the others, doubled up to the same height.
   */
  function TreeHash(hashes: seq<Hash>): Hash
    requires hashes != []
    decreases |hashes|
  {
    if |hashes| == 1 then hashes[0]
    else
      var e := SplitAt(|hashes|);
      var left, right := hashes[..Pow2(e)], hashes[Pow2(e)..];
      HeightOfSmall(|right|, e);
      PairHash(TreeHash(left), Doubled(TreeHash(right), e - Height(|right|)))
  }

  lemma {:induction false} RaisedIsDoubled(x: Hash, k: nat)
    ensures Raised(x, k, Pairing()) == Doubled(x, k)
    decreases k
  {
    if k > 0 {
      RaisedIsDoubled(PairHash(x, x), k - 1);
    }
  }

  /** It is the root the level-by-level construction arrives at. */
  lemma {:induction false} TreeHashIsRoot(hashes: seq<Hash>)
    requires hashes != []
    ensures Root(hashes, Pairing()) == TreeHash(hashes)
    decreases |hashes|
  {
    if |hashes| > 1 {
      var e := SplitAt(|hashes|);
      var left, right := hashes[..Pow2(e)], hashes[Pow2(e)..];
      RootOfParts(left, right, e, Pairing());
      assert left + right == hashes;
      TreeHashIsRoot(left);
      TreeHashIsRoot(right);
      RaisedIsDoubled(TreeHash(right), e - Height(|right|));
    }
  }

  lemma {:induction false} MerkleRootIsTree(b: Block)
    ensures MerkleRootOf(b)
            == if b.transactions == [] then Raw(seq(32, _ => 0)) else TreeHash(Hashes(b.transactions))
  {
    HashesAreLeaves(b.transactions);
    assert Zeros(32) == seq(32, _ => 0);
    if b.transactions != [] {
      TreeHashIsRoot(Leaves(b.transactions));
    }
  }

  /** Version, target range, Merkle root, proof of work, and a timestamp after the epoch and the median. */
  predicate HeaderInOrder(rules: Rules, b: Block, median: int) {
    && b.header.version == 2
    && 1 <= b.header.target <= 0x0000FFFF00000000000000000000000000000000000000000000000000000000
    && b.header.merkleRoot
       == (if b.transactions == [] then Raw(seq(32, _ => 0)) else TreeHash(Hashes(b.transactions)))
    && rules.powValue(HeaderHash(b.header)) <= b.header.target
    && b.header.timestamp > 0 && b.header.timestamp > median
  }

  /** The block fits on the chain: link, expected target, and the registry state it names and changes. */
  ghost predicate FitsOn(rules: Rules, chain: seq<Block>, b: Block)
    requires chain != []
  {
    var before := StateAfter(rules.ctx, chain, |chain| - 1);
    && b.header.prevHash == HeaderHash(chain[|chain| - 1].header)
    && b.header.target == ExpectedTargetAt(chain, |chain|)
    && before.Ok? && b.header.registryRoot == RegistryRoot(before.value)
    && AllParse(b.transactions, rules.ctx.networkId)
    && AppliedInTurn(rules.ctx, before.value, Carried(b.transactions), |chain|).Some?
  }

  lemma {:induction false} VerifiedExactlyWhen(rules: Rules, b: Block, reference: Option<int>, median: int)
    ensures Verify(rules, b, reference, false, Some(median), Some(b.header.target), Some(rules.validator))
            <==> && HeaderInOrder(rules, b, median) && EachPasses(rules, b.transactions)
                 && (reference.Some? ==> b.header.timestamp <= reference.value + 7200)
  {
    EachIsAll(rules, b.transactions);
    MerkleRootIsTree(b);
  }

  /**
   Admission at time `now`, condition by condition. So a block that is otherwise in order is admitted exactly
   when schema and validator take every one of its transactions.
   */
  lemma {:induction false} AdmittedExactlyWhen(rules: Rules, chain: seq<Block>, b: Block, now: int)
    requires chain != []
    ensures Admissible(rules, chain, b, now)
            <==> && FitsOn(rules, chain, b)
                 && HeaderInOrder(rules, b, MedianPastTime(Timestamps(chain), |chain|))
                 && b.header.timestamp <= now + 7200
                 && EachPasses(rules, b.transactions)
  {
    VerifiedExactlyWhen(rules, b, Some(now), MedianBefore(chain, |chain|));
    var before := StateAfter(rules.ctx, chain, |chain| - 1);
    if before.Ok? {
      BlockAppliesExactlyWhen(rules.ctx, before.value, b.transactions, |chain|);
    }
  }

  /** Full validation of one block: the same without the clock. */
  lemma {:induction false} ValidExactlyWhen(rules: Rules, chain: seq<Block>, i: nat)
    requires 0 < i < |chain|
    ensures ValidAt(rules, chain, i)
            <==> && FitsOn(rules, chain[..i], chain[i])
                 && HeaderInOrder(rules, chain[i], MedianPastTime(Timestamps(chain[..i]), i))
                 && EachPasses(rules, chain[i].transactions)
  {
    AdmissionIsValidation(rules, chain, i, chain[i].header.timestamp);
    AdmittedExactlyWhen(rules, chain[..i], chain[i], chain[i].header.timestamp);
  }

  /** One transaction that schema or validator refuses keeps the block out, whatever the clock says. */
  lemma {:induction false} FailingTransactionIsRefused(rules: Rules, chain: seq<Block>, b: Block, tx: Transaction,
                                                       now: int)
    requires chain != [] && tx in b.transactions && !(rules.schemaValid(tx) && rules.validator(tx))
    ensures !Admissible(rules, chain, b, now)
  {
    AdmittedExactlyWhen(rules, chain, b, now);
    assert !Passes(rules, tx);
  }

  /** On every accepted chain every transaction above genesis passed both, parses, and its block carries its work. */
  lemma {:induction false} AcceptedTransactionsPass(rules: Rules, chain: seq<Block>, i: nat, tx: Transaction)
    requires ValidChain(rules, chain) && 0 < i < |chain| && tx in chain[i].transactions
    ensures rules.schemaValid(tx) && rules.validator(tx)
    ensures !tx.MalformedGovernance? && (tx.Governance? ==> tx.tx.networkId == rules.ctx.networkId)
    ensures rules.powValue(HeaderHash(chain[i].header)) <= chain[i].header.target
  {
    assert ValidAt(rules, chain, i);
    ValidExactlyWhen(rules, chain, i);
    assert Passes(rules, tx) && ParsesFor(tx, rules.ctx.networkId);
  }

  // ---------- genesis ----------

  /** A genesis block passes as the identity's own: its header, and either the frozen alpha hash or a sound block. */
  lemma {:induction false} GenesisExactlyWhen(rules: Rules, b: Block)
    ensures GenesisValid(rules, b)
            <==> && b.header == rules.genesisHeader
                 && b.header.version == 2 && b.header.prevHash == Raw(seq(32, _ => 0))
                 && (|| HeaderHash(b.header) == rules.alphaGenesis
                     || (HeaderInOrder(rules, b, 0) && forall tx :: tx in b.transactions ==> rules.schemaValid(tx)))
  {
    assert Zeros(32) == seq(32, _ => 0);
    MerkleRootIsTree(b);
    if forall tx :: tx in b.transactions ==> rules.schemaValid(tx) {
      assert AllPass(b.transactions, rules.schemaValid);
    }
    if AllPass(b.transactions, rules.schemaValid) {
      forall tx | tx in b.transactions ensures rules.schemaValid(tx) {
        var i :| 0 <= i < |b.transactions| && b.transactions[i] == tx;
      }
    }
  }

  /** The first registry state: no curators, schema 1, and the governance keys in dictionary order. */
  lemma {:induction false} GenesisStateExactly(ctx: Context, s: State)
    ensures s == GenesisState(ctx)
            <==> && s.records == [] && s.governanceVersion == 1
                 && s.networkId == ctx.networkId && s.threshold == ctx.threshold
                 && multiset(s.governanceKeys) == multiset(ctx.keys) && SortedBy(s.governanceKeys, LexLeq)
  {
    LexIsAPreorder();
    SortPermutes(ctx.keys, LexLeq);
    SortSorts(ctx.keys, LexLeq);
    if multiset(s.governanceKeys) == multiset(ctx.keys) && SortedBy(s.governanceKeys, LexLeq) {
      SortedAlike(s.governanceKeys, ctx.keys);
      SortedIsFixed(s.governanceKeys);
    }
  }

  lemma {:induction false} SortedIsFixed(keys: seq<bytes>)
    requires SortedBy(keys, LexLeq)
    ensures Sort(keys, LexLeq) == keys
  {
    SortPermutes(keys, LexLeq);
    LexIsAPreorder();
    SortSorts(keys, LexLeq);
    LexIsAntisymmetric(keys);
    SortedArrangementsAgree(keys, Sort(keys, LexLeq), LexLeq);
  }

  lemma {:induction false} LexIsAntisymmetric(keys: seq<bytes>)
    ensures Antisymmetric(keys, LexLeq)
  {
    forall x, y | x in keys && y in keys && LexLeq(x, y) && LexLeq(y, x) ensures x == y {
      LexTotal(x, y);
    }
  }

  /** Three placeholder keys, in any order, open a ledger of the alpha network only. */
  lemma {:induction false} IdentityExactlyWhen(rules: Rules, b: Block)
    ensures IdentityHolds(rules, b)
            <==> && b.header == rules.genesisHeader
                 && b.header.version == 2 && b.header.prevHash == Raw(seq(32, _ => 0))
                 && RegistryRoot(GenesisState(rules.ctx)) == rules.genesisRegistryRoot
                 && (rules.alpha || multiset(rules.ctx.keys) != multiset(Placeholders()))
  {
    assert Zeros(32) == seq(32, _ => 0);
    SortedAlike(rules.ctx.keys, PLACEHOLDER_KEYS);
    assert PLACEHOLDER_KEYS == Placeholders();
  }

  function Placeholders(): seq<bytes> {
    [seq(32, _ => 0x00), seq(32, _ => 0x11), seq(32, _ => 0x22)]
  }

  lemma {:induction false} LexIsAPreorder()
    ensures TotalPreorder<bytes>(LexLeq)
  {
    forall a: bytes, b: bytes ensures LexLeq(a, b) || LexLeq(b, a) {
      LexTotal(a, b);
    }
    forall a: bytes, b: bytes, c: bytes | LexLeq(a, b) && LexLeq(b, c) ensures LexLeq(a, c) {
      LexTransitive(a, b, c);
    }
  }

  lemma {:induction false} SortedAlike(a: seq<bytes>, b: seq<bytes>)
    ensures Sort(a, LexLeq) == Sort(b, LexLeq) <==> multiset(a) == multiset(b)
  {
    SortPermutes(a, LexLeq);
    SortPermutes(b, LexLeq);
    LexIsAPreorder();
    SortSorts(a, LexLeq);
    SortSorts(b, LexLeq);
    if multiset(a) == multiset(b) {
      LexIsAntisymmetric(Sort(a, LexLeq));
      SortedArrangementsAgree(Sort(a, LexLeq), Sort(b, LexLeq), LexLeq);
    }
  }
}
