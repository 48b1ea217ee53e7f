/**
 The sync engine between ledger and store. What the store holds plus the pending blocks is the ledger's
 chain, unless a call drops blocks the ledger has already taken: exactly which calls do, and what follows.
 */
module SyncStore {
  import opened Wrappers
  import opened Types
  import opened Blocks
  import opened Storage
  import opened StorageRuns
  import opened StorageLedger
  import opened LongestChain
  import opened Sync
  import opened SyncProgress
  import opened RefusedChain
  import Switching

  datatype Call =
    | Start
    | Headers(entries: Option<seq<Option<Header>>>)
    | BlockIn(payload: Option<seq<Option<Block>>>, now: int, saves: nat -> Save)
    | Reset

  function OnCall(rules: Rules, genesis: Hash, n: Node, c: Call): (next: Node)
    requires n.chain != []
    ensures next.chain != []
  {
    match c
    case Start => n.(state := RequestingHeaders)
    case Headers(entries) => OnHeaders(rules, n, entries).0
    case BlockIn(payload, now, saves) => OnBlock(rules, genesis, n, payload, now, saves).0
    case Reset => OnReset(n)
  }

  // ---------- in step ----------

  /**
   The disk holds a list of blocks, with their files and records, and the ledger has these and then the
   pending ones.
   */
  ghost predicate InStep(genesis: Block, n: Node) {
    Sound(genesis, n) && n.chain == LedgerOf(genesis, n.disk) + n.blocks
  }

  function ReadBack(d: Disk): seq<Block> {
    match ReadChain(d)
    case Some(blocks) => blocks
    case None => []
  }

  ghost predicate Sound(genesis: Block, n: Node) {
    n.chain != [] && HoldsBlocks(n.disk, BlockHash(genesis), ReadBack(n.disk))
  }

  lemma {:induction false} HeldIsRead(d: Disk, genesis: Block, chain: seq<Block>)
    requires HoldsBlocks(d, BlockHash(genesis), chain)
    ensures ReadBack(d) == chain && LedgerOf(genesis, d) == [genesis] + chain
  {
    ReadsCarried(d, BlockHash(genesis), chain);
  }

  /** How many of the blocks from position k on become part of the stored chain. */
  function TakenFrom(saves: nat -> Save, count: nat, k: nat): (r: nat)
    requires k <= count
    ensures r <= count - k
    decreases count - k
  {
    if k == count then 0
    else if saves(k).steps >= APPEND_STEPS then 1 + TakenFrom(saves, count, k + 1)
    else if saves(k).steps >= HEAD_MOVED then 1 else 0
  }

  lemma {:induction false} SavingHolds(genesis: Hash, disk: Disk, stored: seq<Block>, blocks: seq<Block>,
                                       saves: nat -> Save, k: nat)
    requires HoldsBlocks(disk, genesis, stored) && k <= |blocks|
    ensures var taken := TakenFrom(saves, |blocks|, k);
            HoldsBlocks(SaveFrom(genesis, disk, blocks, saves, k).0, genesis, stored + blocks[k..k + taken])
    decreases |blocks| - k
  {
    if k == |blocks| {
      assert stored + blocks[k..k] == stored;
    } else {
      var x, taken := saves(k), TakenFrom(saves, |blocks|, k);
      if x.steps >= APPEND_STEPS {
        var next := FullSave(genesis, disk, stored, blocks[k], x);
        SavingHolds(genesis, next, stored + [blocks[k]], blocks, saves, k + 1);
        OneThenMore(stored, blocks, k, taken);
      } else {
        LastSave(genesis, disk, stored, blocks[k], x);
        assert blocks[k..k + taken] == if x.steps >= HEAD_MOVED then [blocks[k]] else [];
      }
    }
  }

  lemma {:induction false} OneThenMore(stored: seq<Block>, blocks: seq<Block>, k: nat, taken: nat)
    requires 0 < taken && k + taken <= |blocks|
    ensures stored + [blocks[k]] + blocks[k + 1..k + taken] == stored + blocks[k..k + taken]
    ensures k + 1 + (taken - 1) == k + taken
  {
  }

  lemma {:induction false} FullSave(genesis: Hash, disk: Disk, stored: seq<Block>, b: Block, x: Save)
    returns (next: Disk)
    requires HoldsBlocks(disk, genesis, stored) && x.steps >= APPEND_STEPS
    ensures next == Append(disk, genesis, b, x.state, APPEND_STEPS) && HoldsBlocks(next, genesis, stored + [b])
  {
    next := Append(disk, genesis, b, x.state, APPEND_STEPS);
    AppendIsAtomic(disk, genesis, stored, b, x.state, APPEND_STEPS);
  }

  lemma {:induction false} LastSave(genesis: Hash, disk: Disk, stored: seq<Block>, b: Block, x: Save)
    requires HoldsBlocks(disk, genesis, stored) && x.steps < APPEND_STEPS
    ensures HoldsBlocks(Append(disk, genesis, b, x.state, x.steps), genesis,
                        stored + if x.steps >= HEAD_MOVED then [b] else [])
  {
    AppendIsAtomic(disk, genesis, stored, b, x.state, x.steps);
    assert stored + [] == stored;
  }

  /** The call brings the last block asked for, and the ledger admits it. */
  predicate Completes(rules: Rules, n: Node, c: Call)
    requires n.chain != []
  {
    && c.BlockIn? && |n.headers| == 1 && c.payload.Some?
    && CheckBlock(n.chain, n.blocks, c.payload.value) == Passed
    && Chain.Admissible(rules, n.chain, c.payload.value[0].value, c.now)
  }

  /** A reset with blocks pending, or a commit of which the store does not take every block. */
  predicate Loses(rules: Rules, n: Node, c: Call)
    requires n.chain != []
  {
    || (c.Reset? && n.blocks != [])
    || (Completes(rules, n, c) && TakenFrom(c.saves, |n.blocks| + 1, 0) < |n.blocks| + 1)
  }

  lemma {:induction false} QuietCall(rules: Rules, genesis: Hash, n: Node, c: Call)
    requires n.chain != [] && !Completes(rules, n, c) && !c.Reset?
    ensures var next := OnCall(rules, genesis, n, c);
            next.disk == n.disk
            && ((next.chain == n.chain && next.blocks == n.blocks)
                || exists b, now :: Chain.Admissible(rules, n.chain, b, now)
                                    && next.chain == n.chain + [b] && next.blocks == n.blocks + [b])
  {
    if c.BlockIn? && n.headers != [] && c.payload.Some? && CheckBlock(n.chain, n.blocks, c.payload.value) == Passed {
      var b := c.payload.value[0].value;
      if Chain.Admissible(rules, n.chain, b, c.now) {
        assert n.headers[1..] != [];
      }
    }
  }

  lemma {:induction false} CompletingCall(rules: Rules, genesis: Hash, n: Node, c: Call)
    requires n.chain != [] && Completes(rules, n, c)
    ensures var b, next := c.payload.value[0].value, OnCall(rules, genesis, n, c);
            && next.chain == n.chain + [b] && next.blocks == []
            && next.disk == SaveFrom(genesis, n.disk, n.blocks + [b], c.saves, 0).0
  {
    assert n.headers[1..] == [];
  }

  lemma {:induction false} CompletingKeepsStep(rules: Rules, genesis: Block, n: Node, c: Call)
    requires InStep(genesis, n) && Completes(rules, n, c)
    ensures Sound(genesis, OnCall(rules, BlockHash(genesis), n, c))
    ensures InStep(genesis, OnCall(rules, BlockHash(genesis), n, c))
            <==> TakenFrom(c.saves, |n.blocks| + 1, 0) == |n.blocks| + 1
  {
    var b, next := c.payload.value[0].value, OnCall(rules, BlockHash(genesis), n, c);
    var all, stored := n.blocks + [b], ReadBack(n.disk);
    var taken := TakenFrom(c.saves, |all|, 0);
    CompletingCall(rules, BlockHash(genesis), n, c);
    SavingHolds(BlockHash(genesis), n.disk, stored, all, c.saves, 0);
    assert all[0..0 + taken] == all[..taken];
    HeldIsRead(n.disk, genesis, stored);
    StepAfterSaving(genesis, n, next, b, stored, taken);
  }

  lemma {:induction false} StepAfterSaving(genesis: Block, n: Node, next: Node, b: Block, stored: seq<Block>,
                                           taken: nat)
    requires n.chain == [genesis] + stored + n.blocks && next.chain == n.chain + [b] && next.blocks == []
    requires taken <= |n.blocks| + 1
    requires HoldsBlocks(next.disk, BlockHash(genesis), stored + (n.blocks + [b])[..taken])
    ensures Sound(genesis, next) && (InStep(genesis, next) <==> taken == |n.blocks| + 1)
  {
    var all := n.blocks + [b];
    HeldIsRead(next.disk, genesis, stored + all[..taken]);
    assert next.chain == [genesis] + (stored + all);
    assert LedgerOf(genesis, next.disk) + next.blocks == [genesis] + (stored + all[..taken]);
    if taken == |all| {
      assert all[..taken] == all;
    }
  }

  /** One call keeps ledger and store in step exactly when it loses nothing. */
  lemma {:induction false} CallKeepsStep(rules: Rules, genesis: Block, n: Node, c: Call)
    requires InStep(genesis, n)
    ensures Sound(genesis, OnCall(rules, BlockHash(genesis), n, c))
    ensures InStep(genesis, OnCall(rules, BlockHash(genesis), n, c)) <==> !Loses(rules, n, c)
  {
    var next := OnCall(rules, BlockHash(genesis), n, c);
    if Completes(rules, n, c) {
      CompletingKeepsStep(rules, genesis, n, c);
    } else if c.Reset? {
      assert LedgerOf(genesis, n.disk) + [] == LedgerOf(genesis, n.disk);
    } else {
      QuietCall(rules, BlockHash(genesis), n, c);
      QuietKeepsStep(genesis, n, next);
    }
  }

  lemma {:induction false} QuietKeepsStep(genesis: Block, n: Node, next: Node)
    requires InStep(genesis, n) && next.disk == n.disk
    requires (next.chain == n.chain && next.blocks == n.blocks)
             || exists b :: next.chain == n.chain + [b] && next.blocks == n.blocks + [b]
    ensures InStep(genesis, next)
  {
    if !(next.chain == n.chain && next.blocks == n.blocks) {
      var b :| next.chain == n.chain + [b] && next.blocks == n.blocks + [b];
      assert LedgerOf(genesis, n.disk) + n.blocks + [b] == LedgerOf(genesis, n.disk) + (n.blocks + [b]);
    }
  }

  // ---------- over runs ----------

  ghost predicate SyncRun(rules: Rules, genesis: Block, nodes: seq<Node>, calls: seq<Call>) {
    && |nodes| == |calls| + 1 && InStep(genesis, nodes[0])
    && forall k :: 0 <= k < |calls| ==> CallAt(rules, genesis, nodes, calls, k)
  }

  predicate CallAt(rules: Rules, genesis: Block, nodes: seq<Node>, calls: seq<Call>, k: nat)
    requires k < |calls| < |nodes|
  {
    nodes[k].chain != [] && nodes[k + 1] == OnCall(rules, BlockHash(genesis), nodes[k], calls[k])
  }

  ghost predicate LosesAt(rules: Rules, nodes: seq<Node>, calls: seq<Call>, k: nat)
    requires k < |calls| < |nodes|
  {
    nodes[k].chain != [] && Loses(rules, nodes[k], calls[k])
  }

  ghost predicate StepAt(genesis: Block, nodes: seq<Node>, k: nat)
    requires k < |nodes|
  {
    InStep(genesis, nodes[k])
  }

  lemma {:induction false} StepUpTo(rules: Rules, genesis: Block, nodes: seq<Node>, calls: seq<Call>, k: nat)
    requires SyncRun(rules, genesis, nodes, calls) && k <= |calls|
    requires forall j :: 0 <= j < k ==> !LosesAt(rules, nodes, calls, j)
    ensures StepAt(genesis, nodes, k)
  {
    if k > 0 {
      StepUpTo(rules, genesis, nodes, calls, k - 1);
      assert CallAt(rules, genesis, nodes, calls, k - 1);
      assert !LosesAt(rules, nodes, calls, k - 1);
      CallKeepsStep(rules, genesis, nodes[k - 1], calls[k - 1]);
    }
  }

  /** Over any calls: in step all the way exactly when no call loses a block. */
  lemma {:induction false} InStepThroughoutExactlyWhen(rules: Rules, genesis: Block, nodes: seq<Node>, calls: seq<Call>)
    requires SyncRun(rules, genesis, nodes, calls)
    ensures (forall k :: 0 <= k < |nodes| ==> StepAt(genesis, nodes, k))
            <==> forall k :: 0 <= k < |calls| ==> !LosesAt(rules, nodes, calls, k)
  {
    if forall k :: 0 <= k < |calls| ==> !LosesAt(rules, nodes, calls, k) {
      forall k | 0 <= k < |nodes| ensures StepAt(genesis, nodes, k) {
        StepUpTo(rules, genesis, nodes, calls, k);
      }
    } else if forall k :: 0 <= k < |nodes| ==> StepAt(genesis, nodes, k) {
      forall k | 0 <= k < |calls| ensures !LosesAt(rules, nodes, calls, k) {
        assert CallAt(rules, genesis, nodes, calls, k);
        assert StepAt(genesis, nodes, k) && StepAt(genesis, nodes, k + 1);
        CallKeepsStep(rules, genesis, nodes[k], calls[k]);
      }
    }
  }

  lemma {:induction false} CallKeepsValid(rules: Rules, genesis: Hash, n: Node, c: Call)
    requires Chain.ValidChain(rules, n.chain)
    ensures Chain.ValidChain(rules, OnCall(rules, genesis, n, c).chain)
  {
    if Completes(rules, n, c) {
      CompletingCall(rules, genesis, n, c);
      Chain.AdmittedKeepsValid(rules, n.chain, c.payload.value[0].value, c.now);
    } else if !c.Reset? {
      QuietCall(rules, genesis, n, c);
      QuietKeepsValid(rules, n.chain, OnCall(rules, genesis, n, c).chain);
    }
  }

  lemma {:induction false} QuietKeepsValid(rules: Rules, chain: seq<Block>, next: seq<Block>)
    requires Chain.ValidChain(rules, chain)
    requires next == chain || exists b, now :: Chain.Admissible(rules, chain, b, now) && next == chain + [b]
    ensures Chain.ValidChain(rules, next)
  {
    if next != chain {
      var b, now :| Chain.Admissible(rules, chain, b, now) && next == chain + [b];
      Chain.AdmittedKeepsValid(rules, chain, b, now);
    }
  }

  lemma {:induction false} LedgerStaysValid(rules: Rules, genesis: Block, nodes: seq<Node>, calls: seq<Call>, k: nat)
    requires SyncRun(rules, genesis, nodes, calls) && Chain.ValidChain(rules, nodes[0].chain) && k <= |calls|
    ensures Chain.ValidChain(rules, nodes[k].chain)
  {
    if k > 0 {
      LedgerStaysValid(rules, genesis, nodes, calls, k - 1);
      assert CallAt(rules, genesis, nodes, calls, k - 1);
      CallKeepsValid(rules, BlockHash(genesis), nodes[k - 1], calls[k - 1]);
    }
  }

  lemma {:induction false} PrefixIsValid(rules: Rules, chain: seq<Block>, n: nat)
    requires Chain.ValidChain(rules, chain) && 0 < n <= |chain|
    ensures Chain.ValidChain(rules, chain[..n])
  {
    Switching.ValidUpToFork(rules, chain, chain[..n], n - 1);
  }

  /** As long as nothing was lost, what a restart reads back is a chain the ledger accepts. */
  lemma {:induction false} StoredChainIsValid(rules: Rules, genesis: Block, nodes: seq<Node>, calls: seq<Call>, k: nat)
    requires SyncRun(rules, genesis, nodes, calls) && Chain.ValidChain(rules, nodes[0].chain) && k <= |calls|
    requires forall j :: 0 <= j < k ==> !LosesAt(rules, nodes, calls, j)
    ensures Chain.ValidChain(rules, LedgerOf(genesis, nodes[k].disk))
  {
    StepUpTo(rules, genesis, nodes, calls, k);
    LedgerStaysValid(rules, genesis, nodes, calls, k);
    var stored := LedgerOf(genesis, nodes[k].disk);
    assert nodes[k].chain[..|stored|] == stored;
    PrefixIsValid(rules, nodes[k].chain, |stored|);
  }

  // ---------- a run that loses a block ----------

  lemma {:induction false} GrownIsAdmissible(rules: Rules, chain: seq<Block>, from: nat, clock: nat -> int)
    requires Chain.ValidChain(rules, chain) && 0 < from <= |chain|
    requires forall k :: 0 <= k && from + k < |chain| ==> clock(k) == chain[from + k].header.timestamp
    ensures AdmissibleInTurn(rules, chain[..from], chain[from..], clock)
  {
    var above := chain[from..];
    forall k | 0 <= k < |above| ensures AdmissibleNext(rules, chain[..from], above, clock, k) {
      ValidIsAdmissible(rules, chain, from + k);
      assert chain[..from] + above[..k] == chain[..from + k];
    }
  }

  lemma {:induction false} ValidIsAdmissible(rules: Rules, chain: seq<Block>, i: nat)
    requires Chain.ValidChain(rules, chain) && 0 < i < |chain|
    ensures Chain.Admissible(rules, chain[..i], chain[i], chain[i].header.timestamp)
  {
    Chain.AdmissionIsValidation(rules, chain, i, chain[i].header.timestamp);
    assert Chain.ValidAt(rules, chain, i);
  }

  function ClockOf(chain: seq<Block>, from: nat): nat -> int {
    (k: nat) => if from + k < |chain| then chain[from + k].header.timestamp else 0
  }

  /** A first node on genesis that is asked for two blocks, gets the first, and is reset. */
  function ResetNode(rules: Rules, genesis: Block, chain: seq<Block>, saves: nat -> Save): Node
    requires |chain| >= 3
  {
    var g, first := BlockHash(genesis), Node([genesis], EMPTY_DISK, [], [], Idle);
    var asked := OnCall(rules, g, first, Headers(Some(Entries(chain[1..3]))));
    var half := OnCall(rules, g, asked, BlockIn(Sent(chain[1]), ClockOf(chain, 1)(0), saves));
    OnCall(rules, g, half, Reset)
  }

  lemma {:induction false} HalfWay(rules: Rules, genesis: Block, chain: seq<Block>, saves: nat -> Save)
    requires |chain| == 3 && Chain.ValidChain(rules, chain) && Chain.StandardGenesis(rules) && chain[0] == genesis
    ensures ResetNode(rules, genesis, chain, saves) == Node(chain[..2], EMPTY_DISK, [], [], Idle)
  {
    var first, blocks, clock := Node([genesis], EMPTY_DISK, [], [], Idle), chain[1..3], ClockOf(chain, 1);
    PrefixIsValid(rules, chain, 1);
    assert chain[..1] == [genesis] && chain[1..] == blocks;
    LedgerChainsAreRegular(rules, [genesis]);
    GrownIsAdmissible(rules, chain, 1, clock);
    HonestHeaders(rules, first, blocks, clock);
    AskedNode(rules, first, blocks);
    var asked := OnHeaders(rules, first, Some(Entries(blocks))).0;
    assert AdmissibleNext(rules, [genesis], blocks, clock, 0);
    OneBlockIn(rules, BlockHash(genesis), asked, blocks, clock, saves, 0);
    assert [genesis] + blocks[..1] == chain[..2];
  }

  lemma {:induction false} ResetOfLonger(rules: Rules, genesis: Block, chain: seq<Block>, saves: nat -> Save)
    requires |chain| >= 3
    ensures ResetNode(rules, genesis, chain, saves) == ResetNode(rules, genesis, chain[..3], saves)
  {
    assert chain[..3][1..3] == chain[1..3] && chain[..3][1] == chain[1];
    assert ClockOf(chain, 1)(0) == ClockOf(chain[..3], 1)(0);
  }

  /** A store that never got block 1 takes blocks 2 to 4 all the same. */
  lemma {:induction false} SyncAfterReset(rules: Rules, genesis: Block, chain: seq<Block>, saves: nat -> Save)
    requires |chain| == 5 && Chain.ValidChain(rules, chain) && Chain.StandardGenesis(rules) && chain[0] == genesis
    requires StoreWorks(saves)
    ensures var r := SyncWith(rules, BlockHash(genesis), Node(chain[..2], EMPTY_DISK, [], [], Idle), chain[2..],
                              ClockOf(chain, 2), saves);
            r.1 == Ok(Synced(4)) && r.0.chain == chain && LedgerOf(genesis, r.0.disk) == [genesis] + chain[2..]
  {
    var n, blocks, clock := Node(chain[..2], EMPTY_DISK, [], [], Idle), chain[2..], ClockOf(chain, 2);
    PrefixIsValid(rules, chain, 2);
    LedgerChainsAreRegular(rules, chain[..2]);
    GrownIsAdmissible(rules, chain, 2, clock);
    var asked := SyncGoes(rules, BlockHash(genesis), n, blocks, clock, saves);
    assert chain[..2] + blocks[..3] == chain && blocks[..3] == blocks;
    CommitsWhole(BlockHash(genesis), Midway(asked, blocks, 3).(state := ValidatingBlocks), saves);
    EmptyDiskTakes(genesis, blocks, saves);
  }

  lemma {:induction false} EmptyDiskTakes(genesis: Block, blocks: seq<Block>, saves: nat -> Save)
    requires StoreWorks(saves)
    ensures LedgerOf(genesis, SaveFrom(BlockHash(genesis), EMPTY_DISK, blocks, saves, 0).0) == [genesis] + blocks
  {
    CarriesNothing(genesis, EMPTY_DISK);
    SavingHolds(BlockHash(genesis), EMPTY_DISK, Committed([]), blocks, saves, 0);
    AllTaken(saves, |blocks|, 0);
    assert Committed([]) + blocks[0..|blocks|] == blocks;
    HeldIsRead(SaveFrom(BlockHash(genesis), EMPTY_DISK, blocks, saves, 0).0, genesis, blocks);
  }

  lemma {:induction false} AllTaken(saves: nat -> Save, count: nat, k: nat)
    requires StoreWorks(saves) && k <= count
    ensures TakenFrom(saves, count, k) == count - k
    decreases count - k
  {
    if k < count {
      AllTaken(saves, count, k + 1);
    }
  }

  /**
   After a reset between two blocks a later synchronisation reports success, its ledger is valid, and the
   store holds blocks that no ledger accepts: the one dropped by the reset is missing below them.
   */
  lemma {:induction false} ResetBreaksTheStore(rules: Rules, genesis: Block, saves: nat -> Save)
    returns (chain: seq<Block>)
    requires Mineable(rules, genesis) && StoreWorks(saves)
    ensures |chain| == 5 && Chain.ValidChain(rules, chain)
    ensures var n := ResetNode(rules, genesis, chain, saves);
            var r := SyncWith(rules, BlockHash(genesis), n, chain[2..], ClockOf(chain, 2), saves);
            r.1 == Ok(Synced(4)) && r.0.chain == chain && !Chain.ValidChain(rules, LedgerOf(genesis, r.0.disk))
  {
    chain := Grow(rules, genesis, QUICK, 4);
    GrownIsValid(rules, genesis, QUICK, 4);
    PrefixIsValid(rules, chain, 3);
    ResetOfLonger(rules, genesis, chain, saves);
    HalfWay(rules, genesis, chain[..3], saves);
    assert chain[..3][..2] == chain[..2];
    SyncAfterReset(rules, genesis, chain, saves);
    GapIsRefused(rules, genesis, chain);
  }

  lemma {:induction false} GapIsRefused(rules: Rules, genesis: Block, chain: seq<Block>)
    requires Chain.ValidChain(rules, chain) && |chain| == 5 && chain[0] == genesis
    ensures !Chain.ValidChain(rules, [genesis] + chain[2..])
  {
    var gap := [genesis] + chain[2..];
    assert Chain.ValidAt(rules, chain, 1) && Chain.ValidAt(rules, chain, 2);
    assert gap[1] == chain[2] && gap[0] == genesis;
    assert PrevDepth(BlockHash(chain[1])) == 1 + PrevDepth(BlockHash(genesis));
    assert !Chain.ValidAt(rules, gap, 1);
  }
}
