/**
 The flat-file store: committing a block as a fixed order of durable steps, a crash allowed
 between any two of them, and the recovery that runs after a crash.
 */
module Storage {
  import opened Wrappers
  import opened Types

  // ---------- files ----------

  type State = RegistryState<Hash>

  datatype HeadFile = HeadRecord(height: nat, hash: Hash, genesis: Hash) | GarbledHead
  datatype HeaderFile = HeaderBytes(header: Header) | WrongLength
  datatype BlockFile = BlockRecord(block: Block) | Unreadable

  datatype JournalKind = Begin | HeaderStaged | BlockStaged | RegistryStaged | IndexStaged | Commit
  datatype JournalRecord = JournalRecord(kind: JournalKind, height: nat)

  /** The temporary files of appends, by height. */
  datatype Staging = Staging(headers: map<nat, HeaderFile>, blocks: map<nat, BlockFile>, states: map<nat, State>)

  datatype Disk = Disk(
    head: Option<HeadFile>,
    journal: seq<JournalRecord>,
    headers: map<nat, HeaderFile>,
    blocks: map<nat, BlockFile>,
    snapshots: map<nat, State>,
    staged: Staging,
    heightToHash: Option<map<nat, Hash>>,
    hashToHeight: Option<map<Hash, nat>>)

  const EMPTY_DISK := Disk(None, [], map[], map[], map[], Staging(map[], map[], map[]), None, None)

  function OrEmpty<K(==), V>(o: Option<map<K, V>>): map<K, V> {
    match o
    case None => map[]
    case Some(m) => m
  }

  // ---------- append_block, one durable step at a time ----------

  const APPEND_STEPS := 18
  /** After this many steps HEAD has moved. */
  const HEAD_MOVED := 15
  const SNAPSHOT_INTERVAL := 100

  /** What one append commits: a block, and the registry state after it, at the height above the tip. */
  datatype Entry = Entry(height: nat, block: Block, state: State)

  /**
   Height and hash of the tip; a HEAD that does not decode makes get_tip raise, which no run of the protocol
   causes.
   */
  function TipHeight(d: Disk): nat {
    match d.head
    case Some(HeadRecord(height, _, _)) => height
    case _ => 0
  }

  function TipHash(d: Disk, genesis: Hash): Hash {
    match d.head
    case Some(HeadRecord(_, hash, _)) => hash
    case _ => genesis
  }

  function Log(d: Disk, kind: JournalKind, height: nat): Disk {
    d.(journal := d.journal + [JournalRecord(kind, height)])
  }

  /** The k-th durable step of committing x. */
  function AppendStep(d: Disk, genesis: Hash, x: Entry, k: nat): Disk {
    if k < 7 then StageStep(d, x, k) else if k < 12 then PublishStep(d, x, k) else CommitStep(d, genesis, x, k)
  }

  /** Journal BEGIN; then header, block record and registry state, each staged and journalled. */
  function StageStep(d: Disk, x: Entry, k: nat): Disk {
    match k
    case 0 => Log(d, Begin, x.height)
    case 1 => d.(staged := d.staged.(headers := d.staged.headers[x.height := HeaderBytes(x.block.header)]))
    case 2 => Log(d, HeaderStaged, x.height)
    case 3 => d.(staged := d.staged.(blocks := d.staged.blocks[x.height := BlockRecord(x.block)]))
    case 4 => Log(d, BlockStaged, x.height)
    case 5 => d.(staged := d.staged.(states := d.staged.states[x.height := x.state]))
    case _ => Log(d, RegistryStaged, x.height)
  }

  /**
   Header, block and, at its interval or over an old one, the snapshot become files of the height; then the
   two indexes.
   */
  function PublishStep(d: Disk, x: Entry, k: nat): Disk {
    var h := x.height;
    match k
    case 7 => if h in d.staged.headers then d.(headers := d.headers[h := d.staged.headers[h]]) else d
    case 8 => if h in d.staged.blocks then d.(blocks := d.blocks[h := d.staged.blocks[h]]) else d
    case 9 => if h in d.snapshots || h % SNAPSHOT_INTERVAL == 0 then d.(snapshots := d.snapshots[h := x.state]) else d
    case 10 => d.(heightToHash := Some(OrEmpty(d.heightToHash)[h := BlockHash(x.block)]))
    case _ => d.(hashToHeight := Some(OrEmpty(d.hashToHeight)[BlockHash(x.block) := h]))
  }

  /** The indexes journalled, COMMIT, HEAD, and the staged files removed. */
  function CommitStep(d: Disk, genesis: Hash, x: Entry, k: nat): Disk {
    match k
    case 12 => Log(d, IndexStaged, x.height)
    case 13 => Log(d, Commit, x.height)
    case 14 => d.(head := Some(HeadRecord(x.height, BlockHash(x.block), genesis)))
    case 15 => d.(staged := d.staged.(headers := d.staged.headers - {x.height}))
    case 16 => d.(staged := d.staged.(blocks := d.staged.blocks - {x.height}))
    case 17 => d.(staged := d.staged.(states := d.staged.states - {x.height}))
    case _ => d
  }

  /** The disk after the first n steps. */
  function AppendSteps(d: Disk, genesis: Hash, x: Entry, n: nat): Disk
    decreases n, x.height
  {
    if n == 0 then d else AppendStep(AppendSteps(d, genesis, x, n - 1), genesis, x, n - 1)
  }

  function Append(d: Disk, genesis: Hash, b: Block, s: State, n: nat): Disk {
    AppendSteps(d, genesis, Entry(TipHeight(d) + 1, b, s), n)
  }

  // ---------- recover_store ----------

  function CommitHeight(journal: seq<JournalRecord>): nat {
    if journal == [] then 0
    else
      var before, last := CommitHeight(journal[..|journal| - 1]), journal[|journal| - 1];
      if last.kind.Commit? && last.height > before then last.height else before
  }

  /** HEAD as recovery reads it: absent, undecodable or of another genesis all count as height 0. */
  function ReadHead(d: Disk, genesis: Hash): (nat, Hash) {
    match d.head
    case Some(HeadRecord(height, hash, g)) => if g == genesis then (height, hash) else (0, genesis)
    case _ => (0, genesis)
  }

  predicate VerifyBlock(d: Disk, h: nat, expected: Hash) {
    && h in d.headers && h in d.blocks
    && d.headers[h].HeaderBytes? && HeaderHash(d.headers[h].header) == expected
    && d.blocks[h].BlockRecord? && BlockHash(d.blocks[h].block) == expected
  }

  datatype Plan = Plan(safe: nat, current: Hash, rolledBack: seq<nat>)

  /** The backward walk from height h, with the chain claimed up to `top`. */
  function Walk(d: Disk, genesis: Hash, top: nat, h: nat, current: Hash): Plan {
    if h == 0 then Plan(top, current, [])
    else if VerifyBlock(d, h, current) then Walk(d, genesis, top, h - 1, d.blocks[h].block.header.prevHash)
    else Plan(h - 1, genesis, [h])
  }

  function StartHeight(d: Disk, genesis: Hash, maxHeight: Option<nat>): nat {
    var head, commit := ReadHead(d, genesis).0, CommitHeight(d.journal);
    var safe := if head < commit then head else commit;
    if maxHeight.Some? && safe > maxHeight.value then maxHeight.value else safe
  }

  function PlanOf(d: Disk, genesis: Hash, maxHeight: Option<nat>): Plan {
    var start := StartHeight(d, genesis, maxHeight);
    Walk(d, genesis, start, start, ReadHead(d, genesis).1)
  }

  function UpTo<V>(files: map<nat, V>, safe: nat): map<nat, V> {
    map h | h in files && h <= safe :: files[h]
  }

  /** Both indexes over the readable blocks with heights up to safe, filled in height order. */
  function IndexBlocks(blocks: map<nat, BlockFile>, safe: nat): (map<nat, Hash>, map<Hash, nat>) {
    var (forward, backward) := if safe == 0 then (map[], map[]) else IndexBlocks(blocks, safe - 1);
    if safe in blocks && blocks[safe].BlockRecord? then
      var hash := BlockHash(blocks[safe].block);
      (forward[safe := hash], backward[hash := safe])
    else (forward, backward)
  }

  function NewHead(d: Disk, genesis: Hash, p: Plan): Option<HeadFile> {
    if p.safe != ReadHead(d, genesis).0 then Some(HeadRecord(p.safe, p.current, genesis)) else d.head
  }

  function NewHeightToHash(d: Disk, safe: nat): Option<map<nat, Hash>> {
    var index := IndexBlocks(UpTo(d.blocks, safe), safe);
    if index.0 != map[] then Some(index.0) else d.heightToHash
  }

  function NewHashToHeight(d: Disk, safe: nat): Option<map<Hash, nat>> {
    var index := IndexBlocks(UpTo(d.blocks, safe), safe);
    if index.0 != map[] then Some(index.1) else d.hashToHeight
  }

  /** The disk a recovery that is not cut short leaves behind. */
  function Recovered(d: Disk, genesis: Hash, maxHeight: Option<nat>): Disk {
    RecoveredTo(d, genesis, PlanOf(d, genesis, maxHeight))
  }

  function RecoveredTo(d: Disk, genesis: Hash, p: Plan): Disk {
    d.(headers := UpTo(d.headers, p.safe),
       blocks := UpTo(d.blocks, p.safe),
       snapshots := UpTo(d.snapshots, p.safe),
       head := NewHead(d, genesis, p),
       heightToHash := NewHeightToHash(d, p.safe),
       hashToHeight := NewHashToHeight(d, p.safe))
  }

  /** Some files above safe gone, nothing else touched. */
  ghost predicate PartlyPruned<V(!new)>(before: map<nat, V>, after: map<nat, V>, safe: nat) {
    && (forall h :: h in after ==> h in before && after[h] == before[h])
    && (forall h :: h in before && h <= safe ==> h in after)
  }

  /** What a recovery cut short by a crash can leave behind: any of its effects done or not. */
  ghost predicate PartlyRecovered(d: Disk, e: Disk, genesis: Hash, maxHeight: Option<nat>) {
    PartlyRecoveredTo(d, e, genesis, PlanOf(d, genesis, maxHeight))
  }

  ghost predicate PartlyRecoveredTo(d: Disk, e: Disk, genesis: Hash, p: Plan) {
    && e.journal == d.journal
    && e.staged == d.staged
    && PartlyPruned(d.headers, e.headers, p.safe) && PartlyPruned(d.blocks, e.blocks, p.safe)
    && PartlyPruned(d.snapshots, e.snapshots, p.safe)
    && (e.head == d.head || e.head == NewHead(d, genesis, p))
    && (e.heightToHash == d.heightToHash || e.heightToHash == NewHeightToHash(d, p.safe))
    && (e.hashToHeight == d.hashToHeight || e.hashToHeight == NewHashToHeight(d, p.safe))
  }

  // ---------- rebuild_indexes of the backend ----------

  function Reindexed(d: Disk): Disk {
    var index := IndexBlocks(d.blocks, TipHeight(d));
    if index.0 != map[] then d.(heightToHash := Some(index.0), hashToHeight := Some(index.1))
    else d.(heightToHash := None, hashToHeight := None)
  }

  /** A rebuild cut short: each index file old or new. */
  predicate PartlyReindexed(d: Disk, e: Disk) {
    var r := Reindexed(d);
    e in {d, r, d.(heightToHash := r.heightToHash)}
  }

  // ---------- the store object ----------

  /** `crashAt` plays the failpoint: the call dies just before that durable step. */
  class FlatFileStore {
    const genesis: Hash
    var head: Option<HeadFile>
    var journal: seq<JournalRecord>
    var headers: map<nat, HeaderFile>
    var blocks: map<nat, BlockFile>
    var snapshots: map<nat, State>
    var stagedHeaders: map<nat, HeaderFile>
    var stagedBlocks: map<nat, BlockFile>
    var stagedStates: map<nat, State>
    var heightToHash: Option<map<nat, Hash>>
    var hashToHeight: Option<map<Hash, nat>>

    function Files(): Disk
      reads this
    {
      Disk(head, journal, headers, blocks, snapshots, Staging(stagedHeaders, stagedBlocks, stagedStates), heightToHash,
           hashToHeight)
    }

    constructor (genesis: Hash)
      ensures this.genesis == genesis && Files() == EMPTY_DISK
    {
      this.genesis := genesis;
      head, journal, headers, blocks, snapshots := None, [], map[], map[], map[];
      stagedHeaders, stagedBlocks, stagedStates := map[], map[], map[];
      heightToHash, hashToHeight := None, None;
    }

    method LogRecord(kind: JournalKind, height: nat)
      modifies this`journal
      ensures Files() == Log(old(Files()), kind, height)
    {
      journal := journal + [JournalRecord(kind, height)];
    }

    /** Registry state s is the one derived for the block; what it is derived from plays no part here. */
    method AppendBlock(b: Block, s: State, crashAt: nat) returns (completed: bool)
      modifies this
      ensures completed <==> crashAt >= APPEND_STEPS
      ensures Files() == Append(old(Files()), genesis, b, s, if completed then APPEND_STEPS else crashAt)
    {
      completed := false;
      ghost var d := Files();
      var x := Entry(TipHeight(Files()) + 1, b, s);
      StageHeader(d, x, crashAt);
      if crashAt <= 3 { return; }
      StageBody(d, x, crashAt);
      if crashAt <= 7 { return; }
      PublishBlock(d, x, crashAt);
      if crashAt <= 10 { return; }
      IndexBlock(d, x, crashAt);
      if crashAt <= 12 { return; }
      CommitBlock(d, x, crashAt);
      if crashAt <= 15 { return; }
      CleanUp(d, x, crashAt);
      completed := crashAt >= APPEND_STEPS;
    }

    /** Steps 0 to 2: journal BEGIN, then the header staged and journalled. */
    method StageHeader(ghost d: Disk, x: Entry, crashAt: nat)
      requires Files() == d
      modifies this
      ensures Files() == AppendSteps(d, genesis, x, if crashAt >= 3 then 3 else crashAt)
    {
      if crashAt == 0 { return; }
      LogRecord(Begin, x.height);
      assert Files() == AppendSteps(d, genesis, x, 1);
      if crashAt == 1 { return; }
      stagedHeaders := stagedHeaders[x.height := HeaderBytes(x.block.header)];
      assert Files() == AppendSteps(d, genesis, x, 2);
      if crashAt == 2 { return; }
      LogRecord(HeaderStaged, x.height);
      assert Files() == AppendSteps(d, genesis, x, 3);
    }

    /** Steps 3 to 6: block record and registry state staged and journalled. */
    method StageBody(ghost d: Disk, x: Entry, crashAt: nat)
      requires crashAt > 3 && Files() == AppendSteps(d, genesis, x, 3)
      modifies this
      ensures Files() == AppendSteps(d, genesis, x, if crashAt >= 7 then 7 else crashAt)
    {
      stagedBlocks := stagedBlocks[x.height := BlockRecord(x.block)];
      assert Files() == AppendSteps(d, genesis, x, 4);
      if crashAt == 4 { return; }
      LogRecord(BlockStaged, x.height);
      assert Files() == AppendSteps(d, genesis, x, 5);
      if crashAt == 5 { return; }
      stagedStates := stagedStates[x.height := x.state];
      assert Files() == AppendSteps(d, genesis, x, 6);
      if crashAt == 6 { return; }
      LogRecord(RegistryStaged, x.height);
      assert Files() == AppendSteps(d, genesis, x, 7);
    }

    /** Steps 7 to 9: publish header, block and, at its interval or over an old one, the snapshot. */
    method PublishBlock(ghost d: Disk, x: Entry, crashAt: nat)
      requires crashAt > 7 && Files() == AppendSteps(d, genesis, x, 7)
      modifies this
      ensures Files() == AppendSteps(d, genesis, x, if crashAt >= 10 then 10 else crashAt)
    {
      if x.height in stagedHeaders {
        headers := headers[x.height := stagedHeaders[x.height]];
      }
      assert Files() == AppendSteps(d, genesis, x, 8);
      if crashAt == 8 { return; }
      if x.height in stagedBlocks {
        blocks := blocks[x.height := stagedBlocks[x.height]];
      }
      assert Files() == AppendSteps(d, genesis, x, 9);
      if crashAt == 9 { return; }
      if x.height in snapshots || x.height % SNAPSHOT_INTERVAL == 0 {
        snapshots := snapshots[x.height := x.state];
      }
      assert Files() == AppendSteps(d, genesis, x, 10);
    }

    /** Steps 10 and 11: update the two indexes. */
    method IndexBlock(ghost d: Disk, x: Entry, crashAt: nat)
      requires crashAt > 10 && Files() == AppendSteps(d, genesis, x, 10)
      modifies this
      ensures Files() == AppendSteps(d, genesis, x, if crashAt >= 12 then 12 else crashAt)
    {
      heightToHash := Some(OrEmpty(heightToHash)[x.height := BlockHash(x.block)]);
      assert Files() == AppendSteps(d, genesis, x, 11);
      if crashAt == 11 { return; }
      hashToHeight := Some(OrEmpty(hashToHeight)[BlockHash(x.block) := x.height]);
      assert Files() == AppendSteps(d, genesis, x, 12);
    }

    /** Steps 12 to 14: journal the indexes, COMMIT, move HEAD. */
    method CommitBlock(ghost d: Disk, x: Entry, crashAt: nat)
      requires crashAt > 12 && Files() == AppendSteps(d, genesis, x, 12)
      modifies this
      ensures Files() == AppendSteps(d, genesis, x, if crashAt >= 15 then 15 else crashAt)
    {
      LogRecord(IndexStaged, x.height);
      assert Files() == AppendSteps(d, genesis, x, 13);
      if crashAt == 13 { return; }
      LogRecord(Commit, x.height);
      assert Files() == AppendSteps(d, genesis, x, 14);
      if crashAt == 14 { return; }
      head := Some(HeadRecord(x.height, BlockHash(x.block), genesis));
      assert Files() == AppendSteps(d, genesis, x, 15);
    }

    /** Steps 15 to 17: remove the staged files. */
    method CleanUp(ghost d: Disk, x: Entry, crashAt: nat)
      requires crashAt > 15 && Files() == AppendSteps(d, genesis, x, 15)
      modifies this
      ensures Files() == AppendSteps(d, genesis, x, if crashAt >= APPEND_STEPS then APPEND_STEPS else crashAt)
    {
      stagedHeaders := stagedHeaders - {x.height};
      assert Files() == AppendSteps(d, genesis, x, 16);
      if crashAt == 16 { return; }
      stagedBlocks := stagedBlocks - {x.height};
      assert Files() == AppendSteps(d, genesis, x, 17);
      if crashAt == 17 { return; }
      stagedStates := stagedStates - {x.height};
      assert Files() == AppendSteps(d, genesis, x, 18);
    }

    /** The backward walk of recovery. */
    method WalkBack(start: nat, headHash: Hash) returns (p: Plan)
      ensures p == Walk(Files(), genesis, start, start, headHash)
    {
      var current, h := headHash, start;
      while h > 0
        invariant Walk(Files(), genesis, start, h, current) == Walk(Files(), genesis, start, start, headHash)
      {
        if VerifyBlock(Files(), h, current) {
          current := blocks[h].block.header.prevHash;
        } else {
          return Plan(h - 1, genesis, [h]);
        }
        h := h - 1;
      }
      return Plan(start, current, []);
    }

    method RecoverStore(maxHeight: Option<nat>, crashAt: nat) returns (report: Option<Plan>)
      modifies this
      ensures report.None? ==> PartlyRecovered(old(Files()), Files(), genesis, maxHeight)
      ensures report.Some? ==> report.value == PlanOf(old(Files()), genesis, maxHeight)
                               && Files() == Recovered(old(Files()), genesis, maxHeight)
    {
      var p := WalkBack(StartHeight(Files(), genesis, maxHeight), ReadHead(Files(), genesis).1);
      var done := ApplyPlan(p, crashAt);
      return if done then Some(p) else None;
    }

    /** Deletes what lies above the safe height, rewrites HEAD if it moved, rebuilds the indexes. */
    method ApplyPlan(p: Plan, crashAt: nat) returns (done: bool)
      modifies this
      ensures PartlyRecoveredTo(old(Files()), Files(), genesis, p)
      ensures done ==> Files() == RecoveredTo(old(Files()), genesis, p)
    {
      ghost var d := Files();
      var headHeight, steps := ReadHead(Files(), genesis).0, 0;
      done, steps := PruneFiles(p.safe, crashAt);
      if !done || steps == crashAt { return false; }
      if p.safe != headHeight {
        head := Some(HeadRecord(p.safe, p.current, genesis));
        steps := steps + 1;
      }
      assert Files() == d.(headers := UpTo(d.headers, p.safe), blocks := UpTo(d.blocks, p.safe),
                           snapshots := UpTo(d.snapshots, p.safe),
                           head := NewHead(d, genesis, p));
      done := RewriteIndexes(p.safe, steps, crashAt);
    }

    method PruneFiles(safe: nat, crashAt: nat) returns (done: bool, steps: nat)
      modifies this`headers, this`blocks, this`snapshots
      ensures PartlyPruned(old(headers), headers, safe) && PartlyPruned(old(blocks), blocks, safe)
      ensures PartlyPruned(old(snapshots), snapshots, safe)
      ensures done ==>
                && headers == UpTo(old(headers), safe) && blocks == UpTo(old(blocks), safe)
                && snapshots == UpTo(old(snapshots), safe)
    {
      done, steps := PruneHeaders(safe, crashAt);
      if !done { return; }
      done, steps := PruneBlocks(safe, steps, crashAt);
      if !done { return; }
      done, steps := PruneSnapshots(safe, steps, crashAt);
    }

    method PruneHeaders(safe: nat, crashAt: nat) returns (done: bool, steps: nat)
      modifies this`headers
      ensures PartlyPruned(old(headers), headers, safe)
      ensures done ==> headers == UpTo(old(headers), safe)
    {
      ghost var before := headers;
      steps := 0;
      while exists h :: h in headers && h > safe
        invariant PartlyPruned(before, headers, safe)
        decreases |headers|
      {
        if steps == crashAt { return false, steps; }
        var h :| h in headers && h > safe;
        headers, steps := headers - {h}, steps + 1;
      }
      assert headers == UpTo(before, safe);
      return true, steps;
    }

    method PruneBlocks(safe: nat, stepsBefore: nat, crashAt: nat) returns (done: bool, steps: nat)
      modifies this`blocks
      ensures PartlyPruned(old(blocks), blocks, safe)
      ensures done ==> blocks == UpTo(old(blocks), safe)
    {
      ghost var before := blocks;
      steps := stepsBefore;
      while exists h :: h in blocks && h > safe
        invariant PartlyPruned(before, blocks, safe)
        decreases |blocks|
      {
        if steps == crashAt { return false, steps; }
        var h :| h in blocks && h > safe;
        blocks, steps := blocks - {h}, steps + 1;
      }
      assert blocks == UpTo(before, safe);
      return true, steps;
    }

    method PruneSnapshots(safe: nat, stepsBefore: nat, crashAt: nat) returns (done: bool, steps: nat)
      modifies this`snapshots
      ensures PartlyPruned(old(snapshots), snapshots, safe)
      ensures done ==> snapshots == UpTo(old(snapshots), safe)
    {
      ghost var before := snapshots;
      steps := stepsBefore;
      while exists h :: h in snapshots && h > safe
        invariant PartlyPruned(before, snapshots, safe)
        decreases |snapshots|
      {
        if steps == crashAt { return false, steps; }
        var h :| h in snapshots && h > safe;
        snapshots, steps := snapshots - {h}, steps + 1;
      }
      assert snapshots == UpTo(before, safe);
      return true, steps;
    }

    /** Rebuilds both index files unless no readable block is left; they are written one after the other. */
    method RewriteIndexes(safe: nat, steps: nat, crashAt: nat) returns (done: bool)
      modifies this`heightToHash, this`hashToHeight
      ensures var index := IndexBlocks(blocks, safe);
              && (heightToHash == old(heightToHash) || (index.0 != map[] && heightToHash == Some(index.0)))
              && (hashToHeight == old(hashToHeight) || (index.0 != map[] && hashToHeight == Some(index.1)))
              && (done && index.0 != map[] ==> heightToHash == Some(index.0) && hashToHeight == Some(index.1))
    {
      var forward, backward := BuildIndexes(safe);
      if forward != map[] {
        if steps == crashAt { return false; }
        heightToHash := Some(forward);
        if steps + 1 == crashAt { return false; }
        hashToHeight := Some(backward);
      }
      return true;
    }

    method BuildIndexes(safe: nat) returns (forward: map<nat, Hash>, backward: map<Hash, nat>)
      ensures (forward, backward) == IndexBlocks(blocks, safe)
    {
      forward, backward := map[], map[];
      for h := 0 to safe + 1
        invariant (forward, backward) == if h == 0 then (map[], map[]) else IndexBlocks(blocks, h - 1)
      {
        if h in blocks && blocks[h].BlockRecord? {
          var hash := BlockHash(blocks[h].block);
          forward, backward := forward[h := hash], backward[hash := h];
        }
      }
    }

    /** The two files are written, or removed, one after the other. */
    method RebuildIndexes(crashAt: nat) returns (done: bool)
      modifies this`heightToHash, this`hashToHeight
      ensures done ==> Files() == Reindexed(old(Files()))
      ensures PartlyReindexed(old(Files()), Files())
      ensures done <==> crashAt >= 2
    {
      ghost var d := Files();
      var forward, backward := BuildIndexes(TipHeight(Files()));
      if crashAt == 0 { return false; }
      heightToHash := if forward != map[] then Some(forward) else None;
      assert Files() == d.(heightToHash := Reindexed(d).heightToHash);
      if crashAt == 1 { return false; }
      hashToHeight := if forward != map[] then Some(backward) else None;
      assert Files() == Reindexed(d);
      return true;
    }
  }
}
