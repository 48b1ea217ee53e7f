/**
 Every run of the flat-file store: appends cut after any durable step, recoveries finished or cut
 short, and index rebuilds, in any order. The blocks whose append got as far as moving HEAD are
 the reference that every disk of the run is compared with.
 */
module StorageRuns {
  import opened Wrappers
  import opened Types
  import opened Storage

  datatype Event =
    | AppendUpTo(block: Block, state: State, steps: nat)
    | RecoverFully
    | RecoverCut(after: Disk)
    | ReindexFully
    | ReindexCut(after: Disk)

  /**
   One event. Appending is left to callers that offer a block extending the tip, which the store does not
   check itself.
   */
  ghost predicate Step(genesis: Hash, d: Disk, e: Event, next: Disk) {
    match e
    case AppendUpTo(b, s, n) =>
      && n <= APPEND_STEPS && b.header.prevHash == TipHash(d, genesis)
      && next == Append(d, genesis, b, s, n)
    case RecoverFully => next == Recovered(d, genesis, None)
    case RecoverCut(after) => PartlyRecovered(d, after, genesis, None) && next == after
    case ReindexFully => next == Reindexed(d)
    case ReindexCut(after) => PartlyReindexed(d, after) && next == after
  }

  ghost predicate Run(genesis: Hash, disks: seq<Disk>, events: seq<Event>) {
    && |disks| == |events| + 1 && disks[0] == EMPTY_DISK
    && forall i :: 0 <= i < |events| ==> Step(genesis, disks[i], events[i], disks[i + 1])
  }

  /** The chain the events commit, each block with its registry state: an append counts once it has moved HEAD. */
  function CommittedEntries(events: seq<Event>): seq<(Block, State)> {
    if events == [] then []
    else
      var before := CommittedEntries(events[..|events| - 1]);
      match events[|events| - 1]
      case AppendUpTo(b, s, n) => if n >= HEAD_MOVED then before + [(b, s)] else before
      case _ => before
  }

  function BlocksOf(entries: seq<(Block, State)>): (r: seq<Block>)
    ensures |r| == |entries|
  {
    seq(|entries|, i requires 0 <= i < |entries| => entries[i].0)
  }

  function Committed(events: seq<Event>): seq<Block> {
    BlocksOf(CommittedEntries(events))
  }

  // ---------- what a disk holds ----------

  function HashAt(chain: seq<Block>, genesis: Hash, height: nat): Hash
    requires height <= |chain|
  {
    if height == 0 then genesis else BlockHash(chain[height - 1])
  }

  ghost predicate Linked(chain: seq<Block>, genesis: Hash) {
    forall i :: 0 <= i < |chain| ==> LinkAt(chain, genesis, i)
  }

  predicate LinkAt(chain: seq<Block>, genesis: Hash, i: nat)
    requires i < |chain|
  {
    chain[i].header.prevHash == HashAt(chain, genesis, i)
  }

  function HeadOf(chain: seq<Block>, genesis: Hash): Option<HeadFile> {
    if chain == [] then None else Some(HeadRecord(|chain|, BlockHash(chain[|chain| - 1]), genesis))
  }

  ghost predicate Stored(d: Disk, chain: seq<Block>) {
    forall h :: 1 <= h <= |chain| ==> HoldsAt(d, chain, h)
  }

  predicate HoldsAt(d: Disk, chain: seq<Block>, h: nat)
    requires 1 <= h <= |chain|
  {
    && h in d.headers && d.headers[h] == HeaderBytes(chain[h - 1].header)
    && h in d.blocks && d.blocks[h] == BlockRecord(chain[h - 1])
  }

  ghost predicate NothingAbove(d: Disk, top: nat) {
    && (forall h :: h in d.headers ==> 1 <= h <= top)
    && (forall h :: h in d.blocks ==> 1 <= h <= top)
    && (forall h :: h in d.snapshots ==> 1 <= h <= top)
  }

  /** The disk's HEAD, COMMIT records and files hold exactly these blocks, with at most one unfinished height above. */
  ghost predicate HoldsBlocks(d: Disk, genesis: Hash, chain: seq<Block>) {
    && d.head == HeadOf(chain, genesis)
    && CommitHeight(d.journal) >= |chain|
    && Stored(d, chain)
    && NothingAbove(d, |chain| + 1)
  }

  /** And the blocks form a chain from genesis. */
  ghost predicate Carries(d: Disk, genesis: Hash, chain: seq<Block>) {
    Linked(chain, genesis) && HoldsBlocks(d, genesis, chain)
  }

  /** read_chain_up_to at HEAD, without the genesis block. */
  function ReadChain(d: Disk): Option<seq<Block>> {
    ReadUpTo(d, TipHeight(d))
  }

  function ReadUpTo(d: Disk, height: nat): Option<seq<Block>> {
    if height == 0 then Some([])
    else if height !in d.blocks || !d.blocks[height].BlockRecord? then None
    else
      match ReadUpTo(d, height - 1)
      case None => None
      case Some(below) => Some(below + [d.blocks[height].block])
  }

  lemma {:induction false} ReadsStored(d: Disk, chain: seq<Block>, height: nat)
    requires Stored(d, chain) && height <= |chain|
    ensures ReadUpTo(d, height) == Some(chain[..height])
  {
    if height > 0 {
      ReadsStored(d, chain, height - 1);
      assert HoldsAt(d, chain, height);
      assert chain[..height - 1] + [chain[height - 1]] == chain[..height];
    }
  }

  lemma {:induction false} ReadsCarried(d: Disk, genesis: Hash, chain: seq<Block>)
    requires HoldsBlocks(d, genesis, chain)
    ensures ReadChain(d) == Some(chain) && TipHeight(d) == |chain|
            && TipHash(d, genesis) == HashAt(chain, genesis, |chain|)
  {
    ReadsStored(d, chain, |chain|);
    assert chain[..|chain|] == chain;
  }

  // ---------- appending ----------

  lemma {:induction false} CommitHeightOfLog(journal: seq<JournalRecord>, r: JournalRecord)
    ensures var before := CommitHeight(journal);
            CommitHeight(journal + [r]) == if r.kind.Commit? && r.height > before then r.height else before
  {
    assert (journal + [r])[..|journal|] == journal;
  }

  /** What holds after the first n steps of appending b to a disk that holds chain. */
  ghost predicate MidAppend(d: Disk, genesis: Hash, chain: seq<Block>, b: Block, n: nat) {
    var h := |chain| + 1;
    && d.head == HeadOf(if n >= HEAD_MOVED then chain + [b] else chain, genesis)
    && CommitHeight(d.journal) >= (if n >= 14 then h else |chain|)
    && Stored(d, chain)
    && NothingAbove(d, h)
    && (2 <= n <= 15 ==> h in d.staged.headers && d.staged.headers[h] == HeaderBytes(b.header))
    && (4 <= n <= 16 ==> h in d.staged.blocks && d.staged.blocks[h] == BlockRecord(b))
    && (n >= 8 ==> h in d.headers && d.headers[h] == HeaderBytes(b.header))
    && (n >= 9 ==> h in d.blocks && d.blocks[h] == BlockRecord(b))
  }

  const LOGS: set<nat> := {0, 2, 4, 6, 12, 13}

  lemma {:induction false} LogMidAppend(d: Disk, genesis: Hash, chain: seq<Block>, b: Block, n: nat, kind: JournalKind)
    requires MidAppend(d, genesis, chain, b, n) && n in LOGS && (n == 13 ==> kind.Commit?)
    ensures MidAppend(Log(d, kind, |chain| + 1), genesis, chain, b, n + 1)
  {
    var next := Log(d, kind, |chain| + 1);
    CommitHeightOfLog(d.journal, JournalRecord(kind, |chain| + 1));
    forall h | 1 <= h <= |chain| ensures HoldsAt(next, chain, h) {
      assert HoldsAt(d, chain, h);
    }
  }

  lemma {:induction false} StageMidAppend(d: Disk, genesis: Hash, chain: seq<Block>, x: Entry, n: nat)
    requires x.height == |chain| + 1 && MidAppend(d, genesis, chain, x.block, n) && n in {1, 3, 5}
    ensures MidAppend(AppendStep(d, genesis, x, n), genesis, chain, x.block, n + 1)
  {
    var next := AppendStep(d, genesis, x, n);
    forall h | 1 <= h <= |chain| ensures HoldsAt(next, chain, h) {
      assert HoldsAt(d, chain, h);
    }
  }

  lemma {:induction false} PublishMidAppend(d: Disk, genesis: Hash, chain: seq<Block>, x: Entry, n: nat)
    requires x.height == |chain| + 1 && MidAppend(d, genesis, chain, x.block, n) && n in {7, 8, 9}
    ensures MidAppend(AppendStep(d, genesis, x, n), genesis, chain, x.block, n + 1)
  {
    var next := AppendStep(d, genesis, x, n);
    forall h | 1 <= h <= |chain| ensures HoldsAt(next, chain, h) {
      assert HoldsAt(d, chain, h);
    }
  }

  lemma {:induction false} IndexMidAppend(d: Disk, genesis: Hash, chain: seq<Block>, x: Entry, n: nat)
    requires x.height == |chain| + 1 && MidAppend(d, genesis, chain, x.block, n) && n in {10, 11, 14}
    ensures MidAppend(AppendStep(d, genesis, x, n), genesis, chain, x.block, n + 1)
  {
    var next := AppendStep(d, genesis, x, n);
    forall h | 1 <= h <= |chain| ensures HoldsAt(next, chain, h) {
      assert HoldsAt(d, chain, h);
    }
  }

  lemma {:induction false} CleanMidAppend(d: Disk, genesis: Hash, chain: seq<Block>, x: Entry, n: nat)
    requires x.height == |chain| + 1 && MidAppend(d, genesis, chain, x.block, n) && n in {15, 16, 17}
    ensures MidAppend(AppendStep(d, genesis, x, n), genesis, chain, x.block, n + 1)
  {
    var next := AppendStep(d, genesis, x, n);
    forall h | 1 <= h <= |chain| ensures HoldsAt(next, chain, h) {
      assert HoldsAt(d, chain, h);
    }
  }

  lemma {:induction false} AppendReaches(d: Disk, genesis: Hash, chain: seq<Block>, x: Entry, n: nat)
    requires x.height == |chain| + 1 && HoldsBlocks(d, genesis, chain) && n <= APPEND_STEPS
    ensures MidAppend(AppendSteps(d, genesis, x, n), genesis, chain, x.block, n)
  {
    if n > 0 {
      AppendReaches(d, genesis, chain, x, n - 1);
      NextMidAppend(AppendSteps(d, genesis, x, n - 1), genesis, chain, x, n - 1);
    }
  }

  lemma {:induction false} NextMidAppend(d: Disk, genesis: Hash, chain: seq<Block>, x: Entry, n: nat)
    requires x.height == |chain| + 1 && MidAppend(d, genesis, chain, x.block, n) && n < APPEND_STEPS
    ensures MidAppend(AppendStep(d, genesis, x, n), genesis, chain, x.block, n + 1)
  {
    if n in LOGS {
      LogMidAppend(d, genesis, chain, x.block, n, LogKind(n));
      LogIsStep(d, genesis, x, n);
    } else if n in {1, 3, 5} {
      StageMidAppend(d, genesis, chain, x, n);
    } else if n in {7, 8, 9} {
      PublishMidAppend(d, genesis, chain, x, n);
    } else if n in {10, 11, 14} {
      IndexMidAppend(d, genesis, chain, x, n);
    } else {
      CleanMidAppend(d, genesis, chain, x, n);
    }
  }

  lemma {:induction false} LogIsStep(d: Disk, genesis: Hash, x: Entry, n: nat)
    requires n in LOGS
    ensures AppendStep(d, genesis, x, n) == Log(d, LogKind(n), x.height)
  {
  }

  function LogKind(n: nat): JournalKind {
    match n
    case 0 => Begin
    case 2 => HeaderStaged
    case 4 => BlockStaged
    case 6 => RegistryStaged
    case 12 => IndexStaged
    case _ => Commit
  }

  /**
   An append cut anywhere leaves the old blocks or, once HEAD has moved, those and the new one, whether or
   not it links.
   */
  lemma {:induction false} AppendIsAtomic(d: Disk, genesis: Hash, chain: seq<Block>, b: Block, s: State, n: nat)
    requires HoldsBlocks(d, genesis, chain) && n <= APPEND_STEPS
    ensures HoldsBlocks(Append(d, genesis, b, s, n), genesis, if n >= HEAD_MOVED then chain + [b] else chain)
  {
    AppendReaches(d, genesis, chain, Entry(|chain| + 1, b, s), n);
    var next := Append(d, genesis, b, s, n);
    if n >= HEAD_MOVED {
      var longer := chain + [b];
      forall h | 1 <= h <= |longer| ensures HoldsAt(next, longer, h) {
        if h <= |chain| {
          assert HoldsAt(next, chain, h);
        }
      }
    }
  }

  lemma {:induction false} LinkedLonger(chain: seq<Block>, b: Block, genesis: Hash)
    requires Linked(chain, genesis)
    ensures Linked(chain + [b], genesis) <==> b.header.prevHash == HashAt(chain, genesis, |chain|)
  {
    var longer := chain + [b];
    assert LinkAt(longer, genesis, |chain|) <==> b.header.prevHash == HashAt(chain, genesis, |chain|);
    forall i | 0 <= i < |chain| ensures LinkAt(longer, genesis, i) {
      assert LinkAt(chain, genesis, i);
    }
  }

  // ---------- recovery ----------

  lemma {:induction false} WalkIsClean(d: Disk, genesis: Hash, chain: seq<Block>, top: nat, h: nat)
    requires Linked(chain, genesis) && Stored(d, chain) && h <= |chain|
    ensures Walk(d, genesis, top, h, HashAt(chain, genesis, h)) == Plan(top, genesis, [])
  {
    if h > 0 {
      assert HoldsAt(d, chain, h) && LinkAt(chain, genesis, h - 1);
      assert VerifyBlock(d, h, HashAt(chain, genesis, h));
      WalkIsClean(d, genesis, chain, top, h - 1);
    }
  }

  /**
   From the hash of a stored block the walk meets no fault exactly when every link below, down to the first
   block, holds.
   */
  lemma {:induction false} WalkMeetsBrokenLinks(d: Disk, genesis: Hash, chain: seq<Block>, top: nat, h: nat)
    requires Stored(d, chain) && 0 < h <= |chain|
    ensures var p := Walk(d, genesis, top, h, HashAt(chain, genesis, h));
            && (p.rolledBack == [] <==> LinkedAboveFirst(chain, genesis, h))
            && (p.rolledBack == [] ==> p.safe == top)
  {
    assert HoldsAt(d, chain, h);
    assert VerifyBlock(d, h, HashAt(chain, genesis, h));
    if h > 1 {
      assert HoldsAt(d, chain, h - 1);
      if LinkAt(chain, genesis, h - 1) {
        WalkMeetsBrokenLinks(d, genesis, chain, top, h - 1);
      }
    }
  }

  ghost predicate LinkedAboveFirst(chain: seq<Block>, genesis: Hash, h: nat)
    requires h <= |chain|
  {
    forall i :: 1 <= i < h ==> LinkAt(chain, genesis, i)
  }

  /**
   Recovery rolls nothing back exactly when each block but the first links to the one below; whether the
   first links to genesis is not looked at.
   */
  lemma {:induction false} RollsBackExactlyWhen(d: Disk, genesis: Hash, chain: seq<Block>)
    requires HoldsBlocks(d, genesis, chain)
    ensures PlanOf(d, genesis, None).rolledBack == [] <==> LinkedAboveFirst(chain, genesis, |chain|)
    ensures PlanOf(d, genesis, None).rolledBack == [] ==> PlanOf(d, genesis, None).safe == |chain|
  {
    assert ReadHead(d, genesis) == (|chain|, HashAt(chain, genesis, |chain|));
    if chain != [] {
      WalkMeetsBrokenLinks(d, genesis, chain, |chain|, |chain|);
    }
  }

  /** Recovery finds the whole chain intact and rolls back nothing; the hash it reports is always that of genesis. */
  lemma {:induction false} NothingIsRolledBack(d: Disk, genesis: Hash, chain: seq<Block>, maxHeight: Option<nat>)
    requires Carries(d, genesis, chain) && (maxHeight.Some? ==> maxHeight.value >= |chain|)
    ensures PlanOf(d, genesis, maxHeight) == Plan(|chain|, genesis, [])
  {
    assert ReadHead(d, genesis) == (|chain|, HashAt(chain, genesis, |chain|));
    WalkIsClean(d, genesis, chain, |chain|, |chain|);
  }

  /** Recovery, finished or cut short, keeps the chain; finished, it leaves nothing above HEAD. */
  lemma {:induction false} RecoveryKeepsChain(d: Disk, genesis: Hash, chain: seq<Block>, e: Disk)
    requires Carries(d, genesis, chain)
    ensures PartlyRecovered(d, e, genesis, None) ==> Carries(e, genesis, chain)
    ensures Carries(Recovered(d, genesis, None), genesis, chain) && NothingAbove(Recovered(d, genesis, None), |chain|)
  {
    NothingIsRolledBack(d, genesis, chain, None);
    if PartlyRecovered(d, e, genesis, None) {
      forall h | 1 <= h <= |chain| ensures HoldsAt(e, chain, h) {
        assert HoldsAt(d, chain, h);
      }
    }
    var r := Recovered(d, genesis, None);
    forall h | 1 <= h <= |chain| ensures HoldsAt(r, chain, h) {
      assert HoldsAt(d, chain, h);
    }
  }

  /** Running recovery again after it was cut short, or after it finished, gives the same disk. */
  lemma {:induction false} RecoveryIsIdempotent(d: Disk, genesis: Hash, chain: seq<Block>, e: Disk)
    requires Carries(d, genesis, chain)
    requires PartlyRecovered(d, e, genesis, None) || e == Recovered(d, genesis, None)
    ensures Recovered(e, genesis, None) == Recovered(d, genesis, None)
  {
    RecoveryKeepsChain(d, genesis, chain, e);
    NothingIsRolledBack(d, genesis, chain, None);
    NothingIsRolledBack(e, genesis, chain, None);
    RecoveredAgain(d, e, genesis, Plan(|chain|, genesis, []));
  }

  lemma {:induction false} RecoveredAgain(d: Disk, e: Disk, genesis: Hash, p: Plan)
    requires PartlyRecoveredTo(d, e, genesis, p) || e == RecoveredTo(d, genesis, p)
    requires ReadHead(d, genesis).0 == ReadHead(e, genesis).0 == p.safe
    ensures RecoveredTo(e, genesis, p) == RecoveredTo(d, genesis, p)
  {
    SamePruned(d.headers, e.headers, p.safe);
    SamePruned(d.blocks, e.blocks, p.safe);
    SamePruned(d.snapshots, e.snapshots, p.safe);
  }

  lemma {:induction false} SamePruned<V(!new)>(before: map<nat, V>, after: map<nat, V>, safe: nat)
    requires PartlyPruned(before, after, safe) || after == UpTo(before, safe)
    ensures UpTo(after, safe) == UpTo(before, safe)
  {
  }

  // ---------- whole runs ----------

  lemma {:induction false} StepKeepsChain(genesis: Hash, d: Disk, e: Event, next: Disk, chain: seq<Block>)
    requires Carries(d, genesis, chain) && Step(genesis, d, e, next)
    ensures Carries(next, genesis, if e.AppendUpTo? && e.steps >= HEAD_MOVED then chain + [e.block] else chain)
  {
    match e
    case AppendUpTo(b, s, n) =>
      AppendIsAtomic(d, genesis, chain, b, s, n);
      ReadsCarried(d, genesis, chain);
      LinkedLonger(chain, b, genesis);
    case RecoverFully => RecoveryKeepsChain(d, genesis, chain, next);
    case RecoverCut(after) => RecoveryKeepsChain(d, genesis, chain, next);
    case _ => IndexesDoNotMatter(d, genesis, chain, next);
  }

  lemma {:induction false} IndexesDoNotMatter(d: Disk, genesis: Hash, chain: seq<Block>, next: Disk)
    requires Carries(d, genesis, chain)
             && next == d.(heightToHash := next.heightToHash, hashToHeight := next.hashToHeight)
    ensures Carries(next, genesis, chain)
  {
    forall h | 1 <= h <= |chain| ensures HoldsAt(next, chain, h) {
      assert HoldsAt(d, chain, h);
    }
  }

  lemma {:induction false} CommittedStep(events: seq<Event>, i: nat)
    requires i < |events|
    ensures CommittedEntries(events[..i + 1])
            == if events[i].AppendUpTo? && events[i].steps >= HEAD_MOVED
               then CommittedEntries(events[..i]) + [(events[i].block, events[i].state)]
               else CommittedEntries(events[..i])
    ensures Committed(events[..i + 1]) == if events[i].AppendUpTo? && events[i].steps >= HEAD_MOVED
                                          then Committed(events[..i]) + [events[i].block] else Committed(events[..i])
  {
    assert events[..i + 1][..i] == events[..i];
    var before := CommittedEntries(events[..i]);
    if events[i].AppendUpTo? && events[i].steps >= HEAD_MOVED {
      assert BlocksOf(before + [(events[i].block, events[i].state)]) == BlocksOf(before) + [events[i].block];
    }
  }

  /** Along every run, every disk carries exactly the chain committed so far. */
  lemma {:induction false} EveryDiskCarriesTheCommittedChain(genesis: Hash, disks: seq<Disk>, events: seq<Event>,
                                                             i: nat)
    requires Run(genesis, disks, events) && i <= |events|
    ensures Carries(disks[i], genesis, Committed(events[..i]))
  {
    if i > 0 {
      EveryDiskCarriesTheCommittedChain(genesis, disks, events, i - 1);
      CommittedStep(events, i - 1);
      assert Step(genesis, disks[i - 1], events[i - 1], disks[i - 1 + 1]);
      StepKeepsChain(genesis, disks[i - 1], events[i - 1], disks[i], Committed(events[..i - 1]));
    }
  }

  lemma {:induction false} CommittedOnlyGrows(events: seq<Event>, i: nat, j: nat)
    requires i <= j <= |events|
    ensures Committed(events[..i]) <= Committed(events[..j])
    decreases j
  {
    if i < j {
      CommittedOnlyGrows(events, i, j - 1);
      CommittedStep(events, j - 1);
    }
  }

  /** What can be read back at HEAD never fails, is linked from genesis to HEAD's hash, and only ever gets longer. */
  lemma {:induction false} CommittedBlocksAreNeverLost(genesis: Hash, disks: seq<Disk>, events: seq<Event>, i: nat,
                                                       j: nat)
    requires Run(genesis, disks, events) && i <= j <= |events|
    ensures ReadChain(disks[i]).Some? && ReadChain(disks[j]).Some?
    ensures ReadChain(disks[i]).value <= ReadChain(disks[j]).value
    ensures var chain := ReadChain(disks[j]).value;
            && Linked(chain, genesis) && TipHeight(disks[j]) == |chain|
            && TipHash(disks[j], genesis) == HashAt(chain, genesis, |chain|)
  {
    EveryDiskCarriesTheCommittedChain(genesis, disks, events, i);
    EveryDiskCarriesTheCommittedChain(genesis, disks, events, j);
    ReadsCarried(disks[i], genesis, Committed(events[..i]));
    ReadsCarried(disks[j], genesis, Committed(events[..j]));
    CommittedOnlyGrows(events, i, j);
  }

  /**
   Each event's effect on what can be read: an append adds its block if HEAD moved, nothing else changes the
   chain.
   */
  lemma {:induction false} EventsOnTheReadableChain(genesis: Hash, disks: seq<Disk>, events: seq<Event>, i: nat)
    requires Run(genesis, disks, events) && i < |events|
    ensures ReadChain(disks[i]).Some?
    ensures ReadChain(disks[i + 1]) == if events[i].AppendUpTo? && events[i].steps >= HEAD_MOVED
                                       then Some(ReadChain(disks[i]).value + [events[i].block])
                                       else ReadChain(disks[i])
    ensures events[i].RecoverFully? ==> NothingAbove(disks[i + 1], TipHeight(disks[i + 1]))
    ensures PlanOf(disks[i], genesis, None) == Plan(TipHeight(disks[i]), genesis, [])
  {
    var chain := Committed(events[..i]);
    EveryDiskCarriesTheCommittedChain(genesis, disks, events, i);
    ReadsCarried(disks[i], genesis, chain);
    StepKeepsChain(genesis, disks[i], events[i], disks[i + 1], chain);
    assert Step(genesis, disks[i], events[i], disks[i + 1]);
    ReadsCarried(disks[i + 1], genesis,
                 if events[i].AppendUpTo? && events[i].steps >= HEAD_MOVED then chain + [events[i].block] else chain);
    RecoveryKeepsChain(disks[i], genesis, chain, disks[i]);
    NothingIsRolledBack(disks[i], genesis, chain, None);
  }

  // ---------- registry snapshots ----------

  /** Snapshots at or below HEAD are the states committed there, and every hundredth height has one. */
  ghost predicate SnapshotsTrue(d: Disk, states: seq<State>) {
    && (forall h :: h in d.snapshots && 1 <= h <= |states| ==> d.snapshots[h] == states[h - 1])
    && (forall h: nat :: 1 <= h <= |states| && h % SNAPSHOT_INTERVAL == 0 ==> h in d.snapshots)
  }

  function StatesOf(entries: seq<(Block, State)>): (r: seq<State>)
    ensures |r| == |entries|
  {
    seq(|entries|, i requires 0 <= i < |entries| => entries[i].1)
  }

  lemma {:induction false} StagingKeepsSnapshots(d: Disk, x: Entry, k: nat)
    ensures StageStep(d, x, k).snapshots == d.snapshots
  {
    if k % 2 == 0 {
    } else if k == 1 {
    } else if k == 3 {
    }
  }

  lemma {:induction false} PublishingSnapshots(d: Disk, x: Entry, k: nat)
    requires 7 <= k < 12
    ensures PublishStep(d, x, k).snapshots
            == if k == 9 && (x.height in d.snapshots || x.height % SNAPSHOT_INTERVAL == 0)
              then d.snapshots[x.height := x.state] else d.snapshots
  {
  }

  lemma {:induction false} CommittingKeepsSnapshots(d: Disk, genesis: Hash, x: Entry, k: nat)
    ensures CommitStep(d, genesis, x, k).snapshots == d.snapshots
  {
  }

  lemma {:induction false} AppendSnapshots(d: Disk, genesis: Hash, x: Entry, n: nat)
    ensures AppendSteps(d, genesis, x, n).snapshots
            == if n >= 10 && (x.height in d.snapshots || x.height % SNAPSHOT_INTERVAL == 0)
              then d.snapshots[x.height := x.state] else d.snapshots
  {
    if n > 0 {
      AppendSnapshots(d, genesis, x, n - 1);
      var before := AppendSteps(d, genesis, x, n - 1);
      if n <= 7 {
        StagingKeepsSnapshots(before, x, n - 1);
      } else if n <= 12 {
        PublishingSnapshots(before, x, n - 1);
      } else {
        CommittingKeepsSnapshots(before, genesis, x, n - 1);
      }
    }
  }

  lemma {:induction false} StepKeepsSnapshots(genesis: Hash, d: Disk, e: Event, next: Disk, chain: seq<Block>,
                                              states: seq<State>)
    requires Carries(d, genesis, chain) && |states| == |chain| && SnapshotsTrue(d, states) && Step(genesis, d, e, next)
    ensures SnapshotsTrue(next, if e.AppendUpTo? && e.steps >= HEAD_MOVED then states + [e.state] else states)
  {
    match e
    case AppendUpTo(b, s, n) =>
      ReadsCarried(d, genesis, chain);
      AppendSnapshots(d, genesis, Entry(|chain| + 1, b, s), n);
      LongerSnapshots(d, states, Entry(|chain| + 1, b, s), next, n);
    case RecoverFully =>
      NothingIsRolledBack(d, genesis, chain, None);
      PrunedSnapshots(d, states, next);
    case RecoverCut(_) =>
      NothingIsRolledBack(d, genesis, chain, None);
      PrunedSnapshots(d, states, next);
    case _ =>
  }

  lemma {:induction false} LongerSnapshots(d: Disk, states: seq<State>, x: Entry, next: Disk, n: nat)
    requires SnapshotsTrue(d, states) && x.height == |states| + 1
    requires next.snapshots == if n >= 10 && (x.height in d.snapshots || x.height % SNAPSHOT_INTERVAL == 0)
                               then d.snapshots[x.height := x.state] else d.snapshots
    ensures SnapshotsTrue(next, if n >= HEAD_MOVED then states + [x.state] else states)
  {
  }

  lemma {:induction false} PrunedSnapshots(d: Disk, states: seq<State>, next: Disk)
    requires SnapshotsTrue(d, states) && PartlyPruned(d.snapshots, next.snapshots, |states|)
    ensures SnapshotsTrue(next, states)
  {
  }

  /**
   Along every run, a snapshot at or below HEAD is the state that was committed with that block, and none is
   missing.
   */
  lemma {:induction false} SnapshotsAreCommitted(genesis: Hash, disks: seq<Disk>, events: seq<Event>, i: nat)
    requires Run(genesis, disks, events) && i <= |events|
    ensures SnapshotsTrue(disks[i], StatesOf(CommittedEntries(events[..i])))
    ensures TipHeight(disks[i]) == |CommittedEntries(events[..i])|
  {
    EveryDiskCarriesTheCommittedChain(genesis, disks, events, i);
    ReadsCarried(disks[i], genesis, Committed(events[..i]));
    if i > 0 {
      SnapshotsAreCommitted(genesis, disks, events, i - 1);
      EveryDiskCarriesTheCommittedChain(genesis, disks, events, i - 1);
      assert Step(genesis, disks[i - 1], events[i - 1], disks[i - 1 + 1]);
      StepKeepsSnapshots(genesis, disks[i - 1], events[i - 1], disks[i], Committed(events[..i - 1]),
                         StatesOf(CommittedEntries(events[..i - 1])));
      CommittedStep(events, i - 1);
      var before := CommittedEntries(events[..i - 1]);
      if events[i - 1].AppendUpTo? && events[i - 1].steps >= HEAD_MOVED {
        assert StatesOf(before + [(events[i - 1].block, events[i - 1].state)])
               == StatesOf(before) + [events[i - 1].state];
      }
    }
  }

  // ---------- indexes ----------

  /** Both indexes as a fold of one index update per block, with no crash. */
  function CleanIndexes(chain: seq<Block>): (map<nat, Hash>, map<Hash, nat>) {
    if chain == [] then (map[], map[])
    else
      var (forward, backward) := CleanIndexes(chain[..|chain| - 1]);
      var hash := BlockHash(chain[|chain| - 1]);
      (forward[|chain| := hash], backward[hash := |chain|])
  }

  lemma {:induction false} IndexedBlocksAreClean(blocks: map<nat, BlockFile>, chain: seq<Block>, top: nat)
    requires top <= |chain| && 0 !in blocks
    requires forall h: nat :: 1 <= h <= top ==> h in blocks && blocks[h] == BlockRecord(chain[h - 1])
    ensures IndexBlocks(blocks, top) == CleanIndexes(chain[..top])
  {
    if top > 0 {
      IndexedBlocksAreClean(blocks, chain, top - 1);
      assert chain[..top][..top - 1] == chain[..top - 1];
    }
  }

  lemma {:induction false} CarriedIndexes(d: Disk, genesis: Hash, chain: seq<Block>, blocks: map<nat, BlockFile>)
    requires Carries(d, genesis, chain) && (blocks == d.blocks || blocks == UpTo(d.blocks, |chain|))
    ensures IndexBlocks(blocks, |chain|) == CleanIndexes(chain)
    ensures CleanIndexes(chain).0 == map[] <==> chain == []
  {
    forall h | 1 <= h <= |chain| ensures h in blocks && blocks[h] == BlockRecord(chain[h - 1]) {
      assert HoldsAt(d, chain, h);
    }
    IndexedBlocksAreClean(blocks, chain, |chain|);
    assert chain[..|chain|] == chain;
    if chain != [] {
      assert |chain| in CleanIndexes(chain).0;
    }
  }

  function Indexes(d: Disk): (map<nat, Hash>, map<Hash, nat>) {
    (OrEmpty(d.heightToHash), OrEmpty(d.hashToHeight))
  }

  /** Recovery leaves the crash-free indexes exactly when a block survives or there was nothing to clear. */
  lemma {:induction false} RecoveredIndexesAreClean(d: Disk, genesis: Hash, chain: seq<Block>)
    requires Carries(d, genesis, chain)
    ensures Indexes(Recovered(d, genesis, None)) == CleanIndexes(chain) <==> chain != [] || Indexes(d) == (map[], map[])
  {
    NothingIsRolledBack(d, genesis, chain, None);
    CarriedIndexes(d, genesis, chain, UpTo(d.blocks, |chain|));
  }

  /** The backend's own rebuild leaves the crash-free indexes always. */
  lemma {:induction false} ReindexedIsClean(d: Disk, genesis: Hash, chain: seq<Block>)
    requires Carries(d, genesis, chain)
    ensures Indexes(Reindexed(d)) == CleanIndexes(chain)
  {
    ReadsCarried(d, genesis, chain);
    CarriedIndexes(d, genesis, chain, d.blocks);
  }

  lemma {:induction false} AppendIndexes(d: Disk, genesis: Hash, x: Entry, n: nat)
    ensures var (forward, backward) := Indexes(d);
            Indexes(AppendSteps(d, genesis, x, n))
            == (if n >= 11 then forward[x.height := BlockHash(x.block)] else forward,
                if n >= 12 then backward[BlockHash(x.block) := x.height] else backward)
  {
    if n > 0 {
      AppendIndexes(d, genesis, x, n - 1);
    }
  }

  /** A finished append keeps crash-free indexes crash-free. */
  lemma {:induction false} AppendKeepsIndexesClean(d: Disk, genesis: Hash, chain: seq<Block>, b: Block, s: State)
    requires Carries(d, genesis, chain) && Indexes(d) == CleanIndexes(chain)
    ensures Indexes(Append(d, genesis, b, s, APPEND_STEPS)) == CleanIndexes(chain + [b])
  {
    ReadsCarried(d, genesis, chain);
    AppendIndexes(d, genesis, Entry(|chain| + 1, b, s), APPEND_STEPS);
    assert (chain + [b])[..|chain|] == chain;
  }

  lemma {:induction false} PrevDepthCounts(chain: seq<Block>, genesis: Hash, height: nat)
    requires Linked(chain, genesis) && height <= |chain|
    ensures PrevDepth(HashAt(chain, genesis, height)) == PrevDepth(genesis) + height
  {
    if height > 0 {
      assert LinkAt(chain, genesis, height - 1);
      PrevDepthCounts(chain, genesis, height - 1);
    }
  }

  lemma {:induction false} LinkedPrefix(chain: seq<Block>, genesis: Hash, n: nat)
    requires Linked(chain, genesis) && n <= |chain|
    ensures Linked(chain[..n], genesis)
  {
    forall i | 0 <= i < n ensures LinkAt(chain[..n], genesis, i) {
      assert LinkAt(chain, genesis, i);
    }
  }

  /** Crash-free indexes name exactly the chain's heights and hashes, and are inverse to each other. */
  lemma {:induction false} CleanIndexesAreInverse(chain: seq<Block>, genesis: Hash, h: nat, x: Hash)
    requires Linked(chain, genesis)
    ensures var (forward, backward) := CleanIndexes(chain);
            && (h in forward && forward[h] == x <==> 1 <= h <= |chain| && HashAt(chain, genesis, h) == x)
            && (x in backward && backward[x] == h <==> 1 <= h <= |chain| && HashAt(chain, genesis, h) == x)
    decreases |chain|
  {
    if chain != [] {
      var n := |chain|;
      var shorter := chain[..n - 1];
      LinkedPrefix(chain, genesis, n - 1);
      CleanIndexesAreInverse(shorter, genesis, h, x);
      PrevDepthCounts(chain, genesis, n);
      if h <= n {
        PrevDepthCounts(chain, genesis, h);
      }
      if 1 <= h < n {
        assert HashAt(shorter, genesis, h) == HashAt(chain, genesis, h);
      }
      var last := BlockHash(chain[n - 1]);
      assert last == HashAt(chain, genesis, n);
    }
  }

  /** The indexes after a crash at height 1, a recovery and another block: the first block's hash is still listed. */
  lemma {:induction false} StaleIndexSurvives(genesis: Hash, b: Block, c: Block, s: State)
    requires b.header.prevHash == c.header.prevHash == genesis && BlockHash(b) != BlockHash(c)
    ensures var crashed := Append(EMPTY_DISK, genesis, b, s, 12);
            var recovered := Recovered(crashed, genesis, None);
            var d := Append(recovered, genesis, c, s, APPEND_STEPS);
            && Run(genesis, [EMPTY_DISK, crashed, recovered, d],
                   [AppendUpTo(b, s, 12), RecoverFully, AppendUpTo(c, s, APPEND_STEPS)])
            && ReadChain(d) == Some([c])
            && Indexes(d).1 == map[BlockHash(b) := 1, BlockHash(c) := 1]
  {
    var crashed := Append(EMPTY_DISK, genesis, b, s, 12);
    var recovered := Recovered(crashed, genesis, None);
    var d := Append(recovered, genesis, c, s, APPEND_STEPS);
    CrashBeforeCommit(genesis, b, s);
    RecoveryOfNothing(crashed, genesis);
    assert Step(genesis, EMPTY_DISK, AppendUpTo(b, s, 12), crashed)
           && Step(genesis, recovered, AppendUpTo(c, s, APPEND_STEPS), d);
    AppendIsAtomic(recovered, genesis, [], c, s, APPEND_STEPS);
    assert [] + [c] == [c];
    ReadsCarried(d, genesis, [c]);
    AppendIndexes(recovered, genesis, Entry(1, c, s), APPEND_STEPS);
  }

  lemma {:induction false} CrashBeforeCommit(genesis: Hash, b: Block, s: State)
    requires b.header.prevHash == genesis
    ensures Carries(EMPTY_DISK, genesis, []) && Carries(Append(EMPTY_DISK, genesis, b, s, 12), genesis, [])
    ensures Indexes(Append(EMPTY_DISK, genesis, b, s, 12)) == (map[1 := BlockHash(b)], map[BlockHash(b) := 1])
  {
    AppendIsAtomic(EMPTY_DISK, genesis, [], b, s, 12);
    AppendIndexes(EMPTY_DISK, genesis, Entry(1, b, s), 12);
  }

  lemma {:induction false} RecoveryOfNothing(d: Disk, genesis: Hash)
    requires Carries(d, genesis, [])
    ensures Carries(Recovered(d, genesis, None), genesis, []) && Indexes(Recovered(d, genesis, None)) == Indexes(d)
  {
    RecoveryKeepsChain(d, genesis, [], d);
    NothingIsRolledBack(d, genesis, [], None);
    CarriedIndexes(d, genesis, [], UpTo(d.blocks, 0));
  }

  // ---------- recovery with a height limit ----------

  /**
   A limit below HEAD starts the walk at the wrong block, so recovery keeps one block fewer than allowed and
   mislabels HEAD.
   */
  lemma {:induction false} LimitedRecovery(d: Disk, genesis: Hash, chain: seq<Block>, limit: nat)
    requires Carries(d, genesis, chain)
    ensures var p := PlanOf(d, genesis, Some(limit));
            p == if limit >= |chain| then Plan(|chain|, genesis, [])
                 else if limit == 0 then Plan(0, HashAt(chain, genesis, |chain|), [])
                 else Plan(limit - 1, genesis, [limit])
  {
    if limit >= |chain| {
      NothingIsRolledBack(d, genesis, chain, Some(limit));
    } else {
      var tip := HashAt(chain, genesis, |chain|);
      assert ReadHead(d, genesis) == (|chain|, tip);
      if limit > 0 {
        assert HoldsAt(d, chain, limit);
        PrevDepthCounts(chain, genesis, |chain|);
        PrevDepthCounts(chain, genesis, limit);
        assert !VerifyBlock(d, limit, tip);
      }
    }
  }

  /**
   HEAD names the block at its height after a limited recovery exactly when the limit does not cut the
   chain, or is 1.
   */
  lemma {:induction false} LimitedRecoveryHead(d: Disk, genesis: Hash, chain: seq<Block>, limit: nat)
    requires Carries(d, genesis, chain)
    ensures var r := Recovered(d, genesis, Some(limit));
            && TipHeight(r) <= |chain|
            && (TipHash(r, genesis) == HashAt(chain, genesis, TipHeight(r)) <==> limit >= |chain| || limit == 1)
  {
    LimitedRecovery(d, genesis, chain, limit);
    ReadsCarried(d, genesis, chain);
    PrevDepthCounts(chain, genesis, |chain|);
    if 2 <= limit < |chain| {
      PrevDepthCounts(chain, genesis, limit - 1);
    }
  }
}
