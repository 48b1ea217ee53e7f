/**
 The store under the ledger: only blocks the ledger would admit are appended, and what is read back after
 any crash is what the ledger accepts.
 */
module StorageLedger {
  import opened Types
  import opened Blocks
  import opened Storage
  import opened StorageRuns
  import Chain

  /** The chain a node restarts with: its genesis block and what the disk reads back. */
  function LedgerOf(genesis: Block, d: Disk): seq<Block> {
    match ReadChain(d)
    case Some(blocks) => [genesis] + blocks
    case None => [genesis]
  }

  /** One event of a node that appends what its ledger admits, at some time, on the chain it reads back. */
  ghost predicate LedgerStep(rules: Rules, genesis: Block, d: Disk, e: Event, next: Disk) {
    match e
    case AppendUpTo(b, s, n) =>
      && n <= APPEND_STEPS && next == Append(d, BlockHash(genesis), b, s, n)
      && exists now :: Chain.Admissible(rules, LedgerOf(genesis, d), b, now)
    case _ => Step(BlockHash(genesis), d, e, next)
  }

  ghost predicate LedgerRun(rules: Rules, genesis: Block, disks: seq<Disk>, events: seq<Event>) {
    && |disks| == |events| + 1 && disks[0] == EMPTY_DISK
    && forall i :: 0 <= i < |events| ==> LedgerStep(rules, genesis, disks[i], events[i], disks[i + 1])
  }

  lemma {:induction false} LedgerOfCarried(d: Disk, genesis: Block, chain: seq<Block>)
    requires HoldsBlocks(d, BlockHash(genesis), chain)
    ensures LedgerOf(genesis, d) == [genesis] + chain
    ensures TipHash(d, BlockHash(genesis)) == BlockHash(LedgerOf(genesis, d)[|chain|])
  {
    ReadsCarried(d, BlockHash(genesis), chain);
  }

  /** What the ledger admits extends the tip, so the store's unchecked hypothesis holds. */
  lemma {:induction false} AdmittedExtendsTip(rules: Rules, genesis: Block, d: Disk, e: Event, next: Disk,
                                              chain: seq<Block>)
    requires Carries(d, BlockHash(genesis), chain) && LedgerStep(rules, genesis, d, e, next)
    ensures Step(BlockHash(genesis), d, e, next)
  {
    LedgerOfCarried(d, genesis, chain);
    if e.AppendUpTo? {
      var now :| Chain.Admissible(rules, LedgerOf(genesis, d), e.block, now);
      assert e.block.header.prevHash == BlockHash(LedgerOf(genesis, d)[|chain|]);
    }
  }

  /**
   Over every run of such a node each disk carries the committed chain: linkage is a result here, not a
   hypothesis.
   */
  lemma {:induction false} LedgerRunsCarry(rules: Rules, genesis: Block, disks: seq<Disk>, events: seq<Event>, i: nat)
    requires LedgerRun(rules, genesis, disks, events) && i <= |events|
    ensures Carries(disks[i], BlockHash(genesis), Committed(events[..i]))
  {
    if i > 0 {
      var h, chain := BlockHash(genesis), Committed(events[..i - 1]);
      LedgerRunsCarry(rules, genesis, disks, events, i - 1);
      assert LedgerStep(rules, genesis, disks[i - 1], events[i - 1], disks[i - 1 + 1]);
      AdmittedExtendsTip(rules, genesis, disks[i - 1], events[i - 1], disks[i], chain);
      StepKeepsChain(h, disks[i - 1], events[i - 1], disks[i], chain);
      CommittedStep(events, i - 1);
    } else {
      CarriesNothing(genesis, disks[0]);
    }
  }

  lemma {:induction false} CarriesNothing(genesis: Block, d: Disk)
    requires d == EMPTY_DISK
    ensures Carries(d, BlockHash(genesis), Committed([]))
  {
  }

  /** So it is one of the store's runs, and everything proved of those holds of it. */
  lemma {:induction false} LedgerRunsAreRuns(rules: Rules, genesis: Block, disks: seq<Disk>, events: seq<Event>)
    requires LedgerRun(rules, genesis, disks, events)
    ensures Run(BlockHash(genesis), disks, events)
  {
    forall i | 0 <= i < |events| ensures Step(BlockHash(genesis), disks[i], events[i], disks[i + 1]) {
      LedgerRunsCarry(rules, genesis, disks, events, i);
      assert LedgerStep(rules, genesis, disks[i], events[i], disks[i + 1]);
      AdmittedExtendsTip(rules, genesis, disks[i], events[i], disks[i + 1], Committed(events[..i]));
    }
  }

  lemma {:induction false} LedgerAfterEvent(rules: Rules, genesis: Block, disks: seq<Disk>, events: seq<Event>, i: nat)
    requires LedgerRun(rules, genesis, disks, events) && i < |events|
    ensures LedgerOf(genesis, disks[i + 1])
            == if events[i].AppendUpTo? && events[i].steps >= HEAD_MOVED
               then LedgerOf(genesis, disks[i]) + [events[i].block] else LedgerOf(genesis, disks[i])
  {
    LedgerRunsAreRuns(rules, genesis, disks, events);
    EventsOnTheReadableChain(BlockHash(genesis), disks, events, i);
    if events[i].AppendUpTo? && events[i].steps >= HEAD_MOVED {
      var blocks := ReadChain(disks[i]).value;
      assert [genesis] + (blocks + [events[i].block]) == [genesis] + blocks + [events[i].block];
    }
  }

  lemma {:induction false} LedgerOnlyGrows(rules: Rules, genesis: Block, disks: seq<Disk>, events: seq<Event>, i: nat,
                                           j: nat)
    requires LedgerRun(rules, genesis, disks, events) && i <= j <= |events|
    ensures LedgerOf(genesis, disks[i]) <= LedgerOf(genesis, disks[j])
    decreases j
  {
    if i < j {
      LedgerOnlyGrows(rules, genesis, disks, events, i, j - 1);
      LedgerAfterEvent(rules, genesis, disks, events, j - 1);
    }
  }

  lemma {:induction false} NothingReadsAsGenesis(genesis: Block, d: Disk)
    requires d == EMPTY_DISK
    ensures LedgerOf(genesis, d) == [genesis]
  {
    CarriesNothing(genesis, d);
    LedgerOfCarried(d, genesis, Committed([]));
  }

  lemma {:induction false} AppendKeepsValid(rules: Rules, genesis: Block, d: Disk, e: Event, next: Disk)
    requires Chain.ValidChain(rules, LedgerOf(genesis, d)) && LedgerStep(rules, genesis, d, e, next)
    requires LedgerOf(genesis, next) == if e.AppendUpTo? && e.steps >= HEAD_MOVED
                                        then LedgerOf(genesis, d) + [e.block] else LedgerOf(genesis, d)
    ensures Chain.ValidChain(rules, LedgerOf(genesis, next))
  {
    if e.AppendUpTo? && e.steps >= HEAD_MOVED {
      var now :| Chain.Admissible(rules, LedgerOf(genesis, d), e.block, now);
      Chain.AdmittedKeepsValid(rules, LedgerOf(genesis, d), e.block, now);
    }
  }

  lemma {:induction false} ValidAfterEvent(rules: Rules, genesis: Block, disks: seq<Disk>, events: seq<Event>, k: nat)
    requires LedgerRun(rules, genesis, disks, events) && k < |events|
    requires Chain.ValidChain(rules, LedgerOf(genesis, disks[k]))
    ensures Chain.ValidChain(rules, LedgerOf(genesis, disks[k + 1]))
  {
    LedgerAfterEvent(rules, genesis, disks, events, k);
    assert LedgerStep(rules, genesis, disks[k], events[k], disks[k + 1]);
    AppendKeepsValid(rules, genesis, disks[k], events[k], disks[k + 1]);
  }

  lemma {:induction false} ValidStaysValid(rules: Rules, genesis: Block, disks: seq<Disk>, events: seq<Event>, i: nat)
    requires LedgerRun(rules, genesis, disks, events) && i <= |events|
    requires Chain.ValidChain(rules, LedgerOf(genesis, disks[0]))
    ensures Chain.ValidChain(rules, LedgerOf(genesis, disks[i]))
  {
    if i > 0 {
      ValidStaysValid(rules, genesis, disks, events, i - 1);
      ValidAfterEvent(rules, genesis, disks, events, i - 1);
    }
  }

  /** Whatever is cut, recovered or reindexed, what such a node reads back passes the ledger's full validation. */
  lemma {:induction false} EveryRestartIsValid(rules: Rules, genesis: Block, disks: seq<Disk>, events: seq<Event>,
                                               i: nat)
    requires Chain.ValidChain(rules, [genesis]) && LedgerRun(rules, genesis, disks, events) && i <= |events|
    ensures Chain.ValidChain(rules, LedgerOf(genesis, disks[i]))
  {
    NothingReadsAsGenesis(genesis, disks[0]);
    ValidStaysValid(rules, genesis, disks, events, i);
  }

  /** It replays, so a ledger can be opened on it, and never lacks a block that was read back before. */
  lemma {:induction false} RestartedLedgers(rules: Rules, genesis: Block, disks: seq<Disk>, events: seq<Event>, i: nat,
                                            j: nat)
    requires Chain.ValidChain(rules, [genesis]) && LedgerRun(rules, genesis, disks, events) && i <= j <= |events|
    ensures var before, chain := LedgerOf(genesis, disks[i]), LedgerOf(genesis, disks[j]);
            Chain.ValidChain(rules, chain) && StateAfter(rules.ctx, chain, |chain| - 1).Ok? && before <= chain
  {
    EveryRestartIsValid(rules, genesis, disks, events, j);
    LedgerOnlyGrows(rules, genesis, disks, events, i, j);
    Chain.ValidChainsReplay(rules, LedgerOf(genesis, disks[j]), |LedgerOf(genesis, disks[j])| - 1);
  }
}
