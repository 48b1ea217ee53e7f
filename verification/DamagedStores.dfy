/**
 Recovery on any disk whatever: which damage to header and block files makes it roll back, how far, and what
 is left. The files are read here, not the checks recovery makes of them.
 */
module DamagedStores {
  import opened Wrappers
  import opened Types
  import opened Storage

  // ---------- what the disk claims ----------

  /** HEAD's height and hash, if there is one for this genesis. */
  predicate HasHead(d: Disk, genesis: Hash, height: nat, hash: Hash) {
    if d.head.Some? && d.head.value.HeadRecord? && d.head.value.genesis == genesis
    then d.head.value.height == height && d.head.value.hash == hash
    else height == 0 && hash == genesis
  }

  /** The largest height of any COMMIT in the journal, 0 if there is none. */
  ghost predicate HighestCommit(journal: seq<JournalRecord>, top: nat) {
    && (forall r :: r in journal && r.kind.Commit? ==> r.height <= top)
    && (top == 0 || exists r :: r in journal && r.kind.Commit? && r.height == top)
  }

  predicate Smallest(x: nat, a: nat, b: nat, limit: Option<nat>) {
    && x <= a && x <= b && (limit.Some? ==> x <= limit.value)
    && (x == a || x == b || limit == Some(x))
  }

  /** The height recovery starts from: HEAD's, that of the last COMMIT or the limit, whichever is lowest. */
  ghost predicate StartsAt(d: Disk, genesis: Hash, limit: Option<nat>, start: nat, hash: Hash) {
    exists height: nat, commit: nat ::
      HasHead(d, genesis, height, hash) && HighestCommit(d.journal, commit) && Smallest(start, height, commit, limit)
  }

  /** The hash a height should have: HEAD's at the start, below that the one named by the block above. */
  predicate Claimed(d: Disk, start: nat, head: Hash, h: nat, hash: Hash) {
    if h >= start then hash == head
    else h + 1 in d.blocks && d.blocks[h + 1].BlockRecord? && d.blocks[h + 1].block.header.prevHash == hash
  }

  /** Header file and block file of the height are there, whole, and of the block with this hash. */
  predicate Whole(d: Disk, h: nat, hash: Hash) {
    && h in d.headers && d.headers[h].HeaderBytes? && HeaderHash(d.headers[h].header) == hash
    && h in d.blocks && d.blocks[h].BlockRecord? && HeaderHash(d.blocks[h].block.header) == hash
  }

  ghost predicate WholeAt(d: Disk, start: nat, head: Hash, h: nat) {
    exists hash :: Claimed(d, start, head, h, hash) && Whole(d, h, hash)
  }

  ghost predicate WholeFrom(d: Disk, start: nat, head: Hash, low: nat) {
    forall h :: low <= h <= start ==> WholeAt(d, start, head, h)
  }

  // ---------- where it starts ----------

  lemma {:induction false} CommitHeightIsHighest(journal: seq<JournalRecord>)
    ensures HighestCommit(journal, CommitHeight(journal))
    decreases |journal|
  {
    if journal != [] {
      var n := |journal| - 1;
      CommitHeightIsHighest(journal[..n]);
      forall r | r in journal && r.kind.Commit? ensures r.height <= CommitHeight(journal) {
        assert r in journal[..n] || r == journal[n];
      }
      if CommitHeight(journal) > 0 {
        if CommitHeight(journal) == CommitHeight(journal[..n]) {
          var r :| r in journal[..n] && r.kind.Commit? && r.height == CommitHeight(journal);
          assert r in journal;
        } else {
          assert journal[n] in journal;
        }
      }
    }
  }

  lemma {:induction false} HighestIsOne(journal: seq<JournalRecord>, a: nat, b: nat)
    requires HighestCommit(journal, a) && HighestCommit(journal, b)
    ensures a == b
  {
    if a > 0 {
      var r :| r in journal && r.kind.Commit? && r.height == a;
    }
    if b > 0 {
      var r :| r in journal && r.kind.Commit? && r.height == b;
    }
  }

  lemma {:induction false} StartIsWhereTheWalkStarts(d: Disk, genesis: Hash, limit: Option<nat>, start: nat, hash: Hash)
    requires StartsAt(d, genesis, limit, start, hash)
    ensures start == StartHeight(d, genesis, limit) && hash == ReadHead(d, genesis).1
  {
    var height: nat, commit: nat :|
      HasHead(d, genesis, height, hash) && HighestCommit(d.journal, commit) && Smallest(start, height, commit, limit);
    CommitHeightIsHighest(d.journal);
    HighestIsOne(d.journal, commit, CommitHeight(d.journal));
    SmallestIsOne(start, height, commit, limit);
    HeadIsRead(d, genesis, height, hash);
  }

  lemma {:induction false} HeadIsRead(d: Disk, genesis: Hash, height: nat, hash: Hash)
    ensures HasHead(d, genesis, height, hash) <==> ReadHead(d, genesis) == (height, hash)
  {
  }

  lemma {:induction false} SmallestIsOne(x: nat, a: nat, b: nat, limit: Option<nat>)
    ensures Smallest(x, a, b, limit)
            <==> var low := if a < b then a else b; x == if limit.Some? && low > limit.value then limit.value else low
  {
  }

  // ---------- how far it rolls back ----------

  /** What the walk from height h comes to: the highest height that is not whole, or none. */
  ghost predicate Reported(d: Disk, start: nat, head: Hash, genesis: Hash, p: Plan) {
    if WholeFrom(d, start, head, 1) then
      p.rolledBack == [] && p.safe == start && Claimed(d, start, head, 0, p.current)
    else
      && p.rolledBack == [p.safe + 1] && p.safe < start && p.current == genesis
      && !WholeAt(d, start, head, p.safe + 1) && WholeFrom(d, start, head, p.safe + 2)
  }

  lemma {:induction false} WalkReports(d: Disk, genesis: Hash, start: nat, head: Hash, h: nat, current: Hash)
    requires h <= start && Claimed(d, start, head, h, current) && WholeFrom(d, start, head, h + 1)
    ensures Reported(d, start, head, genesis, Walk(d, genesis, start, h, current))
    decreases h
  {
    if h > 0 {
      OneClaim(d, start, head, h, current);
      if Whole(d, h, current) {
        OneMoreWhole(d, start, head, h);
        WalkReports(d, genesis, start, head, h - 1, d.blocks[h].block.header.prevHash);
      } else {
        StopsHere(d, start, head, genesis, h);
      }
    }
  }

  lemma {:induction false} StopsHere(d: Disk, start: nat, head: Hash, genesis: Hash, h: nat)
    requires 0 < h <= start && !WholeAt(d, start, head, h) && WholeFrom(d, start, head, h + 1)
    ensures Reported(d, start, head, genesis, Plan(h - 1, genesis, [h]))
  {
  }

  lemma {:induction false} OneMoreWhole(d: Disk, start: nat, head: Hash, h: nat)
    requires WholeAt(d, start, head, h) && WholeFrom(d, start, head, h + 1)
    ensures WholeFrom(d, start, head, h)
  {
    forall k | h <= k <= start ensures WholeAt(d, start, head, k) {
      assert k == h || WholeAt(d, start, head, k);
    }
  }

  lemma {:induction false} OneClaim(d: Disk, start: nat, head: Hash, h: nat, current: Hash)
    requires Claimed(d, start, head, h, current)
    ensures WholeAt(d, start, head, h) <==> Whole(d, h, current)
  {
  }

  /**
   For every disk: recovery rolls nothing back exactly when at every height from 1 to the start header and
   block file are whole and hash to what is claimed of them. Otherwise the safe height is one below the
   highest height at which they are not.
   */
  lemma {:induction false} RecoveryRollsBackToDamage(d: Disk, genesis: Hash, limit: Option<nat>, start: nat, head: Hash)
    requires StartsAt(d, genesis, limit, start, head)
    ensures Reported(d, start, head, genesis, PlanOf(d, genesis, limit))
    ensures PlanOf(d, genesis, limit).rolledBack == [] <==> WholeFrom(d, start, head, 1)
  {
    StartIsWhereTheWalkStarts(d, genesis, limit, start, head);
    WalkReports(d, genesis, start, head, start, head);
  }

  lemma {:induction false} EveryDiskHasAStart(d: Disk, genesis: Hash, limit: Option<nat>)
    ensures StartsAt(d, genesis, limit, StartHeight(d, genesis, limit), ReadHead(d, genesis).1)
  {
    var head := ReadHead(d, genesis);
    CommitHeightIsHighest(d.journal);
    assert HasHead(d, genesis, head.0, head.1);
    assert Smallest(StartHeight(d, genesis, limit), head.0, CommitHeight(d.journal), limit);
  }

  /**
   Any damage at a height within the start, of the header file as of the block file, makes recovery roll back:
   that height too if nothing above it is damaged, otherwise only down to the damage above.
   */
  lemma {:induction false} DamageIsRolledBack(d: Disk, genesis: Hash, limit: Option<nat>, start: nat, head: Hash,
                                              h: nat)
    requires StartsAt(d, genesis, limit, start, head) && 1 <= h <= start
    requires || h !in d.headers || !d.headers[h].HeaderBytes?
             || h !in d.blocks || !d.blocks[h].BlockRecord?
             || d.headers[h].header != d.blocks[h].block.header
    ensures var p := PlanOf(d, genesis, limit);
            p.rolledBack != [] && p.safe >= h - 1 && (p.safe == h - 1 <==> WholeFrom(d, start, head, h + 1))
  {
    RecoveryRollsBackToDamage(d, genesis, limit, start, head);
    assert !WholeAt(d, start, head, h);
    var p := PlanOf(d, genesis, limit);
    assert WholeFrom(d, start, head, 1) ==> WholeAt(d, start, head, h);
    assert p.safe + 2 <= h ==> WholeAt(d, start, head, h);
    var top := p.safe + 1;
    assert !WholeAt(d, start, head, top);
  }

  // ---------- what is left ----------

  /** The heights up to safe at which a block can be read. */
  predicate Readable(d: Disk, h: nat, safe: nat) {
    h <= safe && h in d.blocks && d.blocks[h].BlockRecord?
  }

  /** The two indexes over the readable blocks, where of two heights with one hash the higher is kept. */
  ghost predicate IndexesOf(d: Disk, safe: nat, forward: map<nat, Hash>, backward: map<Hash, nat>) {
    && (forall h :: ForwardAt(d, safe, forward, h))
    && (forall x :: x in backward ==> BackwardAt(d, safe, backward, x))
    && (forall h :: Readable(d, h, safe) ==> HighestAt(d, backward, h))
  }

  predicate ForwardAt(d: Disk, safe: nat, forward: map<nat, Hash>, h: nat) {
    if Readable(d, h, safe) then h in forward && forward[h] == HeaderHash(d.blocks[h].block.header) else h !in forward
  }

  predicate BackwardAt(d: Disk, safe: nat, backward: map<Hash, nat>, x: Hash)
    requires x in backward
  {
    Readable(d, backward[x], safe) && HeaderHash(d.blocks[backward[x]].block.header) == x
  }

  predicate HighestAt(d: Disk, backward: map<Hash, nat>, h: nat)
    requires h in d.blocks && d.blocks[h].BlockRecord?
  {
    HeaderHash(d.blocks[h].block.header) in backward && h <= backward[HeaderHash(d.blocks[h].block.header)]
  }

  lemma {:induction false} IndexBlocksAreIndexes(d: Disk, safe: nat)
    ensures var index := IndexBlocks(d.blocks, safe); IndexesOf(d, safe, index.0, index.1)
  {
    if safe == 0 {
      OneMoreIndexed(d, 0, map[], map[]);
    } else {
      IndexBlocksAreIndexes(d, safe - 1);
      var below := IndexBlocks(d.blocks, safe - 1);
      OneMoreIndexed(d, safe, below.0, below.1);
    }
  }

  ghost predicate IndexedBelow(d: Disk, safe: nat, forward: map<nat, Hash>, backward: map<Hash, nat>) {
    if safe == 0 then forward == map[] && backward == map[] else IndexesOf(d, safe - 1, forward, backward)
  }

  lemma {:induction false} OneMoreIndexed(d: Disk, safe: nat, forward: map<nat, Hash>, backward: map<Hash, nat>)
    requires IndexedBelow(d, safe, forward, backward)
    ensures if safe in d.blocks && d.blocks[safe].BlockRecord? then
              var hash := HeaderHash(d.blocks[safe].block.header);
              IndexesOf(d, safe, forward[safe := hash], backward[hash := safe])
            else IndexesOf(d, safe, forward, backward)
  {
    if safe in d.blocks && d.blocks[safe].BlockRecord? {
      var hash := HeaderHash(d.blocks[safe].block.header);
      var longer, inverse := forward[safe := hash], backward[hash := safe];
      forall h ensures ForwardAt(d, safe, longer, h) {
        assert safe > 0 ==> ForwardAt(d, safe - 1, forward, h);
      }
      forall x | x in inverse ensures BackwardAt(d, safe, inverse, x) {
        assert x != hash ==> BackwardAt(d, safe - 1, backward, x);
      }
      forall h: nat | Readable(d, h, safe) ensures HighestAt(d, inverse, h) {
        assert h < safe ==> Readable(d, h, safe - 1) && HighestAt(d, backward, h);
      }
    } else {
      NothingIndexed(d, safe, forward, backward);
    }
  }

  lemma {:induction false} NothingIndexed(d: Disk, safe: nat, forward: map<nat, Hash>, backward: map<Hash, nat>)
    requires IndexedBelow(d, safe, forward, backward) && !Readable(d, safe, safe)
    ensures IndexesOf(d, safe, forward, backward)
  {
    forall h ensures ForwardAt(d, safe, forward, h) {
      assert safe > 0 ==> ForwardAt(d, safe - 1, forward, h);
    }
    forall x | x in backward ensures BackwardAt(d, safe, backward, x) {
      assert safe > 0 ==> BackwardAt(d, safe - 1, backward, x);
    }
    forall h: nat | Readable(d, h, safe) ensures HighestAt(d, backward, h) {
      assert Readable(d, h, safe - 1) && HighestAt(d, backward, h);
    }
  }

  predicate KeptUpTo<V(==)>(before: map<nat, V>, after: map<nat, V>, safe: nat, h: nat) {
    (h in after <==> h in before && h <= safe) && (h in after ==> after[h] == before[h])
  }

  /**
   What a finished recovery leaves of any disk: the files up to the safe height, and HEAD moved there if it was
   elsewhere; journal and staged files stay.
   */
  lemma {:induction false} RecoveryLeaves(d: Disk, genesis: Hash, limit: Option<nat>, height: nat, hash: Hash)
    requires HasHead(d, genesis, height, hash)
    ensures var p, r := PlanOf(d, genesis, limit), Recovered(d, genesis, limit);
            && (forall h :: KeptUpTo(d.headers, r.headers, p.safe, h))
            && (forall h :: KeptUpTo(d.blocks, r.blocks, p.safe, h))
            && (forall h :: KeptUpTo(d.snapshots, r.snapshots, p.safe, h))
            && r.head == (if p.safe == height then d.head else Some(HeadRecord(p.safe, p.current, genesis)))
            && r.journal == d.journal && r.staged == d.staged
  {
    HeadIsRead(d, genesis, height, hash);
  }

  /** Both indexes are those of the readable blocks left, or the old ones if there is none. */
  lemma {:induction false} RecoveryReindexes(d: Disk, genesis: Hash, limit: Option<nat>)
    ensures var p, r := PlanOf(d, genesis, limit), Recovered(d, genesis, limit);
            if exists h :: Readable(d, h, p.safe) then
              r.heightToHash.Some? && r.hashToHeight.Some?
              && IndexesOf(d, p.safe, r.heightToHash.value, r.hashToHeight.value)
            else r.heightToHash == d.heightToHash && r.hashToHeight == d.hashToHeight
  {
    var safe := PlanOf(d, genesis, limit).safe;
    UpToBlocks(d, safe, safe);
    IndexBlocksAreIndexes(d, safe);
    EmptyIndex(d, safe, IndexBlocks(d.blocks, safe).0, IndexBlocks(d.blocks, safe).1);
  }

  lemma {:induction false} EmptyIndex(d: Disk, safe: nat, forward: map<nat, Hash>, backward: map<Hash, nat>)
    requires IndexesOf(d, safe, forward, backward)
    ensures forward != map[] <==> exists h :: Readable(d, h, safe)
  {
    if h :| Readable(d, h, safe) {
      assert ForwardAt(d, safe, forward, h);
    } else {
      forall h ensures h !in forward {
        assert ForwardAt(d, safe, forward, h);
      }
    }
  }

  lemma {:induction false} UpToBlocks(d: Disk, safe: nat, h: nat)
    requires h <= safe
    ensures IndexBlocks(UpTo(d.blocks, safe), h) == IndexBlocks(d.blocks, h)
  {
    if h > 0 {
      UpToBlocks(d, safe, h - 1);
    }
  }

  // ---------- after a rollback ----------

  /** No block file above genesis holds a block with the genesis hash. */
  ghost predicate GenesisIsBelow(d: Disk, genesis: Hash) {
    forall h :: 0 < h && h in d.blocks && d.blocks[h].BlockRecord? ==> HeaderHash(d.blocks[h].block.header) != genesis
  }

  /** The disk was rolled back: HEAD names the genesis hash at a height that was committed. */
  predicate Mislabelled(d: Disk, genesis: Hash, height: nat) {
    d.head == Some(HeadRecord(height, genesis, genesis)) && CommitHeight(d.journal) >= height
  }

  lemma {:induction false} RollbackMislabels(d: Disk, genesis: Hash)
    requires PlanOf(d, genesis, None).rolledBack != []
    ensures Mislabelled(Recovered(d, genesis, None), genesis, PlanOf(d, genesis, None).safe)
  {
    EveryDiskHasAStart(d, genesis, None);
    var start, head := StartHeight(d, genesis, None), ReadHead(d, genesis).1;
    RecoveryRollsBackToDamage(d, genesis, None, start, head);
  }

  lemma {:induction false} MislabelledLosesOne(d: Disk, genesis: Hash, height: nat)
    requires Mislabelled(d, genesis, height) && GenesisIsBelow(d, genesis)
    ensures PlanOf(d, genesis, None)
            == if height == 0 then Plan(0, genesis, []) else Plan(height - 1, genesis, [height])
    ensures Mislabelled(Recovered(d, genesis, None), genesis, if height == 0 then 0 else height - 1)
    ensures GenesisIsBelow(Recovered(d, genesis, None), genesis)
  {
  }

  /** The disk after so many recoveries, none of them cut short and nothing else done in between. */
  function Restarted(d: Disk, genesis: Hash, times: nat): Disk
    decreases times
  {
    if times == 0 then d else Restarted(Recovered(d, genesis, None), genesis, times - 1)
  }

  /**
   Once recovery has rolled back, HEAD carries the genesis hash at the safe height, and every further
   recovery rolls back one block more, whole as they all may be, until none is left.
   */
  lemma {:induction false} EveryRestartLosesABlock(d: Disk, genesis: Hash, times: nat)
    requires PlanOf(d, genesis, None).rolledBack != [] && GenesisIsBelow(d, genesis)
    ensures var safe, left := PlanOf(d, genesis, None).safe, Restarted(d, genesis, 1 + times);
            && Mislabelled(left, genesis, if times < safe then safe - times else 0)
            && GenesisIsBelow(left, genesis)
  {
    var safe := PlanOf(d, genesis, None).safe;
    RollbackMislabels(d, genesis);
    OneRestart(d, genesis);
    RestartsLoseBlocks(Recovered(d, genesis, None), genesis, safe, times);
  }

  lemma {:induction false} OneRestart(d: Disk, genesis: Hash)
    requires GenesisIsBelow(d, genesis)
    ensures GenesisIsBelow(Recovered(d, genesis, None), genesis)
  {
  }

  lemma {:induction false} RestartsLoseBlocks(d: Disk, genesis: Hash, safe: nat, times: nat)
    requires Mislabelled(d, genesis, safe) && GenesisIsBelow(d, genesis)
    ensures Mislabelled(Restarted(d, genesis, times), genesis, if times < safe then safe - times else 0)
    ensures GenesisIsBelow(Restarted(d, genesis, times), genesis)
    decreases times
  {
    if times > 0 {
      MislabelledLosesOne(d, genesis, safe);
      RestartsLoseBlocks(Recovered(d, genesis, None), genesis, if safe == 0 then 0 else safe - 1, times - 1);
    }
  }

  lemma {:induction false} WalkDescends(d: Disk, genesis: Hash, top: nat, h: nat, current: Hash)
    requires Walk(d, genesis, top, h, current).rolledBack == []
    ensures Walk(d, genesis, top, h, current).safe == top
    ensures PrevDepth(current) == PrevDepth(Walk(d, genesis, top, h, current).current) + h
  {
    if h > 0 {
      WalkDescends(d, genesis, top, h - 1, d.blocks[h].block.header.prevHash);
    }
  }

  lemma {:induction false} WalkOnKept(d: Disk, e: Disk, genesis: Hash, top: nat, h: nat, current: Hash)
    requires h <= top && e.headers == UpTo(d.headers, top) && e.blocks == UpTo(d.blocks, top)
    ensures Walk(e, genesis, top, h, current) == Walk(d, genesis, top, h, current)
  {
    if VerifyBlock(d, h, current) && h > 0 {
      WalkOnKept(d, e, genesis, top, h - 1, d.blocks[h].block.header.prevHash);
    }
  }

  lemma {:induction false} CleanIsStable(d: Disk, genesis: Hash)
    requires PlanOf(d, genesis, None).rolledBack == [] && PlanOf(d, genesis, None).safe == ReadHead(d, genesis).0
    ensures Recovered(Recovered(d, genesis, None), genesis, None).head == Recovered(d, genesis, None).head
  {
    var head := ReadHead(d, genesis);
    var start := StartHeight(d, genesis, None);
    WalkDescends(d, genesis, start, start, head.1);
    WalkOnKept(d, Recovered(d, genesis, None), genesis, start, start, head.1);
  }

  lemma {:induction false} ShortHeadIsNotStable(d: Disk, genesis: Hash)
    requires PlanOf(d, genesis, None).rolledBack == [] && 0 < PlanOf(d, genesis, None).safe < ReadHead(d, genesis).0
    ensures Recovered(Recovered(d, genesis, None), genesis, None).head != Recovered(d, genesis, None).head
  {
    var head := ReadHead(d, genesis);
    var start := StartHeight(d, genesis, None);
    WalkDescends(d, genesis, start, start, head.1);
    var once, p := Recovered(d, genesis, None), PlanOf(d, genesis, None);
    assert once.head == Some(HeadRecord(p.safe, p.current, genesis)) && p.safe == start;
    assert VerifyBlock(d, start, head.1) && head.1 != p.current;
    assert !VerifyBlock(once, start, p.current);
    assert PlanOf(once, genesis, None).safe == start - 1;
  }

  lemma {:induction false} EmptyIsStable(d: Disk, genesis: Hash)
    requires PlanOf(d, genesis, None).safe == 0
    ensures Recovered(Recovered(d, genesis, None), genesis, None).head == Recovered(d, genesis, None).head
  {
  }

  lemma {:induction false} SafeIsAtMostHead(d: Disk, genesis: Hash)
    ensures PlanOf(d, genesis, None).safe <= ReadHead(d, genesis).0
  {
    EveryDiskHasAStart(d, genesis, None);
    RecoveryRollsBackToDamage(d, genesis, None, StartHeight(d, genesis, None), ReadHead(d, genesis).1);
  }

  /** A second recovery leaves HEAD alone exactly when the first kept the tip HEAD named, or no block at all. */
  lemma {:induction false} RecoveryIsStableExactlyWhen(d: Disk, genesis: Hash)
    requires GenesisIsBelow(d, genesis)
    ensures var p := PlanOf(d, genesis, None);
            Recovered(Recovered(d, genesis, None), genesis, None).head == Recovered(d, genesis, None).head
            <==> p.safe == 0 || (p.rolledBack == [] && p.safe == ReadHead(d, genesis).0)
  {
    var p, once := PlanOf(d, genesis, None), Recovered(d, genesis, None);
    SafeIsAtMostHead(d, genesis);
    if p.safe == 0 {
      EmptyIsStable(d, genesis);
    } else if p.rolledBack != [] {
      RollbackMislabels(d, genesis);
      MislabelledLosesOne(once, genesis, p.safe);
    } else if p.safe == ReadHead(d, genesis).0 {
      CleanIsStable(d, genesis);
    } else {
      ShortHeadIsNotStable(d, genesis);
    }
  }
}
