/** In which order an append reaches the disk: nothing is published before it is staged and journalled. */
module AppendOrder {
  import opened Wrappers
  import opened Types
  import opened Storage

  /** The disk an append started from, the disk it has reached, and what it commits. */
  datatype Progress = Progress(before: Disk, now: Disk, entry: Entry, genesis: Hash)

  /** The six journal records of an append, in order. */
  function Trail(height: nat): (r: seq<JournalRecord>)
    ensures |r| == 6
  {
    [JournalRecord(Begin, height), JournalRecord(HeaderStaged, height), JournalRecord(BlockStaged, height),
     JournalRecord(RegistryStaged, height), JournalRecord(IndexStaged, height), JournalRecord(Commit, height)]
  }

  /** The journal has grown by the first m records of the trail. */
  predicate Journalled(p: Progress, m: nat) {
    m <= 6 && p.now.journal == p.before.journal + Trail(p.entry.height)[..m]
  }

  predicate HeadMoved(p: Progress) {
    p.now.head == Some(HeadRecord(p.entry.height, BlockHash(p.entry.block), p.genesis))
  }

  /** A map has the entry and is otherwise as before. */
  ghost predicate Added<K(!new), V(!new)>(before: map<K, V>, now: map<K, V>, key: K, value: V) {
    && key in now && now[key] == value
    && forall k :: k != key ==> (k in now <==> k in before) && (k in now && k in before ==> now[k] == before[k])
  }

  ghost predicate Removed<K(!new), V(!new)>(before: map<K, V>, now: map<K, V>, key: K) {
    && key !in now
    && forall k :: k != key ==> (k in now <==> k in before) && (k in now && k in before ==> now[k] == before[k])
  }

  ghost predicate SnapshotDue(p: Progress) {
    p.entry.height in p.before.snapshots || p.entry.height % 100 == 0
  }

  // ---------- the disk after n steps ----------

  ghost predicate StagedAfter(p: Progress, n: nat) {
    var h, a, b, x := p.entry.height, p.before.staged, p.now.staged, p.entry;
    && (if n < 2 then b.headers == a.headers
        else if n < 16 then Added(a.headers, b.headers, h, HeaderBytes(x.block.header))
        else Removed(a.headers, b.headers, h))
    && (if n < 4 then b.blocks == a.blocks
        else if n < 17 then Added(a.blocks, b.blocks, h, BlockRecord(x.block))
        else Removed(a.blocks, b.blocks, h))
    && (if n < 6 then b.states == a.states
        else if n < 18 then Added(a.states, b.states, h, x.state)
        else Removed(a.states, b.states, h))
  }

  ghost predicate PublishedAfter(p: Progress, n: nat) {
    var h, a, b, x := p.entry.height, p.before, p.now, p.entry;
    && (if n < 8 then b.headers == a.headers else Added(a.headers, b.headers, h, HeaderBytes(x.block.header)))
    && (if n < 9 then b.blocks == a.blocks else Added(a.blocks, b.blocks, h, BlockRecord(x.block)))
    && (if n < 10 || !SnapshotDue(p) then b.snapshots == a.snapshots
        else Added(a.snapshots, b.snapshots, h, x.state))
  }

  ghost predicate IndexedAfter(p: Progress, n: nat) {
    var h, a, b, hash := p.entry.height, p.before, p.now, BlockHash(p.entry.block);
    && (if n < 11 then b.heightToHash == a.heightToHash
        else b.heightToHash.Some? && Added(OrEmpty(a.heightToHash), b.heightToHash.value, h, hash))
    && (if n < 12 then b.hashToHeight == a.hashToHeight
        else b.hashToHeight.Some? && Added(OrEmpty(a.hashToHeight), b.hashToHeight.value, hash, h))
  }

  /** How many journal records the first n steps write. */
  function Records(n: nat): nat {
    if n < 1 then 0 else if n < 3 then 1 else if n < 5 then 2 else if n < 7 then 3 else if n < 13 then 4
    else if n < 14 then 5 else 6
  }

  ghost predicate After(p: Progress, n: nat) {
    && Journalled(p, Records(n))
    && StagedAfter(p, n) && PublishedAfter(p, n) && IndexedAfter(p, n)
    && (if n < 15 then p.now.head == p.before.head else HeadMoved(p))
  }

  lemma {:induction false} StageGoesOn(p: Progress, n: nat)
    requires n < 7 && After(p, n)
    ensures After(p.(now := StageStep(p.now, p.entry, n)), n + 1)
  {
    var t := Trail(p.entry.height);
    assert Records(n + 1) > Records(n) ==> t[..Records(n + 1)] == t[..Records(n)] + [t[Records(n)]];
  }

  lemma {:induction false} PublishGoesOn(p: Progress, n: nat)
    requires 7 <= n < 12 && After(p, n)
    ensures After(p.(now := PublishStep(p.now, p.entry, n)), n + 1)
  {
  }

  lemma {:induction false} CommitGoesOn(p: Progress, n: nat)
    requires 12 <= n < 18 && After(p, n)
    ensures After(p.(now := CommitStep(p.now, p.genesis, p.entry, n)), n + 1)
  {
    var t := Trail(p.entry.height);
    assert Records(n + 1) > Records(n) ==> t[..Records(n + 1)] == t[..Records(n)] + [t[Records(n)]];
  }

  /** What an append of this entry has reached after n steps. */
  function Reached(d: Disk, genesis: Hash, x: Entry, n: nat): Progress {
    Progress(d, AppendSteps(d, genesis, x, n), x, genesis)
  }

  lemma {:induction false} StepsGoOn(d: Disk, genesis: Hash, x: Entry, n: nat)
    requires n <= 18
    ensures After(Reached(d, genesis, x, n), n)
  {
    if n == 0 {
      assert d.journal + Trail(x.height)[..0] == d.journal;
    } else {
      StepsGoOn(d, genesis, x, n - 1);
      var p := Reached(d, genesis, x, n - 1);
      if n - 1 < 7 {
        StageGoesOn(p, n - 1);
      } else if n - 1 < 12 {
        PublishGoesOn(p, n - 1);
      } else {
        CommitGoesOn(p, n - 1);
      }
    }
  }

  // ---------- the order ----------

  /** The staged files of this height are there. */
  predicate StagedFiles(p: Progress, m: nat) {
    var h, b, x := p.entry.height, p.now.staged, p.entry;
    && (m >= 2 ==> h in b.headers && b.headers[h] == HeaderBytes(x.block.header))
    && (m >= 3 ==> h in b.blocks && b.blocks[h] == BlockRecord(x.block))
    && (m >= 4 ==> h in b.states && b.states[h] == x.state)
  }

  /** Header, block, the snapshot where one is due, and both index entries are there; nothing else has changed. */
  ghost predicate Published(p: Progress) {
    PublishedAfter(p, 12) && IndexedAfter(p, 12)
  }

  ghost predicate NothingPublished(p: Progress) {
    var a, b := p.before, p.now;
    && b.headers == a.headers && b.blocks == a.blocks && b.snapshots == a.snapshots
    && b.heightToHash == a.heightToHash && b.hashToHeight == a.hashToHeight
  }

  /**
   With m records journalled: what they say is staged is staged until HEAD moves; nothing is published before
   REGISTRY_STAGED, everything is by INDEX_STAGED, and HEAD moves after COMMIT only.
   */
  ghost predicate InOrder(p: Progress, m: nat) {
    && Journalled(p, m)
    && (m == 0 ==> p.now == p.before)
    && (m < 4 ==> NothingPublished(p))
    && (m >= 5 ==> Published(p))
    && (p.now.head == p.before.head || (m == 6 && HeadMoved(p)))
    && (StagedFiles(p, m) || (m == 6 && HeadMoved(p)))
  }

  /** Wherever an append stops, the disk is in order. */
  lemma {:induction false} WrittenAhead(d: Disk, genesis: Hash, b: Block, s: State, n: nat) returns (m: nat)
    requires n <= 18
    ensures InOrder(Progress(d, Append(d, genesis, b, s, n), Entry(TipHeight(d) + 1, b, s), genesis), m)
  {
    StepsGoOn(d, genesis, Entry(TipHeight(d) + 1, b, s), n);
    m := Records(n);
  }

  /** A finished append has journalled all six records, published everything, moved HEAD and cleaned up. */
  lemma {:induction false} FinishedAppend(d: Disk, genesis: Hash, b: Block, s: State)
    ensures var p := Progress(d, Append(d, genesis, b, s, 18), Entry(TipHeight(d) + 1, b, s), genesis);
            && Journalled(p, 6) && Published(p) && HeadMoved(p)
            && Removed(d.staged.headers, p.now.staged.headers, p.entry.height)
            && Removed(d.staged.blocks, p.now.staged.blocks, p.entry.height)
            && Removed(d.staged.states, p.now.staged.states, p.entry.height)
  {
    StepsGoOn(d, genesis, Entry(TipHeight(d) + 1, b, s), 18);
  }
}
