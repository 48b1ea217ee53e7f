/**
 How far header and block sync get. New headers are weighed against the whole local chain, and targets are
 asked of the local chain at heights it does not have; together this leaves sync to the first few blocks.
 */
module SyncProgress {
  import opened Wrappers
  import opened Types
  import opened Difficulty
  import opened Blocks
  import opened Storage
  import opened Chain
  import opened LongestChain
  import opened Sync

  // ---------- weighing ----------

  ghost predicate AllAre(targets: seq<nat>, t: nat) {
    forall i :: 0 <= i < |targets| ==> targets[i] == t
  }

  lemma {:induction false} ConstantWork(targets: seq<nat>, t: nat)
    requires t > 0 && AllAre(targets, t)
    ensures AllPositive(targets) && WorkOf(targets) == |targets| * (MAX_TARGET / t)
    decreases |targets|
  {
    if targets != [] {
      ConstantWork(targets[..|targets| - 1], t);
      Distribute(MAX_TARGET / t, |targets| - 1, 1);
    }
  }

  lemma {:induction false} WorkOfParts(a: seq<nat>, b: seq<nat>)
    requires AllPositive(a) && AllPositive(b)
    ensures AllPositive(a + b) && WorkOf(a + b) == WorkOf(a) + WorkOf(b)
    decreases |b|
  {
    if b == [] {
      assert a + b == a;
    } else {
      assert (a + b)[..|a + b| - 1] == a + b[..|b| - 1];
      WorkOfParts(a, b[..|b| - 1]);
    }
  }

  /** Equal targets at the end of a chain weigh at most what the chain does. */
  lemma {:induction false} TailWeighs(targets: seq<nat>, m: nat, t: nat)
    requires AllPositive(targets) && m <= |targets| && t > 0 && AllAre(targets[|targets| - m..], t)
    ensures m * (MAX_TARGET / t) <= WorkOf(targets)
  {
    var n := |targets| - m;
    assert targets == targets[..n] + targets[n..];
    ConstantWork(targets[n..], t);
    WorkOfParts(targets[..n], targets[n..]);
  }

  /** A target cut to a quarter weighs at most ten times as much, rounding included. */
  lemma {:induction false} QuarterWeighsTenfold(t: nat, u: nat)
    requires MIN_TARGET <= t <= MAX_TARGET && u >= 1 && u >= t / 4
    ensures MAX_TARGET / u <= 10 * (MAX_TARGET / t)
  {
    var w, q := MAX_TARGET / t, if t < 4 then 1 else t / 4;
    TargetCounts(t);
    assert MAX_TARGET == t * w + MAX_TARGET % t;
    Distribute(t, w, 1);
    assert MAX_TARGET < t * (w + 1);
    MulMonotone(w + 1, t, 4 * q + 3);
    Distribute(w + 1, 4 * q, 3);
    assert MAX_TARGET < (w + 1) * (4 * q) + 3 * (w + 1);
    Spread(w, q, t);
    assert MAX_TARGET < q * (10 * w + 1);
    AtMost(MAX_TARGET, q, 10 * w);
    DivisorMonotone(MAX_TARGET, q, u);
  }

  lemma {:induction false} Spread(w: nat, q: nat, t: nat)
    requires w >= 1 && q >= 1 && t <= 4 * q + 3 && MAX_TARGET < t * (w + 1)
    ensures (w + 1) * (4 * q) + 3 * (w + 1) <= q * (10 * w + 1)
  {
    assert q * (10 * w + 1) - (w + 1) * (4 * q) == q * (6 * w - 3);
    if w >= 2 {
      MulMonotone(6 * w - 3, 1, q);
    } else {
      assert q >= 2;
      MulMonotone(3, 2, q);
    }
  }

  lemma {:induction false} AtMost(x: nat, d: nat, q: nat)
    requires d > 0 && x < d * (q + 1)
    ensures x / d <= q
  {
    assert x == d * (x / d) + x % d;
    MulCancel(d, x / d, q + 1);
  }

  lemma {:induction false} DivisorMonotone(x: nat, d: nat, e: nat)
    requires 0 < d <= e
    ensures x / e <= x / d
  {
    assert x == d * (x / d) + x % d;
    Distribute(d, x / d, 1);
    MulMonotone(x / d + 1, d, e);
    AtMost(x, e, x / d);
  }

  // ---------- one header ----------

  /** The last ten blocks before a boundary share a target. */
  lemma {:induction false} LastWindow(chain: seq<Block>)
    requires OnTarget(chain) && |chain| >= 10 && |chain| % 10 == 0
    ensures AllAre(ChainTargets(chain)[|chain| - 10..], chain[|chain| - 1].header.target)
  {
    var n := |chain|;
    var tail := ChainTargets(chain)[n - 10..];
    forall i | 0 <= i < |tail| ensures tail[i] == chain[n - 1].header.target {
      TargetIsConstantInWindow(chain, n - 10 + i, n - 1);
    }
  }

  lemma {:induction false} RegularTargets(chain: seq<Block>)
    requires Regular(chain)
    ensures AllPositive(ChainTargets(chain))
  {
    forall i | 0 <= i < |chain| ensures ChainTargets(chain)[i] > 0 {
      TargetsStayInRange(chain, i);
    }
  }

  lemma {:induction false} LastBlockWeighs(chain: seq<Block>)
    requires Regular(chain)
    ensures AllPositive(ChainTargets(chain)) && chain[|chain| - 1].header.target > 0
    ensures MAX_TARGET / chain[|chain| - 1].header.target <= WorkOf(ChainTargets(chain))
  {
    RegularTargets(chain);
    var n := |chain|;
    TargetsStayInRange(chain, n - 1);
    assert ChainTargets(chain)[n - 1..] == [chain[n - 1].header.target];
    TailWeighs(ChainTargets(chain), 1, chain[n - 1].header.target);
  }

  /** One more block never outweighs the chain it extends. */
  lemma {:induction false} NextNeverOutweighs(chain: seq<Block>)
    requires Regular(chain)
    ensures ExpectedTargetAt(chain, |chain|) > 0 && AllPositive(ChainTargets(chain))
    ensures MAX_TARGET / ExpectedTargetAt(chain, |chain|) <= WorkOf(ChainTargets(chain))
  {
    var n := |chain|;
    var last := chain[n - 1].header.target;
    LastBlockWeighs(chain);
    TargetsStayInRange(chain, n - 1);
    if n < 10 {
      FirstWindow(chain, n - 1);
    } else if n % 10 == 0 {
      var measured := chain[n - 1].header.timestamp - chain[n - 10].header.timestamp;
      AdjustIsBounded(last, measured);
      QuarterWeighsTenfold(last, Adjust(last, measured));
      LastWindow(chain);
      TailWeighs(ChainTargets(chain), 10, last);
    }
  }

  lemma {:induction false} FirstWindow(chain: seq<Block>, i: nat)
    requires OnTarget(chain) && i < |chain| && i < 10
    ensures chain[i].header.target == chain[0].header.target
  {
    TargetIsConstantInWindow(chain, 0, i);
  }

  // ---------- which messages make the engine ask for blocks ----------

  lemma {:induction false} PassedTargetAt(rules: Rules, chain: seq<Block>, prev: Hash, entries: seq<Option<Header>>,
                                          k: nat, i: nat)
    requires chain != [] && k <= i < |entries| && CheckHeaders(rules, chain, prev, entries, k) == Passed
    ensures entries[i].Some? && TargetAsked(chain, |chain| + i) == Some(entries[i].value.target)
    decreases i - k
  {
    if k < i {
      PassedTargetAt(rules, chain, HeaderHash(entries[k].value), entries, k + 1, i);
    }
  }

  function FirstCheck(rules: Rules, chain: seq<Block>, entries: seq<Option<Header>>): Checked
    requires chain != []
  {
    CheckHeaders(rules, chain, BlockHash(chain[|chain| - 1]), entries, 0)
  }

  // ---------- which blocks are taken ----------

  /** The one block of the payload names the last pending block or, while none is pending, the tip. */
  predicate BlockNamesTheLast(n: Node, payload: Option<seq<Option<Block>>>)
    requires n.chain != []
  {
    && payload.Some? && |payload.value| == 1 && payload.value[0].Some?
    && payload.value[0].value.header.prevHash
       == HeaderHash((if n.blocks == [] then n.chain[|n.chain| - 1] else n.blocks[|n.blocks| - 1]).header)
  }

  /** The ledger can tell the target asked for, at a height that counts the pending blocks once more. */
  predicate BlockWithinReach(n: Node) {
    n.blocks == [] || |n.chain| + |n.blocks| < 10
  }

  predicate BlockCarriesTarget(n: Node, b: Block)
    requires n.chain != []
  {
    b.header.target == (if n.blocks == [] then ExpectedTargetAt(n.chain, |n.chain|) else n.chain[0].header.target)
  }

  /** The block carries that target, and the ledger admits it. */
  predicate BlockIsAdmitted(rules: Rules, n: Node, b: Block, now: int)
    requires n.chain != []
  {
    BlockCarriesTarget(n, b) && Admissible(rules, n.chain, b, now)
  }

  lemma {:induction false} BlockChecksExactly(rules: Rules, n: Node, payload: seq<Option<Block>>)
    requires n.chain != []
    ensures var checked := CheckBlock(n.chain, n.blocks, payload);
            && (checked == OffTheChain <==> BlockNamesTheLast(n, Some(payload)) && !BlockWithinReach(n))
            && (checked == Passed
                <==> && BlockNamesTheLast(n, Some(payload)) && BlockWithinReach(n)
                     && BlockCarriesTarget(n, payload[0].value))
  {
  }

  lemma {:induction false} CheckedBlockGoesOn(rules: Rules, genesis: Hash, n: Node, b: Block, now: int,
                                              saves: nat -> Save)
    requires n.chain != [] && n.headers != []
    ensures var (next, answer) := OnChecked(rules, genesis, n, b, now, saves);
            && next.chain == (if Admissible(rules, n.chain, b, now) then n.chain + [b] else n.chain)
            && (answer == Ok(Invalid) <==> !Admissible(rules, n.chain, b, now))
            && answer !in {Err(IndexError), Err(PayloadError)}
  {
  }

  /**
   A block asked for is taken, and the ledger has it from then on, exactly when it names the last one, its
   target is within reach and it is admitted; an IndexError escapes exactly when only the target is out of
   reach; anything else that parses is refused, and the ledger stays as it was.
   */
  lemma {:induction false} BlockTakenExactlyWhen(rules: Rules, genesis: Hash, n: Node,
                                                 payload: Option<seq<Option<Block>>>, now: int, saves: nat -> Save)
    requires n.chain != [] && n.headers != []
    ensures var (next, answer) := OnBlock(rules, genesis, n, payload, now, saves);
            && (answer == Err(PayloadError) <==> payload.None?)
            && (answer == Err(IndexError) <==> BlockNamesTheLast(n, payload) && !BlockWithinReach(n))
            && (next.chain != n.chain
                <==> && BlockNamesTheLast(n, payload) && BlockWithinReach(n)
                     && BlockIsAdmitted(rules, n, payload.value[0].value, now))
            && (next.chain != n.chain ==> next.chain == n.chain + [payload.value[0].value])
            && (answer == Ok(Invalid)
                <==> payload.Some? && next.chain == n.chain && !(BlockNamesTheLast(n, payload) && !BlockWithinReach(n)))
  {
    if payload.Some? {
      BlockChecksExactly(rules, n, payload.value);
      if CheckBlock(n.chain, n.blocks, payload.value).Passed? {
        CheckedBlockGoesOn(rules, genesis, n.(state := ValidatingBlocks), payload.value[0].value, now, saves);
      }
    }
  }

  // ---------- which headers pass ----------

  /** The entry decodes and names the header before it, the first one the local tip. */
  predicate NamesTheLast(chain: seq<Block>, entries: seq<Option<Header>>, k: nat)
    requires chain != [] && k < |entries|
  {
    && entries[k].Some?
    && (k == 0 ==> entries[0].value.prevHash == HeaderHash(chain[|chain| - 1].header))
    && (k > 0 ==> entries[k - 1].Some? && entries[k].value.prevHash == HeaderHash(entries[k - 1].value))
  }

  /** The ledger can tell the target of the next block, and below the first boundary that of any block. */
  predicate WithinReach(chain: seq<Block>, k: nat) {
    k == 0 || |chain| + k < 10
  }

  /** Everything asked of the header at position k. */
  predicate HeaderFollows(rules: Rules, chain: seq<Block>, entries: seq<Option<Header>>, k: nat)
    requires chain != [] && k < |entries|
  {
    && NamesTheLast(chain, entries, k) && WithinReach(chain, k)
    && entries[k].value.target == (if k == 0 then ExpectedTargetAt(chain, |chain|) else chain[0].header.target)
    && rules.powValue(HeaderHash(entries[k].value)) <= entries[k].value.target
    && entries[k].value.version == 2
  }

  ghost predicate HeadersFollow(rules: Rules, chain: seq<Block>, entries: seq<Option<Header>>, n: nat)
    requires chain != [] && n <= |entries|
  {
    forall k: nat :: k < n ==> HeaderFollows(rules, chain, entries, k)
  }

  /** The hash header k must name, once the headers below it are known to follow. */
  function HashBelow(chain: seq<Block>, entries: seq<Option<Header>>, k: nat): Hash
    requires chain != [] && k <= |entries| && (k > 0 ==> entries[k - 1].Some?)
  {
    if k == 0 then BlockHash(chain[|chain| - 1]) else HeaderHash(entries[k - 1].value)
  }

  /** The headers below k follow, k links to them, and the ledger cannot tell its target. */
  ghost predicate OutOfReachAt(rules: Rules, chain: seq<Block>, entries: seq<Option<Header>>, k: nat)
    requires chain != []
  {
    && k < |entries| && HeadersFollow(rules, chain, entries, k)
    && NamesTheLast(chain, entries, k) && !WithinReach(chain, k)
  }

  lemma {:induction false} OneHeaderFollows(rules: Rules, chain: seq<Block>, entries: seq<Option<Header>>, k: nat)
    requires chain != [] && k < |entries| && (k > 0 ==> entries[k - 1].Some?)
    ensures var prev := HashBelow(chain, entries, k);
            HeaderFollows(rules, chain, entries, k)
            <==> && entries[k].Some? && entries[k].value.prevHash == prev
                 && TargetAsked(chain, |chain| + k).Some?
                 && HeaderOk(rules, entries[k].value, prev, TargetAsked(chain, |chain| + k).value)
    ensures WithinReach(chain, k) <==> TargetAsked(chain, |chain| + k).Some?
    ensures NamesTheLast(chain, entries, k)
            <==> entries[k].Some? && entries[k].value.prevHash == HashBelow(chain, entries, k)
  {
  }

  lemma {:induction false} HeadersFrom(rules: Rules, chain: seq<Block>, entries: seq<Option<Header>>, k: nat)
    requires chain != [] && k <= |entries| && HeadersFollow(rules, chain, entries, k)
    requires k > 0 ==> entries[k - 1].Some?
    ensures var r := CheckHeaders(rules, chain, HashBelow(chain, entries, k), entries, k);
            && (r == Passed <==> HeadersFollow(rules, chain, entries, |entries|))
            && (r == OffTheChain <==> exists i: nat :: OutOfReachAt(rules, chain, entries, i))
    decreases |entries| - k
  {
    if k < |entries| {
      OneHeaderFollows(rules, chain, entries, k);
      if HeaderFollows(rules, chain, entries, k) {
        HeadersFrom(rules, chain, entries, k + 1);
      } else {
        if WithinReach(chain, k) || !NamesTheLast(chain, entries, k) {
          forall i: nat ensures !OutOfReachAt(rules, chain, entries, i) {
            StopsAt(rules, chain, entries, k, i);
          }
        } else {
          assert OutOfReachAt(rules, chain, entries, k);
        }
      }
    } else {
      forall i: nat ensures !OutOfReachAt(rules, chain, entries, i) {
        if i < |entries| {
          assert HeaderFollows(rules, chain, entries, i);
        }
      }
    }
  }

  lemma {:induction false} StopsAt(rules: Rules, chain: seq<Block>, entries: seq<Option<Header>>, k: nat, i: nat)
    requires chain != [] && k < |entries| && HeadersFollow(rules, chain, entries, k)
    requires !HeaderFollows(rules, chain, entries, k)
    requires WithinReach(chain, k) || !NamesTheLast(chain, entries, k)
    ensures !OutOfReachAt(rules, chain, entries, i)
  {
    if i < k {
      assert HeaderFollows(rules, chain, entries, i);
    }
  }

  /**
   The headers of a message pass exactly when each of them follows. An IndexError escapes exactly when some
   header links to headers that follow and its target is out of the ledger's reach. Any other message is refused.
   */
  lemma {:induction false} HeadersPassExactlyWhen(rules: Rules, chain: seq<Block>, entries: seq<Option<Header>>)
    requires chain != []
    ensures FirstCheck(rules, chain, entries) == Passed <==> HeadersFollow(rules, chain, entries, |entries|)
    ensures FirstCheck(rules, chain, entries) == OffTheChain
            <==> exists k: nat :: OutOfReachAt(rules, chain, entries, k)
  {
    HeadersFrom(rules, chain, entries, 0);
  }

  /** Two or more headers that pass all lie below the first boundary. */
  lemma {:induction false} PassedIsBelowBoundary(rules: Rules, chain: seq<Block>, entries: seq<Option<Header>>)
    requires chain != [] && |entries| >= 2 && FirstCheck(rules, chain, entries) == Passed
    ensures |chain| + |entries| <= 10
  {
    PassedTargetAt(rules, chain, BlockHash(chain[|chain| - 1]), entries, 0, |entries| - 1);
  }

  lemma {:induction false} PassedBelowBoundary(rules: Rules, chain: seq<Block>, entries: seq<Option<Header>>,
                                               headers: seq<Header>)
    requires Regular(chain) && FirstCheck(rules, chain, entries) == Passed && |chain| + |entries| <= 10
    requires |headers| == |entries| && forall i :: 0 <= i < |entries| ==> entries[i] == Some(headers[i])
    ensures AllPositive(HeaderTargets(headers)) && AllPositive(ChainTargets(chain))
    ensures WorkOf(HeaderTargets(headers)) > WorkOf(ChainTargets(chain)) <==> |headers| > |chain|
  {
    var t := chain[0].header.target;
    forall i | 0 <= i < |headers| ensures HeaderTargets(headers)[i] == t {
      PassedTargetAt(rules, chain, BlockHash(chain[|chain| - 1]), entries, 0, i);
      assert entries[i] == Some(headers[i]);
    }
    forall i | 0 <= i < |chain| ensures ChainTargets(chain)[i] == t {
      FirstWindow(chain, i);
    }
    ConstantWork(HeaderTargets(headers), t);
    ConstantWork(ChainTargets(chain), t);
    TargetCounts(t);
    MoreIsMore(MAX_TARGET / t, |chain|, |headers|);
  }

  lemma {:induction false} MoreIsMore(w: nat, a: nat, b: nat)
    requires w >= 1
    ensures b * w > a * w <==> b > a
  {
    if b > a {
      MulMonotone(w, a + 1, b);
      Distribute(w, a, 1);
    } else {
      MulMonotone(w, b, a);
    }
  }

  lemma {:induction false} OneHeaderIsNotEnough(rules: Rules, n: Node, entries: seq<Option<Header>>)
    requires Regular(n.chain) && |entries| == 1 && FirstCheck(rules, n.chain, entries) == Passed
    ensures OnHeaders(rules, n, Some(entries)).1 == Ok(NoBetterChain)
  {
    PassedTargetAt(rules, n.chain, BlockHash(n.chain[|n.chain| - 1]), entries, 0, 0);
    var h, t := HeadersOf(entries), entries[0].value.target;
    NextNeverOutweighs(n.chain);
    assert AllAre(HeaderTargets(h), t);
    ConstantWork(HeaderTargets(h), t);
  }

  lemma {:induction false} HeadersBelowBoundary(rules: Rules, n: Node, entries: seq<Option<Header>>)
    requires Regular(n.chain) && |entries| >= 2 && FirstCheck(rules, n.chain, entries) == Passed
    ensures OnHeaders(rules, n, Some(entries)).1
            == if |entries| > |n.chain| then Ok(RequestBlocks(|entries|)) else Ok(NoBetterChain)
  {
    PassedIsBelowBoundary(rules, n.chain, entries);
    PassedDecode(rules, n.chain, BlockHash(n.chain[|n.chain| - 1]), entries, 0);
    PassedBelowBoundary(rules, n.chain, entries, HeadersOf(entries));
  }

  /**
   The engine asks for blocks exactly when the headers pass, there are more of them than the local chain
   has blocks, genesis included, and they end below the first boundary. So from five blocks on it never does.
   */
  lemma {:induction false} RequestsBlocksExactlyWhen(rules: Rules, n: Node, entries: seq<Option<Header>>)
    requires Regular(n.chain)
    ensures OnHeaders(rules, n, Some(entries)).1 == Ok(RequestBlocks(|entries|))
            <==> FirstCheck(rules, n.chain, entries) == Passed && |n.chain| < |entries| && |n.chain| + |entries| <= 10
  {
    if FirstCheck(rules, n.chain, entries) == Passed {
      if |entries| == 1 {
        OneHeaderIsNotEnough(rules, n, entries);
      } else if |entries| >= 2 {
        PassedIsBelowBoundary(rules, n.chain, entries);
        HeadersBelowBoundary(rules, n, entries);
      }
    }
  }
  // ---------- an honest peer ----------

  /** A peer that sends the headers of blocks the ledger would admit in turn, and then those blocks as asked. */
  ghost predicate AdmissibleInTurn(rules: Rules, chain: seq<Block>, blocks: seq<Block>, clock: nat -> int)
    requires chain != []
  {
    forall k :: 0 <= k < |blocks| ==> AdmissibleNext(rules, chain, blocks, clock, k)
  }

  predicate AdmissibleNext(rules: Rules, chain: seq<Block>, blocks: seq<Block>, clock: nat -> int, k: nat)
    requires chain != [] && k < |blocks|
  {
    Admissible(rules, chain + blocks[..k], blocks[k], clock(k))
  }

  function Entries(blocks: seq<Block>): (r: seq<Option<Header>>)
    ensures |r| == |blocks|
  {
    seq(|blocks|, i requires 0 <= i < |blocks| => Some(blocks[i].header))
  }

  function Sent(b: Block): Option<seq<Option<Block>>> {
    Some([Some(b)])
  }

  /** The blocks from position k on, sent for as long as the engine asks for the next one. */
  function SendBlocks(rules: Rules, genesis: Hash, n: Node, blocks: seq<Block>, clock: nat -> int, saves: nat -> Save,
                      k: nat):
    (Node, Result<Answer, Escape>)
    requires n.chain != [] && k < |blocks|
    decreases |blocks| - k
  {
    var (next, answer) := OnBlock(rules, genesis, n, Sent(blocks[k]), clock(k), saves);
    if answer == Ok(NextBlock) && k + 1 < |blocks| then SendBlocks(rules, genesis, next, blocks, clock, saves, k + 1)
    else (next, answer)
  }

  /** One whole synchronisation. */
  function SyncWith(rules: Rules, genesis: Hash, n: Node, blocks: seq<Block>, clock: nat -> int, saves: nat -> Save):
    (Node, Result<Answer, Escape>)
    requires n.chain != []
  {
    var (next, answer) := OnHeaders(rules, n, Some(Entries(blocks)));
    if answer.Ok? && answer.value.RequestBlocks? && blocks != [] then
      SendBlocks(rules, genesis, next, blocks, clock, saves, 0)
    else (next, answer)
  }

  // What admission says about a header.

  lemma {:induction false} AdmissibleHeader(rules: Rules, chain: seq<Block>, b: Block, now: int)
    requires chain != [] && Admissible(rules, chain, b, now)
    ensures HeaderOk(rules, b.header, BlockHash(chain[|chain| - 1]), ExpectedTargetAt(chain, |chain|))
  {
  }

  lemma {:induction false} HeaderInTurn(rules: Rules, chain: seq<Block>, blocks: seq<Block>, clock: nat -> int, k: nat)
    requires chain != [] && k < |blocks| && AdmissibleNext(rules, chain, blocks, clock, k)
    requires k == 0 || |chain| + k < 10
    ensures var below := chain + blocks[..k];
            && TargetAsked(chain, |chain| + k) == Some(ExpectedTargetAt(below, |below|))
            && HeaderOk(rules, blocks[k].header, BlockHash(below[|below| - 1]), ExpectedTargetAt(below, |below|))
  {
    var below := chain + blocks[..k];
    AdmissibleHeader(rules, below, blocks[k], clock(k));
    if k == 0 {
      assert below == chain;
    } else {
      assert below[0] == chain[0];
    }
  }

  lemma {:induction false} HonestHeadersPass(rules: Rules, chain: seq<Block>, blocks: seq<Block>, clock: nat -> int,
                                             k: nat)
    requires chain != [] && AdmissibleInTurn(rules, chain, blocks, clock) && |chain| + |blocks| <= 10 && k <= |blocks|
    ensures var below := chain + blocks[..k];
            CheckHeaders(rules, chain, BlockHash(below[|below| - 1]), Entries(blocks), k) == Passed
    decreases |blocks| - k
  {
    if k < |blocks| {
      assert AdmissibleNext(rules, chain, blocks, clock, k);
      HeaderInTurn(rules, chain, blocks, clock, k);
      HonestHeadersPass(rules, chain, blocks, clock, k + 1);
      var next := chain + blocks[..k + 1];
      assert next[|next| - 1] == blocks[k];
    }
  }

  // ---------- which blocks get through ----------

  /** The node once k blocks are in. */
  function Midway(n: Node, blocks: seq<Block>, k: nat): Node
    requires k <= |blocks| == |n.headers|
  {
    Node(n.chain + blocks[..k], n.disk, n.headers[k..], blocks[..k], RequestingBlocks)
  }

  /** Whether the engine finds a target to ask of block k. */
  predicate HasTarget(chain: seq<Block>, k: nat) {
    k == 0 || |chain| + 2 * k < 10
  }

  lemma {:induction false} BlockInTurn(rules: Rules, n: Node, blocks: seq<Block>, clock: nat -> int, k: nat)
    requires n.chain != [] && k < |blocks| == |n.headers| && AdmissibleNext(rules, n.chain, blocks, clock, k)
    ensures var m := Midway(n, blocks, k);
            CheckBlock(m.chain, m.blocks, [Some(blocks[k])]) == if HasTarget(n.chain, k) then Passed else OffTheChain
  {
    var m := Midway(n, blocks, k);
    AdmissibleHeader(rules, m.chain, blocks[k], clock(k));
    assert k > 0 ==> m.chain[|m.chain| - 1] == blocks[..k][k - 1];
    assert HashAsked(m.chain, m.blocks) == BlockHash(m.chain[|m.chain| - 1]);
    if HasTarget(n.chain, k) {
      TargetInTurn(n.chain, blocks, k);
    }
  }

  lemma {:induction false} TargetInTurn(chain: seq<Block>, blocks: seq<Block>, k: nat)
    requires chain != [] && k < |blocks| && HasTarget(chain, k)
    ensures var below := chain + blocks[..k];
            TargetAsked(below, HeightAsked(below, blocks[..k])) == Some(ExpectedTargetAt(below, |below|))
  {
  }

  lemma {:induction false} OneBlockIn(rules: Rules, genesis: Hash, n: Node, blocks: seq<Block>, clock: nat -> int,
                                      saves: nat -> Save, k: nat)
    requires n.chain != [] && k < |blocks| == |n.headers| && AdmissibleNext(rules, n.chain, blocks, clock, k)
    ensures OnBlock(rules, genesis, Midway(n, blocks, k), Sent(blocks[k]), clock(k), saves)
            == if !HasTarget(n.chain, k) then (Midway(n, blocks, k).(state := ValidatingBlocks), Err(IndexError))
               else if k + 1 < |blocks| then (Midway(n, blocks, k + 1), Ok(NextBlock))
               else OnCommit(genesis, Midway(n, blocks, k + 1).(state := ValidatingBlocks), saves)
  {
    BlockInTurn(rules, n, blocks, clock, k);
    var m := Midway(n, blocks, k);
    TakenIsMidway(n, blocks, k);
    assert m.headers != [];
  }

  lemma {:induction false} TakenIsMidway(n: Node, blocks: seq<Block>, k: nat)
    requires k < |blocks| == |n.headers|
    ensures Midway(n, blocks, k).headers != []
    ensures Taken(Midway(n, blocks, k).(state := ValidatingBlocks), blocks[k])
            == Midway(n, blocks, k + 1).(state := ValidatingBlocks)
  {
    assert blocks[..k] + [blocks[k]] == blocks[..k + 1];
    assert n.chain + blocks[..k] + [blocks[k]] == n.chain + blocks[..k + 1];
    assert n.headers[k..][1..] == n.headers[k + 1..];
  }

  /** The first position at which no target is found. */
  function StuckAt(length: nat): nat {
    if length >= 8 then 1 else (11 - length) / 2
  }

  lemma {:induction false} SendOn(rules: Rules, genesis: Hash, n: Node, blocks: seq<Block>, clock: nat -> int,
                                  saves: nat -> Save, k: nat, next: Node, answer: Result<Answer, Escape>)
    requires n.chain != [] && k < |blocks| && next.chain != []
    requires OnBlock(rules, genesis, n, Sent(blocks[k]), clock(k), saves) == (next, answer)
    ensures SendBlocks(rules, genesis, n, blocks, clock, saves, k)
            == if answer == Ok(NextBlock) && k + 1 < |blocks|
               then SendBlocks(rules, genesis, next, blocks, clock, saves, k + 1) else (next, answer)
  {
  }

  lemma {:induction false} CommitAnswers(genesis: Hash, n: Node, saves: nat -> Save)
    requires n.chain != []
    ensures var r := OnCommit(genesis, n, saves);
            r.0.chain == n.chain && (r.1 == Err(StorageError) || r.1.value.Synced?)
  {
  }

  /**
   Block by block: all get in exactly when the last one has a target; otherwise the first without one ends
   it with an IndexError.
   */
  lemma {:induction false} BlocksGetIn(rules: Rules, genesis: Hash, n: Node, blocks: seq<Block>, clock: nat -> int,
                                       saves: nat -> Save, k: nat)
    requires n.chain != [] && k < |blocks| == |n.headers| && AdmissibleInTurn(rules, n.chain, blocks, clock)
    requires k <= StuckAt(|n.chain|)
    ensures SendBlocks(rules, genesis, Midway(n, blocks, k), blocks, clock, saves, k)
            == if HasTarget(n.chain, |blocks| - 1) then
                 OnCommit(genesis, Midway(n, blocks, |blocks|).(state := ValidatingBlocks), saves)
               else
                 (Midway(n, blocks, StuckAt(|n.chain|)).(state := ValidatingBlocks), Err(IndexError))
    decreases |blocks| - k
  {
    assert AdmissibleNext(rules, n.chain, blocks, clock, k);
    OneSent(rules, genesis, n, blocks, clock, saves, k);
    if HasTarget(n.chain, k) && k + 1 < |blocks| {
      BlocksGetIn(rules, genesis, n, blocks, clock, saves, k + 1);
    }
  }

  lemma {:induction false} OneSent(rules: Rules, genesis: Hash, n: Node, blocks: seq<Block>, clock: nat -> int,
                                   saves: nat -> Save, k: nat)
    requires n.chain != [] && k < |blocks| == |n.headers| && AdmissibleNext(rules, n.chain, blocks, clock, k)
    ensures SendBlocks(rules, genesis, Midway(n, blocks, k), blocks, clock, saves, k)
            == if !HasTarget(n.chain, k) then (Midway(n, blocks, k).(state := ValidatingBlocks), Err(IndexError))
               else if k + 1 < |blocks|
               then SendBlocks(rules, genesis, Midway(n, blocks, k + 1), blocks, clock, saves, k + 1)
               else OnCommit(genesis, Midway(n, blocks, k + 1).(state := ValidatingBlocks), saves)
  {
    var m := Midway(n, blocks, k);
    OneBlockIn(rules, genesis, n, blocks, clock, saves, k);
    if !HasTarget(n.chain, k) {
      SendOn(rules, genesis, m, blocks, clock, saves, k, m.(state := ValidatingBlocks), Err(IndexError));
    } else if k + 1 < |blocks| {
      SendOn(rules, genesis, m, blocks, clock, saves, k, Midway(n, blocks, k + 1), Ok(NextBlock));
    } else {
      var whole := Midway(n, blocks, k + 1).(state := ValidatingBlocks);
      CommitAnswers(genesis, whole, saves);
      var end := OnCommit(genesis, whole, saves);
      SendOn(rules, genesis, m, blocks, clock, saves, k, end.0, end.1);
    }
  }

  // ---------- when an honest synchronisation succeeds ----------

  ghost predicate StoreWorks(saves: nat -> Save) {
    forall k :: saves(k).steps >= APPEND_STEPS
  }

  lemma {:induction false} AllSaved(genesis: Hash, disk: Disk, blocks: seq<Block>, saves: nat -> Save, k: nat)
    requires StoreWorks(saves) && k <= |blocks|
    ensures SaveFrom(genesis, disk, blocks, saves, k).1
    decreases |blocks| - k
  {
    if k < |blocks| {
      AllSaved(genesis, Append(disk, genesis, blocks[k], saves(k).state, APPEND_STEPS), blocks, saves, k + 1);
    }
  }

  lemma {:induction false} CommitsWhole(genesis: Hash, n: Node, saves: nat -> Save)
    requires StoreWorks(saves) && n.chain != []
    ensures OnCommit(genesis, n, saves).1 == Ok(Synced(|n.chain| - 1))
  {
    AllSaved(genesis, n.disk, n.blocks, saves, 0);
  }

  lemma {:induction false} HeadersNeverCommit(rules: Rules, n: Node, payload: Option<seq<Option<Header>>>)
    requires n.chain != []
    ensures var r := OnHeaders(rules, n, payload).1; r.Ok? ==> !r.value.Synced?
  {
  }

  lemma {:induction false} AskedNode(rules: Rules, n: Node, blocks: seq<Block>)
    requires n.chain != [] && n.blocks == [] && blocks != []
    requires OnHeaders(rules, n, Some(Entries(blocks))).1 == Ok(RequestBlocks(|blocks|))
    ensures var asked := OnHeaders(rules, n, Some(Entries(blocks))).0;
            && asked.chain == n.chain && asked.disk == n.disk && |asked.headers| == |blocks|
            && asked == Midway(asked, blocks, 0)
  {
    var asked := OnHeaders(rules, n, Some(Entries(blocks))).0;
    assert n.chain + blocks[..0] == n.chain && asked.headers[0..] == asked.headers;
  }

  lemma {:induction false} NotAsked(rules: Rules, n: Node, entries: seq<Option<Header>>)
    requires n.chain != [] && OnHeaders(rules, n, Some(entries)).1 != Ok(RequestBlocks(|entries|))
    ensures var r := OnHeaders(rules, n, Some(entries)).1;
            r.Ok? ==> !r.value.RequestBlocks? && !r.value.Synced?
  {
    HeadersNeverCommit(rules, n, Some(entries));
  }

  lemma {:induction false} HonestHeaders(rules: Rules, n: Node, blocks: seq<Block>, clock: nat -> int)
    requires Regular(n.chain) && AdmissibleInTurn(rules, n.chain, blocks, clock)
    ensures OnHeaders(rules, n, Some(Entries(blocks))).1 == Ok(RequestBlocks(|blocks|))
            <==> |n.chain| < |blocks| && |n.chain| + |blocks| <= 10
  {
    RequestsBlocksExactlyWhen(rules, n, Entries(blocks));
    if |n.chain| + |blocks| <= 10 {
      assert n.chain + blocks[..0] == n.chain;
      HonestHeadersPass(rules, n.chain, blocks, clock, 0);
    }
  }

  lemma {:induction false} SyncUnfolds(rules: Rules, genesis: Hash, n: Node, blocks: seq<Block>, clock: nat -> int,
                                       saves: nat -> Save)
    requires n.chain != [] && n.blocks == []
    ensures var (asked, answer) := OnHeaders(rules, n, Some(Entries(blocks)));
            SyncWith(rules, genesis, n, blocks, clock, saves)
            == if answer == Ok(RequestBlocks(|blocks|)) && blocks != []
               then SendBlocks(rules, genesis, asked, blocks, clock, saves, 0) else (asked, answer)
  {
    if OnHeaders(rules, n, Some(Entries(blocks))).1 != Ok(RequestBlocks(|blocks|)) {
      NotAsked(rules, n, Entries(blocks));
    }
  }

  /** The whole synchronisation, once blocks are asked for. */
  lemma {:induction false} SyncGoes(rules: Rules, genesis: Hash, n: Node, blocks: seq<Block>, clock: nat -> int,
                                    saves: nat -> Save) returns (asked: Node)
    requires Regular(n.chain) && n.blocks == [] && AdmissibleInTurn(rules, n.chain, blocks, clock)
    requires |n.chain| < |blocks| && |n.chain| + |blocks| <= 10
    ensures asked.chain == n.chain && asked.disk == n.disk && |asked.headers| == |blocks|
    ensures SyncWith(rules, genesis, n, blocks, clock, saves)
            == if HasTarget(n.chain, |blocks| - 1) then
                 OnCommit(genesis, Midway(asked, blocks, |blocks|).(state := ValidatingBlocks), saves)
               else
                 (Midway(asked, blocks, StuckAt(|n.chain|)).(state := ValidatingBlocks), Err(IndexError))
  {
    asked := OnHeaders(rules, n, Some(Entries(blocks))).0;
    HonestHeaders(rules, n, blocks, clock);
    AskedNode(rules, n, blocks);
    SyncUnfolds(rules, genesis, n, blocks, clock, saves);
    BlocksGetIn(rules, genesis, asked, blocks, clock, saves, 0);
  }

  /**
   An honest peer has blocks that extend a local chain of `length` blocks, genesis included, and the store
   works: they are taken over exactly when there are more than `length` of them and length + 2 * (n - 1) < 10
   for their number n. So a node with four blocks or more never takes anything over this way.
   */
  lemma {:induction false} SyncCommitsExactlyWhen(rules: Rules, genesis: Hash, n: Node, blocks: seq<Block>,
                                                  clock: nat -> int, saves: nat -> Save)
    requires Regular(n.chain) && n.blocks == [] && AdmissibleInTurn(rules, n.chain, blocks, clock) && StoreWorks(saves)
    ensures var length := |n.chain|;
            SyncWith(rules, genesis, n, blocks, clock, saves).1 == Ok(Synced(length + |blocks| - 1))
            <==> |blocks| > length && length + 2 * (|blocks| - 1) < 10
  {
    if |blocks| > |n.chain| && |n.chain| + |blocks| <= 10 {
      SyncOnceAsked(rules, genesis, n, blocks, clock, saves);
    } else {
      SyncNotAsked(rules, genesis, n, blocks, clock, saves);
    }
  }

  lemma {:induction false} SyncOnceAsked(rules: Rules, genesis: Hash, n: Node, blocks: seq<Block>, clock: nat -> int,
                                         saves: nat -> Save)
    requires Regular(n.chain) && n.blocks == [] && AdmissibleInTurn(rules, n.chain, blocks, clock) && StoreWorks(saves)
    requires |n.chain| < |blocks| && |n.chain| + |blocks| <= 10
    ensures SyncWith(rules, genesis, n, blocks, clock, saves).1
            == if HasTarget(n.chain, |blocks| - 1) then Ok(Synced(|n.chain| + |blocks| - 1)) else Err(IndexError)
  {
    var asked := SyncGoes(rules, genesis, n, blocks, clock, saves);
    CommitsWhole(genesis, Midway(asked, blocks, |blocks|).(state := ValidatingBlocks), saves);
  }

  lemma {:induction false} SyncNotAsked(rules: Rules, genesis: Hash, n: Node, blocks: seq<Block>, clock: nat -> int,
                                        saves: nat -> Save)
    requires Regular(n.chain) && n.blocks == [] && AdmissibleInTurn(rules, n.chain, blocks, clock)
    requires !(|n.chain| < |blocks| && |n.chain| + |blocks| <= 10)
    ensures var r := SyncWith(rules, genesis, n, blocks, clock, saves).1;
            r.Ok? ==> !r.value.Synced?
  {
    HonestHeaders(rules, n, blocks, clock);
    NotAsked(rules, n, Entries(blocks));
    SyncUnfolds(rules, genesis, n, blocks, clock, saves);
  }

  /** Between the two bounds the ledger keeps the first blocks and the store gets none of them. */
  lemma {:induction false} SyncStrandsBlocks(rules: Rules, genesis: Hash, n: Node, blocks: seq<Block>,
                                             clock: nat -> int,
                                             saves: nat -> Save)
    requires Regular(n.chain) && n.blocks == [] && AdmissibleInTurn(rules, n.chain, blocks, clock)
    requires |n.chain| < |blocks| && |n.chain| + |blocks| <= 10 <= |n.chain| + 2 * (|blocks| - 1)
    ensures var r, stuck := SyncWith(rules, genesis, n, blocks, clock, saves), StuckAt(|n.chain|);
            && r.1 == Err(IndexError) && 0 < stuck < |blocks|
            && r.0.chain == n.chain + blocks[..stuck] && r.0.blocks == blocks[..stuck] && r.0.disk == n.disk
  {
    var asked := SyncGoes(rules, genesis, n, blocks, clock, saves);
  }
}
