/**
 The sync engine: headers are checked against the local ledger, blocks are admitted by it one by one, and
 the store gets them once the last one is in.
 */
module Sync {
  import opened Wrappers
  import opened Types
  import opened Difficulty
  import opened Blocks
  import opened Storage
  import opened Chain

  /** The states the engine enters. */
  datatype SyncState =
    | Idle
    | RequestingHeaders
    | ValidatingHeaders
    | RequestingBlocks
    | ValidatingBlocks
    | UpToDate
    | InvalidData
    | StorageFailure

  datatype Answer =
    | Invalid
    | NothingNew
    | NoBetterChain
    | RequestBlocks(count: nat)
    | UnexpectedBlock
    | NextBlock
    | Synced(newHeight: nat)

  /**
   Exceptions that leave a call: of a payload that does not parse, of an index or a target without work, of
   the store.
   */
  datatype Escape = PayloadError | IndexError | ValueError | StorageError

  /** What the store writes as the block's registry state, and the durable step it fails before, if any. */
  datatype Save = Save(state: State, steps: nat)

  /** Everything a node's calls change: the ledger's chain, the disk, and the engine's own fields. */
  datatype Node = Node(chain: seq<Block>, disk: Disk, headers: seq<Header>, blocks: seq<Block>, state: SyncState)

  // ---------- header checks ----------

  /** The ledger's expected target, asked also above its chain: there it only answers below the first boundary. */
  function TargetAsked(chain: seq<Block>, height: nat): Option<nat>
    requires chain != []
  {
    if height <= |chain| then Some(ExpectedTargetAt(chain, height))
    else if height < DIFFICULTY_RETARGET_INTERVAL then Some(chain[0].header.target)
    else None
  }

  predicate HeaderOk(rules: Rules, h: Header, prev: Hash, target: nat) {
    && h.prevHash == prev
    && h.target == target
    && rules.powValue(HeaderHash(h)) <= h.target
    && h.version == PROTOCOL_VERSION
  }

  datatype Checked = Passed | Failed | OffTheChain

  /** The headers from position k on; one that does not decode is None. */
  function CheckHeaders(rules: Rules, chain: seq<Block>, prev: Hash, entries: seq<Option<Header>>, k: nat): Checked
    requires chain != [] && k <= |entries|
    decreases |entries| - k
  {
    if k == |entries| then Passed
    else if entries[k].None? || entries[k].value.prevHash != prev then Failed
    else
      match TargetAsked(chain, |chain| + k)
      case None => OffTheChain
      case Some(target) =>
        if !HeaderOk(rules, entries[k].value, prev, target) then Failed
        else CheckHeaders(rules, chain, HeaderHash(entries[k].value), entries, k + 1)
  }

  function HeadersOf(entries: seq<Option<Header>>): (r: seq<Header>)
    requires forall i :: 0 <= i < |entries| ==> entries[i].Some?
    ensures |r| == |entries|
  {
    seq(|entries|, i requires 0 <= i < |entries| => entries[i].value)
  }

  lemma {:induction false} PassedDecode(rules: Rules, chain: seq<Block>, prev: Hash, entries: seq<Option<Header>>,
                                        k: nat)
    requires chain != [] && k <= |entries| && CheckHeaders(rules, chain, prev, entries, k) == Passed
    ensures forall i :: k <= i < |entries| ==> entries[i].Some?
    decreases |entries| - k
  {
    if k < |entries| {
      PassedDecode(rules, chain, HeaderHash(entries[k].value), entries, k + 1);
    }
  }

  // ---------- work ----------

  predicate AllPositive(targets: seq<nat>) {
    forall i :: 0 <= i < |targets| ==> targets[i] > 0
  }

  function WorkOf(targets: seq<nat>): nat
    requires AllPositive(targets)
  {
    if targets == [] then 0
    else WorkOf(targets[..|targets| - 1]) + MAX_TARGET / targets[|targets| - 1]
  }

  function HeaderTargets(headers: seq<Header>): (r: seq<nat>)
    ensures |r| == |headers|
  {
    seq(|headers|, i requires 0 <= i < |headers| => headers[i].target)
  }

  function ChainTargets(chain: seq<Block>): (r: seq<nat>)
    ensures |r| == |chain|
  {
    seq(|chain|, i requires 0 <= i < |chain| => chain[i].header.target)
  }

  method SumWork(targets: seq<nat>) returns (r: Option<nat>)
    ensures r == if AllPositive(targets) then Some(WorkOf(targets)) else None
  {
    var total := 0;
    for i := 0 to |targets|
      invariant AllPositive(targets[..i]) && total == WorkOf(targets[..i])
    {
      if targets[i] == 0 { return None; }
      assert targets[..i + 1][..i] == targets[..i];
      total := total + MAX_TARGET / targets[i];
    }
    assert targets[..|targets|] == targets;
    return Some(total);
  }

  /** It is the ledger's measure: the new headers alone against the whole local chain. */
  lemma {:induction false} WorkOfChain(chain: seq<Block>)
    requires PositiveWork(chain)
    ensures AllPositive(ChainTargets(chain)) && WorkOf(ChainTargets(chain)) == ChainWork(chain)
    decreases |chain|
  {
    if chain != [] {
      var below := chain[..|chain| - 1];
      WorkOfChain(below);
      assert ChainTargets(chain)[..|chain| - 1] == ChainTargets(below);
    }
  }

  // ---------- the calls, on values ----------

  function OnHeaders(rules: Rules, n: Node, payload: Option<seq<Option<Header>>>): (Node, Result<Answer, Escape>)
    requires n.chain != []
  {
    if payload.None? then (n.(state := ValidatingHeaders), Err(PayloadError))
    else
      match CheckHeaders(rules, n.chain, BlockHash(n.chain[|n.chain| - 1]), payload.value, 0)
      case OffTheChain => (n.(state := ValidatingHeaders), Err(IndexError))
      case Failed => (n.(state := InvalidData), Ok(Invalid))
      case Passed =>
        PassedDecode(rules, n.chain, BlockHash(n.chain[|n.chain| - 1]), payload.value, 0);
        OnCheckedHeaders(n, HeadersOf(payload.value))
  }

  function OnCheckedHeaders(n: Node, headers: seq<Header>): (Node, Result<Answer, Escape>) {
    if headers == [] then (n.(state := UpToDate), Ok(NothingNew))
    else if !AllPositive(HeaderTargets(headers)) || !AllPositive(ChainTargets(n.chain)) then
      (n.(state := ValidatingHeaders), Err(ValueError))
    else if WorkOf(HeaderTargets(headers)) <= WorkOf(ChainTargets(n.chain)) then
      (n.(state := UpToDate), Ok(NoBetterChain))
    else (n.(headers := headers, state := RequestingBlocks), Ok(RequestBlocks(|headers|)))
  }

  /**
   The height a block's target is asked for: the ledger has grown by the pending blocks already, and they
   count again.
   */
  function HeightAsked(chain: seq<Block>, pending: seq<Block>): nat {
    |chain| + |pending|
  }

  function HashAsked(chain: seq<Block>, pending: seq<Block>): Hash
    requires chain != []
  {
    if pending != [] then BlockHash(pending[|pending| - 1]) else BlockHash(chain[|chain| - 1])
  }

  function CheckBlock(chain: seq<Block>, pending: seq<Block>, payload: seq<Option<Block>>): Checked
    requires chain != []
  {
    if |payload| != 1 || payload[0].None? || payload[0].value.header.prevHash != HashAsked(chain, pending) then Failed
    else
      match TargetAsked(chain, HeightAsked(chain, pending))
      case None => OffTheChain
      case Some(target) => if payload[0].value.header.target != target then Failed else Passed
  }

  function OnBlock(rules: Rules, genesis: Hash, n: Node, payload: Option<seq<Option<Block>>>, now: int,
                   saves: nat -> Save):
    (Node, Result<Answer, Escape>)
    requires n.chain != []
  {
    if n.headers == [] then (n, Ok(UnexpectedBlock))
    else if payload.None? then (n.(state := ValidatingBlocks), Err(PayloadError))
    else
      match CheckBlock(n.chain, n.blocks, payload.value)
      case OffTheChain => (n.(state := ValidatingBlocks), Err(IndexError))
      case Failed => (n.(state := InvalidData), Ok(Invalid))
      case Passed =>
        OnChecked(rules, genesis, n.(state := ValidatingBlocks), payload.value[0].value, now, saves)
  }

  function OnChecked(rules: Rules, genesis: Hash, n: Node, b: Block, now: int, saves: nat -> Save):
    (Node, Result<Answer, Escape>)
    requires n.chain != [] && n.headers != []
  {
    if Admissible(rules, n.chain, b, now) then OnAdmitted(genesis, n, b, saves)
    else (n.(state := InvalidData), Ok(Invalid))
  }

  function Taken(n: Node, b: Block): Node
    requires n.headers != []
  {
    n.(chain := n.chain + [b], blocks := n.blocks + [b], headers := n.headers[1..])
  }

  function OnAdmitted(genesis: Hash, n: Node, b: Block, saves: nat -> Save): (Node, Result<Answer, Escape>)
    requires n.headers != []
  {
    var m := Taken(n, b);
    if m.headers != [] then (m.(state := RequestingBlocks), Ok(NextBlock)) else OnCommit(genesis, m, saves)
  }

  /** The pending blocks are forgotten whether or not the store took them. */
  function OnCommit(genesis: Hash, n: Node, saves: nat -> Save): (Node, Result<Answer, Escape>)
    requires n.chain != []
  {
    var (disk, stored) := SaveFrom(genesis, n.disk, n.blocks, saves, 0);
    if stored then (n.(disk := disk, blocks := [], state := UpToDate), Ok(Synced(|n.chain| - 1)))
    else (n.(disk := disk, blocks := [], state := StorageFailure), Err(StorageError))
  }

  function SaveFrom(genesis: Hash, disk: Disk, blocks: seq<Block>, saves: nat -> Save, k: nat): (Disk, bool)
    requires k <= |blocks|
    decreases |blocks| - k
  {
    if k == |blocks| then (disk, true)
    else
      var x := saves(k);
      if x.steps >= APPEND_STEPS then
        SaveFrom(genesis, Append(disk, genesis, blocks[k], x.state, APPEND_STEPS), blocks, saves, k + 1)
      else (Append(disk, genesis, blocks[k], x.state, x.steps), false)
  }

  function OnReset(n: Node): Node {
    n.(headers := [], blocks := [], state := Idle)
  }

  // ---------- the engine object ----------

  /** One engine on a ledger and a store; `now` is the ledger's clock, `saves` what becomes of the store's writes. */
  class SyncEngine {
    const rules: Rules
    const ledger: Ledger
    const store: FlatFileStore
    var state: SyncState
    var pendingHeaders: seq<Header>
    var pendingBlocks: seq<Block>

    function View(): Node
      reads this, ledger, store
    {
      Node(ledger.chain, store.Files(), pendingHeaders, pendingBlocks, state)
    }

    ghost predicate Valid()
      reads this, ledger
    {
      ledger.rules == rules && ledger.Valid()
    }

    constructor (ledger: Ledger, store: FlatFileStore)
      requires ledger.Valid()
      ensures Valid() && this.ledger == ledger && this.store == store && rules == ledger.rules
      ensures View() == Node(ledger.chain, store.Files(), [], [], Idle)
    {
      rules, this.ledger, this.store := ledger.rules, ledger, store;
      state, pendingHeaders, pendingBlocks := Idle, [], [];
    }

    method StartHeaderSync()
      requires Valid()
      modifies this`state
      ensures Valid() && View() == old(View()).(state := RequestingHeaders)
    {
      state := RequestingHeaders;
    }

    /** The loop over a message's headers. */
    method ParseHeaders(entries: seq<Option<Header>>) returns (checked: Checked, headers: seq<Header>)
      requires Valid()
      ensures checked == CheckHeaders(rules, ledger.chain, BlockHash(ledger.chain[|ledger.chain| - 1]), entries, 0)
      ensures checked == Passed
              ==> (forall i :: 0 <= i < |entries| ==> entries[i].Some?) && headers == HeadersOf(entries)
    {
      var chain := ledger.chain;
      var prev := BlockHash(chain[|chain| - 1]);
      headers := [];
      for k := 0 to |entries|
        invariant CheckHeaders(rules, chain, BlockHash(chain[|chain| - 1]), entries, 0)
               == CheckHeaders(rules, chain, prev, entries, k)
        invariant |headers| == k && forall i :: 0 <= i < k ==> entries[i] == Some(headers[i])
      {
        if entries[k].None? || entries[k].value.prevHash != prev { return Failed, []; }
        var target := TargetAsked(chain, |chain| + k);
        if target.None? { return OffTheChain, []; }
        var h := entries[k].value;
        if !HeaderOk(rules, h, prev, target.value) { return Failed, []; }
        headers, prev := headers + [h], HeaderHash(h);
      }
      return Passed, headers;
    }

    method HandleHeaders(payload: Option<seq<Option<Header>>>) returns (r: Result<Answer, Escape>)
      requires Valid()
      modifies this
      ensures Valid()
      ensures (View(), r) == OnHeaders(rules, old(View()), payload)
    {
      state := ValidatingHeaders;
      if payload.None? { return Err(PayloadError); }
      var checked, headers := ParseHeaders(payload.value);
      match checked {
        case OffTheChain => return Err(IndexError);
        case Failed =>
          state := InvalidData;
          return Ok(Invalid);
        case Passed =>
      }
      if headers == [] {
        state := UpToDate;
        return Ok(NothingNew);
      }
      var newWork := SumWork(HeaderTargets(headers));
      if newWork.None? { return Err(ValueError); }
      var localWork := SumWork(ChainTargets(ledger.chain));
      if localWork.None? { return Err(ValueError); }
      if newWork.value <= localWork.value {
        state := UpToDate;
        return Ok(NoBetterChain);
      }
      pendingHeaders, state := headers, RequestingBlocks;
      return Ok(RequestBlocks(|headers|));
    }

    method HandleBlock(payload: Option<seq<Option<Block>>>, now: int, saves: nat -> Save)
      returns (r: Result<Answer, Escape>)
      requires Valid()
      modifies this, ledger, store
      ensures Valid()
      ensures (View(), r) == OnBlock(rules, store.genesis, old(View()), payload, now, saves)
    {
      if pendingHeaders == [] { return Ok(UnexpectedBlock); }
      state := ValidatingBlocks;
      if payload.None? { return Err(PayloadError); }
      match CheckBlock(ledger.chain, pendingBlocks, payload.value) {
        case OffTheChain => return Err(IndexError);
        case Failed =>
          state := InvalidData;
          return Ok(Invalid);
        case Passed =>
          r := TakeBlock(payload.value[0].value, now, saves);
      }
    }

    /** The block goes to the ledger; with the last one pending, all of them go to the store. */
    method TakeBlock(b: Block, now: int, saves: nat -> Save) returns (r: Result<Answer, Escape>)
      requires Valid() && pendingHeaders != []
      modifies this, ledger, store
      ensures Valid()
      ensures (View(), r) == OnChecked(rules, store.genesis, old(View()), b, now, saves)
    {
      var added := ledger.AddBlockV2(b, now);
      if !added {
        state := InvalidData;
        return Ok(Invalid);
      }
      pendingBlocks, pendingHeaders := pendingBlocks + [b], pendingHeaders[1..];
      if pendingHeaders != [] {
        state := RequestingBlocks;
        return Ok(NextBlock);
      }
      r := Commit(saves);
    }

    /** The pending blocks go to the store one after the other, up to the first it fails on. */
    method Commit(saves: nat -> Save) returns (r: Result<Answer, Escape>)
      requires Valid()
      modifies this, store
      ensures Valid()
      ensures (View(), r) == OnCommit(store.genesis, old(View()), saves)
    {
      var blocks, d := pendingBlocks, store.Files();
      pendingBlocks := [];
      for k := 0 to |blocks|
        invariant Valid() && ledger.chain == old(ledger.chain) && pendingHeaders == old(pendingHeaders)
        invariant pendingBlocks == []
        invariant SaveFrom(store.genesis, store.Files(), blocks, saves, k)
                  == SaveFrom(store.genesis, d, blocks, saves, 0)
      {
        var x := saves(k);
        var completed := store.AppendBlock(blocks[k], x.state, x.steps);
        if !completed {
          state := StorageFailure;
          return Err(StorageError);
        }
      }
      state := UpToDate;
      return Ok(Synced(|ledger.chain| - 1));
    }

    method Reset()
      requires Valid()
      modifies this
      ensures Valid() && View() == OnReset(old(View()))
    {
      state, pendingHeaders, pendingBlocks := Idle, [], [];
    }
  }
}
