/**
 Merkle trees with duplicated odd leaves, over any pairing function.

 `pair(l, r)` stands for double SHA-256 of the 64 bytes l + r.  Nothing is assumed of it
 except, where a result needs it, that the finitely many pairs hashed on the way do not collide.
 */
module Merkle {
  import opened Wrappers

  // ---------- what a tree is ----------

  /** The children of node i of the level above: the last node of an odd level is paired with itself. */
  function Children<T>(level: seq<T>, i: nat): (T, T)
    requires 2 * i < |level|
  {
    (level[2 * i], if 2 * i + 1 < |level| then level[2 * i + 1] else level[2 * i])
  }

  function Node<T>(level: seq<T>, i: nat, pair: (T, T) -> T): T
    requires 2 * i < |level|
  {
    pair(Children(level, i).0, Children(level, i).1)
  }

  function NextLevel<T>(level: seq<T>, pair: (T, T) -> T): (r: seq<T>)
    ensures |r| == (|level| + 1) / 2
    ensures forall i :: 0 <= i < |r| ==> r[i] == Node(level, i, pair)
  {
    seq((|level| + 1) / 2, i requires 0 <= i < (|level| + 1) / 2 => Node(level, i, pair))
  }

  function Root<T>(leaves: seq<T>, pair: (T, T) -> T): T
    requires leaves != []
    decreases |leaves|
  {
    if |leaves| == 1 then leaves[0] else Root(NextLevel(leaves, pair), pair)
  }

  function Height(n: nat): nat {
    if n <= 1 then 0 else 1 + Height((n + 1) / 2)
  }

  function Levels<T>(leaves: seq<T>, pair: (T, T) -> T): (r: seq<seq<T>>)
    requires leaves != []
    ensures r != [] && r[0] == leaves
    decreases |leaves|
  {
    if |leaves| == 1 then [leaves] else [leaves] + Levels(NextLevel(leaves, pair), pair)
  }

  /** One sibling for each level but the last; None where the source indexes past a level. */
  function Siblings<T>(levels: seq<seq<T>>, index: nat): Option<seq<T>> {
    if |levels| <= 1 then Some([])
    else
      var sibling := if index % 2 == 0 then index + 1 else index - 1;
      var level := levels[0];
      if sibling >= |level| && index >= |level| then None
      else
        After([if sibling < |level| then level[sibling] else level[index]], Siblings(levels[1..], index / 2))
  }

  function After<T>(first: seq<T>, rest: Option<seq<T>>): Option<seq<T>> {
    match rest
    case None => None
    case Some(r) => Some(first + r)
  }

  lemma {:induction false} SiblingsUnfold<T>(levels: seq<seq<T>>, i: nat, index: nat)
    requires i + 1 < |levels|
    ensures var sibling := if index % 2 == 0 then index + 1 else index - 1;
            Siblings(levels[i..], index)
            == if sibling >= |levels[i]| && index >= |levels[i]| then None
               else After([if sibling < |levels[i]| then levels[i][sibling] else levels[i][index]],
                          Siblings(levels[i + 1..], index / 2))
  {
    assert levels[i..][1..] == levels[i + 1..] && levels[i..][0] == levels[i];
  }

  lemma {:induction false} AfterTwice<T>(first: seq<T>, x: T, rest: Option<seq<T>>)
    ensures After(first, After([x], rest)) == After(first + [x], rest)
  {
    assert rest.Some? ==> first + ([x] + rest.value) == first + [x] + rest.value;
  }

  lemma {:induction false} AfterNothing<T>(o: Option<seq<T>>)
    ensures After([], o) == o
  {
    assert o.Some? ==> [] + o.value == o.value;
  }

  /** The hash a proof leads to. */
  function Climb<T>(leaf: T, proof: seq<T>, index: nat, pair: (T, T) -> T): T
    decreases |proof|
  {
    if proof == [] then leaf
    else Climb(if index % 2 == 0 then pair(leaf, proof[0]) else pair(proof[0], leaf), proof[1..], index / 2, pair)
  }

  // ---------- the source's loops ----------

  class MerkleTree<T(==)> {
    const leaves: seq<T>
    const pair: (T, T) -> T
    var levels: seq<seq<T>>

    constructor (leaves: seq<T>, pair: (T, T) -> T)
      ensures this.leaves == leaves && this.pair == pair
      ensures levels == if leaves == [] then [] else Levels(leaves, pair)
    {
      this.leaves := leaves;
      this.pair := pair;
      levels := [];
      new;
      if leaves != [] {
        levels := BuildLevels(leaves, pair);
      }
    }

    method GetRoot() returns (root: Option<T>)
      requires levels == if leaves == [] then [] else Levels(leaves, pair)
      ensures root == if leaves == [] then None else Some(Root(leaves, pair))
    {
      if levels == [] {
        return None;
      }
      LastLevelIsRoot(leaves, pair);
      return Some(levels[|levels| - 1][0]);
    }

    method GetProof(index: nat) returns (proof: Option<seq<T>>)
      ensures proof == Siblings(levels, index)
    {
      var collected: seq<T> := [];
      assert levels[0..] == levels && After([], Siblings(levels, index)) == Siblings(levels, index) by {
        AfterNothing(Siblings(levels, index));
      }
      var i, at := 0, index;
      while i + 1 < |levels|
        invariant 0 <= i && 0 <= at && (if levels == [] then i == 0 else i < |levels|)
        invariant Siblings(levels, index) == After(collected, Siblings(levels[i..], at))
      {
        ghost var before := collected;
        SiblingsUnfold(levels, i, at);
        var level := levels[i];
        var sibling := if at % 2 == 0 then at + 1 else at - 1;
        if sibling < |level| {
          collected := collected + [level[sibling]];
        } else if at < |level| {
          collected := collected + [level[at]];
        } else {
          return None;
        }
        AfterTwice(before, collected[|before|], Siblings(levels[i + 1..], at / 2));
        i, at := i + 1, at / 2;
      }
      assert Siblings(levels[i..], at) == Some([]) && collected + [] == collected;
      return Some(collected);
    }
  }

  method BuildLevels<T>(leaves: seq<T>, pair: (T, T) -> T) returns (levels: seq<seq<T>>)
    requires leaves != []
    ensures levels == Levels(leaves, pair)
  {
    levels := [leaves];
    var current := leaves;
    while |current| > 1
      invariant current != []
      invariant levels + Levels(current, pair)[1..] == Levels(leaves, pair)
      decreases |current|
    {
      var next: seq<T> := [];
      var i := 0;
      while i < |current|
        invariant 0 <= i <= |current| + 1 && i % 2 == 0 && |next| == i / 2
        invariant next == NextLevel(current, pair)[..i / 2]
      {
        assert NextLevel(current, pair)[i / 2] == Node(current, i / 2, pair);
        var left := current[i];
        var right := if i + 1 < |current| then current[i + 1] else left;
        next := next + [pair(left, right)];
        i := i + 2;
      }
      assert next == NextLevel(current, pair);
      assert Levels(current, pair)[1..] == Levels(next, pair) == [next] + Levels(next, pair)[1..];
      current := next;
      levels := levels + [current];
    }
  }

  method VerifyProof<T(==)>(root: T, leaf: T, proof: seq<T>, index: nat, pair: (T, T) -> T) returns (ok: bool)
    ensures ok <==> Climb(leaf, proof, index, pair) == root
  {
    var current, at, i := leaf, index, 0;
    while i < |proof|
      invariant 0 <= i <= |proof|
      invariant Climb(leaf, proof, index, pair) == Climb(current, proof[i..], at, pair)
    {
      assert proof[i..][1..] == proof[i + 1..];
      current := if at % 2 == 0 then pair(current, proof[i]) else pair(proof[i], current);
      at, i := at / 2, i + 1;
    }
    ok := current == root;
  }

  /** The Rust verifier keeps one level at a time and answers all zeros for no leaves. */
  method RustMerkleRoot<T>(leaves: seq<T>, zero: T, pair: (T, T) -> T) returns (root: T)
    ensures root == if leaves == [] then zero else Root(leaves, pair)
  {
    if leaves == [] {
      return zero;
    }
    var level := leaves;
    while |level| > 1
      invariant level != [] && Root(level, pair) == Root(leaves, pair)
      decreases |level|
    {
      var next: seq<T> := [];
      var i := 0;
      while i < |level|
        invariant 0 <= i <= |level| + 1 && i % 2 == 0 && |next| == i / 2
        invariant next == NextLevel(level, pair)[..i / 2]
      {
        assert NextLevel(level, pair)[i / 2] == Node(level, i / 2, pair);
        var left := level[i];
        var right := if i + 1 < |level| then level[i + 1] else left;
        next := next + [pair(left, right)];
        i := i + 2;
      }
      assert next == NextLevel(level, pair);
      level := next;
    }
    return level[0];
  }

  lemma {:induction false} LastLevelIsRoot<T>(leaves: seq<T>, pair: (T, T) -> T)
    requires leaves != []
    ensures var levels := Levels(leaves, pair);
            |levels| == Height(|leaves|) + 1 && levels[|levels| - 1] == [Root(leaves, pair)]
    decreases |leaves|
  {
    if |leaves| > 1 {
      LastLevelIsRoot(NextLevel(leaves, pair), pair);
    }
  }

  // ---------- completeness ----------

  /** The two nodes hashed together at the foot of a proof. */
  function Joined<T>(leaf: T, sibling: T, index: nat): (T, T) {
    if index % 2 == 0 then (leaf, sibling) else (sibling, leaf)
  }

  /** The foot of a leaf's own proof is a node of the tree, and the rest is that node's proof one level up. */
  lemma {:induction false} FirstStep<T>(leaves: seq<T>, index: nat, pair: (T, T) -> T)
    requires index < |leaves| && |leaves| > 1
    requires Siblings(Levels(NextLevel(leaves, pair), pair), index / 2).Some?
    ensures Siblings(Levels(leaves, pair), index).Some?
    ensures var proof := Siblings(Levels(leaves, pair), index).value;
            && proof != []
            && proof[1..] == Siblings(Levels(NextLevel(leaves, pair), pair), index / 2).value
            && Joined(leaves[index], proof[0], index) == Children(leaves, index / 2)
  {
    var above := Levels(NextLevel(leaves, pair), pair);
    SiblingsStep(leaves, above, index);
    assert Levels(leaves, pair) == [leaves] + above;
  }

  lemma {:induction false} SiblingsStep<T>(level: seq<T>, above: seq<seq<T>>, index: nat)
    requires index < |level| && above != [] && Siblings(above, index / 2).Some?
    ensures Siblings([level] + above, index).Some?
    ensures var proof := Siblings([level] + above, index).value;
            && proof != []
            && proof[1..] == Siblings(above, index / 2).value
            && Joined(level[index], proof[0], index) == Children(level, index / 2)
  {
    assert ([level] + above)[1..] == above;
  }

  /** Every leaf's own proof exists, has full height, and is accepted. */
  lemma {:induction false} ProofsAreAccepted<T>(leaves: seq<T>, index: nat, pair: (T, T) -> T)
    requires index < |leaves|
    ensures Siblings(Levels(leaves, pair), index).Some?
    ensures var proof := Siblings(Levels(leaves, pair), index).value;
            |proof| == Height(|leaves|) && Climb(leaves[index], proof, index, pair) == Root(leaves, pair)
    decreases |leaves|
  {
    if |leaves| > 1 {
      ProofsAreAccepted(NextLevel(leaves, pair), index / 2, pair);
      FirstStep(leaves, index, pair);
    }
  }

  // ---------- soundness ----------

  ghost function LevelPairs<T>(level: seq<T>): set<(T, T)> {
    set i | 0 <= i < (|level| + 1) / 2 :: Children(level, i)
  }

  /** Every pair hashed while building the tree. */
  ghost function TreePairs<T>(leaves: seq<T>, pair: (T, T) -> T): set<(T, T)>
    decreases |leaves|
  {
    if |leaves| <= 1 then {} else LevelPairs(leaves) + TreePairs(NextLevel(leaves, pair), pair)
  }

  /** Every pair hashed while checking a proof. */
  ghost function PathPairs<T>(leaf: T, proof: seq<T>, index: nat, pair: (T, T) -> T): set<(T, T)>
    decreases |proof|
  {
    if proof == [] then {}
    else
      var p := Joined(leaf, proof[0], index);
      {p} + PathPairs(pair(p.0, p.1), proof[1..], index / 2, pair)
  }

  ghost predicate CollisionFree<T(!new)>(pairs: set<(T, T)>, pair: (T, T) -> T) {
    forall p, q :: p in pairs && q in pairs && pair(p.0, p.1) == pair(q.0, q.1) ==> p == q
  }

  /** An accepted proof of full height proves exactly the leaf at its index, and is the proof of that leaf. */
  lemma {:induction false} AcceptedProofsAreTrue<T(!new)>(leaves: seq<T>, leaf: T, proof: seq<T>, index: nat,
                                                          pair: (T, T) -> T)
    requires index < |leaves| && |proof| == Height(|leaves|)
    requires CollisionFree(TreePairs(leaves, pair) + PathPairs(leaf, proof, index, pair), pair)
    ensures Climb(leaf, proof, index, pair) == Root(leaves, pair)
            <==> leaf == leaves[index] && Siblings(Levels(leaves, pair), index) == Some(proof)
  {
    ProofsAreAccepted(leaves, index, pair);
    PathStaysInTree(leaves, index, pair);
    var own := Siblings(Levels(leaves, pair), index).value;
    if Climb(leaf, proof, index, pair) == Root(leaves, pair) {
      ClimbIsInjective(leaf, proof, leaves[index], own, index, pair,
                       TreePairs(leaves, pair) + PathPairs(leaf, proof, index, pair));
    }
  }

  lemma {:induction false} PathStaysInTree<T>(leaves: seq<T>, index: nat, pair: (T, T) -> T)
    requires index < |leaves|
    ensures Siblings(Levels(leaves, pair), index).Some?
    ensures PathPairs(leaves[index], Siblings(Levels(leaves, pair), index).value, index, pair)
            <= TreePairs(leaves, pair)
    decreases |leaves|
  {
    if |leaves| > 1 {
      PathStaysInTree(NextLevel(leaves, pair), index / 2, pair);
      FirstStep(leaves, index, pair);
      assert Children(leaves, index / 2) in LevelPairs(leaves);
    }
  }

  lemma {:induction false} ClimbIsInjective<T(!new)>(leafA: T, proofA: seq<T>, leafB: T, proofB: seq<T>, index: nat,
                                                     pair: (T, T) -> T, hashed: set<(T, T)>)
    requires |proofA| == |proofB|
    requires PathPairs(leafA, proofA, index, pair) + PathPairs(leafB, proofB, index, pair) <= hashed
    requires CollisionFree(hashed, pair)
    requires Climb(leafA, proofA, index, pair) == Climb(leafB, proofB, index, pair)
    ensures leafA == leafB && proofA == proofB
    decreases |proofA|
  {
    if proofA != [] {
      var a, b := Joined(leafA, proofA[0], index), Joined(leafB, proofB[0], index);
      ClimbIsInjective(pair(a.0, a.1), proofA[1..], pair(b.0, b.1), proofB[1..], index / 2, pair, hashed);
      assert a in hashed && b in hashed;
      assert proofA == [proofA[0]] + proofA[1..] && proofB == [proofB[0]] + proofB[1..];
    }
  }

  /** Leaf lists of equal length with equal roots are equal. */
  lemma {:induction false} RootDeterminesLeaves<T(!new)>(a: seq<T>, b: seq<T>, pair: (T, T) -> T)
    requires |a| == |b| > 0 && Root(a, pair) == Root(b, pair)
    requires CollisionFree(TreePairs(a, pair) + TreePairs(b, pair), pair)
    ensures a == b
  {
    forall k | 0 <= k < |a| ensures a[k] == b[k] {
      ProofsAreAccepted(a, k, pair);
      PathStaysInTree(a, k, pair);
      var proof := Siblings(Levels(a, pair), k).value;
      assert TreePairs(b, pair) + PathPairs(a[k], proof, k, pair) <= TreePairs(a, pair) + TreePairs(b, pair);
      AcceptedProofsAreTrue(b, a[k], proof, k, pair);
    }
  }

  /**
   The length hypothesis is needed: repeating the last of an odd number of leaves keeps the root, except for
   a single leaf.
   */
  lemma {:induction false} RepeatedTailKeepsRoot<T>(leaves: seq<T>, pair: (T, T) -> T)
    requires |leaves| % 2 == 1 && |leaves| > 1
    ensures Root(leaves + [leaves[|leaves| - 1]], pair) == Root(leaves, pair)
  {
    var longer := leaves + [leaves[|leaves| - 1]];
    forall i | 0 <= i < (|leaves| + 1) / 2 ensures Children(longer, i) == Children(leaves, i) {}
    assert NextLevel(longer, pair) == NextLevel(leaves, pair);
  }

  // ---------- the tree from its halves ----------

  /** A node paired with itself, k times over. */
  function Raised<T>(x: T, k: nat, pair: (T, T) -> T): T {
    if k == 0 then x else Raised(pair(x, x), k - 1, pair)
  }

  function Pow2(k: nat): (r: nat)
    ensures r > 0
  {
    if k == 0 then 1 else 2 * Pow2(k - 1)
  }

  lemma {:induction false} HeightOfSmall(n: nat, k: nat)
    requires 0 < n <= Pow2(k)
    ensures Height(n) <= k
    decreases k
  {
    if n > 1 {
      HeightOfSmall((n + 1) / 2, k - 1);
    }
  }

  lemma {:induction false} LevelOfParts<T>(a: seq<T>, b: seq<T>, pair: (T, T) -> T)
    requires |a| % 2 == 0
    ensures NextLevel(a + b, pair) == NextLevel(a, pair) + NextLevel(b, pair)
  {
    var whole, parts := NextLevel(a + b, pair), NextLevel(a, pair) + NextLevel(b, pair);
    forall i | 0 <= i < |whole| ensures whole[i] == parts[i] {
      if i < |a| / 2 {
        assert Children(a + b, i) == Children(a, i);
      } else {
        assert Children(a + b, i) == Children(b, i - |a| / 2);
      }
    }
  }

  /**
   The root over the first 2^k leaves and at most as many others: the root of the first ones paired, on the
   left, with the root of the others, brought to the same height by pairing it with itself.
   */
  lemma {:induction false} RootOfParts<T>(a: seq<T>, b: seq<T>, k: nat, pair: (T, T) -> T)
    requires |a| == Pow2(k) && 0 < |b| <= |a|
    ensures Height(|b|) <= k
    ensures Root(a + b, pair) == pair(Root(a, pair), Raised(Root(b, pair), k - Height(|b|), pair))
    decreases k
  {
    HeightOfSmall(|b|, k);
    if k == 0 {
      assert NextLevel(a + b, pair) == [pair(a[0], b[0])];
    } else {
      LevelOfParts(a, b, pair);
      var nextA, nextB := NextLevel(a, pair), NextLevel(b, pair);
      RootOfParts(nextA, nextB, k - 1, pair);
      if |b| == 1 {
        assert nextB == [pair(b[0], b[0])];
      }
    }
  }
}
