/** Sparse merkleization, its dense reference, and binding of the root to the padded chunks. */
module Merkle {
  import opened Bytes

  function Pow2(d: nat): (p: nat)
    ensures p >= 1
  {
    if d == 0 then 1 else 2 * Pow2(d - 1)
  }

  function TrailingZeros(n: nat): nat
    requires n > 0
  {
    if n % 2 == 1 then 0 else 1 + TrailingZeros(n / 2)
  }

  lemma {:induction false} TrailingZerosPow2(d: nat)
    ensures TrailingZeros(Pow2(d)) == d
  {
    if d > 0 {
      TrailingZerosPow2(d - 1);
    }
  }

  /** Hash two nodes, remembering what was hashed (`sha256_pair`). */
  function Pair(sha: Sha, left: Digest, right: Digest): Digest
  {
    var input := left.root + right.root;
    Digest(sha(input), left.inputs + right.inputs + {input})
  }

  function Chunk(c: Root): Digest
  {
    Digest(c, {})
  }

  /** The root of the all-zero tree with 2^depth leaves (`zero_hash`). */
  function ZeroHash(sha: Sha, depth: nat): Digest
  {
    if depth == 0 then Chunk(ZERO_ROOT)
    else Pair(sha, ZeroHash(sha, depth - 1), ZeroHash(sha, depth - 1))
  }

  method ZeroHashLoop(sha: Sha, depth: nat) returns (h: Root)
    ensures h == ZeroHash(sha, depth).root
  {
    h := ZERO_ROOT;
    for i := 0 to depth
      invariant h == ZeroHash(sha, i).root
    {
      h := sha(h + h);
    }
  }

  function Min(a: nat, b: nat): nat
  {
    if a < b then a else b
  }

  /** The sparse recursion, as it runs with its debug assertions off. */
  function Merkleize(sha: Sha, chunks: seq<Root>, limit: nat): Digest
    decreases limit
  {
    if limit == 0 then Chunk(ZERO_ROOT)
    else if limit == 1 then Chunk(if chunks == [] then ZERO_ROOT else chunks[0])
    else
      var half := limit / 2;
      var left := Merkleize(sha, chunks[..Min(|chunks|, half)], half);
      var right := if |chunks| > half then Merkleize(sha, chunks[half..], half)
                   else ZeroHash(sha, TrailingZeros(half));
      Pair(sha, left, right)
  }

  // ----- The dense reference -----

  function Padded(chunks: seq<Root>, n: nat): (p: seq<Root>)
    requires |chunks| <= n
    ensures |p| == n
  {
    chunks + seq(n - |chunks|, _ => ZERO_ROOT)
  }

  /** One level up: hash neighbours pairwise. */
  function Level(sha: Sha, nodes: seq<Root>): (up: seq<Root>)
    ensures |up| == |nodes| / 2
  {
    if |nodes| < 2 then [] else
    var left: seq<byte>, right: seq<byte> := nodes[0], nodes[1];
    [sha(left + right)] + Level(sha, nodes[2..])
  }

  function LevelByLevel(sha: Sha, nodes: seq<Root>, d: nat): Root
    requires |nodes| == Pow2(d)
    decreases d
  {
    if d == 0 then nodes[0] else LevelByLevel(sha, Level(sha, nodes), d - 1)
  }

  /** The same dense tree, split from the top and logging its hash inputs. */
  function Dense(sha: Sha, nodes: seq<Root>, d: nat): Digest
    requires |nodes| == Pow2(d)
  {
    if d == 0 then Chunk(nodes[0])
    else Pair(sha, Dense(sha, nodes[..Pow2(d - 1)], d - 1), Dense(sha, nodes[Pow2(d - 1)..], d - 1))
  }

  lemma {:induction false} LevelOfConcat(sha: Sha, left: seq<Root>, right: seq<Root>)
    requires |left| % 2 == 0
    ensures Level(sha, left + right) == Level(sha, left) + Level(sha, right)
  {
    if left == [] {
      assert left + right == right;
    } else {
      LevelOfConcat(sha, left[2..], right);
      assert (left + right)[2..] == left[2..] + right && (left + right)[..2] == left[..2];
      var x: seq<byte>, y: seq<byte> := left[0], left[1];
      var first := [sha(x + y)];
      assert first + (Level(sha, left[2..]) + Level(sha, right)) == first + Level(sha, left[2..]) + Level(sha, right);
    }
  }

  lemma {:induction false} LevelByLevelSplits(sha: Sha, left: seq<Root>, right: seq<Root>, d: nat)
    requires |left| == |right| == Pow2(d)
    ensures LevelByLevel(sha, left + right, d + 1) == sha(LevelByLevel(sha, left, d) + LevelByLevel(sha, right, d))
    decreases d
  {
    if d == 0 {
      assert (left + right)[2..] == [];
    } else {
      LevelOfConcat(sha, left, right);
      LevelByLevelSplits(sha, Level(sha, left), Level(sha, right), d - 1);
    }
  }

  lemma DenseSplits(sha: Sha, left: seq<Root>, right: seq<Root>, d: nat)
    requires |left| == |right| == Pow2(d)
    ensures Dense(sha, left + right, d + 1) == Pair(sha, Dense(sha, left, d), Dense(sha, right, d))
  {
    assert (left + right)[..Pow2(d)] == left && (left + right)[Pow2(d)..] == right;
  }

  lemma {:induction false} DenseIsLevelByLevel(sha: Sha, nodes: seq<Root>, d: nat)
    requires |nodes| == Pow2(d)
    ensures Dense(sha, nodes, d).root == LevelByLevel(sha, nodes, d)
    decreases d
  {
    if d > 0 {
      var left, right := nodes[..Pow2(d - 1)], nodes[Pow2(d - 1)..];
      assert |left| == Pow2(d - 1) && |right| == Pow2(d - 1);
      DenseIsLevelByLevel(sha, left, d - 1);
      DenseIsLevelByLevel(sha, right, d - 1);
      LevelStep(sha, left, right, d - 1);
      assert nodes == left + right;
    }
  }

  lemma LevelStep(sha: Sha, left: seq<Root>, right: seq<Root>, d: nat)
    requires |left| == |right| == Pow2(d)
    requires Dense(sha, left, d).root == LevelByLevel(sha, left, d)
    requires Dense(sha, right, d).root == LevelByLevel(sha, right, d)
    ensures Dense(sha, left + right, d + 1).root == LevelByLevel(sha, left + right, d + 1)
  {
    DenseSplits(sha, left, right, d);
    LevelByLevelSplits(sha, left, right, d);
  }

  lemma {:induction false} ZeroHashIsDense(sha: Sha, d: nat)
    ensures ZeroHash(sha, d) == Dense(sha, Padded([], Pow2(d)), d)
  {
    if d > 0 {
      var h := Pow2(d - 1);
      ZeroHashIsDense(sha, d - 1);
      assert Padded([], Pow2(d))[..h] == Padded([], h) == Padded([], Pow2(d))[h..];
    }
  }

  lemma UnfoldRight(sha: Sha, chunks: seq<Root>, d: nat)
    requires |chunks| > Pow2(d)
    ensures Merkleize(sha, chunks, Pow2(d + 1)) ==
            Pair(sha, Merkleize(sha, chunks[..Pow2(d)], Pow2(d)), Merkleize(sha, chunks[Pow2(d)..], Pow2(d)))
  {
    assert Pow2(d + 1) / 2 == Pow2(d);
  }

  lemma UnfoldLeft(sha: Sha, chunks: seq<Root>, d: nat)
    requires |chunks| <= Pow2(d)
    ensures Merkleize(sha, chunks, Pow2(d + 1)) == Pair(sha, Merkleize(sha, chunks, Pow2(d)), ZeroHash(sha, d))
  {
    assert Pow2(d + 1) / 2 == Pow2(d);
    assert chunks[..|chunks|] == chunks;
    TrailingZerosPow2(d);
  }

  lemma DenseOfLeft(sha: Sha, chunks: seq<Root>, d: nat)
    requires |chunks| <= Pow2(d)
    ensures Dense(sha, Padded(chunks, Pow2(d + 1)), d + 1) ==
            Pair(sha, Dense(sha, Padded(chunks, Pow2(d)), d), ZeroHash(sha, d))
  {
    ZeroHashIsDense(sha, d);
    DenseSplits(sha, Padded(chunks, Pow2(d)), Padded([], Pow2(d)), d);
    assert Padded(chunks, Pow2(d + 1)) == Padded(chunks, Pow2(d)) + Padded([], Pow2(d));
  }

  lemma DenseOfRight(sha: Sha, chunks: seq<Root>, d: nat)
    requires Pow2(d) < |chunks| <= Pow2(d + 1)
    ensures |chunks[Pow2(d)..]| <= Pow2(d)
    ensures Dense(sha, Padded(chunks, Pow2(d + 1)), d + 1) ==
            Pair(sha, Dense(sha, chunks[..Pow2(d)], d), Dense(sha, Padded(chunks[Pow2(d)..], Pow2(d)), d))
  {
    DenseSplits(sha, chunks[..Pow2(d)], Padded(chunks[Pow2(d)..], Pow2(d)), d);
    assert Padded(chunks, Pow2(d + 1)) == chunks[..Pow2(d)] + Padded(chunks[Pow2(d)..], Pow2(d));
  }

  ghost predicate SparseAgrees(sha: Sha, chunks: seq<Root>, d: nat)
  {
    |chunks| <= Pow2(d) ==> Merkleize(sha, chunks, Pow2(d)) == Dense(sha, Padded(chunks, Pow2(d)), d)
  }

  lemma SparseStep(sha: Sha, chunks: seq<Root>, d: nat)
    requires |chunks| <= Pow2(d + 1)
    requires |chunks| <= Pow2(d) ==> SparseAgrees(sha, chunks, d)
    requires |chunks| > Pow2(d) ==> SparseAgrees(sha, chunks[..Pow2(d)], d) && SparseAgrees(sha, chunks[Pow2(d)..], d)
    ensures SparseAgrees(sha, chunks, d + 1)
  {
    if |chunks| <= Pow2(d) {
      UnfoldLeft(sha, chunks, d);
      DenseOfLeft(sha, chunks, d);
    } else {
      UnfoldRight(sha, chunks, d);
      DenseOfRight(sha, chunks, d);
      assert Padded(chunks[..Pow2(d)], Pow2(d)) == chunks[..Pow2(d)];
    }
  }

  lemma {:induction false} SparseIsDense(sha: Sha, chunks: seq<Root>, d: nat)
    requires |chunks| <= Pow2(d)
    ensures SparseAgrees(sha, chunks, d)
    decreases d
  {
    if d > 0 {
      if |chunks| <= Pow2(d - 1) {
        SparseIsDense(sha, chunks, d - 1);
      } else {
        SparseIsDense(sha, chunks[..Pow2(d - 1)], d - 1);
        SparseIsDense(sha, chunks[Pow2(d - 1)..], d - 1);
      }
      SparseStep(sha, chunks, d - 1);
    }
  }

  /** Writing any number of padding chunks explicitly changes nothing. */
  lemma ExplicitPadding(sha: Sha, chunks: seq<Root>, n: nat, d: nat)
    requires |chunks| <= n <= Pow2(d)
    ensures Merkleize(sha, Padded(chunks, n), Pow2(d)) == Merkleize(sha, chunks, Pow2(d))
  {
    SparseIsDense(sha, chunks, d);
    SparseIsDense(sha, Padded(chunks, n), d);
    assert Padded(Padded(chunks, n), Pow2(d)) == Padded(chunks, Pow2(d));
  }

  /** Beyond the limit, which only a debug assertion guards, surplus chunks are ignored. */
  lemma {:induction false} SurplusIgnored(sha: Sha, chunks: seq<Root>, d: nat)
    requires |chunks| >= Pow2(d)
    ensures Merkleize(sha, chunks, Pow2(d)) == Merkleize(sha, chunks[..Pow2(d)], Pow2(d))
    decreases d
  {
    if d > 0 {
      SurplusIgnored(sha, chunks[Pow2(d - 1)..], d - 1);
      SurplusStep(sha, chunks, d - 1);
    }
  }

  lemma SurplusStep(sha: Sha, chunks: seq<Root>, d: nat)
    requires |chunks| >= Pow2(d + 1)
    requires Merkleize(sha, chunks[Pow2(d)..], Pow2(d)) == Merkleize(sha, chunks[Pow2(d)..][..Pow2(d)], Pow2(d))
    ensures Merkleize(sha, chunks, Pow2(d + 1)) == Merkleize(sha, chunks[..Pow2(d + 1)], Pow2(d + 1))
  {
    var h, kept := Pow2(d), chunks[..Pow2(d + 1)];
    assert kept[..h] == chunks[..h] && kept[h..] == chunks[h..][..h];
    UnfoldRight(sha, chunks, d);
    UnfoldRight(sha, kept, d);
  }

  /** The leaves that merkleization sees: padded up to the limit, or cut down to it. */
  function Fitted(chunks: seq<Root>, limit: nat): (leaves: seq<Root>)
    ensures |leaves| == limit
  {
    if |chunks| <= limit then Padded(chunks, limit) else chunks[..limit]
  }

  lemma MerkleizeIsFitted(sha: Sha, chunks: seq<Root>, d: nat)
    ensures Merkleize(sha, chunks, Pow2(d)) == Dense(sha, Fitted(chunks, Pow2(d)), d)
  {
    if |chunks| <= Pow2(d) {
      SparseIsDense(sha, chunks, d);
    } else {
      SurplusIgnored(sha, chunks, d);
      SparseIsDense(sha, chunks[..Pow2(d)], d);
      assert Padded(chunks[..Pow2(d)], Pow2(d)) == chunks[..Pow2(d)];
    }
  }

  /**
   * Sparse merkleization is level-by-level hashing of the chunks padded up to the limit or cut down to it,
   * and `zero_hash` its all-zero case.
   */
  lemma MerkleizeCorrect(sha: Sha, chunks: seq<Root>, d: nat)
    ensures Merkleize(sha, chunks, Pow2(d)).root == LevelByLevel(sha, Fitted(chunks, Pow2(d)), d)
    ensures |chunks| <= Pow2(d) ==> Merkleize(sha, chunks, Pow2(d)).root == LevelByLevel(sha, Padded(chunks, Pow2(d)), d)
    ensures ZeroHash(sha, d).root == LevelByLevel(sha, Padded([], Pow2(d)), d)
  {
    MerkleizeIsFitted(sha, chunks, d);
    ZeroHashIsDense(sha, d);
    DenseIsLevelByLevel(sha, Fitted(chunks, Pow2(d)), d);
    DenseIsLevelByLevel(sha, Padded([], Pow2(d)), d);
  }

  // ----- Binding -----

  /** Two different pairs of children with one hash. */
  ghost predicate NodeClash(sha: Sha, a: Root, a': Root, b: Root, b': Root)
  {
    a + a' != b + b' && sha(a + a') == sha(b + b')
  }

  lemma NodeBinding(sha: Sha, a: Root, a': Root, b: Root, b': Root)
    requires sha(a + a') == sha(b + b') && !NodeClash(sha, a, a', b, b')
    ensures a == b && a' == b'
  {
    SplitEqual(a, a', b, b');
  }

  lemma Widen(sha: Sha, a: set<seq<byte>>, b: set<seq<byte>>, a': set<seq<byte>>, b': set<seq<byte>>)
    requires CollisionBetween(sha, a, b) && a <= a' && b <= b'
    ensures CollisionBetween(sha, a', b')
  {
    var x, y :| x in a && y in b && x != y && sha(x) == sha(y);
    assert x in a' && y in b';
  }

  lemma PairClashLogged(sha: Sha, a: Digest, a': Digest, b: Digest, b': Digest)
    requires || NodeClash(sha, a.root, a'.root, b.root, b'.root)
             || CollisionBetween(sha, a.inputs, b.inputs)
             || CollisionBetween(sha, a'.inputs, b'.inputs)
    ensures CollisionBetween(sha, Pair(sha, a, a').inputs, Pair(sha, b, b').inputs)
  {
    var p, q := Pair(sha, a, a').inputs, Pair(sha, b, b').inputs;
    if CollisionBetween(sha, a.inputs, b.inputs) {
      Widen(sha, a.inputs, b.inputs, p, q);
    } else if CollisionBetween(sha, a'.inputs, b'.inputs) {
      Widen(sha, a'.inputs, b'.inputs, p, q);
    } else {
      assert a.root + a'.root in p && b.root + b'.root in q;
    }
  }

  /** Somewhere the two trees hold, at the same place, different pairs with one hash. */
  ghost predicate DenseClash(sha: Sha, a: seq<Root>, b: seq<Root>, d: nat)
    requires |a| == |b| == Pow2(d)
  {
    d > 0 &&
    var h := Pow2(d - 1);
    || NodeClash(sha, Dense(sha, a[..h], d - 1).root, Dense(sha, a[h..], d - 1).root,
                 Dense(sha, b[..h], d - 1).root, Dense(sha, b[h..], d - 1).root)
    || DenseClash(sha, a[..h], b[..h], d - 1)
    || DenseClash(sha, a[h..], b[h..], d - 1)
  }

  lemma {:induction false} DenseBinding(sha: Sha, a: seq<Root>, b: seq<Root>, d: nat)
    requires |a| == |b| == Pow2(d)
    requires Dense(sha, a, d).root == Dense(sha, b, d).root && !DenseClash(sha, a, b, d)
    ensures a == b
    decreases d
  {
    hide NodeClash;
    if d > 0 {
      var h := Pow2(d - 1);
      assert |a| == 2 * h;
      NodeBinding(sha, Dense(sha, a[..h], d - 1).root, Dense(sha, a[h..], d - 1).root,
                  Dense(sha, b[..h], d - 1).root, Dense(sha, b[h..], d - 1).root);
      DenseBinding(sha, a[..h], b[..h], d - 1);
      DenseBinding(sha, a[h..], b[h..], d - 1);
      assert a == a[..h] + a[h..] && b == b[..h] + b[h..];
    }
  }

  lemma {:induction false} NoSelfClash(sha: Sha, a: seq<Root>, d: nat)
    requires |a| == Pow2(d)
    ensures !DenseClash(sha, a, a, d)
    decreases d
  {
    if d > 0 {
      NoSelfClash(sha, a[..Pow2(d - 1)], d - 1);
      NoSelfClash(sha, a[Pow2(d - 1)..], d - 1);
    }
  }

  /** A clash is a collision between strings that the two computations hashed. */
  lemma {:induction false} DenseClashLogged(sha: Sha, a: seq<Root>, b: seq<Root>, d: nat)
    requires |a| == |b| == Pow2(d) && DenseClash(sha, a, b, d)
    ensures CollisionBetween(sha, Dense(sha, a, d).inputs, Dense(sha, b, d).inputs)
    decreases d
  {
    hide NodeClash, CollisionBetween, Pair;
    var h := Pow2(d - 1);
    if DenseClash(sha, a[..h], b[..h], d - 1) {
      DenseClashLogged(sha, a[..h], b[..h], d - 1);
    } else if DenseClash(sha, a[h..], b[h..], d - 1) {
      DenseClashLogged(sha, a[h..], b[h..], d - 1);
    }
    PairClashLogged(sha, Dense(sha, a[..h], d - 1), Dense(sha, a[h..], d - 1),
                    Dense(sha, b[..h], d - 1), Dense(sha, b[h..], d - 1));
  }

  ghost predicate MerkleClash(sha: Sha, a: seq<Root>, b: seq<Root>, limit: nat)
  {
    exists d :: Pow2(d) == limit && DenseClash(sha, Fitted(a, limit), Fitted(b, limit), d)
  }

  /** Equal roots without a clash mean that merkleization saw the same leaves, for chunk lists of any length. */
  lemma FittedBinding(sha: Sha, a: seq<Root>, b: seq<Root>, d: nat)
    requires Merkleize(sha, a, Pow2(d)).root == Merkleize(sha, b, Pow2(d)).root && !MerkleClash(sha, a, b, Pow2(d))
    ensures Fitted(a, Pow2(d)) == Fitted(b, Pow2(d))
  {
    MerkleizeIsFitted(sha, a, d);
    MerkleizeIsFitted(sha, b, d);
    DenseBinding(sha, Fitted(a, Pow2(d)), Fitted(b, Pow2(d)), d);
  }

  lemma FittedNoClash(sha: Sha, a: seq<Root>, b: seq<Root>, limit: nat)
    requires Fitted(a, limit) == Fitted(b, limit)
    ensures !MerkleClash(sha, a, b, limit)
  {
    forall d | Pow2(d) == limit
      ensures !DenseClash(sha, Fitted(a, limit), Fitted(b, limit), d)
    {
      NoSelfClash(sha, Fitted(a, limit), d);
    }
  }

  lemma MerkleClashLogged(sha: Sha, a: seq<Root>, b: seq<Root>, limit: nat)
    requires MerkleClash(sha, a, b, limit)
    ensures CollisionBetween(sha, Merkleize(sha, a, limit).inputs, Merkleize(sha, b, limit).inputs)
  {
    var d :| Pow2(d) == limit && DenseClash(sha, Fitted(a, limit), Fitted(b, limit), d);
    MerkleizeIsFitted(sha, a, d);
    MerkleizeIsFitted(sha, b, d);
    DenseClashLogged(sha, Fitted(a, limit), Fitted(b, limit), d);
  }

  /** Equal roots without a collision mean equal chunks, up to zero padding. */
  lemma MerkleizeBinding(sha: Sha, a: seq<Root>, b: seq<Root>, d: nat)
    requires |a| <= Pow2(d) && |b| <= Pow2(d)
    requires NoCollision(sha, Merkleize(sha, a, Pow2(d)).inputs, Merkleize(sha, b, Pow2(d)).inputs)
    requires Merkleize(sha, a, Pow2(d)).root == Merkleize(sha, b, Pow2(d)).root
    ensures Padded(a, Pow2(d)) == Padded(b, Pow2(d))
    ensures |a| == |b| ==> a == b
  {
    hide MerkleClash, Merkleize;
    CollisionOrNone(sha, Merkleize(sha, a, Pow2(d)).inputs, Merkleize(sha, b, Pow2(d)).inputs);
    if MerkleClash(sha, a, b, Pow2(d)) {
      MerkleClashLogged(sha, a, b, Pow2(d));
    }
    FittedBinding(sha, a, b, d);
    assert a == Padded(a, Pow2(d))[..|a|] && b == Padded(b, Pow2(d))[..|b|];
  }

  lemma Pow2Values()
    ensures Pow2(1) == 2 && Pow2(2) == 4 && Pow2(3) == 8 && Pow2(13) == 8192 && Pow2(15) == 32768
  {
    assert Pow2(5) == 32;
    assert Pow2(7) == 128;
    assert Pow2(9) == 512;
    assert Pow2(11) == 2048;
  }
}
