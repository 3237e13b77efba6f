/** Byte strings, fixed-width integers, results, and the hash function as an arbitrary parameter. */
module Bytes {

  type byte = b: int | 0 <= b < 256

  const U32_LIMIT := 0x1_0000_0000
  const U64_LIMIT := 0x1_0000_0000_0000_0000

  type u32 = n: int | 0 <= n < 0x1_0000_0000
  type u64 = n: int | 0 <= n < 0x1_0000_0000_0000_0000

  function Zeros(n: nat): (z: seq<byte>)
    ensures |z| == n
    ensures forall i :: 0 <= i < n ==> z[i] == 0
  {
    seq(n, _ => 0)
  }

  type Bytes4 = s: seq<byte> | |s| == 4 witness Zeros(4)
  type Address = s: seq<byte> | |s| == 20 witness Zeros(20)
  type Bytes31 = s: seq<byte> | |s| == 31 witness Zeros(31)
  type Root = s: seq<byte> | |s| == 32 witness Zeros(32)

  const ZERO_ROOT: Root := Zeros(32)

  datatype Option<+T> = None | Some(value: T)

  datatype Result<+T, +E> = Ok(value: T) | Err(error: E) {
    predicate IsFailure() {
      Err?
    }

    function PropagateFailure<U>(): Result<U, E>
      requires Err?
    {
      Err(error)
    }

    function Extract(): T
      requires Ok?
    {
      value
    }
  }

  datatype Unit = Unit

  /** The first element that satisfies `holds`, or the length. */
  function First<T>(s: seq<T>, holds: T -> bool): (k: nat)
    ensures k <= |s| && (k < |s| ==> holds(s[k]))
    ensures forall i :: 0 <= i < k ==> !holds(s[i])
  {
    if s == [] || holds(s[0]) then 0 else 1 + First(s[1..], holds)
  }

  /** What a collecting loop returns that holds `done` and would get `r` from the rest. */
  function Collected<T, E>(done: seq<T>, r: Result<seq<T>, E>): Result<seq<T>, E>
  {
    match r case Ok(rest) => Ok(done + rest) case Err(e) => Err(e)
  }

  lemma CollectedStep<T, E>(done: seq<T>, x: T, r: Result<seq<T>, E>)
    ensures Collected(done, Collected([x], r)) == Collected(done + [x], r)
    ensures Collected([], r) == r
  {
    if r.Ok? {
      assert done + ([x] + r.value) == done + [x] + r.value;
      assert [] + r.value == r.value;
    }
  }

  // ----- Integers as bytes -----

  function Pow256(k: nat): (p: nat)
    ensures p >= 1
  {
    if k == 0 then 1 else 256 * Pow256(k - 1)
  }

  lemma Pow256Values()
    ensures Pow256(4) == U32_LIMIT && Pow256(8) == U64_LIMIT
  {
    assert Pow256(2) == 0x1_0000;
    assert Pow256(4) == U32_LIMIT;
    assert Pow256(6) == 0x1_0000_0000_0000;
  }

  /** The k low-order bytes of n, least significant first (`to_le_bytes`). */
  function Le(n: nat, k: nat): (s: seq<byte>)
    ensures |s| == k
  {
    if k == 0 then [] else [n % 256] + Le(n / 256, k - 1)
  }

  /** The number that a little-endian byte string denotes (`from_le_bytes`). */
  function UnLe(s: seq<byte>): (n: nat)
  {
    if s == [] then 0 else s[0] + 256 * UnLe(s[1..])
  }

  lemma {:induction false} UnLeBound(s: seq<byte>)
    ensures UnLe(s) < Pow256(|s|)
  {
    if s != [] {
      UnLeBound(s[1..]);
    }
  }

  lemma {:induction false} UnLeOfLe(n: nat, k: nat)
    requires n < Pow256(k)
    ensures UnLe(Le(n, k)) == n
  {
    if k > 0 {
      UnLeOfLe(n / 256, k - 1);
      assert Le(n, k)[1..] == Le(n / 256, k - 1);
    }
  }

  lemma {:induction false} LeOfUnLe(s: seq<byte>)
    ensures Le(UnLe(s), |s|) == s
  {
    if s != [] {
      LeOfUnLe(s[1..]);
      assert UnLe(s) % 256 == s[0] && UnLe(s) / 256 == UnLe(s[1..]);
      assert s == [s[0]] + s[1..];
    }
  }

  lemma LeInjective(m: nat, n: nat, k: nat)
    requires m < Pow256(k) && n < Pow256(k)
    requires Le(m, k) == Le(n, k)
    ensures m == n
  {
    UnLeOfLe(m, k);
    UnLeOfLe(n, k);
  }

  lemma U32RoundTrip(n: u32)
    ensures UnLe(Le(n, 4)) == n
  {
    Pow256Values();
    UnLeOfLe(n, 4);
  }

  lemma U64RoundTrip(n: u64)
    ensures UnLe(Le(n, 8)) == n
  {
    Pow256Values();
    UnLeOfLe(n, 8);
  }

  /** The k low-order bytes of n, most significant first (`to_be_bytes`). */
  function Be(n: nat, k: nat): (s: seq<byte>)
    ensures |s| == k
  {
    if k == 0 then [] else Be(n / 256, k - 1) + [n % 256]
  }

  lemma {:induction false} BeInjective(m: nat, n: nat, k: nat)
    requires m < Pow256(k) && n < Pow256(k)
    requires Be(m, k) == Be(n, k)
    ensures m == n
  {
    if k > 0 {
      assert Be(m, k)[..k - 1] == Be(m / 256, k - 1) && Be(n, k)[..k - 1] == Be(n / 256, k - 1);
      assert Be(m, k)[k - 1] == m % 256 && Be(n, k)[k - 1] == n % 256;
      BeInjective(m / 256, n / 256, k - 1);
    }
  }

  /** Big-endian is little-endian read from the other end. */
  lemma {:induction false} BeReversesLe(n: nat, k: nat, i: nat)
    requires i < k
    ensures Be(n, k)[i] == Le(n, k)[k - 1 - i]
    decreases k
  {
    if i < k - 1 {
      BeReversesLe(n / 256, k - 1, i);
    }
  }

  // ----- Concatenations -----

  /** If two concatenations agree and their heads have one length, heads and tails agree. */
  lemma SplitEqual<T>(a: seq<T>, b: seq<T>, c: seq<T>, d: seq<T>)
    requires |a| == |c|
    requires a + b == c + d
    ensures a == c && b == d
  {
    assert a == (a + b)[..|a|] && c == (c + d)[..|c|];
    assert b == (a + b)[|a|..] && d == (c + d)[|c|..];
  }

  function Concat(parts: seq<seq<byte>>): (s: seq<byte>)
  {
    if parts == [] then [] else parts[0] + Concat(parts[1..])
  }

  lemma {:induction false} ConcatSnoc(parts: seq<seq<byte>>, last: seq<byte>)
    ensures Concat(parts + [last]) == Concat(parts) + last
  {
    if parts == [] {
      assert parts + [last] == [last];
      assert Concat([]) == [];
    } else {
      assert (parts + [last])[1..] == parts[1..] + [last];
      ConcatSnoc(parts[1..], last);
    }
  }

  /** A loop that appends one part per step extends the concatenation of a prefix. */
  lemma ConcatPrefix(parts: seq<seq<byte>>, i: nat)
    requires i < |parts|
    ensures Concat(parts[..i + 1]) == Concat(parts[..i]) + parts[i]
  {
    assert parts[..i + 1] == parts[..i] + [parts[i]];
    ConcatSnoc(parts[..i], parts[i]);
  }

  lemma {:induction false} ConcatRootsLength(parts: seq<Root>)
    ensures |Concat(parts)| == 32 * |parts|
  {
    if parts != [] {
      ConcatRootsLength(parts[1..]);
    }
  }

  /** A concatenation of 32-byte digests can be cut in one way only. */
  lemma {:induction false} ConcatRootsInjective(a: seq<Root>, b: seq<Root>)
    requires Concat(a) == Concat(b)
    ensures a == b
  {
    ConcatRootsLength(a);
    ConcatRootsLength(b);
    if a != [] {
      SplitEqual(a[0], Concat(a[1..]), b[0], Concat(b[1..]));
      ConcatRootsInjective(a[1..], b[1..]);
      assert a == [a[0]] + a[1..] && b == [b[0]] + b[1..];
    }
  }

  /** Digest i of a concatenation stands at byte 32 i. */
  lemma {:induction false} ConcatRootsAt(parts: seq<Root>, i: nat)
    requires i < |parts|
    ensures 32 * i + 32 <= |Concat(parts)| && Concat(parts)[32 * i..32 * i + 32] == parts[i]
    decreases i
  {
    ConcatRootsLength(parts);
    var rest := Concat(parts[1..]);
    if i > 0 {
      ConcatRootsAt(parts[1..], i - 1);
      assert Concat(parts)[32 * i..32 * i + 32] == rest[32 * (i - 1)..32 * (i - 1) + 32];
    }
  }

  lemma RootsAfter(prefix: seq<byte>, roots: seq<Root>, n: nat)
    requires n == |prefix|
    ensures |prefix + Concat(roots)| == n + 32 * |roots|
    ensures forall i :: 0 <= i < |roots| ==> (prefix + Concat(roots))[n + 32 * i..n + 32 * i + 32] == roots[i]
  {
    ConcatRootsLength(roots);
    forall i | 0 <= i < |roots|
      ensures (prefix + Concat(roots))[n + 32 * i..n + 32 * i + 32] == roots[i]
    {
      ConcatRootsAt(roots, i);
      assert (prefix + Concat(roots))[n + 32 * i..n + 32 * i + 32] == Concat(roots)[32 * i..32 * i + 32];
    }
  }

  // ----- Hashing -----

  /** SHA-256, about which nothing is assumed. */
  type Sha = seq<byte> -> Root

  /** A root together with every byte string that was hashed on the way to it. */
  datatype Digest = Digest(root: Root, inputs: set<seq<byte>>)

  /** No input of the first computation collides with an input of the second. */
  ghost predicate NoCollision(sha: Sha, a: set<seq<byte>>, b: set<seq<byte>>)
  {
    forall x, y :: x in a && y in b && sha(x) == sha(y) ==> x == y
  }

  ghost predicate CollisionBetween(sha: Sha, a: set<seq<byte>>, b: set<seq<byte>>)
  {
    exists x, y :: x in a && y in b && x != y && sha(x) == sha(y)
  }

  lemma CollisionOrNone(sha: Sha, a: set<seq<byte>>, b: set<seq<byte>>)
    ensures NoCollision(sha, a, b) <==> !CollisionBetween(sha, a, b)
  {
  }

  lemma Preimage(sha: Sha, a: set<seq<byte>>, b: set<seq<byte>>, x: seq<byte>, y: seq<byte>)
    requires NoCollision(sha, a, b)
    requires x in a && y in b && sha(x) == sha(y)
    ensures x == y
  {
  }
}
