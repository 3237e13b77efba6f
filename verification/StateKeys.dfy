/** State keys, their canonical byte encoding, and the one order shared by maps and checks. */
module StateKeys {
  import opened Bytes

  datatype StateKey =
    | AccountHeader(address: Address)
    | StorageSlot(address: Address, slot: Root)
    | CodeChunk(address: Address, chunkIndex: u32)
    | RawTreeKey(raw: Root)
    | Stem(stem: Bytes31)

  function CanonicalAddress(a: Address): Root
  {
    Zeros(12) + a
  }

  function EncodeStateKey(k: StateKey): (s: seq<byte>)
    ensures 1 <= |s| <= 65
  {
    match k
    case AccountHeader(address) => [0] + CanonicalAddress(address)
    case StorageSlot(address, slot) => [1] + (CanonicalAddress(address) + slot)
    case CodeChunk(address, chunkIndex) => [2] + (CanonicalAddress(address) + Be(chunkIndex, 4))
    case RawTreeKey(raw) => [3] + raw
    case Stem(stem) => [4] + stem
  }

  /** The encoding byte by byte: tag, then zero-padded address, then slot or big-endian index; or a raw key or stem. */
  lemma EncodedBytes(k: StateKey)
    ensures var s := EncodeStateKey(k);
            && s[0] == (match k case AccountHeader(_) => 0 case StorageSlot(_, _) => 1 case CodeChunk(_, _) => 2
                                case RawTreeKey(_) => 3 case Stem(_) => 4)
            && (k.AccountHeader? || k.StorageSlot? || k.CodeChunk? ==>
                  |s| >= 33 && (forall i :: 1 <= i < 13 ==> s[i] == 0) && s[13..33] == k.address)
            && (k.AccountHeader? ==> |s| == 33)
            && (k.StorageSlot? ==> |s| == 65 && s[33..] == k.slot)
            && (k.CodeChunk? ==> |s| == 37 && forall i :: 33 <= i < 37 ==> s[i] == Le(k.chunkIndex, 4)[36 - i])
            && (k.RawTreeKey? ==> |s| == 33 && s[1..] == k.raw)
            && (k.Stem? ==> |s| == 32 && s[1..] == k.stem)
  {
    hide Be, Le;
    var s := EncodeStateKey(k);
    if k.CodeChunk? {
      forall i | 33 <= i < 37
        ensures s[i] == Le(k.chunkIndex, 4)[36 - i]
      {
        BeReversesLe(k.chunkIndex, 4, i - 33);
      }
    }
  }

  lemma CanonicalAddressInjective(a: Address, b: Address)
    requires CanonicalAddress(a) == CanonicalAddress(b)
    ensures a == b
  {
    SplitEqual(Zeros(12), a, Zeros(12), b);
  }

  lemma ChunkIndexInjective(m: u32, n: u32)
    requires Be(m, 4) == Be(n, 4)
    ensures m == n
  {
    Pow256Values();
    BeInjective(m, n, 4);
  }

  lemma EncodeInjective(k: StateKey, l: StateKey)
    requires EncodeStateKey(k) == EncodeStateKey(l)
    ensures k == l
  {
    var s, t := EncodeStateKey(k), EncodeStateKey(l);
    assert s[0] == t[0] && s[1..] == t[1..];
    match k
    case AccountHeader(a) =>
      assert l.AccountHeader? && s[1..] == CanonicalAddress(a) && t[1..] == CanonicalAddress(l.address);
      CanonicalAddressInjective(a, l.address);
    case StorageSlot(a, slot) =>
      assert l.StorageSlot?;
      assert s[1..] == CanonicalAddress(a) + slot && t[1..] == CanonicalAddress(l.address) + l.slot;
      SplitEqual(CanonicalAddress(a), slot, CanonicalAddress(l.address), l.slot);
      CanonicalAddressInjective(a, l.address);
    case CodeChunk(a, chunkIndex) =>
      assert l.CodeChunk?;
      assert s[1..] == CanonicalAddress(a) + Be(chunkIndex, 4);
      assert t[1..] == CanonicalAddress(l.address) + Be(l.chunkIndex, 4);
      SplitEqual(CanonicalAddress(a), Be(chunkIndex, 4), CanonicalAddress(l.address), Be(l.chunkIndex, 4));
      CanonicalAddressInjective(a, l.address);
      ChunkIndexInjective(chunkIndex, l.chunkIndex);
    case RawTreeKey(raw) =>
      assert l.RawTreeKey? && s[1..] == raw && t[1..] == l.raw;
    case Stem(stem) =>
      assert l.Stem? && s[1..] == stem && t[1..] == l.stem;
  }

  /** No key's encoding is a proper prefix of another's, within and across the five variants. */
  lemma EncodePrefixFree(k: StateKey, l: StateKey)
    requires EncodeStateKey(k) <= EncodeStateKey(l)
    ensures k == l
  {
    var s, t := EncodeStateKey(k), EncodeStateKey(l);
    assert s[0] == t[0];
    assert |s| == |t|;
    assert s == t;
    EncodeInjective(k, l);
  }

  // ----- Byte order -----

  datatype Ordering = Less | Equal | Greater

  /** Slice comparison: bytewise, a proper prefix first. */
  function LexCompare(a: seq<byte>, b: seq<byte>): Ordering
  {
    if a == [] then (if b == [] then Equal else Less)
    else if b == [] then Greater
    else if a[0] < b[0] then Less
    else if a[0] > b[0] then Greater
    else LexCompare(a[1..], b[1..])
  }

  predicate Lt(a: seq<byte>, b: seq<byte>)
  {
    LexCompare(a, b) == Less
  }

  function CompareStateKeys(left: StateKey, right: StateKey): Ordering
  {
    LexCompare(EncodeStateKey(left), EncodeStateKey(right))
  }

  lemma {:induction false} LexEqual(a: seq<byte>, b: seq<byte>)
    ensures LexCompare(a, b) == Equal <==> a == b
  {
    if a != [] && b != [] {
      LexEqual(a[1..], b[1..]);
      assert a == [a[0]] + a[1..] && b == [b[0]] + b[1..];
    }
  }

  lemma {:induction false} LexFlip(a: seq<byte>, b: seq<byte>)
    ensures LexCompare(a, b) == Less <==> LexCompare(b, a) == Greater
  {
    if a != [] && b != [] {
      LexFlip(a[1..], b[1..]);
    }
  }

  lemma {:induction false} LtTransitive(a: seq<byte>, b: seq<byte>, c: seq<byte>)
    requires Lt(a, b) && Lt(b, c)
    ensures Lt(a, c)
  {
    if a != [] && a[0] == b[0] == c[0] {
      LtTransitive(a[1..], b[1..], c[1..]);
    }
  }

  lemma LtTotal(a: seq<byte>, b: seq<byte>)
    ensures a == b || Lt(a, b) || Lt(b, a)
    ensures !(Lt(a, b) && Lt(b, a)) && !Lt(a, a)
  {
    LexEqual(a, b);
    LexEqual(a, a);
    LexFlip(a, b);
    LexFlip(b, a);
  }

  /** The comparator is a strict total order on keys, and two keys tie only when equal. */
  lemma CompareIsTotalOrder(k: StateKey, l: StateKey, m: StateKey)
    ensures CompareStateKeys(k, l) == Equal <==> k == l
    ensures CompareStateKeys(k, l) == Less <==> CompareStateKeys(l, k) == Greater
    ensures CompareStateKeys(k, l) == Less && CompareStateKeys(l, m) == Less ==> CompareStateKeys(k, m) == Less
  {
    hide EncodeStateKey;
    var a, b, c := EncodeStateKey(k), EncodeStateKey(l), EncodeStateKey(m);
    LexEqual(a, b);
    LexFlip(a, b);
    if a == b {
      EncodeInjective(k, l);
    }
    if Lt(a, b) && Lt(b, c) {
      LtTransitive(a, b, c);
    }
  }

  lemma {:induction false} LexSnoc(x: seq<byte>, a: byte, y: seq<byte>, b: byte)
    requires |x| == |y|
    ensures LexCompare(x + [a], y + [b]) ==
            if LexCompare(x, y) != Equal then LexCompare(x, y) else if a < b then Less else if a > b then Greater else Equal
  {
    if x == [] {
      assert x + [a] == [a] && y + [b] == [b];
      assert LexCompare([a][1..], [b][1..]) == Equal;
    } else {
      LexSnoc(x[1..], a, y[1..], b);
      assert (x + [a])[1..] == x[1..] + [a] && (y + [b])[1..] == y[1..] + [b];
    }
  }

  lemma {:induction false} BigEndianOrder(m: nat, n: nat, k: nat)
    requires m < Pow256(k) && n < Pow256(k)
    ensures LexCompare(Be(m, k), Be(n, k)) == if m < n then Less else if m > n then Greater else Equal
  {
    if k > 0 {
      BigEndianOrder(m / 256, n / 256, k - 1);
      LexSnoc(Be(m / 256, k - 1), m % 256, Be(n / 256, k - 1), n % 256);
    }
  }

  /** Byte order is decided at the first difference, or by length. */
  lemma {:induction false} LexFirstDifference(a: seq<byte>, b: seq<byte>, n: nat)
    requires n <= |a| && n <= |b| && a[..n] == b[..n]
    ensures n == |a| < |b| ==> LexCompare(a, b) == Less
    ensures n == |b| < |a| ==> LexCompare(a, b) == Greater
    ensures n < |a| && n < |b| && a[n] < b[n] ==> LexCompare(a, b) == Less
    ensures n < |a| && n < |b| && a[n] > b[n] ==> LexCompare(a, b) == Greater
    decreases n
  {
    if n > 0 {
      assert a[0] == a[..n][0] == b[0];
      assert a[1..][..n - 1] == a[..n][1..] == b[1..][..n - 1];
      LexFirstDifference(a[1..], b[1..], n - 1);
    }
  }

  lemma {:induction false} LexConcat(a: seq<byte>, x: seq<byte>, b: seq<byte>, y: seq<byte>)
    requires |a| == |b|
    ensures LexCompare(a + x, b + y) == if a == b then LexCompare(x, y) else LexCompare(a, b)
  {
    if a == [] {
      assert a + x == x && b + y == y;
    } else {
      assert (a + x)[1..] == a[1..] + x && (b + y)[1..] == b[1..] + y;
      assert a == [a[0]] + a[1..] && b == [b[0]] + b[1..];
      LexConcat(a[1..], x, b[1..], y);
    }
  }

  /** Account headers come before storage slots, then code chunks, raw tree keys and stems. */
  lemma VariantOrder(k: StateKey, l: StateKey)
    ensures k.AccountHeader? && !l.AccountHeader? ==> CompareStateKeys(k, l) == Less
    ensures k.StorageSlot? && (l.CodeChunk? || l.RawTreeKey? || l.Stem?) ==> CompareStateKeys(k, l) == Less
    ensures k.CodeChunk? && (l.RawTreeKey? || l.Stem?) ==> CompareStateKeys(k, l) == Less
    ensures k.RawTreeKey? && l.Stem? ==> CompareStateKeys(k, l) == Less
  {
    EncodedBytes(k);
    EncodedBytes(l);
    hide EncodeStateKey, LexCompare;
    LexFirstDifference(EncodeStateKey(k), EncodeStateKey(l), 0);
  }

  /** Within a variant, accounts are ordered by address first, then slots by slot bytes and chunks by index. */
  lemma OrderWithinVariant(k: StateKey, l: StateKey)
    ensures k.AccountHeader? && l.AccountHeader? ==> CompareStateKeys(k, l) == LexCompare(k.address, l.address)
    ensures k.StorageSlot? && l.StorageSlot? ==>
            CompareStateKeys(k, l) == if k.address == l.address then LexCompare(k.slot, l.slot) else LexCompare(k.address, l.address)
    ensures k.CodeChunk? && l.CodeChunk? ==>
            CompareStateKeys(k, l) == if k.address != l.address then LexCompare(k.address, l.address)
                                      else if k.chunkIndex < l.chunkIndex then Less
                                      else if k.chunkIndex > l.chunkIndex then Greater else Equal
    ensures k.RawTreeKey? && l.RawTreeKey? ==> CompareStateKeys(k, l) == LexCompare(k.raw, l.raw)
    ensures k.Stem? && l.Stem? ==> CompareStateKeys(k, l) == LexCompare(k.stem, l.stem)
  {
    hide LexCompare, Be;
    if k.RawTreeKey? && l.RawTreeKey? {
      LexConcat([3], k.raw, [3], l.raw);
    } else if k.Stem? && l.Stem? {
      LexConcat([4], k.stem, [4], l.stem);
    } else if k.AccountHeader? && l.AccountHeader? {
      AccountOrder(0, k.address, [], l.address, []);
      LexEqual(k.address, l.address);
      assert EncodeStateKey(k) == [0] + (CanonicalAddress(k.address) + []) && EncodeStateKey(l) == [0] + (CanonicalAddress(l.address) + []);
      LexEqual([], []);
    } else if k.StorageSlot? && l.StorageSlot? {
      AccountOrder(1, k.address, k.slot, l.address, l.slot);
    } else if k.CodeChunk? && l.CodeChunk? {
      AccountOrder(2, k.address, Be(k.chunkIndex, 4), l.address, Be(l.chunkIndex, 4));
      Pow256Values();
      BigEndianOrder(k.chunkIndex, l.chunkIndex, 4);
    }
  }

  lemma AccountOrder(tag: byte, a: Address, x: seq<byte>, b: Address, y: seq<byte>)
    ensures LexCompare([tag] + (CanonicalAddress(a) + x), [tag] + (CanonicalAddress(b) + y)) ==
            if a == b then LexCompare(x, y) else LexCompare(a, b)
  {
    hide LexCompare;
    LexConcat([tag], CanonicalAddress(a) + x, [tag], CanonicalAddress(b) + y);
    LexConcat(Zeros(12), a + x, Zeros(12), b + y);
    LexConcat(a, x, b, y);
    assert CanonicalAddress(a) + x == Zeros(12) + (a + x) && CanonicalAddress(b) + y == Zeros(12) + (b + y);
  }

  /** Code chunks of one account sort by chunk index, which is why the index is written big-endian. */
  lemma CodeChunksInIndexOrder(a: Address, m: u32, n: u32)
    ensures CompareStateKeys(CodeChunk(a, m), CodeChunk(a, n)) == Less <==> m < n
  {
    hide CompareStateKeys;
    OrderWithinVariant(CodeChunk(a, m), CodeChunk(a, n));
  }

  // ----- Sorted key lists -----

  ghost predicate StrictlySorted(keys: seq<StateKey>)
  {
    forall i, j :: 0 <= i < j < |keys| ==> CompareStateKeys(keys[i], keys[j]) == Less
  }

  /** The first index whose key does not come after its predecessor, or the length. */
  function FirstViolation(keys: seq<StateKey>, from: nat): (r: nat)
    requires 1 <= from
    ensures from <= r
    ensures r < |keys| ==> CompareStateKeys(keys[r - 1], keys[r]) != Less
    ensures forall j :: from <= j < r && j < |keys| ==> CompareStateKeys(keys[j - 1], keys[j]) == Less
    decreases |keys| - from
  {
    if from >= |keys| || CompareStateKeys(keys[from - 1], keys[from]) != Less then from
    else FirstViolation(keys, from + 1)
  }

  /** Checking neighbours is checking the whole list: accepted means sorted and free of duplicates. */
  lemma NeighboursSuffice(keys: seq<StateKey>)
    ensures FirstViolation(keys, 1) >= |keys| <==> StrictlySorted(keys)
  {
    if FirstViolation(keys, 1) >= |keys| {
      forall i, j | 0 <= i < j < |keys|
        ensures CompareStateKeys(keys[i], keys[j]) == Less
      {
        NeighboursChain(keys, i, j);
      }
    }
  }

  lemma {:induction false} NeighboursChain(keys: seq<StateKey>, i: nat, j: nat)
    requires i < j < |keys|
    requires forall k :: 1 <= k < |keys| ==> CompareStateKeys(keys[k - 1], keys[k]) == Less
    ensures CompareStateKeys(keys[i], keys[j]) == Less
    decreases j
  {
    if i < j - 1 {
      NeighboursChain(keys, i, j - 1);
      CompareIsTotalOrder(keys[i], keys[j - 1], keys[j]);
    }
  }

  // ----- Ordered sets of encoded keys, as a BTreeMap iterates and ranges over them -----

  ghost predicate Sorted(ks: seq<seq<byte>>)
  {
    forall i, j :: 0 <= i < j < |ks| ==> Lt(ks[i], ks[j])
  }

  predicate IsMin(k: seq<byte>, s: set<seq<byte>>)
  {
    k in s && forall x :: x in s ==> x == k || Lt(k, x)
  }

  predicate IsMax(k: seq<byte>, s: set<seq<byte>>)
  {
    k in s && forall x :: x in s ==> x == k || Lt(x, k)
  }

  lemma {:induction false} ExtremesExist(s: set<seq<byte>>)
    requires s != {}
    ensures exists k :: IsMin(k, s)
    ensures exists k :: IsMax(k, s)
    decreases |s|
  {
    var x :| x in s;
    var t := s - {x};
    if t == {} {
      assert s == {x};
      assert IsMin(x, s) && IsMax(x, s);
    } else {
      ExtremesExist(t);
      var lo :| IsMin(lo, t);
      var hi :| IsMax(hi, t);
      LtTotal(x, lo);
      LtTotal(x, hi);
      if Lt(x, lo) {
        forall y | y in t ensures Lt(x, y) { if y != lo { LtTransitive(x, lo, y); } }
        assert IsMin(x, s);
      } else {
        assert IsMin(lo, s);
      }
      if Lt(hi, x) {
        forall y | y in t ensures Lt(y, x) { if y != hi { LtTransitive(y, hi, x); } }
        assert IsMax(x, s);
      } else {
        assert IsMax(hi, s);
      }
    }
  }

  lemma LtAsymmetric()
    ensures forall a, b :: Lt(a, b) ==> !Lt(b, a)
  {
    forall a, b | Lt(a, b) ensures !Lt(b, a) { LtTotal(a, b); }
  }

  function MinKey(s: set<seq<byte>>): (k: seq<byte>)
    requires s != {}
    ensures IsMin(k, s)
  {
    ExtremesExist(s);
    LtAsymmetric();
    var k :| k in s && IsMin(k, s);
    k
  }

  function MaxKey(s: set<seq<byte>>): (k: seq<byte>)
    requires s != {}
    ensures IsMax(k, s)
  {
    ExtremesExist(s);
    LtAsymmetric();
    var k :| k in s && IsMax(k, s);
    k
  }

  /** The keys in iteration order. */
  function SortedKeys(s: set<seq<byte>>): (ks: seq<seq<byte>>)
    ensures |ks| == |s| && forall x :: x in ks <==> x in s
    ensures Sorted(ks)
    decreases |s|
  {
    if s == {} then [] else
    var k := MinKey(s);
    [k] + SortedKeys(s - {k})
  }

  /** The greatest key below `k` (`range(..k).next_back()`). */
  function Below(s: set<seq<byte>>, k: seq<byte>): (r: Option<seq<byte>>)
    ensures r.None? <==> forall x :: x in s ==> !Lt(x, k)
    ensures r.Some? ==> r.value in s && Lt(r.value, k) && forall x :: x in s && Lt(x, k) ==> x == r.value || Lt(x, r.value)
  {
    var t := set x | x in s && Lt(x, k);
    assert forall x :: x in s && Lt(x, k) ==> x in t;
    if t == {} then None else Some(MaxKey(t))
  }

  /** The least key above `k` (`range((Excluded(k), Unbounded)).next()`). */
  function Above(s: set<seq<byte>>, k: seq<byte>): (r: Option<seq<byte>>)
    ensures r.None? <==> forall x :: x in s ==> !Lt(k, x)
    ensures r.Some? ==> r.value in s && Lt(k, r.value) && forall x :: x in s && Lt(k, x) ==> x == r.value || Lt(r.value, x)
  {
    var t := set x | x in s && Lt(k, x);
    assert forall x :: x in s && Lt(k, x) ==> x in t;
    if t == {} then None else Some(MinKey(t))
  }
}
