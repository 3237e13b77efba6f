/** Roots over state, receipts, witnesses and transactions, and the proof that each binds its contents. */
module Commitments {
  import opened Bytes
  import opened StateKeys
  import opened State
  import opened Transactions
  import opened HashTreeRoot
  import opened RootBinding

  // ----- State root -----

  /** Feeds the digests of the leaves under `keys` to the hasher, in that order. */
  method HashLeaves(sha: Sha, leaves: Leaves, keys: seq<seq<byte>>, hasher: seq<byte>) returns (out: seq<byte>)
    requires forall k :: k in keys ==> k in leaves
    ensures out == hasher + Concat(LeafRoots(sha, leaves, keys))
  {
    assert Concat([]) == [];
    hide LeafInput, LeafRoots, Concat;
    out := hasher;
    ghost var roots := LeafRoots(sha, leaves, keys);
    var i := 0;
    assert roots[..0] == [];
    while i < |keys|
      invariant 0 <= i <= |keys| == |roots|
      invariant out == hasher + Concat(roots[..i])
    {
      ConcatPrefix(roots, i);
      out := out + sha(LeafInput(keys[i], leaves[keys[i]].leafValue));
      i := i + 1;
    }
    assert roots[..i] == roots;
  }

  /** The method that recomputes the reference root hashes prefix and leaf digests in key order. */
  method ComputeReferenceRoot(sha: Sha, leaves: Leaves) returns (root: Root)
    ensures root == ReferenceRoot(sha, leaves).root
  {
    hide Ascii, SortedKeys, LeafInput, LeafRoots, Concat;
    var hasher := HashLeaves(sha, leaves, SortedKeys(leaves.Keys), ROOT_PREFIX);
    root := sha(hasher);
  }

  lemma LeafInputInjective(k: seq<byte>, v: seq<byte>, l: seq<byte>, w: seq<byte>)
    requires |k| < U32_LIMIT && |l| < U32_LIMIT
    requires LeafInput(k, v) == LeafInput(l, w)
    ensures k == l && v == w
  {
    hide LEAF_PREFIX, Be;
    var kt, lt := Be(|v| % U32_LIMIT, 4) + v, Be(|w| % U32_LIMIT, 4) + w;
    assert |k| % U32_LIMIT == |k| && |l| % U32_LIMIT == |l|;
    SplitEqual(LEAF_PREFIX, Be(|k|, 4) + (k + kt), LEAF_PREFIX, Be(|l|, 4) + (l + lt));
    SplitEqual(Be(|k|, 4), k + kt, Be(|l|, 4), l + lt);
    Pow256Values();
    BeInjective(|k|, |l|, 4);
    SplitEqual(k, kt, l, lt);
    SplitEqual(Be(|v| % U32_LIMIT, 4), v, Be(|w| % U32_LIMIT, 4), w);
  }

  lemma SameLeafAt(sha: Sha, a: Leaves, b: Leaves, i: nat)
    requires WellKeyed(a) && WellKeyed(b)
    requires NoCollision(sha, ReferenceRoot(sha, a).inputs, ReferenceRoot(sha, b).inputs)
    requires var ka, kb := SortedKeys(a.Keys), SortedKeys(b.Keys);
             && i < |ka| == |kb|
             && LeafRoots(sha, a, ka)[i] == LeafRoots(sha, b, kb)[i]
    ensures var ka, kb := SortedKeys(a.Keys), SortedKeys(b.Keys);
            ka[i] == kb[i] && ka[i] in a && kb[i] in b && a[ka[i]] == b[kb[i]]
  {
    hide SortedKeys, LeafInput, RootInput;
    var k, l := SortedKeys(a.Keys)[i], SortedKeys(b.Keys)[i];
    assert k in a && l in b;
    var x, y := LeafInput(k, a[k].leafValue), LeafInput(l, b[l].leafValue);
    Preimage(sha, ReferenceRoot(sha, a).inputs, ReferenceRoot(sha, b).inputs, x, y);
    assert |EncodeStateKey(a[k].key)| <= 65 && |EncodeStateKey(b[l].key)| <= 65;
    LeafInputInjective(k, a[k].leafValue, l, b[l].leafValue);
    EncodeInjective(a[k].key, b[l].key);
  }

  lemma SameLeafRoots(sha: Sha, a: Leaves, b: Leaves)
    requires NoCollision(sha, ReferenceRoot(sha, a).inputs, ReferenceRoot(sha, b).inputs)
    requires ReferenceRoot(sha, a).root == ReferenceRoot(sha, b).root
    ensures LeafRoots(sha, a, SortedKeys(a.Keys)) == LeafRoots(sha, b, SortedKeys(b.Keys))
  {
    hide SortedKeys, LeafInput, ROOT_PREFIX, LeafRoots;
    var ra, rb := LeafRoots(sha, a, SortedKeys(a.Keys)), LeafRoots(sha, b, SortedKeys(b.Keys));
    Preimage(sha, ReferenceRoot(sha, a).inputs, ReferenceRoot(sha, b).inputs, RootInput(sha, a), RootInput(sha, b));
    SplitEqual(ROOT_PREFIX, Concat(ra), ROOT_PREFIX, Concat(rb));
    ConcatRootsInjective(ra, rb);
  }

  lemma SameByKeys(a: Leaves, b: Leaves, keys: seq<seq<byte>>)
    requires forall k :: (k in keys <==> k in a) && (k in keys <==> k in b)
    requires forall i :: 0 <= i < |keys| ==> keys[i] in a && keys[i] in b && a[keys[i]] == b[keys[i]]
    ensures a == b
  {
    assert a.Keys == b.Keys;
    forall k | k in a
      ensures a[k] == b[k]
    {
      assert k in keys;
      var i :| 0 <= i < |keys| && keys[i] == k;
    }
  }

  lemma SameLeaves(sha: Sha, a: Leaves, b: Leaves)
    requires WellKeyed(a) && WellKeyed(b)
    requires NoCollision(sha, ReferenceRoot(sha, a).inputs, ReferenceRoot(sha, b).inputs)
    requires ReferenceRoot(sha, a).root == ReferenceRoot(sha, b).root
    ensures a == b
  {
    hide SortedKeys, LeafRoots, ReferenceRoot, WellKeyed, NoCollision;
    var ka, kb := SortedKeys(a.Keys), SortedKeys(b.Keys);
    SameLeafRoots(sha, a, b);
    assert |ka| == |kb|;
    forall i | 0 <= i < |ka|
      ensures ka[i] == kb[i] && ka[i] in a && kb[i] in b && a[ka[i]] == b[kb[i]]
    {
      SameLeafAt(sha, a, b, i);
    }
    assert ka == kb;
    SameByKeys(a, b, ka);
  }

  /**
   * Two states that have each applied a transition and have equal roots hold the same leaves, or a
   * collision is at hand. Values of any length are covered, although lengths are cut to 32 bits.
   */
  lemma StateRootBinding(sha: Sha, a: AccState, b: AccState)
    requires WellKeyed(a.leaves) && WellKeyed(b.leaves)
    requires a.root == ReferenceRoot(sha, a.leaves).root && b.root == ReferenceRoot(sha, b.leaves).root
    requires a.root == b.root
    ensures a == b || CollisionBetween(sha, ReferenceRoot(sha, a.leaves).inputs, ReferenceRoot(sha, b.leaves).inputs)
  {
    hide ReferenceRoot;
    var ia, ib := ReferenceRoot(sha, a.leaves).inputs, ReferenceRoot(sha, b.leaves).inputs;
    CollisionOrNone(sha, ia, ib);
    if NoCollision(sha, ia, ib) {
      SameLeaves(sha, a.leaves, b.leaves);
    }
  }

  /** The same for any two reachable states: a fresh one caches zero, which nothing is known to hash to. */
  lemma ReachableRootBinding(sha: Sha, a: AccState, b: AccState)
    requires ValidState(sha, a) && ValidState(sha, b) && a.root == b.root
    ensures || a.leaves == b.leaves
            || CollisionBetween(sha, ReferenceRoot(sha, a.leaves).inputs, ReferenceRoot(sha, b.leaves).inputs)
            || (a == FRESH && sha(RootInput(sha, b.leaves)) == ZERO_ROOT)
            || (b == FRESH && sha(RootInput(sha, a.leaves)) == ZERO_ROOT)
  {
    hide RootInput;
    if a != FRESH && b != FRESH {
      StateRootBinding(sha, a, b);
    }
  }

  // ----- Receipts root -----

  datatype ExecutionReceipt = ExecutionReceipt(statusCode: byte, output: seq<byte>)

  const RECEIPT_PREFIX: seq<byte> := Ascii("shell-execution/receipt-v1")
  const RECEIPTS_PREFIX: seq<byte> := Ascii("shell-execution/receipts-root-v1")

  function ReceiptInput(r: ExecutionReceipt): seq<byte>
  {
    RECEIPT_PREFIX + ([r.statusCode] + (Be(|r.output| % U64_LIMIT, 8) + r.output))
  }

  function ReceiptRoots(sha: Sha, rs: seq<ExecutionReceipt>): (roots: seq<Root>)
    ensures |roots| == |rs|
    ensures forall i :: 0 <= i < |rs| ==> roots[i] == sha(ReceiptInput(rs[i]))
  {
    if rs == [] then [] else [sha(ReceiptInput(rs[0]))] + ReceiptRoots(sha, rs[1..])
  }

  function ReceiptsInput(sha: Sha, rs: seq<ExecutionReceipt>): seq<byte>
  {
    RECEIPTS_PREFIX + (Be(|rs| % U64_LIMIT, 8) + Concat(ReceiptRoots(sha, rs)))
  }

  function ReceiptsRoot(sha: Sha, rs: seq<ExecutionReceipt>): Digest
  {
    Digest(sha(ReceiptsInput(sha, rs)), {ReceiptsInput(sha, rs)} + set i | 0 <= i < |rs| :: ReceiptInput(rs[i]))
  }

  /** What is hashed for a receipt: text, status, big-endian output length, output. */
  lemma ReceiptInputLayout(r: ExecutionReceipt)
    ensures var s := ReceiptInput(r);
            && |s| == 35 + |r.output| && StartsWith(s, "shell-execution/receipt-v1")
            && s[26] == r.statusCode && s[27..35] == Be(|r.output| % 0x1_0000_0000_0000_0000, 8) && s[35..] == r.output
  {
    AsciiText("shell-execution/receipt-v1");
    hide Ascii, Be;
    assert |"shell-execution/receipt-v1"| == 26;
    assert ReceiptInput(r)[26..] == [r.statusCode] + (Be(|r.output| % U64_LIMIT, 8) + r.output);
  }

  /** Text, an eight-byte big-endian count, and the rest. */
  lemma TextThenCount(text: string, n: nat, rest: seq<byte>)
    requires forall i :: 0 <= i < |text| ==> text[i] < 128 as char
    ensures var s, t := Ascii(text) + (Be(n, 8) + rest), |text|;
            |s| == t + 8 + |rest| && StartsWith(s, text) && s[t..t + 8] == Be(n, 8) && s[t + 8..] == rest
  {
    AsciiText(text);
    hide Ascii, Be;
    var s := Ascii(text) + (Be(n, 8) + rest);
    assert s[|text|..] == Be(n, 8) + rest;
  }

  lemma CountedRoots(text: string, n: nat, roots: seq<Root>, t: nat)
    requires t == |text| + 8 && forall i :: 0 <= i < |text| ==> text[i] < 128 as char
    ensures var s := Ascii(text) + (Be(n, 8) + Concat(roots));
            && |s| == t + 32 * |roots| && StartsWith(s, text) && s[t - 8..t] == Be(n, 8)
            && forall i :: 0 <= i < |roots| ==> s[t + 32 * i..t + 32 * i + 32] == roots[i]
  {
    TextThenCount(text, n, Concat(roots));
    hide Ascii, Be, StartsWith;
    assert Ascii(text) + (Be(n, 8) + Concat(roots)) == Ascii(text) + Be(n, 8) + Concat(roots);
    RootsAfter(Ascii(text) + Be(n, 8), roots, t);
  }

  /** What is hashed for a receipt list: text, big-endian count, the digest of each receipt in order. */
  lemma ReceiptsInputLayout(sha: Sha, rs: seq<ExecutionReceipt>)
    ensures var s := ReceiptsInput(sha, rs);
            && |s| == 40 + 32 * |rs| && StartsWith(s, "shell-execution/receipts-root-v1")
            && s[32..40] == Be(|rs| % 0x1_0000_0000_0000_0000, 8)
            && forall i :: 0 <= i < |rs| ==> s[40 + 32 * i..40 + 32 * i + 32] == sha(ReceiptInput(rs[i]))
    ensures ReceiptsRoot(sha, rs).root == sha(ReceiptsInput(sha, rs))
  {
    hide Ascii, Be, ReceiptInput, ReceiptRoots, StartsWith;
    CountedRoots("shell-execution/receipts-root-v1", |rs| % U64_LIMIT, ReceiptRoots(sha, rs), 40);
  }

  method ComputeReceiptsRoot(sha: Sha, rs: seq<ExecutionReceipt>) returns (root: Root)
    ensures root == ReceiptsRoot(sha, rs).root
  {
    hide Ascii, ReceiptInput, Be;
    ghost var roots := ReceiptRoots(sha, rs);
    var hasher := RECEIPTS_PREFIX;
    hasher := hasher + Be(|rs| % U64_LIMIT, 8);
    ghost var head := hasher;
    var i := 0;
    assert Concat(roots[..0]) == [];
    while i < |rs|
      invariant 0 <= i <= |rs|
      invariant hasher == head + Concat(roots[..i])
    {
      ConcatPrefix(roots, i);
      hasher := hasher + sha(ReceiptInput(rs[i]));
      i := i + 1;
    }
    assert roots[..i] == roots;
    assert head + Concat(roots) == ReceiptsInput(sha, rs);
    root := sha(hasher);
  }

  lemma ReceiptInputInjective(r: ExecutionReceipt, s: ExecutionReceipt)
    requires ReceiptInput(r) == ReceiptInput(s)
    ensures r == s
  {
    hide RECEIPT_PREFIX, Be;
    var rt, st := Be(|r.output| % U64_LIMIT, 8) + r.output, Be(|s.output| % U64_LIMIT, 8) + s.output;
    SplitEqual(RECEIPT_PREFIX, [r.statusCode] + rt, RECEIPT_PREFIX, [s.statusCode] + st);
    SplitEqual([r.statusCode], rt, [s.statusCode], st);
    assert [r.statusCode][0] == [s.statusCode][0];
    SplitEqual(Be(|r.output| % U64_LIMIT, 8), r.output, Be(|s.output| % U64_LIMIT, 8), s.output);
  }

  /** Equal receipts roots mean equal receipt lists, in order, or a collision. */
  lemma ReceiptsRootBinding(sha: Sha, a: seq<ExecutionReceipt>, b: seq<ExecutionReceipt>)
    requires ReceiptsRoot(sha, a).root == ReceiptsRoot(sha, b).root
    ensures a == b || CollisionBetween(sha, ReceiptsRoot(sha, a).inputs, ReceiptsRoot(sha, b).inputs)
  {
    hide ReceiptInput, RECEIPTS_PREFIX, Be;
    var ia, ib := ReceiptsRoot(sha, a).inputs, ReceiptsRoot(sha, b).inputs;
    CollisionOrNone(sha, ia, ib);
    if NoCollision(sha, ia, ib) {
      var ra, rb := ReceiptRoots(sha, a), ReceiptRoots(sha, b);
      Preimage(sha, ia, ib, ReceiptsInput(sha, a), ReceiptsInput(sha, b));
      var la, lb := Be(|a| % U64_LIMIT, 8), Be(|b| % U64_LIMIT, 8);
      SplitEqual(RECEIPTS_PREFIX, la + Concat(ra), RECEIPTS_PREFIX, lb + Concat(rb));
      SplitEqual(la, Concat(ra), lb, Concat(rb));
      ConcatRootsInjective(ra, rb);
      forall i | 0 <= i < |a|
        ensures a[i] == b[i]
      {
        Preimage(sha, ia, ib, ReceiptInput(a[i]), ReceiptInput(b[i]));
        ReceiptInputInjective(a[i], b[i]);
      }
    }
  }

  // ----- Execution witnesses root -----

  const WITNESSES_PREFIX: seq<byte> := Ascii("shell-fixtures/execution-witnesses-root/v1")

  function LengthBytes(n: nat): (s: seq<byte>)
    ensures |s| == 8
  {
    Be(n % U64_LIMIT, 8)
  }

  lemma LengthBytesInjective(m: nat, n: nat)
    requires m < U64_LIMIT && n < U64_LIMIT && LengthBytes(m) == LengthBytes(n)
    ensures m == n
  {
    hide Be;
    assert m % U64_LIMIT == m && n % U64_LIMIT == n;
    Pow256Values();
    BeInjective(m, n, 8);
  }

  function WitnessRecord(w: StateWitness): seq<byte>
  {
    var k := EncodeStateKey(w.key);
    LengthBytes(|k|) + (k + (LengthBytes(|w.leafValue|) + (w.leafValue + (LengthBytes(|w.proof|) + Concat(w.proof)))))
  }

  function WitnessRecords(ws: seq<StateWitness>): (s: seq<byte>)
  {
    if ws == [] then [] else WitnessRecord(ws[0]) + WitnessRecords(ws[1..])
  }

  function WitnessesInput(ws: seq<StateWitness>): seq<byte>
  {
    WITNESSES_PREFIX + (LengthBytes(|ws|) + WitnessRecords(ws))
  }

  function WitnessesRoot(sha: Sha, ws: seq<StateWitness>): Root
  {
    sha(WitnessesInput(ws))
  }

  /** One witness record, field by field: each length is eight big-endian bytes in front of its field. */
  lemma WitnessRecordLayout(w: StateWitness)
    ensures var s, k, v := WitnessRecord(w), |EncodeStateKey(w.key)|, |w.leafValue|;
            && |s| == RecordSize(w)
            && s[..8] == Be(k, 8) && s[8..8 + k] == EncodeStateKey(w.key)
            && s[8 + k..16 + k] == Be(v % 0x1_0000_0000_0000_0000, 8) && s[16 + k..16 + k + v] == w.leafValue
            && s[16 + k + v..24 + k + v] == Be(|w.proof| % 0x1_0000_0000_0000_0000, 8)
            && forall i :: 0 <= i < |w.proof| ==> s[24 + k + v + 32 * i..24 + k + v + 32 * i + 32] == w.proof[i]
  {
    hide EncodeStateKey, Be;
    var key, k, v := EncodeStateKey(w.key), |EncodeStateKey(w.key)|, |w.leafValue|;
    var head := LengthBytes(k) + key + LengthBytes(v) + w.leafValue + LengthBytes(|w.proof|);
    assert WitnessRecord(w) == head + Concat(w.proof);
    RootsAfter(head, w.proof, 24 + k + v);
  }

  function RecordSize(w: StateWitness): nat
  {
    24 + |EncodeStateKey(w.key)| + |w.leafValue| + 32 * |w.proof|
  }

  /** Where record i starts: after the sizes of those before it. */
  function RecordOffset(ws: seq<StateWitness>, i: nat): nat
    requires i <= |ws|
  {
    if i == 0 then 0 else RecordOffset(ws, i - 1) + RecordSize(ws[i - 1])
  }

  lemma {:induction false} WitnessRecordsTo(ws: seq<StateWitness>, i: nat)
    requires i <= |ws|
    ensures |WitnessRecords(ws[..i])| == RecordOffset(ws, i)
    ensures WitnessRecords(ws[..i]) <= WitnessRecords(ws)
  {
    hide WitnessRecord, RecordSize, WitnessRecords;
    RecordsConcat(ws[..i], ws[i..]);
    assert ws[..i] + ws[i..] == ws;
    if i > 0 {
      WitnessRecordsTo(ws, i - 1);
      assert ws[..i] == ws[..i - 1] + [ws[i - 1]];
      WitnessRecordsSnoc(ws[..i - 1], ws[i - 1]);
      WitnessRecordLayout(ws[i - 1]);
    } else {
      assert WitnessRecords(ws[..0]) == [] by { NoRecords(ws[..0]); }
    }
  }

  lemma NoRecords(ws: seq<StateWitness>)
    requires ws == []
    ensures WitnessRecords(ws) == []
  {
  }

  lemma {:induction false} RecordsConcat(a: seq<StateWitness>, b: seq<StateWitness>)
    ensures WitnessRecords(a + b) == WitnessRecords(a) + WitnessRecords(b)
  {
    hide WitnessRecord;
    if a == [] {
      assert a + b == b;
    } else {
      assert (a + b)[1..] == a[1..] + b;
      RecordsConcat(a[1..], b);
    }
  }

  /** What is hashed for a witness list: text, big-endian count, then the records. */
  lemma WitnessesInputLayout(sha: Sha, ws: seq<StateWitness>)
    ensures var s := WitnessesInput(ws);
            && |s| >= 50 && StartsWith(s, "shell-fixtures/execution-witnesses-root/v1")
            && s[42..50] == Be(|ws| % 0x1_0000_0000_0000_0000, 8) && s[50..] == WitnessRecords(ws)
    ensures WitnessesRoot(sha, ws) == sha(WitnessesInput(ws))
    ensures |WitnessRecords(ws)| == RecordOffset(ws, |ws|)
  {
    hide Ascii, Be, WitnessRecord, WitnessRecords, RecordSize, StartsWith;
    TextThenCount("shell-fixtures/execution-witnesses-root/v1", |ws| % U64_LIMIT, WitnessRecords(ws));
    assert ws[..|ws|] == ws;
    WitnessRecordsTo(ws, |ws|);
  }

  /** Record i stands where the records before it end. */
  lemma WitnessRecordAt(ws: seq<StateWitness>, i: nat)
    requires i < |ws|
    ensures RecordOffset(ws, i) + RecordSize(ws[i]) <= |WitnessRecords(ws)|
    ensures WitnessRecords(ws)[RecordOffset(ws, i)..RecordOffset(ws, i) + RecordSize(ws[i])] == WitnessRecord(ws[i])
  {
    hide WitnessRecord, RecordSize, WitnessRecords, RecordOffset, EncodeStateKey;
    WitnessRecordsTo(ws, i);
    WitnessRecordsTo(ws, i + 1);
    assert ws[..i + 1] == ws[..i] + [ws[i]];
    WitnessRecordsSnoc(ws[..i], ws[i]);
    SliceAfter(WitnessRecords(ws), WitnessRecords(ws[..i]), WitnessRecord(ws[i]));
    WitnessRecordLayout(ws[i]);
  }

  lemma SliceAfter(all: seq<byte>, before: seq<byte>, part: seq<byte>)
    requires before + part <= all
    ensures |before| + |part| <= |all| && all[|before|..|before| + |part|] == part
  {
    assert all[..|before| + |part|] == before + part;
    assert all[|before|..|before| + |part|] == all[..|before| + |part|][|before|..];
  }

  lemma {:induction false} WitnessRecordsSnoc(ws: seq<StateWitness>, w: StateWitness)
    ensures WitnessRecords(ws + [w]) == WitnessRecords(ws) + WitnessRecord(w)
  {
    hide WitnessRecord;
    if ws == [] {
      assert ws + [w] == [w];
      assert WitnessRecords([w][1..]) == [];
    } else {
      assert (ws + [w])[1..] == ws[1..] + [w];
      WitnessRecordsSnoc(ws[1..], w);
    }
  }

  /** Appends one witness to the hasher; the proof nodes go in one by one. */
  method HashWitness(hasher: seq<byte>, w: StateWitness) returns (out: seq<byte>)
    ensures out == hasher + WitnessRecord(w)
  {
    hide EncodeStateKey, LengthBytes;
    var k := EncodeStateKey(w.key);
    out := hasher + LengthBytes(|k|);
    out := out + k;
    out := out + LengthBytes(|w.leafValue|);
    out := out + w.leafValue;
    out := out + LengthBytes(|w.proof|);
    ghost var head := out;
    var i := 0;
    assert Concat(w.proof[..0]) == [];
    while i < |w.proof|
      invariant 0 <= i <= |w.proof|
      invariant out == head + Concat(w.proof[..i])
    {
      ConcatPrefix(w.proof, i);
      out := out + w.proof[i];
      i := i + 1;
    }
    assert w.proof[..i] == w.proof;
    assert head + Concat(w.proof) == hasher + WitnessRecord(w);
  }

  method ComputeExecutionWitnessesRoot(sha: Sha, ws: seq<StateWitness>) returns (root: Root)
    ensures root == WitnessesRoot(sha, ws)
  {
    hide WitnessRecord, LengthBytes, Ascii;
    var hasher := WITNESSES_PREFIX;
    hasher := hasher + LengthBytes(|ws|);
    ghost var head := hasher;
    var i := 0;
    assert WitnessRecords(ws[..0]) == [];
    while i < |ws|
      invariant 0 <= i <= |ws|
      invariant hasher == head + WitnessRecords(ws[..i])
    {
      WitnessRecordsSnoc(ws[..i], ws[i]);
      assert ws[..i + 1] == ws[..i] + [ws[i]];
      hasher := HashWitness(hasher, ws[i]);
      i := i + 1;
    }
    assert ws[..i] == ws;
    assert head + WitnessRecords(ws) == WitnessesInput(ws);
    root := sha(hasher);
  }

  /** Lengths are 64-bit on the way into the hasher, as they are in memory. */
  predicate LengthsFit(w: StateWitness)
  {
    |w.leafValue| < U64_LIMIT && |w.proof| < U64_LIMIT
  }

  predicate AllLengthsFit(ws: seq<StateWitness>)
  {
    |ws| < U64_LIMIT && forall i :: 0 <= i < |ws| ==> LengthsFit(ws[i])
  }

  /** A field behind its own length can be cut off the front of a stream in one way only. */
  lemma PrefixedSplit(a: seq<byte>, x: seq<byte>, b: seq<byte>, y: seq<byte>)
    requires |a| < U64_LIMIT && |b| < U64_LIMIT
    requires LengthBytes(|a|) + (a + x) == LengthBytes(|b|) + (b + y)
    ensures a == b && x == y
  {
    hide LengthBytes;
    SplitEqual(LengthBytes(|a|), a + x, LengthBytes(|b|), b + y);
    LengthBytesInjective(|a|, |b|);
    SplitEqual(a, x, b, y);
  }

  lemma PrefixedProofSplit(p: seq<Root>, x: seq<byte>, q: seq<Root>, y: seq<byte>)
    requires |p| < U64_LIMIT && |q| < U64_LIMIT
    requires LengthBytes(|p|) + (Concat(p) + x) == LengthBytes(|q|) + (Concat(q) + y)
    ensures p == q && x == y
  {
    hide LengthBytes;
    SplitEqual(LengthBytes(|p|), Concat(p) + x, LengthBytes(|q|), Concat(q) + y);
    LengthBytesInjective(|p|, |q|);
    ConcatRootsLength(p);
    ConcatRootsLength(q);
    SplitEqual(Concat(p), x, Concat(q), y);
    ConcatRootsInjective(p, q);
  }

  lemma RecordSplit(w: StateWitness, x: seq<byte>, v: StateWitness, y: seq<byte>)
    requires LengthsFit(w) && LengthsFit(v)
    requires WitnessRecord(w) + x == WitnessRecord(v) + y
    ensures w == v && x == y
  {
    hide EncodeStateKey, LengthBytes, Concat;
    var k, l := EncodeStateKey(w.key), EncodeStateKey(v.key);
    var w3, v3 := LengthBytes(|w.proof|) + (Concat(w.proof) + x), LengthBytes(|v.proof|) + (Concat(v.proof) + y);
    var w2, v2 := LengthBytes(|w.leafValue|) + (w.leafValue + w3), LengthBytes(|v.leafValue|) + (v.leafValue + v3);
    assert WitnessRecord(w) + x == LengthBytes(|k|) + (k + w2);
    assert WitnessRecord(v) + y == LengthBytes(|l|) + (l + v2);
    PrefixedSplit(k, w2, l, v2);
    PrefixedSplit(w.leafValue, w3, v.leafValue, v3);
    PrefixedProofSplit(w.proof, x, v.proof, y);
    EncodeInjective(w.key, v.key);
  }

  lemma {:induction false} RecordsParseUniquely(a: seq<StateWitness>, b: seq<StateWitness>)
    requires |a| == |b| && WitnessRecords(a) == WitnessRecords(b)
    requires forall i :: 0 <= i < |a| ==> LengthsFit(a[i]) && LengthsFit(b[i])
    ensures a == b
  {
    hide WitnessRecord;
    if a != [] {
      RecordSplit(a[0], WitnessRecords(a[1..]), b[0], WitnessRecords(b[1..]));
      RecordsParseUniquely(a[1..], b[1..]);
      assert a == [a[0]] + a[1..] && b == [b[0]] + b[1..];
    }
  }

  /** Equal witness roots mean the same witnesses in the same order, or a collision of the two streams. */
  lemma WitnessesRootBinding(sha: Sha, a: seq<StateWitness>, b: seq<StateWitness>)
    requires AllLengthsFit(a) && AllLengthsFit(b)
    requires WitnessesRoot(sha, a) == WitnessesRoot(sha, b)
    ensures a == b || WitnessesInput(a) != WitnessesInput(b)
    ensures a == b || CollisionBetween(sha, {WitnessesInput(a)}, {WitnessesInput(b)})
  {
    hide WITNESSES_PREFIX, LengthBytes, WitnessRecord;
    if WitnessesInput(a) == WitnessesInput(b) {
      SplitEqual(WITNESSES_PREFIX, LengthBytes(|a|) + WitnessRecords(a), WITNESSES_PREFIX, LengthBytes(|b|) + WitnessRecords(b));
      SplitEqual(LengthBytes(|a|), WitnessRecords(a), LengthBytes(|b|), WitnessRecords(b));
      LengthBytesInjective(|a|, |b|);
      RecordsParseUniquely(a, b);
    } else {
      assert WitnessesInput(a) in {WitnessesInput(a)} && WitnessesInput(b) in {WitnessesInput(b)};
    }
  }

  // ----- Transactions root -----

  const TRANSACTIONS_PREFIX: seq<byte> := Ascii("shell-fixtures/transactions-root/v1")

  function EnvelopeRoots(sha: Sha, txs: seq<Envelope>): (roots: seq<Root>)
    ensures |roots| == |txs|
  {
    hide EnvelopeRoot;
    if txs == [] then [] else [EnvelopeRoot(sha, txs[0]).root] + EnvelopeRoots(sha, txs[1..])
  }

  lemma {:induction false} EnvelopeRootAt(sha: Sha, txs: seq<Envelope>, i: nat)
    requires i < |txs|
    ensures EnvelopeRoots(sha, txs)[i] == EnvelopeRoot(sha, txs[i]).root
  {
    hide EnvelopeRoot;
    if i > 0 {
      EnvelopeRootAt(sha, txs[1..], i - 1);
    }
  }

  function TransactionsInput(sha: Sha, txs: seq<Envelope>): seq<byte>
  {
    TRANSACTIONS_PREFIX + (LengthBytes(|txs|) + Concat(EnvelopeRoots(sha, txs)))
  }

  function TransactionsRoot(sha: Sha, txs: seq<Envelope>): Digest
  {
    Digest(sha(TransactionsInput(sha, txs)),
           {TransactionsInput(sha, txs)} + set i, x | 0 <= i < |txs| && x in EnvelopeRoot(sha, txs[i]).inputs :: x)
  }

  /** What is hashed for a body: text, big-endian count, the root of each envelope in order. */
  lemma TransactionsInputLayout(sha: Sha, txs: seq<Envelope>)
    ensures var s := TransactionsInput(sha, txs);
            && |s| == 43 + 32 * |txs| && StartsWith(s, "shell-fixtures/transactions-root/v1")
            && s[35..43] == Be(|txs| % 0x1_0000_0000_0000_0000, 8)
            && forall i :: 0 <= i < |txs| ==> s[43 + 32 * i..43 + 32 * i + 32] == EnvelopeRoot(sha, txs[i]).root
    ensures TransactionsRoot(sha, txs).root == sha(TransactionsInput(sha, txs))
  {
    hide Ascii, Be, EnvelopeRoot, EnvelopeRoots, StartsWith;
    var roots := EnvelopeRoots(sha, txs);
    CountedRoots("shell-fixtures/transactions-root/v1", |txs| % U64_LIMIT, roots, 43);
    forall i | 0 <= i < |txs|
      ensures roots[i] == EnvelopeRoot(sha, txs[i]).root
    {
      EnvelopeRootAt(sha, txs, i);
    }
  }

  method ComputeTransactionsRoot(sha: Sha, txs: seq<Envelope>) returns (root: Root)
    ensures root == TransactionsRoot(sha, txs).root
  {
    hide EnvelopeRoot, LengthBytes, Ascii;
    ghost var roots := EnvelopeRoots(sha, txs);
    var hasher := TRANSACTIONS_PREFIX;
    hasher := hasher + LengthBytes(|txs|);
    ghost var head := hasher;
    var i := 0;
    assert Concat(roots[..0]) == [];
    while i < |txs|
      invariant 0 <= i <= |txs|
      invariant hasher == head + Concat(roots[..i])
    {
      ConcatPrefix(roots, i);
      EnvelopeRootAt(sha, txs, i);
      hasher := hasher + EnvelopeRoot(sha, txs[i]).root;
      i := i + 1;
    }
    assert roots[..i] == roots;
    assert head + Concat(roots) == TransactionsInput(sha, txs);
    root := sha(hasher);
  }

  /** From the root of a block body down to every field of every transaction. */
  lemma TransactionsRootBinding(sha: Sha, a: seq<Envelope>, b: seq<Envelope>)
    requires forall i :: 0 <= i < |a| ==> WithinLimits(a[i])
    requires forall i :: 0 <= i < |b| ==> Representable(b[i])
    requires TransactionsRoot(sha, a).root == TransactionsRoot(sha, b).root
    ensures a == b || CollisionBetween(sha, TransactionsRoot(sha, a).inputs, TransactionsRoot(sha, b).inputs)
  {
    hide EnvelopeRoot, TRANSACTIONS_PREFIX, LengthBytes, WithinLimits, Representable;
    var ia, ib := TransactionsRoot(sha, a).inputs, TransactionsRoot(sha, b).inputs;
    CollisionOrNone(sha, ia, ib);
    if NoCollision(sha, ia, ib) {
      var ra, rb := EnvelopeRoots(sha, a), EnvelopeRoots(sha, b);
      Preimage(sha, ia, ib, TransactionsInput(sha, a), TransactionsInput(sha, b));
      SplitEqual(TRANSACTIONS_PREFIX, LengthBytes(|a|) + Concat(ra), TRANSACTIONS_PREFIX, LengthBytes(|b|) + Concat(rb));
      SplitEqual(LengthBytes(|a|), Concat(ra), LengthBytes(|b|), Concat(rb));
      ConcatRootsInjective(ra, rb);
      forall i | 0 <= i < |a|
        ensures a[i] == b[i]
      {
        var ea, eb := EnvelopeRoot(sha, a[i]).inputs, EnvelopeRoot(sha, b[i]).inputs;
        EnvelopeRootAt(sha, a, i);
        EnvelopeRootAt(sha, b, i);
        Narrow(sha, ia, ib, ea, eb);
        CollisionOrNone(sha, ea, eb);
        EnvelopeBinding(sha, a[i], b[i]);
      }
    }
  }
}
