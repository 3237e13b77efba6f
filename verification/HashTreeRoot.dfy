/** Packing and container roots over merkleization, and the same roots on the dense reference. */
module HashTreeRoot {
  import opened Bytes
  import opened Transactions
  import opened Merkle

  const BYTE_LIST_LIMIT := 1_048_576
  const BYTE_CHUNK_LIMIT := 32_768
  const LIST_LIMIT := 8_192

  const DOMAIN_TX_SHELL: Bytes4 := [1, 0, 0, 0]
  const DOMAIN_VALIDATOR_MESSAGE: Bytes4 := [2, 0, 0, 0]

  // ----- Packing -----

  function PadRight(s: seq<byte>): (r: Root)
    requires |s| <= 32
    ensures r[..|s|] == s && forall i :: |s| <= i < 32 ==> r[i] == 0
  {
    s + Zeros(32 - |s|)
  }

  lemma PadRightInjective(a: seq<byte>, b: seq<byte>)
    requires |a| == |b| <= 32 && PadRight(a) == PadRight(b)
    ensures a == b
  {
    SplitEqual(a, Zeros(32 - |a|), b, Zeros(32 - |b|));
  }

  /** 32-byte chunks, the last one zero-padded. */
  function PackBytes(b: seq<byte>): (chunks: seq<Root>)
    ensures 32 * |chunks| - 32 < |b| <= 32 * |chunks| || (b == [] && chunks == [])
  {
    if b == [] then [] else [PadRight(b[..Min(32, |b|)])] + PackBytes(b[Min(32, |b|)..])
  }

  method PackBytesLoop(b: seq<byte>) returns (chunks: seq<Root>)
    ensures chunks == PackBytes(b)
  {
    chunks := [];
    var count := (|b| + 31) / 32;
    var i := 0;
    assert b[0..] == b && PackBytes(b[|b|..]) == [];
    hide PackBytes, PadRight;
    while i < count
      invariant 0 <= i <= count
      invariant chunks + PackBytes(b[Min(i * 32, |b|)..]) == PackBytes(b)
    {
      var start := i * 32;
      var end := Min(start + 32, |b|);
      var chunk := PadRight(b[start..end]);
      PackStep(b, chunks, start, end);
      chunks := chunks + [chunk];
      i := i + 1;
    }
  }

  lemma PackStep(b: seq<byte>, chunks: seq<Root>, start: nat, end: nat)
    requires start < |b| && end == Min(start + 32, |b|)
    ensures chunks + PackBytes(b[start..]) == chunks + [PadRight(b[start..end])] + PackBytes(b[end..])
  {
    var rest := b[start..];
    assert rest[..end - start] == b[start..end] && rest[end - start..] == b[end..];
  }

  lemma {:induction false} PackBytesInjective(a: seq<byte>, b: seq<byte>)
    requires |a| == |b| && PackBytes(a) == PackBytes(b)
    ensures a == b
  {
    if a != [] {
      var n := Min(32, |a|);
      assert PackBytes(a)[0] == PadRight(a[..n]) && PackBytes(b)[0] == PadRight(b[..n]);
      assert PackBytes(a)[1..] == PackBytes(a[n..]) && PackBytes(b)[1..] == PackBytes(b[n..]);
      PadRightInjective(a[..n], b[..n]);
      PackBytesInjective(a[n..], b[n..]);
      assert a == a[..n] + a[n..] && b == b[..n] + b[n..];
    }
  }

  /** The first k chunks depend on the first 32 k bytes only. */
  lemma {:induction false} PackPrefix(b: seq<byte>, k: nat)
    requires 32 * k <= |b|
    ensures |PackBytes(b)| >= k && PackBytes(b)[..k] == PackBytes(b[..32 * k])
  {
    if k > 0 {
      PackPrefix(b[32..], k - 1);
      assert b[32..][..32 * (k - 1)] == b[..32 * k][32..];
      assert b[..32 * k][..32] == b[..32];
    } else {
      assert PackBytes(b)[..0] == [];
    }
  }

  // ----- Roots -----

  function Including(d: Digest, inputs: set<seq<byte>>): Digest
  {
    Digest(d.root, d.inputs + inputs)
  }

  function U64Chunk(n: nat): Root
  {
    PadRight(Le(n % U64_LIMIT, 8))
  }

  function ByteChunk(b: byte): Root
  {
    PadRight([b])
  }

  function MixInLength(sha: Sha, d: Digest, length: nat): Digest
  {
    Pair(sha, d, Chunk(U64Chunk(length)))
  }

  function MixInSelector(sha: Sha, d: Digest, selector: byte): Digest
  {
    Pair(sha, d, Chunk(ByteChunk(selector)))
  }

  /** A container whose leaves were padded to a power of two is merkleized with exactly that limit. */
  function Container(sha: Sha, leaves: seq<Root>): Digest
  {
    Merkleize(sha, leaves, |leaves|)
  }

  function FeesLeaves(f: FeesPerGas): (leaves: seq<Root>)
    ensures |leaves| == 4
  {
    [f.regular, f.maxPriorityFee, f.maxWitnessPriorityFee, ZERO_ROOT]
  }

  function FeesRoot(sha: Sha, f: FeesPerGas): Digest
  {
    Container(sha, FeesLeaves(f))
  }

  function ByteListRoot(sha: Sha, b: seq<byte>): Digest
  {
    MixInLength(sha, Merkleize(sha, PackBytes(b), BYTE_CHUNK_LIMIT), |b|)
  }

  function PayloadData(p: Payload): seq<byte>
  {
    if p.Basic? then p.input else p.initcode
  }

  /** The eight leaves of a payload container; a creation has seven fields and one zero leaf. */
  function PayloadChunks(sha: Sha, p: Payload): (chunks: seq<Root>)
    ensures |chunks| == 8
  {
    var fees, data := FeesRoot(sha, p.fees).root, ByteListRoot(sha, PayloadData(p)).root;
    match p
    case Basic(chainId, nonce, gasLimit, _, to, value, _, commitment) =>
      [chainId, U64Chunk(nonce), U64Chunk(gasLimit), fees, PadRight(to), value, data, commitment]
    case Create(chainId, nonce, gasLimit, _, value, _, commitment) =>
      [chainId, U64Chunk(nonce), U64Chunk(gasLimit), fees, value, data, commitment, ZERO_ROOT]
  }

  function InnerRoot(sha: Sha, p: Payload): Digest
  {
    Including(Container(sha, PayloadChunks(sha, p)),
              FeesRoot(sha, p.fees).inputs + ByteListRoot(sha, PayloadData(p)).inputs)
  }

  function PayloadRoot(sha: Sha, p: Payload): Digest
  {
    MixInSelector(sha, InnerRoot(sha, p), ProtocolTag(p))
  }

  function AuthorizationLeaves(sha: Sha, a: Authorization): (leaves: seq<Root>)
    ensures |leaves| == 4
  {
    [ByteChunk(a.schemeId), a.payloadRoot, ByteListRoot(sha, a.signature).root, ZERO_ROOT]
  }

  function AuthorizationRoot(sha: Sha, a: Authorization): Digest
  {
    Including(Container(sha, AuthorizationLeaves(sha, a)), ByteListRoot(sha, a.signature).inputs)
  }

  function AuthorizationRoots(sha: Sha, auths: seq<Authorization>): (roots: seq<Root>)
    ensures |roots| == |auths|
  {
    hide AuthorizationRoot;
    if auths == [] then [] else [AuthorizationRoot(sha, auths[0]).root] + AuthorizationRoots(sha, auths[1..])
  }

  function AuthorizationInputs(sha: Sha, auths: seq<Authorization>): set<seq<byte>>
  {
    if auths == [] then {} else AuthorizationRoot(sha, auths[0]).inputs + AuthorizationInputs(sha, auths[1..])
  }

  function AuthorizationListRoot(sha: Sha, auths: seq<Authorization>): Digest
  {
    var tree := Merkleize(sha, AuthorizationRoots(sha, auths), LIST_LIMIT);
    MixInLength(sha, Including(tree, AuthorizationInputs(sha, auths)), |auths|)
  }

  function EnvelopeLeaves(sha: Sha, e: Envelope): (leaves: seq<Root>)
    ensures |leaves| == 2
  {
    [PayloadRoot(sha, e.payload).root, AuthorizationListRoot(sha, e.authorizations).root]
  }

  function EnvelopeRoot(sha: Sha, e: Envelope): Digest
  {
    Including(Container(sha, EnvelopeLeaves(sha, e)),
              PayloadRoot(sha, e.payload).inputs + AuthorizationListRoot(sha, e.authorizations).inputs)
  }

  function SigningRoot(sha: Sha, data: SigningData): Digest
  {
    Container(sha, [data.objectRoot, PadRight(data.domainType)])
  }

  // ----- What the roots are, on the dense reference -----

  /** Byte j of chunk i is byte 32 i + j of the input, or zero past its end. */
  lemma {:induction false} PackBytesAt(b: seq<byte>, i: nat, j: nat)
    requires i < |PackBytes(b)| && j < 32
    ensures PackBytes(b)[i][j] == if 32 * i + j < |b| then b[32 * i + j] else 0
    decreases i
  {
    var n := Min(32, |b|);
    if i == 0 {
      assert PadRight(b[..n])[j] == if j < n then b[j] else 0;
    } else {
      PackBytesAt(b[n..], i - 1, j);
    }
  }

  /** A byte list root: the dense tree of its chunks at depth 15, then its length as eight little-endian bytes. */
  lemma ByteListRootIsDense(sha: Sha, b: seq<byte>, d: nat)
    requires d == 15
    ensures ByteListRoot(sha, b).root ==
            sha(LevelByLevel(sha, Fitted(PackBytes(b), Pow2(d)), d) + PadRight(Le(|b| % 0x1_0000_0000_0000_0000, 8)))
    ensures |b| <= 1_048_576 ==> |PackBytes(b)| <= Pow2(d) == 32_768
  {
    hide Merkleize, LevelByLevel, Le, Fitted;
    Pow2Values();
    MerkleizeCorrect(sha, PackBytes(b), d);
  }

  /** Two levels of pairing, written out. */
  function Four(sha: Sha, a: Root, b: Root, c: Root, d: Root): Root
  {
    sha(sha(a + b) + sha(c + d))
  }

  lemma ContainerOfFour(sha: Sha, a: Root, b: Root, c: Root, d: Root)
    ensures Container(sha, [a, b, c, d]).root == Four(sha, a, b, c, d)
  {
    var all := [a, b, c, d];
    assert all[..2] == [a, b] && all[2..] == [c, d];
    assert Merkleize(sha, [a, b], 2).root == sha(a + b) by { ContainerOfTwo(sha, a, b); }
    assert Merkleize(sha, [c, d], 2).root == sha(c + d) by { ContainerOfTwo(sha, c, d); }
    hide Merkleize;
    Pow2Values();
    UnfoldRight(sha, all, 1);
  }

  lemma ContainerOfTwo(sha: Sha, a: Root, b: Root)
    ensures Merkleize(sha, [a, b], 2).root == sha(a + b)
  {
    assert [a, b][..1] == [a] && [a, b][1..] == [b];
  }

  lemma ContainerOfEight(sha: Sha, x: seq<Root>)
    requires |x| == 8
    ensures Container(sha, x).root == sha(Four(sha, x[0], x[1], x[2], x[3]) + Four(sha, x[4], x[5], x[6], x[7]))
  {
    var l, r := x[..4], x[4..];
    assert l == [x[0], x[1], x[2], x[3]] && r == [x[4], x[5], x[6], x[7]];
    ContainerOfFour(sha, x[0], x[1], x[2], x[3]);
    ContainerOfFour(sha, x[4], x[5], x[6], x[7]);
    hide Merkleize;
    Pow2Values();
    UnfoldRight(sha, x, 2);
  }

  /** The payload roots written out node by node, with a creation's eighth leaf zero. */
  lemma PayloadRootSpelledOut(sha: Sha, p: Payload)
    ensures var fees := Four(sha, p.fees.regular, p.fees.maxPriorityFee, p.fees.maxWitnessPriorityFee, ZERO_ROOT);
            var head := Four(sha, p.chainId, PadRight(Le(p.nonce, 8)), PadRight(Le(p.gasLimit, 8)), fees);
            var data := ByteListRoot(sha, if p.Basic? then p.input else p.initcode).root;
            PayloadRoot(sha, p).root ==
            if p.Basic? then sha(sha(head + Four(sha, PadRight(p.to), p.value, data, p.accessCommitment)) + PadRight([0]))
            else sha(sha(head + Four(sha, p.value, data, p.accessCommitment, ZERO_ROOT)) + PadRight([1]))
  {
    hide Merkleize, Le, ByteListRoot, Container, Four;
    ContainerOfFour(sha, p.fees.regular, p.fees.maxPriorityFee, p.fees.maxWitnessPriorityFee, ZERO_ROOT);
    ContainerOfEight(sha, PayloadChunks(sha, p));
  }

  /** Envelope and signing roots are single pairings: payload before authorizations, object before domain. */
  lemma PairRootsSpelledOut(sha: Sha, e: Envelope, r: Root, domain: Bytes4)
    ensures EnvelopeRoot(sha, e).root == sha(PayloadRoot(sha, e.payload).root + AuthorizationListRoot(sha, e.authorizations).root)
    ensures SigningRoot(sha, SigningData(r, domain)).root == sha(r + PadRight(domain))
  {
    hide PayloadRoot, AuthorizationListRoot;
    ContainerOfTwo(sha, PayloadRoot(sha, e.payload).root, AuthorizationListRoot(sha, e.authorizations).root);
    ContainerOfTwo(sha, r, PadRight(domain));
    hide Merkleize;
  }

  lemma {:induction false} AuthorizationAt(sha: Sha, auths: seq<Authorization>, i: nat)
    requires i < |auths|
    ensures AuthorizationRoots(sha, auths)[i] == AuthorizationRoot(sha, auths[i]).root
    ensures AuthorizationRoot(sha, auths[i]).inputs <= AuthorizationInputs(sha, auths)
  {
    hide AuthorizationRoot;
    if i > 0 {
      AuthorizationAt(sha, auths[1..], i - 1);
    }
  }

  lemma AuthorizationRootSpelledOut(sha: Sha, a: Authorization)
    ensures AuthorizationRoot(sha, a).root ==
            Four(sha, PadRight([a.schemeId]), a.payloadRoot, ByteListRoot(sha, a.signature).root, ZERO_ROOT)
  {
    hide Merkleize, ByteListRoot, Four;
    ContainerOfFour(sha, PadRight([a.schemeId]), a.payloadRoot, ByteListRoot(sha, a.signature).root, ZERO_ROOT);
  }

  /** An authorization list root: the dense tree of the element roots at depth 13, then the count. */
  lemma AuthorizationListRootIsDense(sha: Sha, auths: seq<Authorization>, d: nat)
    requires d == 13
    ensures AuthorizationListRoot(sha, auths).root ==
            sha(LevelByLevel(sha, Fitted(AuthorizationRoots(sha, auths), Pow2(d)), d) + PadRight(Le(|auths| % 0x1_0000_0000_0000_0000, 8)))
    ensures Pow2(d) == 8_192
    ensures forall i :: 0 <= i < |auths| ==>
              AuthorizationRoots(sha, auths)[i] == Four(sha, PadRight([auths[i].schemeId]), auths[i].payloadRoot, ByteListRoot(sha, auths[i].signature).root, ZERO_ROOT)
  {
    hide Merkleize, LevelByLevel, Le, Fitted, AuthorizationRoot, AuthorizationRoots, Four, ByteListRoot;
    Pow2Values();
    MerkleizeCorrect(sha, AuthorizationRoots(sha, auths), d);
    forall i | 0 <= i < |auths|
      ensures AuthorizationRoots(sha, auths)[i] ==
              Four(sha, PadRight([auths[i].schemeId]), auths[i].payloadRoot, ByteListRoot(sha, auths[i].signature).root, ZERO_ROOT)
    {
      AuthorizationAt(sha, auths, i);
      AuthorizationRootSpelledOut(sha, auths[i]);
    }
  }

  /** The zero leaves written explicitly by the container roots are what padding would have supplied. */
  lemma ExplicitZeroLeaves(sha: Sha, p: Payload, a: Authorization)
    ensures FeesRoot(sha, p.fees) == Merkleize(sha, [p.fees.regular, p.fees.maxPriorityFee, p.fees.maxWitnessPriorityFee], 4)
    ensures AuthorizationRoot(sha, a).root ==
            Merkleize(sha, [ByteChunk(a.schemeId), a.payloadRoot, ByteListRoot(sha, a.signature).root], 4).root
    ensures p.Create? ==> Container(sha, PayloadChunks(sha, p)) == Merkleize(sha, PayloadChunks(sha, p)[..7], 8)
  {
    hide Merkleize, ByteListRoot, FeesRoot;
    Pow2Values();
    var x := [p.fees.regular, p.fees.maxPriorityFee, p.fees.maxWitnessPriorityFee];
    ExplicitPadding(sha, x, 4, 2);
    assert Padded(x, 4) == x + [ZERO_ROOT];
    assert FeesRoot(sha, p.fees) == Container(sha, x + [ZERO_ROOT]) by { FeesRootIs(sha, p.fees); }
    var y := [ByteChunk(a.schemeId), a.payloadRoot, ByteListRoot(sha, a.signature).root];
    ExplicitPadding(sha, y, 4, 2);
    assert Padded(y, 4) == y + [ZERO_ROOT] == [y[0], y[1], y[2], ZERO_ROOT];
    if p.Create? {
      var z := PayloadChunks(sha, p);
      ExplicitPadding(sha, z[..7], 8, 3);
      assert Padded(z[..7], 8) == z;
    }
  }

  lemma FeesRootIs(sha: Sha, f: FeesPerGas)
    ensures FeesRoot(sha, f) == Container(sha, [f.regular, f.maxPriorityFee, f.maxWitnessPriorityFee] + [ZERO_ROOT])
  {
    hide Merkleize;
    assert [f.regular, f.maxPriorityFee, f.maxWitnessPriorityFee] + [ZERO_ROOT] == [f.regular, f.maxPriorityFee, f.maxWitnessPriorityFee, ZERO_ROOT];
  }
}
