/**
 * What equal roots say about the objects behind them: exactly what a root sees, binding within the
 * declared limits, and its failure past them.
 */
module RootBinding {
  import opened Bytes
  import opened Transactions
  import opened Merkle
  import opened HashTreeRoot

  // ----- Declared limits -----

  predicate PayloadWithinLimits(p: Payload)
  {
    |PayloadData(p)| <= BYTE_LIST_LIMIT
  }

  predicate AuthorizationsWithinLimits(auths: seq<Authorization>)
  {
    |auths| <= LIST_LIMIT && forall i :: 0 <= i < |auths| ==> |auths[i].signature| <= BYTE_LIST_LIMIT
  }

  predicate WithinLimits(e: Envelope)
  {
    PayloadWithinLimits(e.payload) && AuthorizationsWithinLimits(e.authorizations)
  }

  /** Every length fits the machine word it is held in. */
  predicate Representable(e: Envelope)
  {
    |PayloadData(e.payload)| < U64_LIMIT && RepresentableList(e.authorizations)
  }

  predicate RepresentableList(auths: seq<Authorization>)
  {
    |auths| < U64_LIMIT && forall i :: 0 <= i < |auths| ==> |auths[i].signature| < U64_LIMIT
  }

  // ----- What a root sees: lengths in full, contents up to the limits -----

  predicate SeesSameBytes(a: seq<byte>, b: seq<byte>)
  {
    |a| == |b| && a[..Min(|a|, BYTE_LIST_LIMIT)] == b[..Min(|b|, BYTE_LIST_LIMIT)]
  }

  function WithData(p: Payload, data: seq<byte>): (q: Payload)
    ensures PayloadData(q) == data && q.Basic? == p.Basic?
  {
    if p.Basic? then p.(input := data) else p.(initcode := data)
  }

  predicate SeesSamePayload(p: Payload, q: Payload)
  {
    q == WithData(p, PayloadData(q)) && SeesSameBytes(PayloadData(p), PayloadData(q))
  }

  predicate SeesSameAuthorization(a: Authorization, b: Authorization)
  {
    a.schemeId == b.schemeId && a.payloadRoot == b.payloadRoot && SeesSameBytes(a.signature, b.signature)
  }

  predicate SeesSameAuthorizations(a: seq<Authorization>, b: seq<Authorization>)
  {
    |a| == |b| && forall i :: 0 <= i < |a| && i < LIST_LIMIT ==> SeesSameAuthorization(a[i], b[i])
  }

  predicate SeesSame(e: Envelope, f: Envelope)
  {
    SeesSamePayload(e.payload, f.payload) && SeesSameAuthorizations(e.authorizations, f.authorizations)
  }

  // ----- Clashes: at one place of both trees, different pairs with one hash -----

  ghost predicate ContainerClash(sha: Sha, a: seq<Root>, b: seq<Root>)
    requires |a| == |b|
  {
    MerkleClash(sha, a, b, |a|)
  }

  ghost predicate ByteListClash(sha: Sha, a: seq<byte>, b: seq<byte>)
  {
    || NodeClash(sha, Merkleize(sha, PackBytes(a), BYTE_CHUNK_LIMIT).root, U64Chunk(|a|),
                 Merkleize(sha, PackBytes(b), BYTE_CHUNK_LIMIT).root, U64Chunk(|b|))
    || MerkleClash(sha, PackBytes(a), PackBytes(b), BYTE_CHUNK_LIMIT)
  }

  /** Leaf for leaf, payloads are compared only within one variant. */
  ghost predicate PayloadClash(sha: Sha, p: Payload, q: Payload)
  {
    || NodeClash(sha, InnerRoot(sha, p).root, ByteChunk(ProtocolTag(p)), InnerRoot(sha, q).root, ByteChunk(ProtocolTag(q)))
    || (p.Basic? == q.Basic? &&
        (|| ContainerClash(sha, PayloadChunks(sha, p), PayloadChunks(sha, q))
         || ContainerClash(sha, FeesLeaves(p.fees), FeesLeaves(q.fees))
         || ByteListClash(sha, PayloadData(p), PayloadData(q))))
  }

  ghost predicate AuthorizationClash(sha: Sha, a: Authorization, b: Authorization)
  {
    || ContainerClash(sha, AuthorizationLeaves(sha, a), AuthorizationLeaves(sha, b))
    || ByteListClash(sha, a.signature, b.signature)
  }

  ghost predicate AuthorizationListClash(sha: Sha, a: seq<Authorization>, b: seq<Authorization>)
  {
    var ra, rb := AuthorizationRoots(sha, a), AuthorizationRoots(sha, b);
    || NodeClash(sha, Merkleize(sha, ra, LIST_LIMIT).root, U64Chunk(|a|), Merkleize(sha, rb, LIST_LIMIT).root, U64Chunk(|b|))
    || MerkleClash(sha, ra, rb, LIST_LIMIT)
    || exists i :: 0 <= i < |a| && i < |b| && i < LIST_LIMIT && AuthorizationClash(sha, a[i], b[i])
  }

  ghost predicate EnvelopeClash(sha: Sha, e: Envelope, f: Envelope)
  {
    || ContainerClash(sha, EnvelopeLeaves(sha, e), EnvelopeLeaves(sha, f))
    || PayloadClash(sha, e.payload, f.payload)
    || AuthorizationListClash(sha, e.authorizations, f.authorizations)
  }

  // ----- A clash is a collision between strings that were hashed -----

  lemma ContainerClashLogged(sha: Sha, a: seq<Root>, b: seq<Root>, x: set<seq<byte>>, y: set<seq<byte>>)
    requires |a| == |b| && ContainerClash(sha, a, b)
    requires Container(sha, a).inputs <= x && Container(sha, b).inputs <= y
    ensures CollisionBetween(sha, x, y)
  {
    MerkleClashLogged(sha, a, b, |a|);
    Widen(sha, Container(sha, a).inputs, Container(sha, b).inputs, x, y);
  }

  lemma ByteListClashLogged(sha: Sha, a: seq<byte>, b: seq<byte>)
    requires ByteListClash(sha, a, b)
    ensures CollisionBetween(sha, ByteListRoot(sha, a).inputs, ByteListRoot(sha, b).inputs)
  {
    hide Merkleize, U64Chunk, PackBytes, MerkleClash, CollisionBetween;
    var ta, tb := Merkleize(sha, PackBytes(a), BYTE_CHUNK_LIMIT), Merkleize(sha, PackBytes(b), BYTE_CHUNK_LIMIT);
    if MerkleClash(sha, PackBytes(a), PackBytes(b), BYTE_CHUNK_LIMIT) {
      MerkleClashLogged(sha, PackBytes(a), PackBytes(b), BYTE_CHUNK_LIMIT);
    }
    PairClashLogged(sha, ta, Chunk(U64Chunk(|a|)), tb, Chunk(U64Chunk(|b|)));
  }

  lemma PayloadClashLogged(sha: Sha, p: Payload, q: Payload)
    requires PayloadClash(sha, p, q)
    ensures CollisionBetween(sha, PayloadRoot(sha, p).inputs, PayloadRoot(sha, q).inputs)
  {
    hide Merkleize, ByteListRoot, PayloadChunks, ByteChunk, ByteListClash, ContainerClash, NodeClash, CollisionBetween;
    var x, y := InnerRoot(sha, p), InnerRoot(sha, q);
    if p.Basic? == q.Basic? {
      if ContainerClash(sha, PayloadChunks(sha, p), PayloadChunks(sha, q)) {
        ContainerClashLogged(sha, PayloadChunks(sha, p), PayloadChunks(sha, q), x.inputs, y.inputs);
      } else if ContainerClash(sha, FeesLeaves(p.fees), FeesLeaves(q.fees)) {
        ContainerClashLogged(sha, FeesLeaves(p.fees), FeesLeaves(q.fees), x.inputs, y.inputs);
      } else if ByteListClash(sha, PayloadData(p), PayloadData(q)) {
        ByteListClashLogged(sha, PayloadData(p), PayloadData(q));
        Widen(sha, ByteListRoot(sha, PayloadData(p)).inputs, ByteListRoot(sha, PayloadData(q)).inputs, x.inputs, y.inputs);
      }
    }
    PairClashLogged(sha, x, Chunk(ByteChunk(ProtocolTag(p))), y, Chunk(ByteChunk(ProtocolTag(q))));
  }

  lemma AuthorizationClashLogged(sha: Sha, a: Authorization, b: Authorization)
    requires AuthorizationClash(sha, a, b)
    ensures CollisionBetween(sha, AuthorizationRoot(sha, a).inputs, AuthorizationRoot(sha, b).inputs)
  {
    hide Merkleize, ByteListRoot, ByteListClash, ContainerClash, CollisionBetween, AuthorizationLeaves;
    var x, y := AuthorizationRoot(sha, a).inputs, AuthorizationRoot(sha, b).inputs;
    if ByteListClash(sha, a.signature, b.signature) {
      ByteListClashLogged(sha, a.signature, b.signature);
      Widen(sha, ByteListRoot(sha, a.signature).inputs, ByteListRoot(sha, b.signature).inputs, x, y);
    } else {
      ContainerClashLogged(sha, AuthorizationLeaves(sha, a), AuthorizationLeaves(sha, b), x, y);
    }
  }

  lemma AuthorizationListClashLogged(sha: Sha, a: seq<Authorization>, b: seq<Authorization>)
    requires AuthorizationListClash(sha, a, b)
    ensures CollisionBetween(sha, AuthorizationListRoot(sha, a).inputs, AuthorizationListRoot(sha, b).inputs)
  {
    hide Merkleize, AuthorizationRoot, U64Chunk, MerkleClash, NodeClash, CollisionBetween, AuthorizationClash;
    var ra, rb := AuthorizationRoots(sha, a), AuthorizationRoots(sha, b);
    var ta := Including(Merkleize(sha, ra, LIST_LIMIT), AuthorizationInputs(sha, a));
    var tb := Including(Merkleize(sha, rb, LIST_LIMIT), AuthorizationInputs(sha, b));
    if MerkleClash(sha, ra, rb, LIST_LIMIT) {
      MerkleClashLogged(sha, ra, rb, LIST_LIMIT);
      Widen(sha, Merkleize(sha, ra, LIST_LIMIT).inputs, Merkleize(sha, rb, LIST_LIMIT).inputs, ta.inputs, tb.inputs);
    } else if i :| 0 <= i < |a| && i < |b| && i < LIST_LIMIT && AuthorizationClash(sha, a[i], b[i]) {
      AuthorizationAt(sha, a, i);
      AuthorizationAt(sha, b, i);
      AuthorizationClashLogged(sha, a[i], b[i]);
      Widen(sha, AuthorizationRoot(sha, a[i]).inputs, AuthorizationRoot(sha, b[i]).inputs, ta.inputs, tb.inputs);
    }
    PairClashLogged(sha, ta, Chunk(U64Chunk(|a|)), tb, Chunk(U64Chunk(|b|)));
  }

  lemma EnvelopeClashLogged(sha: Sha, e: Envelope, f: Envelope)
    requires EnvelopeClash(sha, e, f)
    ensures CollisionBetween(sha, EnvelopeRoot(sha, e).inputs, EnvelopeRoot(sha, f).inputs)
  {
    hide Merkleize, PayloadRoot, AuthorizationListRoot, EnvelopeLeaves, ContainerClash, PayloadClash, AuthorizationListClash, CollisionBetween;
    var x, y := EnvelopeRoot(sha, e).inputs, EnvelopeRoot(sha, f).inputs;
    if PayloadClash(sha, e.payload, f.payload) {
      PayloadClashLogged(sha, e.payload, f.payload);
      Widen(sha, PayloadRoot(sha, e.payload).inputs, PayloadRoot(sha, f.payload).inputs, x, y);
    } else if AuthorizationListClash(sha, e.authorizations, f.authorizations) {
      AuthorizationListClashLogged(sha, e.authorizations, f.authorizations);
      Widen(sha, AuthorizationListRoot(sha, e.authorizations).inputs, AuthorizationListRoot(sha, f.authorizations).inputs, x, y);
    } else {
      ContainerClashLogged(sha, EnvelopeLeaves(sha, e), EnvelopeLeaves(sha, f), x, y);
    }
  }

  // ----- Equal roots, exactly -----

  lemma ContainerBinding(sha: Sha, a: seq<Root>, b: seq<Root>, d: nat)
    requires |a| == |b| == Pow2(d)
    requires Container(sha, a).root == Container(sha, b).root && !ContainerClash(sha, a, b)
    ensures a == b
  {
    FittedBinding(sha, a, b, d);
    assert Padded(a, |a|) == a && Padded(b, |b|) == b;
  }

  lemma LeChunkInjective(m: nat, n: nat, k: nat)
    requires k <= 32 && m < Pow256(k) && n < Pow256(k)
    requires PadRight(Le(m, k)) == PadRight(Le(n, k))
    ensures m == n
  {
    PadRightInjective(Le(m, k), Le(n, k));
    LeInjective(m, n, k);
  }

  lemma U64ChunkInjective(m: nat, n: nat)
    requires m < U64_LIMIT && n < U64_LIMIT && U64Chunk(m) == U64Chunk(n)
    ensures m == n
  {
    assert m % U64_LIMIT == m && n % U64_LIMIT == n;
    Pow256Values();
    LeChunkInjective(m, n, 8);
  }

  lemma FittedChunks(b: seq<byte>)
    ensures Fitted(PackBytes(b), BYTE_CHUNK_LIMIT) == Fitted(PackBytes(b[..Min(|b|, BYTE_LIST_LIMIT)]), BYTE_CHUNK_LIMIT)
  {
    hide PackBytes;
    if |b| <= BYTE_LIST_LIMIT {
      assert b[..|b|] == b;
    } else {
      PackPrefix(b, BYTE_CHUNK_LIMIT);
      var kept := PackBytes(b[..BYTE_LIST_LIMIT]);
      assert Padded(kept, BYTE_CHUNK_LIMIT) == kept;
    }
  }

  /** Merkleization sees the same chunks exactly when lists of one length agree up to the limit. */
  lemma SameChunks(a: seq<byte>, b: seq<byte>)
    requires |a| == |b|
    ensures Fitted(PackBytes(a), BYTE_CHUNK_LIMIT) == Fitted(PackBytes(b), BYTE_CHUNK_LIMIT) <==> SeesSameBytes(a, b)
  {
    hide PackBytes;
    FittedChunks(a);
    FittedChunks(b);
    var n := Min(|a|, BYTE_LIST_LIMIT);
    if Fitted(PackBytes(a), BYTE_CHUNK_LIMIT) == Fitted(PackBytes(b), BYTE_CHUNK_LIMIT) {
      var x, y := PackBytes(a[..n]), PackBytes(b[..n]);
      assert |x| == |y| <= BYTE_CHUNK_LIMIT;
      assert x == Padded(x, BYTE_CHUNK_LIMIT)[..|x|] && y == Padded(y, BYTE_CHUNK_LIMIT)[..|y|];
      PackBytesInjective(a[..n], b[..n]);
    }
  }

  lemma ByteListSeen(sha: Sha, a: seq<byte>, b: seq<byte>, d: nat)
    requires SeesSameBytes(a, b) && Pow2(d) == BYTE_CHUNK_LIMIT
    ensures ByteListRoot(sha, a) == ByteListRoot(sha, b) && !ByteListClash(sha, a, b)
  {
    hide Merkleize, MerkleClash, Fitted, PackBytes, U64Chunk;
    SameChunks(a, b);
    MerkleizeIsFitted(sha, PackBytes(a), d);
    MerkleizeIsFitted(sha, PackBytes(b), d);
    FittedNoClash(sha, PackBytes(a), PackBytes(b), BYTE_CHUNK_LIMIT);
  }

  /** Equal byte list roots without a clash: exactly when length and contents up to the limit agree. */
  lemma ByteListExact(sha: Sha, a: seq<byte>, b: seq<byte>)
    requires |a| < U64_LIMIT && |b| < U64_LIMIT
    ensures ByteListRoot(sha, a).root == ByteListRoot(sha, b).root && !ByteListClash(sha, a, b) <==> SeesSameBytes(a, b)
  {
    hide Merkleize, MerkleClash, Fitted, PackBytes, U64Chunk, NodeClash, SeesSameBytes;
    Pow2Values();
    if SeesSameBytes(a, b) {
      ByteListSeen(sha, a, b, 15);
    }
    if ByteListRoot(sha, a).root == ByteListRoot(sha, b).root && !ByteListClash(sha, a, b) {
      var ta, tb := Merkleize(sha, PackBytes(a), BYTE_CHUNK_LIMIT), Merkleize(sha, PackBytes(b), BYTE_CHUNK_LIMIT);
      NodeBinding(sha, ta.root, U64Chunk(|a|), tb.root, U64Chunk(|b|));
      U64ChunkInjective(|a|, |b|);
      FittedBinding(sha, PackBytes(a), PackBytes(b), 15);
      SameChunks(a, b);
    }
  }

  lemma FeesBinding(sha: Sha, a: FeesPerGas, b: FeesPerGas)
    requires FeesRoot(sha, a).root == FeesRoot(sha, b).root && !ContainerClash(sha, FeesLeaves(a), FeesLeaves(b))
    ensures a == b
  {
    hide Merkleize, MerkleClash;
    Pow2Values();
    var x, y := FeesLeaves(a), FeesLeaves(b);
    ContainerBinding(sha, x, y, 2);
    assert x[0] == y[0] && x[1] == y[1] && x[2] == y[2];
  }

  lemma SamePayload(sha: Sha, a: Payload, b: Payload)
    requires a.Basic? == b.Basic? && a.fees == b.fees
    requires PayloadChunks(sha, a) == PayloadChunks(sha, b)
    ensures b == WithData(a, PayloadData(b))
  {
    hide ByteListRoot, FeesRoot, U64Chunk;
    var x, y := PayloadChunks(sha, a), PayloadChunks(sha, b);
    assert x[0] == y[0] && x[1] == y[1] && x[2] == y[2];
    U64ChunkInjective(a.nonce, b.nonce);
    U64ChunkInjective(a.gasLimit, b.gasLimit);
    if a.Basic? {
      assert x[4] == y[4] && x[5] == y[5] && x[7] == y[7];
      PadRightInjective(a.to, b.to);
    } else {
      assert x[4] == y[4] && x[6] == y[6];
    }
  }

  lemma PayloadSeen(sha: Sha, p: Payload, q: Payload)
    requires SeesSamePayload(p, q)
    ensures PayloadRoot(sha, p) == PayloadRoot(sha, q) && !PayloadClash(sha, p, q)
  {
    hide Merkleize, ByteListRoot, U64Chunk, FeesRoot, MerkleClash, ByteListClash, SeesSameBytes;
    Pow2Values();
    ByteListSeen(sha, PayloadData(p), PayloadData(q), 15);
    assert PayloadChunks(sha, p) == PayloadChunks(sha, q);
    FittedNoClash(sha, PayloadChunks(sha, p), PayloadChunks(sha, q), 8);
    FittedNoClash(sha, FeesLeaves(p.fees), FeesLeaves(q.fees), 4);
  }

  lemma InnerBinding(sha: Sha, p: Payload, q: Payload)
    requires |PayloadData(p)| < U64_LIMIT && |PayloadData(q)| < U64_LIMIT
    requires p.Basic? == q.Basic? && InnerRoot(sha, p).root == InnerRoot(sha, q).root && !PayloadClash(sha, p, q)
    ensures SeesSamePayload(p, q)
  {
    hide Merkleize, U64Chunk, ByteListRoot, FeesRoot, MerkleClash, ByteListClash, NodeClash, ContainerClash, SeesSameBytes;
    Pow2Values();
    var x, y := PayloadChunks(sha, p), PayloadChunks(sha, q);
    ContainerBinding(sha, x, y, 3);
    assert x[3] == y[3] && (if p.Basic? then x[6] == y[6] else x[5] == y[5]);
    FeesBinding(sha, p.fees, q.fees);
    ByteListExact(sha, PayloadData(p), PayloadData(q));
    SamePayload(sha, p, q);
  }

  /** Equal payload roots without a clash: exactly when all fields agree, the data up to its limit. */
  lemma PayloadExact(sha: Sha, p: Payload, q: Payload)
    requires |PayloadData(p)| < U64_LIMIT && |PayloadData(q)| < U64_LIMIT
    ensures PayloadRoot(sha, p).root == PayloadRoot(sha, q).root && !PayloadClash(sha, p, q) <==> SeesSamePayload(p, q)
  {
    hide InnerRoot, SeesSamePayload, NodeClash, PadRight, ContainerClash, ByteListClash;
    if SeesSamePayload(p, q) {
      PayloadSeen(sha, p, q);
    }
    if PayloadRoot(sha, p).root == PayloadRoot(sha, q).root && !PayloadClash(sha, p, q) {
      NodeBinding(sha, InnerRoot(sha, p).root, ByteChunk(ProtocolTag(p)), InnerRoot(sha, q).root, ByteChunk(ProtocolTag(q)));
      PadRightInjective([ProtocolTag(p)], [ProtocolTag(q)]);
      assert [ProtocolTag(p)][0] == [ProtocolTag(q)][0];
      InnerBinding(sha, p, q);
    }
  }

  lemma AuthorizationSeen(sha: Sha, a: Authorization, b: Authorization)
    requires SeesSameAuthorization(a, b)
    ensures AuthorizationRoot(sha, a) == AuthorizationRoot(sha, b) && !AuthorizationClash(sha, a, b)
  {
    hide Merkleize, ByteListRoot, MerkleClash, ByteListClash, SeesSameBytes;
    Pow2Values();
    ByteListSeen(sha, a.signature, b.signature, 15);
    FittedNoClash(sha, AuthorizationLeaves(sha, a), AuthorizationLeaves(sha, b), 4);
  }

  lemma AuthorizationBinding(sha: Sha, a: Authorization, b: Authorization)
    requires |a.signature| < U64_LIMIT && |b.signature| < U64_LIMIT
    requires AuthorizationRoot(sha, a).root == AuthorizationRoot(sha, b).root && !AuthorizationClash(sha, a, b)
    ensures SeesSameAuthorization(a, b)
  {
    hide Merkleize, ByteListRoot, MerkleClash, ByteListClash, ContainerClash, SeesSameBytes;
    Pow2Values();
    var x, y := AuthorizationLeaves(sha, a), AuthorizationLeaves(sha, b);
    ContainerBinding(sha, x, y, 2);
    assert x[0] == y[0] && x[1] == y[1] && x[2] == y[2];
    PadRightInjective([a.schemeId], [b.schemeId]);
    assert [a.schemeId][0] == [b.schemeId][0];
    ByteListExact(sha, a.signature, b.signature);
  }

  lemma AuthorizationListSeen(sha: Sha, a: seq<Authorization>, b: seq<Authorization>, d: nat)
    requires SeesSameAuthorizations(a, b) && Pow2(d) == LIST_LIMIT
    ensures AuthorizationListRoot(sha, a).root == AuthorizationListRoot(sha, b).root && !AuthorizationListClash(sha, a, b)
  {
    hide Merkleize, AuthorizationRoot, U64Chunk, MerkleClash, AuthorizationClash, SeesSameAuthorization, AuthorizationRoots;
    var ra, rb := AuthorizationRoots(sha, a), AuthorizationRoots(sha, b);
    forall i | 0 <= i < |a| && i < LIST_LIMIT
      ensures ra[i] == rb[i] && !AuthorizationClash(sha, a[i], b[i])
    {
      AuthorizationAt(sha, a, i);
      AuthorizationAt(sha, b, i);
      AuthorizationSeen(sha, a[i], b[i]);
    }
    assert Fitted(ra, LIST_LIMIT) == Fitted(rb, LIST_LIMIT);
    MerkleizeIsFitted(sha, ra, d);
    MerkleizeIsFitted(sha, rb, d);
    FittedNoClash(sha, ra, rb, LIST_LIMIT);
  }

  lemma AuthorizationsSeen(sha: Sha, a: seq<Authorization>, b: seq<Authorization>)
    requires RepresentableList(a) && RepresentableList(b) && |a| == |b|
    requires Fitted(AuthorizationRoots(sha, a), LIST_LIMIT) == Fitted(AuthorizationRoots(sha, b), LIST_LIMIT)
    requires !AuthorizationListClash(sha, a, b)
    ensures SeesSameAuthorizations(a, b)
  {
    hide Merkleize, AuthorizationRoot, U64Chunk, MerkleClash, NodeClash, AuthorizationClash, SeesSameAuthorization, AuthorizationRoots;
    var ra, rb := AuthorizationRoots(sha, a), AuthorizationRoots(sha, b);
    forall i | 0 <= i < |a| && i < LIST_LIMIT
      ensures SeesSameAuthorization(a[i], b[i])
    {
      AuthorizationAt(sha, a, i);
      AuthorizationAt(sha, b, i);
      assert Fitted(ra, LIST_LIMIT)[i] == ra[i] && Fitted(rb, LIST_LIMIT)[i] == rb[i];
      AuthorizationBinding(sha, a[i], b[i]);
    }
  }

  /** Equal list roots without a clash: exactly when the counts and the first 8192 entries agree. */
  lemma AuthorizationListExact(sha: Sha, a: seq<Authorization>, b: seq<Authorization>)
    requires RepresentableList(a) && RepresentableList(b)
    ensures AuthorizationListRoot(sha, a).root == AuthorizationListRoot(sha, b).root && !AuthorizationListClash(sha, a, b)
            <==> SeesSameAuthorizations(a, b)
  {
    hide Merkleize, U64Chunk, AuthorizationRoot, AuthorizationRoots, MerkleClash, NodeClash, AuthorizationClash, SeesSameAuthorizations;
    Pow2Values();
    if SeesSameAuthorizations(a, b) {
      AuthorizationListSeen(sha, a, b, 13);
    }
    if AuthorizationListRoot(sha, a).root == AuthorizationListRoot(sha, b).root && !AuthorizationListClash(sha, a, b) {
      var ra, rb := AuthorizationRoots(sha, a), AuthorizationRoots(sha, b);
      NodeBinding(sha, Merkleize(sha, ra, LIST_LIMIT).root, U64Chunk(|a|), Merkleize(sha, rb, LIST_LIMIT).root, U64Chunk(|b|));
      U64ChunkInjective(|a|, |b|);
      FittedBinding(sha, ra, rb, 13);
      AuthorizationsSeen(sha, a, b);
    }
  }

  lemma EnvelopeSeen(sha: Sha, e: Envelope, f: Envelope)
    requires SeesSame(e, f)
    ensures EnvelopeRoot(sha, e).root == EnvelopeRoot(sha, f).root && !EnvelopeClash(sha, e, f)
  {
    hide Merkleize, PayloadRoot, AuthorizationListRoot, MerkleClash, PayloadClash, AuthorizationListClash,
         SeesSamePayload, SeesSameAuthorizations;
    Pow2Values();
    PayloadSeen(sha, e.payload, f.payload);
    AuthorizationListSeen(sha, e.authorizations, f.authorizations, 13);
    FittedNoClash(sha, EnvelopeLeaves(sha, e), EnvelopeLeaves(sha, f), 2);
  }

  /** Equal envelope roots without a clash: exactly when the envelopes agree in everything a root sees. */
  lemma EnvelopeExact(sha: Sha, e: Envelope, f: Envelope)
    requires Representable(e) && Representable(f)
    ensures EnvelopeRoot(sha, e).root == EnvelopeRoot(sha, f).root && !EnvelopeClash(sha, e, f) <==> SeesSame(e, f)
  {
    hide Merkleize, PayloadRoot, AuthorizationListRoot, ContainerClash, PayloadClash, AuthorizationListClash,
         SeesSamePayload, SeesSameAuthorizations, RepresentableList;
    if SeesSame(e, f) {
      EnvelopeSeen(sha, e, f);
    }
    if EnvelopeRoot(sha, e).root == EnvelopeRoot(sha, f).root && !EnvelopeClash(sha, e, f) {
      Pow2Values();
      var x, y := EnvelopeLeaves(sha, e), EnvelopeLeaves(sha, f);
      ContainerBinding(sha, x, y, 1);
      assert x[0] == y[0] && x[1] == y[1];
      PayloadExact(sha, e.payload, f.payload);
      AuthorizationListExact(sha, e.authorizations, f.authorizations);
    }
  }

  // ----- Binding within the limits -----

  lemma Narrow(sha: Sha, a: set<seq<byte>>, b: set<seq<byte>>, a': set<seq<byte>>, b': set<seq<byte>>)
    requires NoCollision(sha, a, b) && a' <= a && b' <= b
    ensures NoCollision(sha, a', b')
  {
  }

  lemma SameBytesWithinLimit(a: seq<byte>, b: seq<byte>)
    requires SeesSameBytes(a, b) && |a| <= BYTE_LIST_LIMIT
    ensures a == b
  {
    assert a[..|a|] == a && b[..|b|] == b;
  }

  lemma SameAuthorizationsWithinLimits(a: seq<Authorization>, b: seq<Authorization>)
    requires SeesSameAuthorizations(a, b) && AuthorizationsWithinLimits(a)
    ensures a == b
  {
    forall i | 0 <= i < |a|
      ensures a[i] == b[i]
    {
      SameBytesWithinLimit(a[i].signature, b[i].signature);
    }
  }

  lemma ByteListBinding(sha: Sha, a: seq<byte>, b: seq<byte>)
    requires |a| <= BYTE_LIST_LIMIT && |b| < U64_LIMIT
    requires NoCollision(sha, ByteListRoot(sha, a).inputs, ByteListRoot(sha, b).inputs)
    requires ByteListRoot(sha, a).root == ByteListRoot(sha, b).root
    ensures a == b
  {
    hide ByteListRoot, ByteListClash;
    CollisionOrNone(sha, ByteListRoot(sha, a).inputs, ByteListRoot(sha, b).inputs);
    if ByteListClash(sha, a, b) {
      ByteListClashLogged(sha, a, b);
    }
    ByteListExact(sha, a, b);
    SameBytesWithinLimit(a, b);
  }

  /** Equal payload roots without a collision mean equal payloads, across both variants. */
  lemma PayloadBinding(sha: Sha, a: Payload, b: Payload)
    requires PayloadWithinLimits(a) && |PayloadData(b)| < U64_LIMIT
    requires NoCollision(sha, PayloadRoot(sha, a).inputs, PayloadRoot(sha, b).inputs)
    requires PayloadRoot(sha, a).root == PayloadRoot(sha, b).root
    ensures a == b
  {
    hide PayloadRoot, PayloadClash;
    CollisionOrNone(sha, PayloadRoot(sha, a).inputs, PayloadRoot(sha, b).inputs);
    if PayloadClash(sha, a, b) {
      PayloadClashLogged(sha, a, b);
    }
    PayloadExact(sha, a, b);
    SameBytesWithinLimit(PayloadData(a), PayloadData(b));
  }

  lemma AuthorizationListBinding(sha: Sha, a: seq<Authorization>, b: seq<Authorization>)
    requires AuthorizationsWithinLimits(a) && |b| < U64_LIMIT
    requires forall i :: 0 <= i < |b| ==> |b[i].signature| < U64_LIMIT
    requires NoCollision(sha, AuthorizationListRoot(sha, a).inputs, AuthorizationListRoot(sha, b).inputs)
    requires AuthorizationListRoot(sha, a).root == AuthorizationListRoot(sha, b).root
    ensures a == b
  {
    hide AuthorizationListRoot, AuthorizationListClash;
    CollisionOrNone(sha, AuthorizationListRoot(sha, a).inputs, AuthorizationListRoot(sha, b).inputs);
    if AuthorizationListClash(sha, a, b) {
      AuthorizationListClashLogged(sha, a, b);
    }
    AuthorizationListExact(sha, a, b);
    SameAuthorizationsWithinLimits(a, b);
  }

  lemma SameWithinLimits(e: Envelope, f: Envelope)
    requires WithinLimits(e) && SeesSame(e, f)
    ensures e == f
  {
    SameBytesWithinLimit(PayloadData(e.payload), PayloadData(f.payload));
    SameAuthorizationsWithinLimits(e.authorizations, f.authorizations);
  }

  /** Equal envelope roots without a collision mean equal envelopes. */
  lemma EnvelopeBinding(sha: Sha, a: Envelope, b: Envelope)
    requires WithinLimits(a) && Representable(b)
    requires EnvelopeRoot(sha, a).root == EnvelopeRoot(sha, b).root
    ensures a == b || CollisionBetween(sha, EnvelopeRoot(sha, a).inputs, EnvelopeRoot(sha, b).inputs)
  {
    hide EnvelopeRoot, EnvelopeClash, SeesSame;
    if EnvelopeClash(sha, a, b) {
      EnvelopeClashLogged(sha, a, b);
    } else {
      EnvelopeExact(sha, a, b);
      SameWithinLimits(a, b);
    }
  }

  // ----- Past the limits -----

  function Tweaked(b: seq<byte>): (c: seq<byte>)
    requires b != []
    ensures |c| == |b| && c != b && c[..|b| - 1] == b[..|b| - 1]
  {
    var last := |b| - 1;
    var other: byte := if b[last] == 0 then 1 else 0;
    var c := b[last := other];
    assert c[last] != b[last];
    c
  }

  lemma TweakedUnseen(b: seq<byte>)
    requires |b| > BYTE_LIST_LIMIT
    ensures SeesSameBytes(b, Tweaked(b))
  {
    var c := Tweaked(b);
    assert c[..BYTE_LIST_LIMIT] == c[..|b| - 1][..BYTE_LIST_LIMIT] == b[..|b| - 1][..BYTE_LIST_LIMIT] == b[..BYTE_LIST_LIMIT];
  }

  /** A byte list over the limit shares its root, and every hash input, with a different list of its length. */
  lemma OverLimitByteListNotBinding(sha: Sha, b: seq<byte>)
    requires |b| > BYTE_LIST_LIMIT
    ensures Tweaked(b) != b && ByteListRoot(sha, Tweaked(b)) == ByteListRoot(sha, b)
  {
    hide ByteListRoot;
    Pow2Values();
    TweakedUnseen(b);
    ByteListSeen(sha, b, Tweaked(b), 15);
  }

  /** Whatever stands past entry 8192 of an authorization list, its root is the same, without a clash. */
  lemma OverLimitAuthorizationsNotBinding(sha: Sha, auths: seq<Authorization>, k: nat, a: Authorization)
    requires LIST_LIMIT <= k < |auths|
    ensures AuthorizationListRoot(sha, auths[k := a]).root == AuthorizationListRoot(sha, auths).root
    ensures !AuthorizationListClash(sha, auths, auths[k := a])
  {
    hide AuthorizationListRoot, AuthorizationListClash;
    Pow2Values();
    AuthorizationListSeen(sha, auths, auths[k := a], 13);
  }

  function Changed(a: Authorization): (b: Authorization)
    ensures b != a && |b.signature| == |a.signature|
  {
    a.(schemeId := if a.schemeId == 0 then 1 else 0)
  }

  function FirstOverLimit(auths: seq<Authorization>): nat
  {
    First(auths, (a: Authorization) => |a.signature| > BYTE_LIST_LIMIT)
  }

  /** A different envelope of the same lengths that looks the same to every root: one byte past a limit differs. */
  function Twin(e: Envelope): (f: Envelope)
    requires !WithinLimits(e)
    ensures f != e && (Representable(e) ==> Representable(f))
  {
    var data, auths := PayloadData(e.payload), e.authorizations;
    if |data| > BYTE_LIST_LIMIT then e.(payload := WithData(e.payload, Tweaked(data)))
    else
      var k := if |auths| > LIST_LIMIT then |auths| - 1 else FirstOverLimit(auths);
      var other := if |auths| > LIST_LIMIT then Changed(auths[k]) else auths[k].(signature := Tweaked(auths[k].signature));
      var twins := auths[k := other];
      assert twins[k] != auths[k];
      e.(authorizations := twins)
  }

  lemma TwinUnseen(e: Envelope)
    requires !WithinLimits(e)
    ensures SeesSame(e, Twin(e))
  {
    var data, auths := PayloadData(e.payload), e.authorizations;
    if |data| > BYTE_LIST_LIMIT {
      TweakedUnseen(data);
    } else if |auths| <= LIST_LIMIT {
      TweakedUnseen(auths[FirstOverLimit(auths)].signature);
    }
  }

  /** An envelope over a limit shares its root with its twin, whatever the hash and with no clash to blame. */
  lemma OverLimitEnvelopeNotBinding(sha: Sha, e: Envelope)
    requires !WithinLimits(e)
    ensures Twin(e) != e && (Representable(e) ==> Representable(Twin(e)))
    ensures EnvelopeRoot(sha, Twin(e)).root == EnvelopeRoot(sha, e).root && !EnvelopeClash(sha, e, Twin(e))
  {
    hide EnvelopeRoot, EnvelopeClash, SeesSame;
    TwinUnseen(e);
    EnvelopeSeen(sha, e, Twin(e));
  }

  /** No other envelope a machine can hold has this root, unless the two trees clash. */
  ghost predicate Binds(sha: Sha, e: Envelope)
  {
    forall f: Envelope :: Representable(f) && EnvelopeRoot(sha, f).root == EnvelopeRoot(sha, e).root && !EnvelopeClash(sha, e, f) ==> f == e
  }

  /** The declared limits are exactly what binding needs, for every hash function. */
  lemma BindingExact(sha: Sha, e: Envelope)
    requires Representable(e)
    ensures Binds(sha, e) <==> WithinLimits(e)
  {
    hide EnvelopeRoot, EnvelopeClash, SeesSame, Representable, WithinLimits;
    if WithinLimits(e) {
      forall f: Envelope | Representable(f) && EnvelopeRoot(sha, f).root == EnvelopeRoot(sha, e).root && !EnvelopeClash(sha, e, f)
        ensures f == e
      {
        EnvelopeExact(sha, e, f);
        SameWithinLimits(e, f);
      }
    } else {
      OverLimitEnvelopeNotBinding(sha, e);
    }
  }

  // ----- Signing -----

  lemma SigningRootBinding(sha: Sha, a: SigningData, b: SigningData)
    requires SigningRoot(sha, a).root == SigningRoot(sha, b).root
    ensures a == b || CollisionBetween(sha, SigningRoot(sha, a).inputs, SigningRoot(sha, b).inputs)
  {
    var ia, ib := SigningRoot(sha, a).inputs, SigningRoot(sha, b).inputs;
    CollisionOrNone(sha, ia, ib);
    if NoCollision(sha, ia, ib) {
      Pow2Values();
      var x, y := [a.objectRoot, PadRight(a.domainType)], [b.objectRoot, PadRight(b.domainType)];
      if ContainerClash(sha, x, y) {
        ContainerClashLogged(sha, x, y, ia, ib);
      }
      ContainerBinding(sha, x, y, 1);
      assert x[0] == y[0] && x[1] == y[1];
      PadRightInjective(a.domainType, b.domainType);
    }
  }

  /** Every input hashed on the way from a payload to the root that is signed. */
  function SignedInputs(sha: Sha, p: Payload, domain: Bytes4): set<seq<byte>>
  {
    PayloadRoot(sha, p).inputs + SigningRoot(sha, SigningData(PayloadRoot(sha, p).root, domain)).inputs
  }

  /** One signing root covers one payload in one domain, unless a collision is at hand. */
  lemma SignedPayloadBinding(sha: Sha, a: Payload, x: Bytes4, b: Payload, y: Bytes4)
    requires PayloadWithinLimits(a) && |PayloadData(b)| < U64_LIMIT
    requires SigningRoot(sha, SigningData(PayloadRoot(sha, a).root, x)).root ==
             SigningRoot(sha, SigningData(PayloadRoot(sha, b).root, y)).root
    ensures (a == b && x == y) || CollisionBetween(sha, SignedInputs(sha, a, x), SignedInputs(sha, b, y))
  {
    var ia, ib := SignedInputs(sha, a, x), SignedInputs(sha, b, y);
    CollisionOrNone(sha, ia, ib);
    if NoCollision(sha, ia, ib) {
      var da, db := SigningData(PayloadRoot(sha, a).root, x), SigningData(PayloadRoot(sha, b).root, y);
      Narrow(sha, ia, ib, SigningRoot(sha, da).inputs, SigningRoot(sha, db).inputs);
      CollisionOrNone(sha, SigningRoot(sha, da).inputs, SigningRoot(sha, db).inputs);
      SigningRootBinding(sha, da, db);
      Narrow(sha, ia, ib, PayloadRoot(sha, a).inputs, PayloadRoot(sha, b).inputs);
      PayloadBinding(sha, a, b);
    }
  }

  /** Roots signed under different domains never coincide without a collision; under one domain, equal objects do. */
  lemma DomainsSeparate(sha: Sha, a: Root, x: Bytes4, b: Root, y: Bytes4)
    ensures var s, t := SigningRoot(sha, SigningData(a, x)), SigningRoot(sha, SigningData(b, y));
            && (x != y ==> s.root != t.root || CollisionBetween(sha, s.inputs, t.inputs))
            && (x == y && a == b ==> s.root == t.root)
  {
    if SigningRoot(sha, SigningData(a, x)).root == SigningRoot(sha, SigningData(b, y)).root {
      SigningRootBinding(sha, SigningData(a, x), SigningData(b, y));
    }
  }
}
