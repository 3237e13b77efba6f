/** The encoder and the decoder are inverse to each other, on every envelope and every byte string. */
module CodecBijection {
  import opened Bytes
  import opened Transactions
  import opened Codec

  // ----- Reading fields off a concatenation, and putting them back -----

  lemma Peel(b: seq<byte>, off: nat, x: seq<byte>, rest: seq<byte>)
    requires off <= |b| && b[off..] == x + rest
    ensures off + |x| <= |b| && b[off..off + |x|] == x && b[off + |x|..] == rest
  {
    assert b[off..off + |x|] == b[off..][..|x|];
    assert b[off + |x|..] == b[off..][|x|..];
  }

  lemma Join(b: seq<byte>, lo: nat, hi: nat)
    requires lo <= hi <= |b|
    ensures b[lo..hi] + b[hi..] == b[lo..]
  {
  }

  lemma PeelHead(p: Payload, tail: seq<byte>)
    ensures var b := EncodeHead(p, tail);
            && ReadBytes32(b, 0) == Ok(p.chainId) && ReadU64(b, 32) == Ok(p.nonce)
            && ReadU64(b, 40) == Ok(p.gasLimit) && ReadFees(b, 48) == Ok(p.fees)
            && b[144..] == tail
  {
    var b := EncodeHead(p, tail);
    var f := p.fees;
    var t5 := f.maxWitnessPriorityFee + tail;
    var t4 := f.maxPriorityFee + t5;
    var t3 := f.regular + t4;
    var t2 := Le(p.gasLimit, 8) + t3;
    var t1 := Le(p.nonce, 8) + t2;
    assert b[0..] == b;
    Peel(b, 0, p.chainId, t1);
    Peel(b, 32, Le(p.nonce, 8), t2);
    Peel(b, 40, Le(p.gasLimit, 8), t3);
    Peel(b, 48, f.regular, t4);
    Peel(b, 80, f.maxPriorityFee, t5);
    Peel(b, 112, f.maxWitnessPriorityFee, tail);
    U64RoundTrip(p.nonce);
    U64RoundTrip(p.gasLimit);
  }

  lemma PayloadRoundTrip(p: Payload)
    ensures DecodePayload(EncodePayload(p)) == Ok(p)
  {
    var b := EncodeInner(p);
    assert EncodePayload(p)[1..] == b;
    match p
    case Basic(_, _, _, _, to, value, input, commitment) =>
      var t := Le(BASIC_FIXED_SIZE, 4) + (commitment + input);
      PeelHead(p, to + (value + t));
      Peel(b, 144, to, value + t);
      Peel(b, 164, value, t);
      Peel(b, 196, Le(BASIC_FIXED_SIZE, 4), commitment + input);
      Peel(b, 200, commitment, input);
      U32RoundTrip(BASIC_FIXED_SIZE);
    case Create(_, _, _, _, value, initcode, commitment) =>
      var t := Le(CREATE_FIXED_SIZE, 4) + (commitment + initcode);
      PeelHead(p, value + t);
      Peel(b, 144, value, t);
      Peel(b, 176, Le(CREATE_FIXED_SIZE, 4), commitment + initcode);
      Peel(b, 180, commitment, initcode);
      U32RoundTrip(CREATE_FIXED_SIZE);
  }

  lemma JoinHead(b: seq<byte>, p: Payload)
    requires |b| >= 144
    requires ReadBytes32(b, 0) == Ok(p.chainId) && ReadU64(b, 32) == Ok(p.nonce)
    requires ReadU64(b, 40) == Ok(p.gasLimit) && ReadFees(b, 48) == Ok(p.fees)
    ensures EncodeHead(p, b[144..]) == b
  {
    LeOfUnLe(b[32..40]);
    LeOfUnLe(b[40..48]);
    Join(b, 112, 144);
    Join(b, 80, 112);
    Join(b, 48, 80);
    Join(b, 40, 48);
    Join(b, 32, 40);
    Join(b, 0, 32);
    assert b[0..] == b;
  }

  lemma BasicCanonical(b: seq<byte>)
    requires DecodeBasic(b).Ok?
    ensures DecodeBasic(b).value.Basic? && EncodeInner(DecodeBasic(b).value) == b
  {
    var p := DecodeBasic(b).value;
    LeOfUnLe(b[196..200]);
    Join(b, 200, 232);
    Join(b, 196, 200);
    Join(b, 164, 196);
    Join(b, 144, 164);
    JoinHead(b, p);
  }

  lemma CreateCanonical(b: seq<byte>)
    requires DecodeCreate(b).Ok?
    ensures DecodeCreate(b).value.Create? && EncodeInner(DecodeCreate(b).value) == b
  {
    var p := DecodeCreate(b).value;
    LeOfUnLe(b[176..180]);
    Join(b, 180, 212);
    Join(b, 176, 180);
    Join(b, 144, 176);
    JoinHead(b, p);
  }

  lemma PayloadCanonical(b: seq<byte>)
    requires DecodePayload(b).Ok?
    ensures EncodePayload(DecodePayload(b).value) == b
  {
    assert b == [b[0]] + b[1..];
    if b[0] == TAG_BASIC {
      BasicCanonical(b[1..]);
    } else {
      CreateCanonical(b[1..]);
    }
  }

  lemma AuthorizationRoundTrip(a: Authorization)
    ensures DecodeAuthorization(EncodeAuthorization(a)) == Ok(a)
  {
    var b := EncodeAuthorization(a);
    var t := Le(AUTHORIZATION_FIXED_SIZE, 4) + a.signature;
    assert b[1..] == a.payloadRoot + t;
    Peel(b, 1, a.payloadRoot, t);
    Peel(b, 33, Le(AUTHORIZATION_FIXED_SIZE, 4), a.signature);
    U32RoundTrip(AUTHORIZATION_FIXED_SIZE);
  }

  lemma AuthorizationCanonical(b: seq<byte>)
    requires DecodeAuthorization(b).Ok?
    ensures EncodeAuthorization(DecodeAuthorization(b).value) == b
  {
    LeOfUnLe(b[33..37]);
    Join(b, 33, 37);
    Join(b, 1, 33);
    assert b == [b[0]] + b[1..];
  }

  // ----- The list: offsets written are offsets read -----

  lemma {:induction false} TableEntry(b: seq<byte>, at: nat, offsets: seq<nat>, tail: seq<byte>, i: nat)
    requires i < |offsets| && offsets[i] < U32_LIMIT
    requires at <= |b| && b[at..] == OffsetTable(offsets) + tail
    ensures ReadU32(b, at + 4 * i) == Ok(offsets[i])
    decreases i
  {
    var rest := OffsetTable(offsets[1..]) + tail;
    assert OffsetTable(offsets) + tail == Le(offsets[0], 4) + rest;
    Peel(b, at, Le(offsets[0], 4), rest);
    if i == 0 {
      U32RoundTrip(offsets[0]);
    } else {
      TableEntry(b, at + 4, offsets[1..], tail, i - 1);
    }
  }

  lemma ElementEndTail(b: seq<byte>, auths: seq<Authorization>, next: nat, i: nat)
    requires 0 < i < |auths|
    ensures var offsets, rest := Offsets(auths, next), Offsets(auths[1..], next + |EncodeAuthorization(auths[0])|);
            offsets[i] == rest[i - 1] && ElementEnd(b, offsets, i) == ElementEnd(b, rest, i - 1)
  {
  }

  lemma ElementEndFirst(b: seq<byte>, auths: seq<Authorization>, next: nat)
    requires auths != []
    requires next <= |b| && b[next..] == ListBody(auths)
    ensures Offsets(auths, next)[0] == next
    ensures ElementEnd(b, Offsets(auths, next), 0) == next + |EncodeAuthorization(auths[0])|
  {
    if |auths| == 1 {
      assert ListBody(auths[1..]) == [];
    }
  }

  /** Element i occupies the bytes from its offset to the next one, or to the end. */
  lemma {:induction false} BodyElement(b: seq<byte>, auths: seq<Authorization>, next: nat, i: nat)
    requires i < |auths|
    requires next <= |b| && b[next..] == ListBody(auths)
    ensures var offsets := Offsets(auths, next);
            && next <= offsets[i] <= ElementEnd(b, offsets, i) <= |b|
            && b[offsets[i]..ElementEnd(b, offsets, i)] == EncodeAuthorization(auths[i])
  {
    hide EncodeAuthorization;
    var e := EncodeAuthorization(auths[0]);
    Peel(b, next, e, ListBody(auths[1..]));
    if i == 0 {
      ElementEndFirst(b, auths, next);
    } else {
      ElementEndTail(b, auths, next, i);
      BodyElement(b, auths[1..], next + |e|, i - 1);
    }
  }

  lemma {:induction false} ReadsBackOffsets(b: seq<byte>, first: nat, offsets: seq<nat>, i: nat)
    requires first == 4 * |offsets| && i <= |offsets|
    requires forall j :: 0 <= j < |offsets| ==> ReadU32(b, j * 4) == Ok(offsets[j]) && first <= offsets[j] <= |b|
    ensures ReadOffsets(b, first, i) == Ok(offsets[i..])
    decreases |offsets| - i
  {
    if i < |offsets| {
      ReadsBackOffsets(b, first, offsets, i + 1);
      assert offsets[i..] == [offsets[i]] + offsets[i + 1..];
    }
  }

  lemma {:induction false} ReadsBackElements(b: seq<byte>, offsets: seq<nat>, auths: seq<Authorization>, i: nat)
    requires |offsets| == |auths| && i <= |auths|
    requires forall j :: 0 <= j < |offsets| ==>
      offsets[j] <= ElementEnd(b, offsets, j) <= |b| &&
      b[offsets[j]..ElementEnd(b, offsets, j)] == EncodeAuthorization(auths[j])
    ensures DecodeElements(b, offsets, i) == Ok(auths[i..])
    decreases |auths| - i
  {
    if i < |auths| {
      AuthorizationRoundTrip(auths[i]);
      ReadsBackElements(b, offsets, auths, i + 1);
      assert auths[i..] == [auths[i]] + auths[i + 1..];
    }
  }

  lemma ListRoundTrip(auths: seq<Authorization>)
    requires OffsetsFit(auths)
    ensures DecodeAuthorizationList(EncodeAuthorizationList(auths).value) == Ok(auths)
  {
    ListReadsBack(auths, Offsets(auths, 4 * |auths|), EncodeAuthorizationList(auths).value);
  }

  lemma TableReadsBack(auths: seq<Authorization>, offsets: seq<nat>, b: seq<byte>)
    requires offsets == Offsets(auths, 4 * |auths|)
    requires forall i :: 0 <= i < |auths| ==> offsets[i] < U32_LIMIT
    requires b == OffsetTable(offsets) + ListBody(auths)
    ensures forall j :: 0 <= j < |auths| ==> ReadU32(b, j * 4) == Ok(offsets[j])
  {
    hide Offsets, OffsetTable, ListBody, ReadU32;
    assert b[0..] == b;
    forall j | 0 <= j < |auths|
      ensures ReadU32(b, j * 4) == Ok(offsets[j])
    {
      TableEntry(b, 0, offsets, ListBody(auths), j);
    }
  }

  lemma BodyReadsBack(auths: seq<Authorization>, offsets: seq<nat>, b: seq<byte>)
    requires offsets == Offsets(auths, 4 * |auths|)
    requires b == OffsetTable(offsets) + ListBody(auths)
    ensures forall j :: 0 <= j < |auths| ==>
      4 * |auths| <= offsets[j] <= ElementEnd(b, offsets, j) <= |b| &&
      b[offsets[j]..ElementEnd(b, offsets, j)] == EncodeAuthorization(auths[j])
  {
    hide Offsets, OffsetTable, ListBody, EncodeAuthorization;
    var first := 4 * |auths|;
    assert b[first..] == ListBody(auths);
    forall j | 0 <= j < |auths|
      ensures first <= offsets[j] <= ElementEnd(b, offsets, j) <= |b|
      ensures b[offsets[j]..ElementEnd(b, offsets, j)] == EncodeAuthorization(auths[j])
    {
      BodyElement(b, auths, first, j);
    }
  }

  lemma ListReadsBack(auths: seq<Authorization>, offsets: seq<nat>, b: seq<byte>)
    requires offsets == Offsets(auths, 4 * |auths|)
    requires forall i :: 0 <= i < |auths| ==> offsets[i] < U32_LIMIT
    requires b == OffsetTable(offsets) + ListBody(auths)
    ensures DecodeAuthorizationList(b) == Ok(auths)
  {
    var first := 4 * |auths|;
    if auths != [] {
      assert offsets[0] == first;
      hide *;
      TableReadsBack(auths, offsets, b);
      BodyReadsBack(auths, offsets, b);
      assert ReadU32(b, 0 * 4) == Ok(first);
      ReadsBackOffsets(b, first, offsets, 0);
      ReadsBackElements(b, offsets, auths, 0);
      assert offsets[0..] == offsets && auths[0..] == auths;
      assert first <= |b|;
      ListAssembles(b, first, offsets, auths);
    }
  }

  lemma ListAssembles(b: seq<byte>, first: nat, offsets: seq<nat>, auths: seq<Authorization>)
    requires ReadU32(b, 0) == Ok(first) && 0 < first <= |b| && first % 4 == 0
    requires ReadOffsets(b, first, 0) == Ok(offsets) && DecodeElements(b, offsets, 0) == Ok(auths)
    ensures DecodeAuthorizationList(b) == Ok(auths)
  {
    hide ReadU32, ReadOffsets, DecodeElements;
  }

  // ----- The list: bytes accepted are bytes written -----

  /** Decoding from element i on accounts for every byte from its offset to the end. */
  lemma {:induction false} ElementsCanonical(b: seq<byte>, offsets: seq<nat>, i: nat)
    requires i < |offsets|
    requires forall j :: 0 <= j < |offsets| ==> offsets[j] <= |b|
    requires DecodeElements(b, offsets, i).Ok?
    ensures var auths := DecodeElements(b, offsets, i).value;
            Offsets(auths, offsets[i]) == offsets[i..] && ListBody(auths) == b[offsets[i]..]
    decreases |offsets| - i
  {
    hide EncodeAuthorization, DecodeAuthorization;
    var auths := DecodeElements(b, offsets, i).value;
    var start, end := offsets[i], ElementEnd(b, offsets, i);
    AuthorizationCanonical(b[start..end]);
    assert |EncodeAuthorization(auths[0])| == end - start;
    Join(b, start, end);
    assert offsets[i..] == [offsets[i]] + offsets[i + 1..];
    if i + 1 < |offsets| {
      ElementsCanonical(b, offsets, i + 1);
      assert auths[1..] == DecodeElements(b, offsets, i + 1).value;
    } else {
      assert auths[1..] == [] && offsets[i + 1..] == [] && b[end..] == [];
    }
  }

  lemma EntryBytes(b: seq<byte>, at: nat)
    requires ReadU32(b, at).Ok?
    ensures at + 4 <= |b| && Le(ReadU32(b, at).value, 4) == b[at..at + 4]
  {
    LeOfUnLe(b[at..at + 4]);
  }

  lemma {:induction false} TableCanonical(b: seq<byte>, offsets: seq<nat>)
    requires 4 * |offsets| <= |b|
    requires forall j :: 0 <= j < |offsets| ==> ReadU32(b, j * 4) == Ok(offsets[j])
    ensures OffsetTable(offsets) == b[..4 * |offsets|]
  {
    if offsets != [] {
      var n := |offsets| - 1;
      TableCanonical(b, offsets[..n]);
      assert offsets == offsets[..n] + [offsets[n]];
      OffsetTableSnoc(offsets[..n], offsets[n]);
      EntryBytes(b, n * 4);
      hide ReadU32, Le, OffsetTable;
      assert b[..4 * n + 4] == b[..4 * n] + b[4 * n..4 * n + 4];
    }
  }

  lemma ListCanonical(b: seq<byte>)
    requires DecodeAuthorizationList(b).Ok?
    ensures EncodeAuthorizationList(DecodeAuthorizationList(b).value) == Ok(b)
  {
    hide EncodeAuthorization, DecodeAuthorization, Le, ReadOffsets;
    var auths := DecodeAuthorizationList(b).value;
    if b == [] {
      assert OffsetTable(Offsets(auths, 0)) + ListBody(auths) == [];
    } else {
      var first := ReadU32(b, 0).value;
      var offsets := ReadOffsets(b, first, 0).value;
      assert ReadU32(b, 0 * 4) == Ok(offsets[0]);
      ElementsCanonical(b, offsets, 0);
      assert offsets[0..] == offsets;
      assert 4 * |auths| == first;
      forall j | 0 <= j < |offsets|
        ensures ReadU32(b, j * 4) == Ok(offsets[j])
      {
        assert ReadU32(b, (0 + j) * 4) == Ok(offsets[j]);
      }
      TableCanonical(b, offsets);
      assert b == b[..first] + b[first..];
    }
  }

  // ----- Envelopes -----

  /** The exact condition for an envelope to be encodable: both kinds of offset are u32 values. */
  predicate Encodable(e: Envelope)
  {
    OffsetsFit(e.authorizations) && ENVELOPE_FIXED_SIZE + |EncodePayload(e.payload)| < U32_LIMIT
  }

  lemma EnvelopeLayout(payload: seq<byte>, auths: seq<byte>)
    requires ENVELOPE_FIXED_SIZE + |payload| < U32_LIMIT
    ensures var split := ENVELOPE_FIXED_SIZE + |payload|;
            var b := Le(ENVELOPE_FIXED_SIZE, 4) + (Le(split, 4) + (payload + auths));
            && ReadU32(b, 0) == Ok(8) && ReadU32(b, 4) == Ok(split)
            && split <= |b| && b[8..split] == payload && b[split..] == auths
  {
    var split := ENVELOPE_FIXED_SIZE + |payload|;
    var b := Le(ENVELOPE_FIXED_SIZE, 4) + (Le(split, 4) + (payload + auths));
    assert b[0..] == b;
    Peel(b, 0, Le(8, 4), Le(split, 4) + (payload + auths));
    Peel(b, 4, Le(split, 4), payload + auths);
    Peel(b, 8, payload, auths);
    U32RoundTrip(8);
    U32RoundTrip(split);
  }

  /** Encoding succeeds exactly when the offsets fit, and then decoding returns the envelope. */
  lemma EnvelopeRoundTrip(e: Envelope)
    ensures EncodeEnvelope(e).Ok? <==> Encodable(e)
    ensures Encodable(e) ==> DecodeEnvelope(EncodeEnvelope(e).value) == Ok(e)
  {
    hide EncodePayload, DecodePayload, DecodeAuthorizationList, Le;
    if Encodable(e) {
      EnvelopeLayout(EncodePayload(e.payload), EncodeAuthorizationList(e.authorizations).value);
      PayloadRoundTrip(e.payload);
      ListRoundTrip(e.authorizations);
    }
  }

  /** Whatever the decoder accepts is exactly what the encoder writes for the result. */
  lemma EnvelopeCanonical(b: seq<byte>)
    requires DecodeEnvelope(b).Ok?
    ensures EncodeEnvelope(DecodeEnvelope(b).value) == Ok(b)
  {
    hide EncodePayload, DecodePayload, EncodeAuthorizationList, DecodeAuthorizationList;
    var split := ReadU32(b, 4).value;
    PayloadCanonical(b[8..split]);
    ListCanonical(b[split..]);
    LeOfUnLe(b[0..4]);
    LeOfUnLe(b[4..8]);
    Join(b, 8, split);
    Join(b, 4, 8);
    Join(b, 0, 4);
    assert b[0..] == b;
  }

  /** A byte string is accepted exactly when it is the encoding of some envelope, which is then unique. */
  lemma AcceptedIsImage(b: seq<byte>)
    ensures DecodeEnvelope(b).Ok? <==> exists e :: EncodeEnvelope(e) == Ok(b)
    ensures forall e, f :: EncodeEnvelope(e) == Ok(b) && EncodeEnvelope(f) == Ok(b) ==> e == f
  {
    if DecodeEnvelope(b).Ok? {
      EnvelopeCanonical(b);
    }
    forall e | EncodeEnvelope(e) == Ok(b)
      ensures DecodeEnvelope(b) == Ok(e)
    {
      EnvelopeRoundTrip(e);
    }
  }

  /** No envelope has two accepted encodings. */
  lemma NoSecondEncoding(b: seq<byte>, c: seq<byte>)
    ensures DecodeEnvelope(b).Ok? && DecodeEnvelope(b) == DecodeEnvelope(c) ==> b == c
  {
    if DecodeEnvelope(b).Ok? && DecodeEnvelope(c).Ok? {
      EnvelopeCanonical(b);
      EnvelopeCanonical(c);
    }
  }
}
