/** The SSZ wire codec: encoders and decoders, and the list loops proved against them. */
module Codec {
  import opened Bytes
  import opened Transactions

  const BASIC_FIXED_SIZE := 232
  const CREATE_FIXED_SIZE := 212
  const AUTHORIZATION_FIXED_SIZE := 37
  const ENVELOPE_FIXED_SIZE := 8

  type Decoded<T> = Result<T, PrimitiveError>

  // ----- Encoding -----

  /** The fields both payload kinds start with, followed by `tail`. */
  function EncodeHead(p: Payload, tail: seq<byte>): (s: seq<byte>)
    ensures |s| == 144 + |tail|
  {
    p.chainId + (Le(p.nonce, 8) + (Le(p.gasLimit, 8) +
    (p.fees.regular + (p.fees.maxPriorityFee + (p.fees.maxWitnessPriorityFee + tail)))))
  }

  function EncodeInner(p: Payload): (s: seq<byte>)
    ensures |s| >= 212
  {
    match p
    case Basic(_, _, _, _, to, value, input, commitment) =>
      EncodeHead(p, to + (value + (Le(BASIC_FIXED_SIZE, 4) + (commitment + input))))
    case Create(_, _, _, _, value, initcode, commitment) =>
      EncodeHead(p, value + (Le(CREATE_FIXED_SIZE, 4) + (commitment + initcode)))
  }

  function EncodePayload(p: Payload): (s: seq<byte>)
    ensures |s| >= 213
  {
    [ProtocolTag(p)] + EncodeInner(p)
  }

  function EncodeAuthorization(a: Authorization): (s: seq<byte>)
    ensures |s| == AUTHORIZATION_FIXED_SIZE + |a.signature|
  {
    [a.schemeId] + (a.payloadRoot + (Le(AUTHORIZATION_FIXED_SIZE, 4) + a.signature))
  }

  /** Where each element starts when the first one starts at `next`. */
  function Offsets(auths: seq<Authorization>, next: nat): (offsets: seq<nat>)
    ensures |offsets| == |auths|
    ensures forall i :: 0 <= i < |offsets| ==> next <= offsets[i]
  {
    if auths == [] then [] else [next] + Offsets(auths[1..], next + |EncodeAuthorization(auths[0])|)
  }

  function OffsetTable(offsets: seq<nat>): (s: seq<byte>)
    ensures |s| == 4 * |offsets|
  {
    if offsets == [] then [] else Le(offsets[0], 4) + OffsetTable(offsets[1..])
  }

  function ListBody(auths: seq<Authorization>): (s: seq<byte>)
  {
    if auths == [] then [] else EncodeAuthorization(auths[0]) + ListBody(auths[1..])
  }

  /** Every offset that the list encoder writes is a u32. */
  predicate OffsetsFit(auths: seq<Authorization>)
  {
    forall i :: 0 <= i < |auths| ==> Offsets(auths, 4 * |auths|)[i] < U32_LIMIT
  }

  function EncodeAuthorizationList(auths: seq<Authorization>): (r: Decoded<seq<byte>>)
  {
    if OffsetsFit(auths) then
      Ok(OffsetTable(Offsets(auths, 4 * |auths|)) + ListBody(auths))
    else
      Err(MalformedSsz(ListOffsetExceedsU32))
  }

  function EncodeEnvelope(e: Envelope): (r: Decoded<seq<byte>>)
  {
    var payload := EncodePayload(e.payload);
    var auths :- EncodeAuthorizationList(e.authorizations);
    if ENVELOPE_FIXED_SIZE + |payload| < U32_LIMIT then
      Ok(Le(ENVELOPE_FIXED_SIZE, 4) + (Le(ENVELOPE_FIXED_SIZE + |payload|, 4) + (payload + auths)))
    else
      Err(MalformedSsz(EnvelopeOffsetExceedsU32))
  }

  // ----- Decoding -----

  function ReadU32(b: seq<byte>, offset: nat): Decoded<u32>
  {
    if offset + 4 <= |b| then
      UnLeBound(b[offset..offset + 4]);
      Pow256Values();
      Ok(UnLe(b[offset..offset + 4]))
    else
      Err(MalformedSsz(TruncatedU32))
  }

  function ReadU64(b: seq<byte>, offset: nat): Decoded<u64>
  {
    if offset + 8 <= |b| then
      UnLeBound(b[offset..offset + 8]);
      Pow256Values();
      Ok(UnLe(b[offset..offset + 8]))
    else
      Err(MalformedSsz(TruncatedU64))
  }

  function ReadBytes32(b: seq<byte>, offset: nat): Decoded<Root>
  {
    if offset + 32 <= |b| then Ok(b[offset..offset + 32]) else Err(MalformedSsz(TruncatedBytes32))
  }

  function ReadAddress(b: seq<byte>, offset: nat): Decoded<Address>
  {
    if offset + 20 <= |b| then Ok(b[offset..offset + 20]) else Err(MalformedSsz(TruncatedAddress))
  }

  function ReadFees(b: seq<byte>, offset: nat): Decoded<FeesPerGas>
  {
    var regular :- ReadBytes32(b, offset);
    var priority :- ReadBytes32(b, offset + 32);
    var witnessFee :- ReadBytes32(b, offset + 64);
    Ok(FeesPerGas(regular, priority, witnessFee))
  }

  function DecodeBasic(b: seq<byte>): Decoded<Payload>
  {
    if |b| < BASIC_FIXED_SIZE then Err(MalformedSsz(BasicTooShort)) else
    var chainId :- ReadBytes32(b, 0);
    var nonce :- ReadU64(b, 32);
    var gasLimit :- ReadU64(b, 40);
    var fees :- ReadFees(b, 48);
    var to :- ReadAddress(b, 144);
    var value :- ReadBytes32(b, 164);
    var inputOffset :- ReadU32(b, 196);
    var commitment :- ReadBytes32(b, 200);
    if inputOffset != BASIC_FIXED_SIZE then
      Err(MalformedSsz(BasicInputOffset))
    else
      Ok(Basic(chainId, nonce, gasLimit, fees, to, value, b[BASIC_FIXED_SIZE..], commitment))
  }

  function DecodeCreate(b: seq<byte>): Decoded<Payload>
  {
    if |b| < CREATE_FIXED_SIZE then Err(MalformedSsz(CreateTooShort)) else
    var chainId :- ReadBytes32(b, 0);
    var nonce :- ReadU64(b, 32);
    var gasLimit :- ReadU64(b, 40);
    var fees :- ReadFees(b, 48);
    var value :- ReadBytes32(b, 144);
    var initcodeOffset :- ReadU32(b, 176);
    var commitment :- ReadBytes32(b, 180);
    if initcodeOffset != CREATE_FIXED_SIZE then
      Err(MalformedSsz(CreateInitcodeOffset))
    else
      Ok(Create(chainId, nonce, gasLimit, fees, value, b[CREATE_FIXED_SIZE..], commitment))
  }

  function DecodePayload(b: seq<byte>): Decoded<Payload>
  {
    if b == [] then Err(MalformedSsz(PayloadEmpty))
    else if b[0] == TAG_BASIC then DecodeBasic(b[1..])
    else if b[0] == TAG_CREATE then DecodeCreate(b[1..])
    else Err(UnsupportedPayloadVariant(b[0]))
  }

  function DecodeAuthorization(b: seq<byte>): Decoded<Authorization>
  {
    if |b| < AUTHORIZATION_FIXED_SIZE then Err(MalformedSsz(AuthorizationTooShort)) else
    var payloadRoot :- ReadBytes32(b, 1);
    var signatureOffset :- ReadU32(b, 33);
    if signatureOffset != AUTHORIZATION_FIXED_SIZE then
      Err(MalformedSsz(AuthorizationSignatureOffset))
    else
      Ok(Authorization(b[0], payloadRoot, b[AUTHORIZATION_FIXED_SIZE..]))
  }

  /** The offset table from entry `i` on; each offset must lie in the variable section. */
  function ReadOffsets(b: seq<byte>, first: nat, i: nat): (r: Decoded<seq<nat>>)
    requires i <= first / 4
    ensures r.Ok? ==> |r.value| == first / 4 - i
    ensures r.Ok? ==> forall j :: 0 <= j < |r.value| ==>
      first <= r.value[j] <= |b| && ReadU32(b, (i + j) * 4) == Ok(r.value[j])
    decreases first / 4 - i
  {
    if i == first / 4 then Ok([]) else
    var offset :- ReadU32(b, i * 4);
    if offset < first || offset > |b| then Err(MalformedSsz(ListElementOffset)) else
    var rest :- ReadOffsets(b, first, i + 1);
    Ok([offset] + rest)
  }

  /** Where element `i` ends: at the next offset, or at the end of the bytes. */
  function ElementEnd(b: seq<byte>, offsets: seq<nat>, i: nat): nat
    requires i < |offsets|
  {
    if i + 1 < |offsets| then offsets[i + 1] else |b|
  }

  function DecodeElements(b: seq<byte>, offsets: seq<nat>, i: nat): (r: Decoded<seq<Authorization>>)
    requires i <= |offsets|
    requires forall j :: 0 <= j < |offsets| ==> offsets[j] <= |b|
    ensures r.Ok? ==> |r.value| == |offsets| - i
    decreases |offsets| - i
  {
    if i == |offsets| then Ok([]) else
    var start, end := offsets[i], ElementEnd(b, offsets, i);
    if end < start then Err(MalformedSsz(ListNotMonotonic)) else
    var first :- DecodeAuthorization(b[start..end]);
    var rest :- DecodeElements(b, offsets, i + 1);
    Ok([first] + rest)
  }

  function DecodeAuthorizationList(b: seq<byte>): Decoded<seq<Authorization>>
  {
    if b == [] then Ok([]) else
    var first :- ReadU32(b, 0);
    if first == 0 || first % 4 != 0 then Err(MalformedSsz(ListFirstOffset))
    else if first > |b| then Err(MalformedSsz(ListTableTooLong))
    else
      var offsets :- ReadOffsets(b, first, 0);
      DecodeElements(b, offsets, 0)
  }

  function DecodeEnvelope(b: seq<byte>): Decoded<Envelope>
  {
    if |b| < ENVELOPE_FIXED_SIZE then Err(MalformedSsz(EnvelopeTooShort)) else
    var payloadOffset :- ReadU32(b, 0);
    var authorizationsOffset :- ReadU32(b, 4);
    if payloadOffset != ENVELOPE_FIXED_SIZE then
      Err(MalformedSsz(EnvelopePayloadOffset))
    else if authorizationsOffset < payloadOffset || authorizationsOffset > |b| then
      Err(MalformedSsz(EnvelopeAuthorizationsOffset))
    else
      var payload :- DecodePayload(b[payloadOffset..authorizationsOffset]);
      var authorizations :- DecodeAuthorizationList(b[authorizationsOffset..]);
      Ok(Envelope(payload, authorizations))
  }

  // ----- The two list loops -----

  lemma {:induction false} OffsetTableSnoc(offsets: seq<nat>, last: nat)
    ensures OffsetTable(offsets + [last]) == OffsetTable(offsets) + Le(last, 4)
  {
    if offsets == [] {
      assert offsets + [last] == [last];
      assert OffsetTable([last][1..]) == [];
    } else {
      assert (offsets + [last])[1..] == offsets[1..] + [last];
      OffsetTableSnoc(offsets[1..], last);
    }
  }

  lemma {:induction false} ListBodySnoc(auths: seq<Authorization>, last: Authorization)
    ensures ListBody(auths + [last]) == ListBody(auths) + EncodeAuthorization(last)
  {
    if auths == [] {
      assert auths + [last] == [last];
      assert ListBody([last][1..]) == [];
    } else {
      assert (auths + [last])[1..] == auths[1..] + [last];
      ListBodySnoc(auths[1..], last);
    }
  }

  lemma OffsetsStep(auths: seq<Authorization>, next: nat, all: seq<nat>, i: nat)
    requires i < |auths| == |all|
    requires Offsets(auths[i..], next) == all[i..]
    ensures all[i] == next
    ensures Offsets(auths[i + 1..], next + |EncodeAuthorization(auths[i])|) == all[i + 1..]
    ensures OffsetTable(all[..i + 1]) == OffsetTable(all[..i]) + Le(next, 4)
  {
    hide EncodeAuthorization, Le;
    assert auths[i..][1..] == auths[i + 1..] && all[i..][1..] == all[i + 1..];
    assert all[i..][0] == all[i];
    OffsetTableSnoc(all[..i], next);
    assert all[..i + 1] == all[..i] + [next];
  }

  lemma BodyStep(auths: seq<Authorization>, parts: seq<seq<byte>>, i: nat)
    requires i < |auths| && Concat(parts) == ListBody(auths[..i])
    ensures Concat(parts + [EncodeAuthorization(auths[i])]) == ListBody(auths[..i + 1])
  {
    hide EncodeAuthorization;
    ConcatSnoc(parts, EncodeAuthorization(auths[i]));
    ListBodySnoc(auths[..i], auths[i]);
    assert auths[..i + 1] == auths[..i] + [auths[i]];
  }

  lemma WriteNothing(auths: seq<Authorization>, all: seq<nat>)
    ensures auths[0..] == auths && all[0..] == all
    ensures OffsetTable(all[..0]) == [] && ListBody(auths[..0]) == [] && Concat([]) == []
  {
  }

  /** The first encoder loop: the offset table, and the encoded elements in order. */
  method WriteOffsets(auths: seq<Authorization>) returns (r: Decoded<(seq<byte>, seq<seq<byte>>)>)
    ensures r.Ok? <==> forall j :: 0 <= j < |auths| ==> Offsets(auths, 4 * |auths|)[j] < U32_LIMIT
    ensures r.Err? ==> r.error == MalformedSsz(ListOffsetExceedsU32)
    ensures r.Ok? ==> r.value.0 == OffsetTable(Offsets(auths, 4 * |auths|)) && Concat(r.value.1) == ListBody(auths)
  {
    hide *;
    var out: seq<byte>, parts: seq<seq<byte>>, next: nat := [], [], 4 * |auths|;
    ghost var all := Offsets(auths, 4 * |auths|);
    WriteNothing(auths, all);
    var i := 0;
    while i < |auths|
      invariant 0 <= i <= |auths| == |all|
      invariant Offsets(auths[i..], next) == all[i..]
      invariant out == OffsetTable(all[..i])
      invariant forall j :: 0 <= j < i ==> all[j] < U32_LIMIT
      invariant Concat(parts) == ListBody(auths[..i])
    {
      var encoded := EncodeAuthorization(auths[i]);
      OffsetsStep(auths, next, all, i);
      if next >= U32_LIMIT {
        return Err(MalformedSsz(ListOffsetExceedsU32));
      }
      BodyStep(auths, parts, i);
      out, next, parts := out + Le(next, 4), next + |encoded|, parts + [encoded];
      i := i + 1;
    }
    assert all[..i] == all && auths[..i] == auths;
    return Ok((out, parts));
  }

  /** The offset table is written first, then a second loop appends the elements. */
  method EncodeAuthorizationListLoop(auths: seq<Authorization>) returns (r: Decoded<seq<byte>>)
    ensures r == EncodeAuthorizationList(auths)
  {
    hide EncodeAuthorization, Offsets, OffsetTable, ListBody;
    var written := WriteOffsets(auths);
    if written.Err? {
      return Err(written.error);
    }
    var out, parts := written.value.0, written.value.1;
    ghost var table := out;
    var i := 0;
    assert Concat(parts[..0]) == [];
    while i < |parts|
      invariant 0 <= i <= |parts|
      invariant out == table + Concat(parts[..i])
    {
      ConcatPrefix(parts, i);
      out := out + parts[i];
      i := i + 1;
    }
    assert parts[..i] == parts;
    return Ok(out);
  }

  /** The first decoder loop: read the offset table, checking each entry. */
  method CollectOffsets(b: seq<byte>, first: nat) returns (r: Decoded<seq<nat>>)
    ensures r == ReadOffsets(b, first, 0)
  {
    var offsets: seq<nat>, index := [], 0;
    CollectedStep([], 0, ReadOffsets(b, first, 0));
    while index < first / 4
      invariant 0 <= index <= first / 4
      invariant ReadOffsets(b, first, 0) == Collected(offsets, ReadOffsets(b, first, index))
    {
      var offset := ReadU32(b, index * 4);
      if offset.Err? {
        return Err(offset.error);
      }
      if offset.value < first || offset.value > |b| {
        return Err(MalformedSsz(ListElementOffset));
      }
      CollectedStep(offsets, offset.value, ReadOffsets(b, first, index + 1));
      offsets := offsets + [offset.value];
      index := index + 1;
    }
    assert offsets + [] == offsets;
    return Ok(offsets);
  }

  /** The second decoder loop: decode the bytes between consecutive offsets. */
  method CollectElements(b: seq<byte>, offsets: seq<nat>) returns (r: Decoded<seq<Authorization>>)
    requires forall j :: 0 <= j < |offsets| ==> offsets[j] <= |b|
    ensures r == DecodeElements(b, offsets, 0)
  {
    var auths: seq<Authorization>, index := [], 0;
    ghost var all := DecodeElements(b, offsets, 0);
    assert all.Ok? ==> [] + all.value == all.value;
    while index < |offsets|
      invariant 0 <= index <= |offsets|
      invariant all == Collected(auths, DecodeElements(b, offsets, index))
    {
      var start, end := offsets[index], ElementEnd(b, offsets, index);
      if end < start {
        return Err(MalformedSsz(ListNotMonotonic));
      }
      var element := DecodeAuthorization(b[start..end]);
      if element.Err? {
        return Err(element.error);
      }
      CollectedStep(auths, element.value, DecodeElements(b, offsets, index + 1));
      auths := auths + [element.value];
      index := index + 1;
    }
    assert auths + [] == auths;
    return Ok(auths);
  }

  method DecodeAuthorizationListLoop(b: seq<byte>) returns (r: Decoded<seq<Authorization>>)
    ensures r == DecodeAuthorizationList(b)
  {
    if b == [] {
      return Ok([]);
    }
    var first := ReadU32(b, 0);
    if first.Err? {
      return Err(first.error);
    }
    if first.value == 0 || first.value % 4 != 0 {
      return Err(MalformedSsz(ListFirstOffset));
    }
    if first.value > |b| {
      return Err(MalformedSsz(ListTableTooLong));
    }
    var offsets := CollectOffsets(b, first.value);
    if offsets.Err? {
      return Err(offsets.error);
    }
    r := CollectElements(b, offsets.value);
  }
}
