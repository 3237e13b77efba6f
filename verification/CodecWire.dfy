/** The wire format byte by byte, and every rejection of the decoders by the bytes that cause it. */
module CodecWire {
  import opened Bytes
  import opened Transactions
  import opened Codec
  import opened CodecBijection

  // ----- What is written where -----

  lemma HeadWire(p: Payload, tail: seq<byte>)
    ensures var b := EncodeHead(p, tail);
            && |b| == 144 + |tail|
            && b[..32] == p.chainId && b[32..40] == Le(p.nonce, 8) && b[40..48] == Le(p.gasLimit, 8)
            && b[48..80] == p.fees.regular && b[80..112] == p.fees.maxPriorityFee && b[112..144] == p.fees.maxWitnessPriorityFee
            && b[144..] == tail
  {
    hide Le;
    var b, f := EncodeHead(p, tail), p.fees;
    var t5 := f.maxWitnessPriorityFee + tail;
    var t4 := f.maxPriorityFee + t5;
    var t3 := f.regular + t4;
    var t2 := Le(p.gasLimit, 8) + t3;
    var t1 := Le(p.nonce, 8) + t2;
    assert b[0..] == b;
    Peel(b, 0, p.chainId, t1);
    Peel(b, 32, Le(p.nonce, 8), t2);
    Peel(b, 40, Le(p.gasLimit, 8), t3);
    Peel(b, 48, f.regular, t4);
    Peel(b, 80, f.maxPriorityFee, t5);
    Peel(b, 112, f.maxWitnessPriorityFee, tail);
  }

  lemma InnerWire(p: Payload)
    ensures var b := EncodeInner(p);
            if p.Basic? then
              && |b| == 232 + |p.input| && b[144..164] == p.to && b[164..196] == p.value && b[196..200] == Le(232, 4)
              && b[200..232] == p.accessCommitment && b[232..] == p.input
            else
              && |b| == 212 + |p.initcode| && b[144..176] == p.value && b[176..180] == Le(212, 4)
              && b[180..212] == p.accessCommitment && b[212..] == p.initcode
    ensures EncodeInner(p)[..32] == p.chainId && EncodeInner(p)[32..40] == Le(p.nonce, 8) && EncodeInner(p)[40..48] == Le(p.gasLimit, 8)
    ensures EncodeInner(p)[48..80] == p.fees.regular && EncodeInner(p)[80..112] == p.fees.maxPriorityFee
            && EncodeInner(p)[112..144] == p.fees.maxWitnessPriorityFee
  {
    hide Le, EncodeHead;
    var b := EncodeInner(p);
    match p
    case Basic(_, _, _, _, to, value, input, commitment) =>
      var t := Le(BASIC_FIXED_SIZE, 4) + (commitment + input);
      HeadWire(p, to + (value + t));
      Peel(b, 144, to, value + t);
      Peel(b, 164, value, t);
      Peel(b, 196, Le(BASIC_FIXED_SIZE, 4), commitment + input);
      Peel(b, 200, commitment, input);
    case Create(_, _, _, _, value, initcode, commitment) =>
      var t := Le(CREATE_FIXED_SIZE, 4) + (commitment + initcode);
      HeadWire(p, value + t);
      Peel(b, 144, value, t);
      Peel(b, 176, Le(CREATE_FIXED_SIZE, 4), commitment + initcode);
      Peel(b, 180, commitment, initcode);
  }

  /** A payload on the wire: the tag, then the inner bytes, whose fields `InnerWire` places. */
  lemma PayloadWire(p: Payload)
    ensures var b := EncodePayload(p);
            b[0] == (if p.Basic? then 0 else 1) && b[1..] == EncodeInner(p)
  {
    hide EncodeInner;
  }

  lemma AuthorizationWire(a: Authorization)
    ensures var b := EncodeAuthorization(a);
            && |b| == 37 + |a.signature| && b[0] == a.schemeId && b[1..33] == a.payloadRoot
            && b[33..37] == Le(37, 4) && b[37..] == a.signature
  {
    hide Le;
    var b, t := EncodeAuthorization(a), Le(AUTHORIZATION_FIXED_SIZE, 4) + a.signature;
    assert b[1..] == a.payloadRoot + t;
    Peel(b, 1, a.payloadRoot, t);
    Peel(b, 33, Le(AUTHORIZATION_FIXED_SIZE, 4), a.signature);
  }

  /** Where authorization i starts: behind a table of four bytes each and the authorizations before it. */
  function Position(auths: seq<Authorization>, i: nat): nat
    requires i <= |auths|
  {
    if i == 0 then 4 * |auths| else Position(auths, i - 1) + 37 + |auths[i - 1].signature|
  }

  lemma {:induction false} OffsetsAt(auths: seq<Authorization>, i: nat)
    requires i < |auths|
    ensures Offsets(auths, 4 * |auths|)[i] == Position(auths, i)
  {
    if i > 0 {
      OffsetsAt(auths, i - 1);
      OffsetsStepAt(auths, 4 * |auths|, i);
    }
  }

  lemma {:induction false} OffsetsStepAt(auths: seq<Authorization>, next: nat, i: nat)
    requires 0 < i < |auths|
    ensures Offsets(auths, next)[i] == Offsets(auths, next)[i - 1] + 37 + |auths[i - 1].signature|
    decreases i
  {
    if i > 1 {
      OffsetsStepAt(auths[1..], next + |EncodeAuthorization(auths[0])|, i - 1);
    }
  }

  lemma FitIffPositions(auths: seq<Authorization>)
    ensures OffsetsFit(auths) <==> forall i :: 0 <= i < |auths| ==> Position(auths, i) < U32_LIMIT
  {
    hide Offsets;
    if OffsetsFit(auths) {
      forall i | 0 <= i < |auths|
        ensures Position(auths, i) < U32_LIMIT
      {
        OffsetsAt(auths, i);
        assert Offsets(auths, 4 * |auths|)[i] < U32_LIMIT;
      }
    } else {
      var i :| 0 <= i < |auths| && Offsets(auths, 4 * |auths|)[i] >= U32_LIMIT;
      OffsetsAt(auths, i);
      assert Position(auths, i) >= U32_LIMIT;
    }
  }

  /** The list encoder fails exactly when a position does not fit in 32 bits; else the table holds the positions. */
  lemma ListWire(auths: seq<Authorization>)
    ensures var r := EncodeAuthorizationList(auths);
            && (r.Ok? <==> forall i :: 0 <= i < |auths| ==> Position(auths, i) < 0x1_0000_0000)
            && (r.Err? ==> r.error == MalformedSsz(ListOffsetExceedsU32))
            && (r.Ok? ==> |r.value| == Position(auths, |auths|) && forall i :: 0 <= i < |auths| ==> WrittenAt(r.value, auths, i))
  {
    hide EncodeAuthorization, OffsetTable, ListBody, Le, Offsets;
    FitIffPositions(auths);
    if OffsetsFit(auths) {
      if auths == [] {
        EmptyWire();
      } else {
        ElementWire(auths, |auths| - 1);
      }
      forall i | 0 <= i < |auths|
        ensures WrittenAt(EncodeAuthorizationList(auths).value, auths, i)
      {
        ElementWire(auths, i);
      }
    }
  }

  /** Table entry i holds the position of authorization i, and the authorization stands there. */
  ghost predicate WrittenAt(b: seq<byte>, auths: seq<Authorization>, i: nat)
    requires i < |auths|
  {
    var at := Position(auths, i);
    && 4 * i + 4 <= at && at + 37 + |auths[i].signature| <= |b|
    && b[4 * i..4 * i + 4] == Le(at, 4)
    && b[at..at + 37 + |auths[i].signature|] == EncodeAuthorization(auths[i])
  }

  lemma {:induction false} PositionGrows(auths: seq<Authorization>, i: nat)
    requires i <= |auths|
    ensures Position(auths, i) >= 4 * |auths|
  {
    if i > 0 {
      PositionGrows(auths, i - 1);
    }
  }

  lemma EmptyWire()
    ensures EncodeAuthorizationList([]) == Ok([])
  {
    assert OffsetTable(Offsets([], 0)) + ListBody([]) == [];
  }

  lemma EntryWire(auths: seq<Authorization>, i: nat)
    requires OffsetsFit(auths) && i < |auths|
    ensures var b := EncodeAuthorizationList(auths).value;
            4 * i + 4 <= |b| && b[4 * i..4 * i + 4] == Le(Position(auths, i), 4)
  {
    hide EncodeAuthorization, OffsetTable, ListBody, Le, Offsets, ReadU32, Position;
    var offsets, b := Offsets(auths, 4 * |auths|), EncodeAuthorizationList(auths).value;
    TableReadsBack(auths, offsets, b);
    OffsetsAt(auths, i);
    assert ReadU32(b, i * 4) == Ok(offsets[i]);
    EntryBytes(b, i * 4);
  }

  lemma ElementWire(auths: seq<Authorization>, i: nat)
    requires OffsetsFit(auths) && i < |auths|
    ensures WrittenAt(EncodeAuthorizationList(auths).value, auths, i)
    ensures i + 1 == |auths| ==> |EncodeAuthorizationList(auths).value| == Position(auths, |auths|)
  {
    hide EncodeAuthorization, OffsetTable, ListBody, Le, Offsets, OffsetsFit;
    EntryWire(auths, i);
    PositionGrows(auths, i);
    var offsets, b := Offsets(auths, 4 * |auths|), EncodeAuthorizationList(auths).value;
    BodyReadsBack(auths, offsets, b);
    OffsetsAt(auths, i);
    assert b[offsets[i]..ElementEnd(b, offsets, i)] == EncodeAuthorization(auths[i]);
    assert |EncodeAuthorization(auths[i])| == 37 + |auths[i].signature|;
  }

  /** An envelope on the wire: both offsets, the payload, the authorizations; list errors come before its own. */
  lemma EnvelopeWire(e: Envelope)
    ensures var r, list, n := EncodeEnvelope(e), EncodeAuthorizationList(e.authorizations), |EncodePayload(e.payload)|;
            && (list.Err? ==> r == Err(list.error))
            && (list.Ok? && 8 + n >= 0x1_0000_0000 ==> r == Err(MalformedSsz(EnvelopeOffsetExceedsU32)))
            && (list.Ok? && 8 + n < 0x1_0000_0000 ==>
                  && r.Ok? && |r.value| == 8 + n + |list.value|
                  && r.value[..4] == Le(8, 4) && r.value[4..8] == Le(8 + n, 4)
                  && r.value[8..8 + n] == EncodePayload(e.payload) && r.value[8 + n..] == list.value)
  {
    hide EncodePayload, EncodeAuthorizationList, Le;
    var payload, list := EncodePayload(e.payload), EncodeAuthorizationList(e.authorizations);
    if list.Ok? && 8 + |payload| < U32_LIMIT {
      var b := EncodeEnvelope(e).value;
      assert b[0..] == b;
      Peel(b, 0, Le(8, 4), Le(8 + |payload|, 4) + (payload + list.value));
      Peel(b, 4, Le(8 + |payload|, 4), payload + list.value);
      Peel(b, 8, payload, list.value);
    }
  }

  // ----- What is rejected, and why -----

  lemma ReadIs(b: seq<byte>, at: nat, n: u32)
    requires at + 4 <= |b|
    ensures ReadU32(b, at).Ok? && (ReadU32(b, at).value == n <==> b[at..at + 4] == Le(n, 4))
  {
    LeOfUnLe(b[at..at + 4]);
    U32RoundTrip(n);
  }

  /** A payload is rejected for being empty, its tag, too few bytes, or the offset of its variable part. */
  lemma PayloadDecodes(b: seq<byte>)
    ensures var r := DecodePayload(b);
            if b == [] then r == Err(MalformedSsz(PayloadEmpty))
            else if b[0] == 0 then
              if |b| < 233 then r == Err(MalformedSsz(BasicTooShort))
              else if b[197..201] != Le(232, 4) then r == Err(MalformedSsz(BasicInputOffset))
              else r.Ok? && r.value.Basic?
            else if b[0] == 1 then
              if |b| < 213 then r == Err(MalformedSsz(CreateTooShort))
              else if b[177..181] != Le(212, 4) then r == Err(MalformedSsz(CreateInitcodeOffset))
              else r.Ok? && r.value.Create?
            else r == Err(UnsupportedPayloadVariant(b[0]))
  {
    hide Le, UnLe;
    if |b| >= 233 && b[0] == 0 {
      assert b[1..][196..200] == b[197..201];
      ReadIs(b[1..], 196, 232);
    } else if |b| >= 213 && b[0] == 1 {
      assert b[1..][176..180] == b[177..181];
      ReadIs(b[1..], 176, 212);
    }
  }

  lemma AuthorizationDecodes(b: seq<byte>)
    ensures var r := DecodeAuthorization(b);
            if |b| < 37 then r == Err(MalformedSsz(AuthorizationTooShort))
            else if b[33..37] != Le(37, 4) then r == Err(MalformedSsz(AuthorizationSignatureOffset))
            else r.Ok?
  {
    hide Le, UnLe;
    if |b| >= 37 {
      ReadIs(b, 33, 37);
    }
  }

  /** Entry j of the offset table. */
  function Entry(b: seq<byte>, j: nat): nat
    requires 4 * j + 4 <= |b|
  {
    UnLe(b[4 * j..4 * j + 4])
  }

  ghost predicate EntriesInRange(b: seq<byte>, first: nat, from: nat)
    requires first <= |b|
  {
    forall j :: from <= j < first / 4 ==> first <= Entry(b, j) <= |b|
  }

  lemma {:induction false} TableDecodes(b: seq<byte>, first: nat, i: nat)
    requires i <= first / 4 && first <= |b|
    ensures var r := ReadOffsets(b, first, i);
            && (r.Ok? <==> EntriesInRange(b, first, i))
            && (r.Ok? ==> forall j :: 0 <= j < |r.value| ==> r.value[j] == Entry(b, i + j))
            && (r.Err? ==> r.error == MalformedSsz(ListElementOffset))
    decreases first / 4 - i
  {
    hide UnLe;
    if i < first / 4 {
      TableDecodes(b, first, i + 1);
      assert ReadU32(b, i * 4) == Ok(Entry(b, i));
      var rest := ReadOffsets(b, first, i + 1);
      if rest.Ok? && ReadOffsets(b, first, i).Ok? {
        forall j | 0 <= j < |rest.value| + 1
          ensures ([Entry(b, i)] + rest.value)[j] == Entry(b, i + j)
        {
          assert j > 0 ==> rest.value[j - 1] == Entry(b, i + 1 + (j - 1));
        }
      }
    }
  }

  /** Element i decodes: its bytes are in order and hold an authorization. */
  ghost predicate ElementDecodes(b: seq<byte>, offsets: seq<nat>, i: nat)
    requires i < |offsets| && forall j :: 0 <= j < |offsets| ==> offsets[j] <= |b|
  {
    var start, end := offsets[i], if i + 1 < |offsets| then offsets[i + 1] else |b|;
    start <= end && DecodeAuthorization(b[start..end]).Ok?
  }

  /** Element i is what is wrong: its end comes before its start, or its bytes hold no authorization. */
  ghost predicate ElementRejected(b: seq<byte>, offsets: seq<nat>, i: nat, e: PrimitiveError)
    requires i < |offsets| && forall j :: 0 <= j < |offsets| ==> offsets[j] <= |b|
  {
    var start, end := offsets[i], if i + 1 < |offsets| then offsets[i + 1] else |b|;
    if end < start then e == MalformedSsz(ListNotMonotonic) else DecodeAuthorization(b[start..end]) == Err(e)
  }

  lemma {:induction false} ElementsDecode(b: seq<byte>, offsets: seq<nat>, i: nat)
    requires i <= |offsets| && forall j :: 0 <= j < |offsets| ==> offsets[j] <= |b|
    ensures var r := DecodeElements(b, offsets, i);
            && (r.Ok? <==> forall j :: i <= j < |offsets| ==> ElementDecodes(b, offsets, j))
            && (r.Err? ==> exists k :: i <= k < |offsets| && ElementRejected(b, offsets, k, r.error)
                                       && forall j :: i <= j < k ==> ElementDecodes(b, offsets, j))
    decreases |offsets| - i
  {
    hide DecodeAuthorization;
    if i < |offsets| {
      ElementsDecode(b, offsets, i + 1);
      var r := DecodeElements(b, offsets, i);
      if !ElementDecodes(b, offsets, i) {
        assert ElementRejected(b, offsets, i, r.error);
      } else if r.Err? {
        var k :| i + 1 <= k < |offsets| && ElementRejected(b, offsets, k, r.error)
                 && forall j :: i + 1 <= j < k ==> ElementDecodes(b, offsets, j);
        assert forall j :: i <= j < k ==> ElementDecodes(b, offsets, j);
      }
    }
  }

  /** A list is rejected for a truncated or impossible first offset, an offset out of range, or its first bad element. */
  lemma ListDecodes(b: seq<byte>)
    ensures var r := DecodeAuthorizationList(b);
            if b == [] then r == Ok([])
            else if |b| < 4 then r == Err(MalformedSsz(TruncatedU32))
            else
              var first := Entry(b, 0);
              if first == 0 || first % 4 != 0 then r == Err(MalformedSsz(ListFirstOffset))
              else if first > |b| then r == Err(MalformedSsz(ListTableTooLong))
              else if !EntriesInRange(b, first, 0) then r == Err(MalformedSsz(ListElementOffset))
              else exists offsets: seq<nat> :: TableIs(b, first, offsets) && ElementsDecide(b, offsets, r)
  {
    hide DecodeAuthorization, UnLe, ReadOffsets, DecodeElements;
    if |b| >= 4 {
      var first := Entry(b, 0);
      assert ReadU32(b, 0) == Ok(first);
      if first != 0 && first % 4 == 0 && first <= |b| {
        TableDecodes(b, first, 0);
        var offsets := ReadOffsets(b, first, 0);
        if offsets.Ok? {
          assert forall j :: 0 <= j < |offsets.value| ==> offsets.value[j] == Entry(b, 0 + j);
          assert TableIs(b, first, offsets.value);
          ElementsDecode(b, offsets.value, 0);
          assert ElementsDecide(b, offsets.value, DecodeAuthorizationList(b));
        }
      }
    }
  }

  ghost predicate TableIs(b: seq<byte>, first: nat, offsets: seq<nat>)
    requires first <= |b|
  {
    |offsets| == first / 4 && forall j :: 0 <= j < |offsets| ==> offsets[j] == Entry(b, j) <= |b|
  }

  ghost predicate ElementsDecide(b: seq<byte>, offsets: seq<nat>, r: Decoded<seq<Authorization>>)
    requires forall j :: 0 <= j < |offsets| ==> offsets[j] <= |b|
  {
    if r.Ok? then forall j :: 0 <= j < |offsets| ==> ElementDecodes(b, offsets, j)
    else exists k :: 0 <= k < |offsets| && ElementRejected(b, offsets, k, r.error)
                     && forall j :: 0 <= j < k ==> ElementDecodes(b, offsets, j)
  }

  /** An envelope is rejected for too few bytes, either offset, its payload, or its authorizations, in that order. */
  lemma EnvelopeDecodes(b: seq<byte>)
    ensures var r := DecodeEnvelope(b);
            if |b| < 8 then r == Err(MalformedSsz(EnvelopeTooShort))
            else
              var split := UnLe(b[4..8]);
              if b[..4] != Le(8, 4) then r == Err(MalformedSsz(EnvelopePayloadOffset))
              else if split < 8 || split > |b| then r == Err(MalformedSsz(EnvelopeAuthorizationsOffset))
              else if DecodePayload(b[8..split]).Err? then r == Err(DecodePayload(b[8..split]).error)
              else if DecodeAuthorizationList(b[split..]).Err? then r == Err(DecodeAuthorizationList(b[split..]).error)
              else r == Ok(Envelope(DecodePayload(b[8..split]).value, DecodeAuthorizationList(b[split..]).value))
  {
    hide DecodePayload, DecodeAuthorizationList, Le, UnLe;
    if |b| >= 8 {
      assert b[0..0 + 4] == b[..4];
      ReadIs(b, 0, 8);
    }
  }
}
