/** Mempool admission: structural screen, fee and nonce policy, and RequireAll authorization. */
module Admission {
  import opened Bytes
  import opened Transactions
  import opened HashTreeRoot
  import opened RootBinding
  import opened Fees
  import Registry

  const MAX_USER_SIGNATURE_BYTES := 8 * 1024

  datatype AuthorizationDomain = Canonical | Explicit(domainType: Bytes4)

  datatype Policy = Policy(payloadBaseFee: U256, witnessBaseFee: U256, maxFutureNonceGap: u64, domain: AuthorizationDomain)

  datatype FeeLane = PayloadLane | WitnessLane

  datatype NonceFailure = NonceTooLow | NonceTooHigh

  datatype ValidationError =
    | Primitive(primitive: PrimitiveError)
    | UnsupportedScheme(schemeId: byte)
    | DispatchSizeExceeded(maxSize: nat, actualSize: nat, path: Registry.VerificationPath, kind: Registry.SignatureLimitKind)
    | SignatureVerification(failure: Registry.Failure)
    | FeeFloor(lane: FeeLane, required: U256, actual: U256)
    | NoncePolicy(nonce: NonceFailure)
    | AuthorizationMaterialCount(expected: nat, actualCount: nat)

  datatype TentativeAccepted = TentativeAccepted(payloadRoot: Root, authorizationCount: nat)

  datatype AuthorizationValidated = AuthorizationValidated(payloadRoot: Root, signingRoot: Root, verifiedCount: nat)

  datatype DispatchCall = DispatchCall(schemeId: byte, request: Registry.Request)

  /** A dispatcher may answer by anything it has been asked before, so any stateful one is covered. */
  type Dispatcher = (seq<DispatchCall>, byte, Registry.Request) -> Result<Unit, Registry.CryptoError>

  /** The nonce observed for an envelope, if the view knows one. */
  type StateView = Envelope -> Option<u64>

  // ----- Screening -----

  function CheckPayloadRoots(auths: seq<Authorization>, expected: Root): Result<Unit, PrimitiveError>
  {
    if auths == [] then Ok(Unit)
    else if auths[0].payloadRoot != expected then Err(PayloadRootMismatch(expected, auths[0].payloadRoot))
    else CheckPayloadRoots(auths[1..], expected)
  }

  function CheckSignatureSizes(auths: seq<Authorization>): Result<Unit, PrimitiveError>
  {
    if auths == [] then Ok(Unit)
    else if |auths[0].signature| > MAX_USER_SIGNATURE_BYTES then
      Err(SignatureSizeExceeded(MAX_USER_SIGNATURE_BYTES, |auths[0].signature|))
    else CheckSignatureSizes(auths[1..])
  }

  function CheckFees(policy: Policy, fees: FeesPerGas): Result<Unit, ValidationError>
  {
    if !GasPriceCovers(fees.regular, policy.payloadBaseFee) then
      Err(FeeFloor(PayloadLane, policy.payloadBaseFee, fees.regular))
    else if !GasPriceCovers(fees.maxWitnessPriorityFee, policy.witnessBaseFee) then
      Err(FeeFloor(WitnessLane, policy.witnessBaseFee, fees.maxWitnessPriorityFee))
    else Ok(Unit)
  }

  function SaturatingAdd(a: u64, b: u64): u64
  {
    if a + b < U64_LIMIT then a + b else U64_LIMIT - 1
  }

  function Observed(view: Option<StateView>, env: Envelope): Option<u64>
  {
    match view case None => None case Some(v) => v(env)
  }

  function CheckNonce(policy: Policy, nonce: u64, observed: Option<u64>): Result<Unit, ValidationError>
  {
    match observed
    case None => Ok(Unit)
    case Some(o) =>
      if nonce < o then Err(NoncePolicy(NonceTooLow))
      else if nonce > SaturatingAdd(o, policy.maxFutureNonceGap) then Err(NoncePolicy(NonceTooHigh))
      else Ok(Unit)
  }

  function Lift<T>(r: Result<T, PrimitiveError>): Result<T, ValidationError>
  {
    match r case Ok(v) => Ok(v) case Err(e) => Err(Primitive(e))
  }

  function Screen(sha: Sha, policy: Policy, env: Envelope, view: Option<StateView>): Result<TentativeAccepted, ValidationError>
  {
    var payloadRoot := PayloadRoot(sha, env.payload).root;
    if env.authorizations == [] then Err(Primitive(AuthorizationCount(1, 0))) else
    var _ :- Lift(CheckPayloadRoots(env.authorizations, payloadRoot));
    var _ :- Lift(CheckSignatureSizes(env.authorizations));
    var _ :- CheckFees(policy, env.payload.fees);
    var _ :- CheckNonce(policy, env.payload.nonce, Observed(view, env));
    Ok(TentativeAccepted(payloadRoot, |env.authorizations|))
  }

  // ----- Authorization -----

  function SigningRootFor(sha: Sha, domain: AuthorizationDomain, payloadRoot: Root): Root
  {
    SigningRoot(sha, SigningData(payloadRoot, if domain.Canonical? then DOMAIN_TX_SHELL else domain.domainType)).root
  }

  /** The calls RequireAll makes when nothing fails: one per authorization, in order, one signing root. */
  function Calls(signingRoot: Root, auths: seq<Authorization>, materials: seq<seq<byte>>): (calls: seq<DispatchCall>)
    requires |auths| == |materials|
    ensures |calls| == |auths|
    ensures forall i :: 0 <= i < |calls| ==>
      calls[i] == DispatchCall(auths[i].schemeId, Registry.Request(materials[i], signingRoot, auths[i].signature))
  {
    if auths == [] then []
    else [DispatchCall(auths[0].schemeId, Registry.Request(materials[0], signingRoot, auths[0].signature))]
         + Calls(signingRoot, auths[1..], materials[1..])
  }

  function MapCryptoError(e: Registry.CryptoError): ValidationError
  {
    match e
    case UnsupportedScheme(id) => UnsupportedScheme(id)
    case SignatureSizeExceeded(maxSize, actualSize, path, kind) => DispatchSizeExceeded(maxSize, actualSize, path, kind)
    case VerificationFailed(f) => SignatureVerification(f)
  }

  function Answer(d: Dispatcher, calls: seq<DispatchCall>, i: nat): Result<Unit, Registry.CryptoError>
    requires i < |calls|
  {
    d(calls[..i], calls[i].schemeId, calls[i].request)
  }

  /** The first call from `i` on that is refused, or the number of calls. */
  function FirstRefused(d: Dispatcher, calls: seq<DispatchCall>, i: nat): (k: nat)
    requires i <= |calls|
    ensures i <= k <= |calls|
    ensures forall j :: i <= j < k ==> Answer(d, calls, j).Ok?
    ensures k < |calls| ==> Answer(d, calls, k).Err?
    decreases |calls| - i
  {
    if i == |calls| || Answer(d, calls, i).Err? then i else FirstRefused(d, calls, i + 1)
  }

  /** A result together with everything the dispatcher was asked on the way. */
  datatype Traced = Traced(result: Result<AuthorizationValidated, ValidationError>, calls: seq<DispatchCall>)

  function VerifyAuthorizations(sha: Sha, d: Dispatcher, policy: Policy, env: Envelope, accepted: TentativeAccepted, materials: seq<seq<byte>>): Traced
  {
    var auths := env.authorizations;
    if |materials| != |auths| then Traced(Err(AuthorizationMaterialCount(|auths|, |materials|)), []) else
    var signingRoot := SigningRootFor(sha, policy.domain, accepted.payloadRoot);
    var calls := Calls(signingRoot, auths, materials);
    var k := FirstRefused(d, calls, 0);
    if k < |calls| then Traced(Err(MapCryptoError(Answer(d, calls, k).error)), calls[..k + 1])
    else Traced(Ok(AuthorizationValidated(accepted.payloadRoot, signingRoot, |auths|)), calls)
  }

  function AdmitAndVerify(sha: Sha, d: Dispatcher, policy: Policy, env: Envelope, view: Option<StateView>, materials: seq<seq<byte>>): Traced
  {
    match Screen(sha, policy, env, view)
    case Err(e) => Traced(Err(e), [])
    case Ok(accepted) => VerifyAuthorizations(sha, d, policy, env, accepted, materials)
  }

  // ----- The loops -----

  method CheckPayloadRootsLoop(auths: seq<Authorization>, expected: Root) returns (r: Result<Unit, PrimitiveError>)
    ensures r == CheckPayloadRoots(auths, expected)
  {
    var i := 0;
    assert auths[0..] == auths;
    while i < |auths|
      invariant 0 <= i <= |auths|
      invariant CheckPayloadRoots(auths, expected) == CheckPayloadRoots(auths[i..], expected)
    {
      assert auths[i..][1..] == auths[i + 1..];
      if auths[i].payloadRoot != expected {
        return Err(PayloadRootMismatch(expected, auths[i].payloadRoot));
      }
      i := i + 1;
    }
    return Ok(Unit);
  }

  method ScreenTransaction(sha: Sha, policy: Policy, env: Envelope, view: Option<StateView>) returns (r: Result<TentativeAccepted, ValidationError>)
    ensures r == Screen(sha, policy, env, view)
  {
    hide PayloadRoot, CheckFees, CheckNonce;
    var auths := env.authorizations;
    var payloadRoot := PayloadRoot(sha, env.payload).root;
    if auths == [] {
      return Err(Primitive(AuthorizationCount(1, 0)));
    }
    var roots := CheckPayloadRootsLoop(auths, payloadRoot);
    if roots.Err? {
      return Err(Primitive(roots.error));
    }
    var i := 0;
    assert auths[0..] == auths;
    while i < |auths|
      invariant 0 <= i <= |auths|
      invariant CheckSignatureSizes(auths) == CheckSignatureSizes(auths[i..])
    {
      assert auths[i..][1..] == auths[i + 1..];
      if |auths[i].signature| > MAX_USER_SIGNATURE_BYTES {
        return Err(Primitive(SignatureSizeExceeded(MAX_USER_SIGNATURE_BYTES, |auths[i].signature|)));
      }
      i := i + 1;
    }
    var fees := CheckFees(policy, env.payload.fees);
    if fees.Err? {
      return Err(fees.error);
    }
    var nonce := CheckNonce(policy, env.payload.nonce, Observed(view, env));
    if nonce.Err? {
      return Err(nonce.error);
    }
    return Ok(TentativeAccepted(payloadRoot, |auths|));
  }

  /** Asks for each authorization in turn and stops at the first refusal. */
  method VerifyAuthorizationsLoop(sha: Sha, d: Dispatcher, policy: Policy, env: Envelope, accepted: TentativeAccepted, materials: seq<seq<byte>>)
    returns (r: Traced)
    ensures r == VerifyAuthorizations(sha, d, policy, env, accepted, materials)
  {
    hide SigningRootFor;
    var auths := env.authorizations;
    if |materials| != |auths| {
      return Traced(Err(AuthorizationMaterialCount(|auths|, |materials|)), []);
    }
    var signingRoot := SigningRootFor(sha, policy.domain, accepted.payloadRoot);
    ghost var all := Calls(signingRoot, auths, materials);
    var calls: seq<DispatchCall>, i := [], 0;
    while i < |auths|
      invariant 0 <= i <= |auths|
      invariant calls == all[..i]
      invariant FirstRefused(d, all, 0) == FirstRefused(d, all, i)
    {
      var request := Registry.Request(materials[i], signingRoot, auths[i].signature);
      var answer := d(calls, auths[i].schemeId, request);
      assert all[i] == DispatchCall(auths[i].schemeId, request);
      calls := calls + [DispatchCall(auths[i].schemeId, request)];
      assert calls == all[..i + 1];
      if answer.Err? {
        return Traced(Err(MapCryptoError(answer.error)), calls);
      }
      i := i + 1;
    }
    assert all[..i] == all;
    return Traced(Ok(AuthorizationValidated(accepted.payloadRoot, signingRoot, |auths|)), calls);
  }

  method AdmitAndVerifyLoop(sha: Sha, d: Dispatcher, policy: Policy, env: Envelope, view: Option<StateView>, materials: seq<seq<byte>>)
    returns (r: Traced)
    ensures r == AdmitAndVerify(sha, d, policy, env, view, materials)
  {
    hide Screen, VerifyAuthorizations;
    var accepted := ScreenTransaction(sha, policy, env, view);
    if accepted.Err? {
      return Traced(Err(accepted.error), []);
    }
    r := VerifyAuthorizationsLoop(sha, d, policy, env, accepted.value, materials);
  }

  // ----- What admission means -----

  /**
   * Every structural, fee and nonce rule, with fees and nonces as numbers. With an observed nonce o the window
   * is [o, o + gap]; a nonce is 64 bits wide, so saturation cuts nothing off.
   */
  ghost predicate PassesScreen(sha: Sha, policy: Policy, env: Envelope, observed: Option<u64>)
  {
    var auths := env.authorizations;
    && auths != []
    && (forall i :: 0 <= i < |auths| ==> auths[i].payloadRoot == PayloadRoot(sha, env.payload).root)
    && (forall i :: 0 <= i < |auths| ==> |auths[i].signature| <= 8_192)
    && UnLe(env.payload.fees.regular) >= UnLe(policy.payloadBaseFee)
    && UnLe(env.payload.fees.maxWitnessPriorityFee) >= UnLe(policy.witnessBaseFee)
    && (observed.Some? ==> observed.value <= env.payload.nonce <= observed.value + policy.maxFutureNonceGap)
  }

  lemma {:induction false} PayloadRootsExact(auths: seq<Authorization>, expected: Root)
    ensures CheckPayloadRoots(auths, expected).Ok? <==> forall i :: 0 <= i < |auths| ==> auths[i].payloadRoot == expected
  {
    if auths != [] {
      PayloadRootsExact(auths[1..], expected);
      assert auths == [auths[0]] + auths[1..];
    }
  }

  lemma {:induction false} SignatureSizesExact(auths: seq<Authorization>)
    ensures CheckSignatureSizes(auths).Ok? <==>
            forall i :: 0 <= i < |auths| ==> |auths[i].signature| <= MAX_USER_SIGNATURE_BYTES
  {
    if auths != [] {
      SignatureSizesExact(auths[1..]);
      assert auths == [auths[0]] + auths[1..];
    }
  }

  lemma NonceExact(policy: Policy, nonce: u64, observed: Option<u64>)
    ensures CheckNonce(policy, nonce, observed).Ok? <==>
            (observed.Some? ==> observed.value <= nonce <= observed.value + policy.maxFutureNonceGap)
  {
  }

  lemma ScreenExact(sha: Sha, policy: Policy, env: Envelope, view: Option<StateView>)
    ensures Screen(sha, policy, env, view).Ok? <==>
            PassesScreen(sha, policy, env, match view case None => None case Some(v) => v(env))
    ensures Screen(sha, policy, env, view).Ok? ==>
            Screen(sha, policy, env, view).value == TentativeAccepted(PayloadRoot(sha, env.payload).root, |env.authorizations|)
  {
    hide PayloadRoot, CompareU256, UnLe;
    PayloadRootsExact(env.authorizations, PayloadRoot(sha, env.payload).root);
    SignatureSizesExact(env.authorizations);
    CompareU256IsNumeric(env.payload.fees.regular, policy.payloadBaseFee);
    CompareU256IsNumeric(env.payload.fees.maxWitnessPriorityFee, policy.witnessBaseFee);
    NonceExact(policy, env.payload.nonce, Observed(view, env));
  }

  lemma {:induction false} FirstMismatch(auths: seq<Authorization>, expected: Root, k: nat)
    requires k < |auths| && auths[k].payloadRoot != expected
    requires forall i :: 0 <= i < k ==> auths[i].payloadRoot == expected
    ensures CheckPayloadRoots(auths, expected) == Err(PayloadRootMismatch(expected, auths[k].payloadRoot))
    decreases k
  {
    if k > 0 {
      FirstMismatch(auths[1..], expected, k - 1);
    }
  }

  lemma {:induction false} FirstOversize(auths: seq<Authorization>, k: nat)
    requires k < |auths| && |auths[k].signature| > MAX_USER_SIGNATURE_BYTES
    requires forall i :: 0 <= i < k ==> |auths[i].signature| <= MAX_USER_SIGNATURE_BYTES
    ensures CheckSignatureSizes(auths) == Err(SignatureSizeExceeded(MAX_USER_SIGNATURE_BYTES, |auths[k].signature|))
    decreases k
  {
    if k > 0 {
      FirstOversize(auths[1..], k - 1);
    }
  }

  /** Which check a rejected envelope failed first, structure before fees before nonce. */
  ghost predicate RejectedFor(sha: Sha, policy: Policy, env: Envelope, observed: Option<u64>, e: ValidationError)
  {
    var auths, root := env.authorizations, PayloadRoot(sha, env.payload).root;
    var rootsHold := forall i :: 0 <= i < |auths| ==> auths[i].payloadRoot == root;
    var sizesHold := forall i :: 0 <= i < |auths| ==> |auths[i].signature| <= 8_192;
    var payloadFee, witnessFee := env.payload.fees.regular, env.payload.fees.maxWitnessPriorityFee;
    if auths == [] then e == Primitive(AuthorizationCount(1, 0))
    else if !rootsHold then
      exists k :: 0 <= k < |auths| && auths[k].payloadRoot != root && e == Primitive(PayloadRootMismatch(root, auths[k].payloadRoot))
                  && forall i :: 0 <= i < k ==> auths[i].payloadRoot == root
    else if !sizesHold then
      exists k :: 0 <= k < |auths| && |auths[k].signature| > 8_192
                  && e == Primitive(SignatureSizeExceeded(8_192, |auths[k].signature|))
                  && forall i :: 0 <= i < k ==> |auths[i].signature| <= 8_192
    else if UnLe(payloadFee) < UnLe(policy.payloadBaseFee) then e == FeeFloor(PayloadLane, policy.payloadBaseFee, payloadFee)
    else if UnLe(witnessFee) < UnLe(policy.witnessBaseFee) then e == FeeFloor(WitnessLane, policy.witnessBaseFee, witnessFee)
    else observed.Some? &&
         e == NoncePolicy(if env.payload.nonce < observed.value then NonceTooLow else NonceTooHigh)
  }

  /** A rejection names the earliest failing check, and within a loop its first offender. */
  lemma ScreenRejects(sha: Sha, policy: Policy, env: Envelope, view: Option<StateView>)
    ensures Screen(sha, policy, env, view).Err? ==>
            RejectedFor(sha, policy, env, match view case None => None case Some(v) => v(env), Screen(sha, policy, env, view).error)
  {
    hide PayloadRoot, CompareU256, UnLe;
    var auths, root := env.authorizations, PayloadRoot(sha, env.payload).root;
    PayloadRootsExact(auths, root);
    SignatureSizesExact(auths);
    CompareU256IsNumeric(env.payload.fees.regular, policy.payloadBaseFee);
    CompareU256IsNumeric(env.payload.fees.maxWitnessPriorityFee, policy.witnessBaseFee);
    if auths != [] && CheckPayloadRoots(auths, root).Err? {
      var k := First(auths, (a: Authorization) => a.payloadRoot != root);
      FirstMismatch(auths, root, k);
    } else if auths != [] && CheckSignatureSizes(auths).Err? {
      var k := First(auths, (a: Authorization) => |a.signature| > MAX_USER_SIGNATURE_BYTES);
      FirstOversize(auths, k);
    }
  }

  /** All the calls a fully verified envelope leads to. */
  function AdmissionCalls(sha: Sha, policy: Policy, env: Envelope, materials: seq<seq<byte>>): seq<DispatchCall>
    requires |materials| == |env.authorizations|
  {
    Calls(SigningRootFor(sha, policy.domain, PayloadRoot(sha, env.payload).root), env.authorizations, materials)
  }

  /** The root that is signed, and the questions asked: one per authorization, in order, each about that root. */
  lemma AdmissionAsks(sha: Sha, policy: Policy, env: Envelope, materials: seq<seq<byte>>)
    requires |materials| == |env.authorizations|
    ensures var domain := if policy.domain.Canonical? then [1, 0, 0, 0] else policy.domain.domainType;
            var signed := sha(PayloadRoot(sha, env.payload).root + PadRight(domain));
            && SigningRootFor(sha, policy.domain, PayloadRoot(sha, env.payload).root) == signed
            && |AdmissionCalls(sha, policy, env, materials)| == |env.authorizations|
            && forall i :: 0 <= i < |env.authorizations| ==>
                 AdmissionCalls(sha, policy, env, materials)[i] ==
                 DispatchCall(env.authorizations[i].schemeId, Registry.Request(materials[i], signed, env.authorizations[i].signature))
  {
    hide PayloadRoot, PadRight, SigningRoot;
    var domain := if policy.domain.Canonical? then DOMAIN_TX_SHELL else policy.domain.domainType;
    PairRootsSpelledOut(sha, env, PayloadRoot(sha, env.payload).root, domain);
  }

  /** The exact condition for admission. */
  ghost predicate Admits(sha: Sha, d: Dispatcher, policy: Policy, env: Envelope, observed: Option<u64>, materials: seq<seq<byte>>)
  {
    && PassesScreen(sha, policy, env, observed)
    && |materials| == |env.authorizations|
    && var calls := AdmissionCalls(sha, policy, env, materials);
    forall i :: 0 <= i < |calls| ==> d(calls[..i], calls[i].schemeId, calls[i].request).Ok?
  }

  /** A refusal of the dispatcher, as admission reports it. */
  ghost predicate Reports(refusal: Registry.CryptoError, e: ValidationError)
  {
    match refusal
    case UnsupportedScheme(id) => e == UnsupportedScheme(id)
    case SignatureSizeExceeded(maxSize, actualSize, path, kind) => e == DispatchSizeExceeded(maxSize, actualSize, path, kind)
    case VerificationFailed(f) => e == SignatureVerification(f)
  }

  /** The first refusal, in terms of what the dispatcher was asked. */
  lemma FirstRefusedAsked(d: Dispatcher, calls: seq<DispatchCall>)
    ensures var k := FirstRefused(d, calls, 0);
            && (forall j :: 0 <= j < k ==> d(calls[..j], calls[j].schemeId, calls[j].request).Ok?)
            && (k < |calls| ==> d(calls[..k], calls[k].schemeId, calls[k].request).Err?)
  {
    forall j | 0 <= j < FirstRefused(d, calls, 0)
      ensures d(calls[..j], calls[j].schemeId, calls[j].request).Ok?
    {
      assert Answer(d, calls, j).Ok?;
    }
  }

  /** Call k is the first refused: it is the last one made, and its refusal is what is reported. */
  ghost predicate RefusedAt(d: Dispatcher, calls: seq<DispatchCall>, k: nat, t: Traced)
    requires k < |calls|
  {
    var answer := d(calls[..k], calls[k].schemeId, calls[k].request);
    && t.calls == calls[..k + 1] && t.result.Err? && answer.Err? && Reports(answer.error, t.result.error)
    && forall j :: 0 <= j < k ==> d(calls[..j], calls[j].schemeId, calls[j].request).Ok?
  }

  /**
   * RequireAll. Admission succeeds exactly when every check passes and every authorization is accepted.
   * A failed screen or a wrong material count asks the dispatcher nothing; a refusal at authorization k
   * means exactly k + 1 questions, in order, all under the one signing root of the payload.
   */
  lemma AdmitExact(sha: Sha, d: Dispatcher, policy: Policy, env: Envelope, view: Option<StateView>, materials: seq<seq<byte>>)
    ensures var t := AdmitAndVerify(sha, d, policy, env, view, materials);
            var observed := match view case None => None case Some(v) => v(env);
            && (t.result.Ok? <==> Admits(sha, d, policy, env, observed, materials))
            && (t.result.Ok? ==>
                  && t.calls == AdmissionCalls(sha, policy, env, materials)
                  && t.result.value.payloadRoot == PayloadRoot(sha, env.payload).root
                  && t.result.value.signingRoot == SigningRootFor(sha, policy.domain, PayloadRoot(sha, env.payload).root)
                  && t.result.value.verifiedCount == |env.authorizations|)
            && (!PassesScreen(sha, policy, env, observed) ==>
                  t.calls == [] && t.result.Err? && RejectedFor(sha, policy, env, observed, t.result.error))
            && (PassesScreen(sha, policy, env, observed) && |materials| != |env.authorizations| ==>
                  t == Traced(Err(AuthorizationMaterialCount(|env.authorizations|, |materials|)), []))
            && (PassesScreen(sha, policy, env, observed) && |materials| == |env.authorizations| && t.result.Err? ==>
                  var calls := AdmissionCalls(sha, policy, env, materials);
                  exists k :: 0 <= k < |calls| && RefusedAt(d, calls, k, t))
            && (forall i :: 0 <= i < |t.calls| ==>
                  t.calls[i].request.signingRoot == SigningRootFor(sha, policy.domain, PayloadRoot(sha, env.payload).root))
  {
    hide PayloadRoot, Screen, PassesScreen, RejectedFor, SigningRootFor, FirstRefused;
    ScreenExact(sha, policy, env, view);
    ScreenRejects(sha, policy, env, view);
    if Screen(sha, policy, env, view).Ok? && |materials| == |env.authorizations| {
      var calls := AdmissionCalls(sha, policy, env, materials);
      var k := FirstRefused(d, calls, 0);
      FirstRefusedAsked(d, calls);
      if k < |calls| {
        assert RefusedAt(d, calls, k, AdmitAndVerify(sha, d, policy, env, view, materials));
      }
    }
  }

  lemma ScreenErrorKinds(sha: Sha, policy: Policy, env: Envelope, view: Option<StateView>)
    ensures Screen(sha, policy, env, view).Err? ==> !Screen(sha, policy, env, view).error.DispatchSizeExceeded?
  {
    hide PayloadRoot, GasPriceCovers;
  }

  function RegistryDispatcher(c: Registry.Config, vs: seq<Registry.Verifier>): Dispatcher
  {
    (history: seq<DispatchCall>, id: byte, request: Registry.Request) => Registry.VerifyForPath(c, vs, id, request, Registry.TransactionAuthorization)
  }

  /**
   * Behind a registry whose user-path limit is no tighter than the screen, as the default is, admission
   * reports a dispatcher size error only on behalf of a scheme with a limit of its own.
   */
  lemma SizeErrorIsScheme(sha: Sha, c: Registry.Config, vs: seq<Registry.Verifier>, policy: Policy, env: Envelope, view: Option<StateView>, materials: seq<seq<byte>>)
    requires c.userPathMax >= 8_192
    ensures Registry.DEFAULT_CONFIG == Registry.Config(8_192, None)
    ensures var t := AdmitAndVerify(sha, RegistryDispatcher(c, vs), policy, env, view, materials);
            t.result.Err? && t.result.error.DispatchSizeExceeded? ==>
              t.result.error.kind == Registry.Scheme && t.result.error.maxSize < t.result.error.actualSize <= 8_192
  {
    hide PayloadRoot, Screen, SigningRootFor;
    var d := RegistryDispatcher(c, vs);
    ScreenErrorKinds(sha, policy, env, view);
    ScreenExact(sha, policy, env, view);
    if Screen(sha, policy, env, view).Ok? && |materials| == |env.authorizations| {
      var calls := AdmissionCalls(sha, policy, env, materials);
      var k := FirstRefused(d, calls, 0);
      if k < |calls| {
        var request := calls[k].request;
        assert |request.signature| <= MAX_USER_SIGNATURE_BYTES;
        assert Answer(d, calls, k) == Registry.VerifyForPath(c, vs, calls[k].schemeId, request, Registry.TransactionAuthorization);
      }
    }
  }

  /**
   * A transaction signing root is never a validator signing root without a collision, under the canonical
   * domain and under every explicit domain except the validator's own, where equal object roots do coincide.
   */
  lemma TransactionDomainSeparates(sha: Sha, domain: AuthorizationDomain, payloadRoot: Root, blockRoot: Root)
    ensures var bytes := if domain.Canonical? then DOMAIN_TX_SHELL else domain.domainType;
            var tx, block := SigningData(payloadRoot, bytes), SigningData(blockRoot, DOMAIN_VALIDATOR_MESSAGE);
            && (domain != Explicit(DOMAIN_VALIDATOR_MESSAGE) ==>
                  || SigningRootFor(sha, domain, payloadRoot) != SigningRoot(sha, block).root
                  || CollisionBetween(sha, SigningRoot(sha, tx).inputs, SigningRoot(sha, block).inputs))
            && (domain == Explicit(DOMAIN_VALIDATOR_MESSAGE) && payloadRoot == blockRoot ==>
                  SigningRootFor(sha, domain, payloadRoot) == SigningRoot(sha, block).root)
  {
    hide SigningRoot;
    assert DOMAIN_TX_SHELL[0] != DOMAIN_VALIDATOR_MESSAGE[0];
    DomainsSeparate(sha, payloadRoot, if domain.Canonical? then DOMAIN_TX_SHELL else domain.domainType, blockRoot, DOMAIN_VALIDATOR_MESSAGE);
  }
}
