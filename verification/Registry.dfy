/** The verifier registry: replace-or-append registration, size limits, and dispatch. */
module Registry {
  import opened Bytes

  datatype VerificationPath = TransactionAuthorization | ValidatorMessage

  datatype SignatureLimitKind = RepositoryRule | LocalTransportGuard | Scheme

  datatype Request = Request(publicKeyMaterial: seq<byte>, signingRoot: Root, signature: seq<byte>)

  datatype Failure = Failure(schemeId: byte, context: string)

  datatype CryptoError =
    | UnsupportedScheme(schemeId: byte)
    | SignatureSizeExceeded(maxSize: nat, actualSize: nat, path: VerificationPath, kind: SignatureLimitKind)
    | VerificationFailed(failure: Failure)

  datatype Verifier = Verifier(schemeId: byte,
                               maxSignatureSize: VerificationPath -> Option<nat>,
                               verify: Request -> Result<Unit, Failure>)

  datatype Config = Config(userPathMax: nat, validatorPathMax: Option<nat>)

  const DEFAULT_CONFIG := Config(8 * 1024, None)

  // ----- Registration refines a map -----

  function Register(vs: seq<Verifier>, v: Verifier): seq<Verifier>
  {
    if vs == [] then [v]
    else if vs[0].schemeId == v.schemeId then [v] + vs[1..]
    else [vs[0]] + Register(vs[1..], v)
  }

  function Lookup(vs: seq<Verifier>, id: byte): Option<Verifier>
  {
    if vs == [] then None
    else if vs[0].schemeId == id then Some(vs[0])
    else Lookup(vs[1..], id)
  }

  ghost predicate DistinctIds(vs: seq<Verifier>)
  {
    forall i, j :: 0 <= i < j < |vs| ==> vs[i].schemeId != vs[j].schemeId
  }

  function RegisterAll(vs: seq<Verifier>, regs: seq<Verifier>): seq<Verifier>
    decreases regs
  {
    if regs == [] then vs else RegisterAll(Register(vs, regs[0]), regs[1..])
  }

  /** The verifier that was registered last for a scheme, if any. */
  function LastRegistered(regs: seq<Verifier>, id: byte): Option<Verifier>
  {
    if regs == [] then None
    else if regs[|regs| - 1].schemeId == id then Some(regs[|regs| - 1])
    else LastRegistered(regs[..|regs| - 1], id)
  }

  lemma {:induction false} RegisterUpdatesMap(vs: seq<Verifier>, v: Verifier, id: byte)
    ensures Lookup(Register(vs, v), id) == if id == v.schemeId then Some(v) else Lookup(vs, id)
  {
    if vs != [] && vs[0].schemeId != v.schemeId {
      RegisterUpdatesMap(vs[1..], v, id);
      assert Register(vs, v)[1..] == Register(vs[1..], v);
    } else if vs != [] {
      assert Register(vs, v)[1..] == vs[1..];
    }
  }

  lemma {:induction false} LookupFinds(vs: seq<Verifier>, id: byte)
    ensures Lookup(vs, id).Some? <==> exists i :: 0 <= i < |vs| && vs[i].schemeId == id
    ensures Lookup(vs, id).Some? ==> Lookup(vs, id).value.schemeId == id
  {
    if vs != [] && vs[0].schemeId != id {
      LookupFinds(vs[1..], id);
      if i :| 0 <= i < |vs| && vs[i].schemeId == id {
        assert vs[1..][i - 1].schemeId == id;
      }
      if i :| 0 <= i < |vs[1..]| && vs[1..][i].schemeId == id {
        assert vs[i + 1].schemeId == id;
      }
    }
  }

  lemma {:induction false} RegisterKeepsDistinct(vs: seq<Verifier>, v: Verifier)
    requires DistinctIds(vs)
    ensures DistinctIds(Register(vs, v))
  {
    if vs != [] && vs[0].schemeId != v.schemeId {
      RegisterKeepsDistinct(vs[1..], v);
      var rest := Register(vs[1..], v);
      forall j | 0 <= j < |rest|
        ensures rest[j].schemeId != vs[0].schemeId
      {
        if rest[j].schemeId == vs[0].schemeId {
          LookupFinds(rest, vs[0].schemeId);
          RegisterUpdatesMap(vs[1..], v, vs[0].schemeId);
          LookupFinds(vs[1..], vs[0].schemeId);
        }
      }
    }
  }

  /** After any registration sequence ids are distinct and lookup returns the last verifier registered. */
  lemma {:induction false} RegistryRefinesMap(regs: seq<Verifier>, id: byte)
    ensures DistinctIds(RegisterAll([], regs))
    ensures Lookup(RegisterAll([], regs), id) == LastRegistered(regs, id)
  {
    if regs != [] {
      var n := |regs| - 1;
      RegistryRefinesMap(regs[..n], id);
      RegisterAllSnoc([], regs[..n], regs[n]);
      assert regs == regs[..n] + [regs[n]];
      RegisterKeepsDistinct(RegisterAll([], regs[..n]), regs[n]);
      RegisterUpdatesMap(RegisterAll([], regs[..n]), regs[n], id);
    }
  }

  lemma {:induction false} RegisterAllSnoc(vs: seq<Verifier>, regs: seq<Verifier>, v: Verifier)
    ensures RegisterAll(vs, regs + [v]) == Register(RegisterAll(vs, regs), v)
    decreases regs
  {
    if regs == [] {
      assert regs + [v] == [v] && [v][1..] == [];
    } else {
      assert (regs + [v])[1..] == regs[1..] + [v];
      RegisterAllSnoc(Register(vs, regs[0]), regs[1..], v);
    }
  }

  /** Registration acts at the first entry of the same scheme, or else at the end. */
  lemma {:induction false} FirstMatch(vs: seq<Verifier>, v: Verifier, i: nat)
    requires i <= |vs| && forall j :: 0 <= j < i ==> vs[j].schemeId != v.schemeId
    requires i < |vs| ==> vs[i].schemeId == v.schemeId
    ensures Register(vs, v) == if i < |vs| then vs[i := v] else vs + [v]
    ensures Lookup(vs, v.schemeId) == if i < |vs| then Some(vs[i]) else None
    decreases i
  {
    if i > 0 {
      FirstMatch(vs[1..], v, i - 1);
      assert vs == [vs[0]] + vs[1..];
    }
  }

  // ----- Limits and dispatch -----

  datatype Limit = Limit(maxSize: nat, kind: SignatureLimitKind)

  function ConfigLimit(c: Config, path: VerificationPath): Option<Limit>
  {
    match path
    case TransactionAuthorization => Some(Limit(c.userPathMax, RepositoryRule))
    case ValidatorMessage => if c.validatorPathMax.Some? then Some(Limit(c.validatorPathMax.value, LocalTransportGuard)) else None
  }

  function MaxSignatureSize(c: Config, v: Verifier, path: VerificationPath): Option<Limit>
  {
    var chosen := ConfigLimit(c, path);
    var scheme := v.maxSignatureSize(path);
    if scheme.Some? && (chosen.None? || scheme.value < chosen.value.maxSize) then Some(Limit(scheme.value, Scheme))
    else chosen
  }

  /** What a verifier says about a request, in the dispatcher's error type. */
  function Ask(v: Verifier, request: Request): Result<Unit, CryptoError>
  {
    match v.verify(request) case Ok(u) => Ok(u) case Err(f) => Err(VerificationFailed(f))
  }

  function VerifyForPath(c: Config, vs: seq<Verifier>, id: byte, request: Request, path: VerificationPath): Result<Unit, CryptoError>
  {
    match Lookup(vs, id)
    case None => Err(UnsupportedScheme(id))
    case Some(v) =>
      var limit := MaxSignatureSize(c, v, path);
      if limit.Some? && |request.signature| > limit.value.maxSize then
        Err(SignatureSizeExceeded(limit.value.maxSize, |request.signature|, path, limit.value.kind))
      else
        Ask(v, request)
  }

  /** The signature is within the configured limit of the path and within the scheme's own. */
  predicate WithinAllLimits(c: Config, v: Verifier, path: VerificationPath, size: nat)
  {
    && (path == TransactionAuthorization ==> size <= c.userPathMax)
    && (path == ValidatorMessage && c.validatorPathMax.Some? ==> size <= c.validatorPathMax.value)
    && (v.maxSignatureSize(path).Some? ==> size <= v.maxSignatureSize(path).value)
  }

  /**
   * The answer about a scheme whose verifier, if any, is `found`. Within both limits it is the verifier's own.
   * Past one of them it is a size error with the smaller limit, which is the scheme's only when strictly smaller.
   */
  ghost predicate AnswersFor(c: Config, found: Option<Verifier>, id: byte, request: Request, path: VerificationPath,
                             r: Result<Unit, CryptoError>)
  {
    if found.None? then r == Err(UnsupportedScheme(id)) else
    var v, size := found.value, |request.signature|;
    var own, configured := v.maxSignatureSize(path), if path == TransactionAuthorization then Some(c.userPathMax) else c.validatorPathMax;
    if WithinAllLimits(c, v, path, size) then
      && (r.Ok? <==> v.verify(request).Ok?)
      && (r.Err? ==> r.error == VerificationFailed(v.verify(request).error))
    else if own.Some? && (configured.None? || own.value < configured.value) then
      r == Err(SignatureSizeExceeded(own.value, size, path, Scheme))
    else
      r == Err(SignatureSizeExceeded(configured.value, size, path,
                                     if path == TransactionAuthorization then RepositoryRule else LocalTransportGuard))
  }

  /** Dispatch depends on the last verifier registered for the scheme, its answer and the two limits. */
  lemma DispatchExact(c: Config, regs: seq<Verifier>, id: byte, request: Request, path: VerificationPath)
    ensures AnswersFor(c, LastRegistered(regs, id), id, request, path, VerifyForPath(c, RegisterAll([], regs), id, request, path))
  {
    hide RegisterAll, LastRegistered;
    RegistryRefinesMap(regs, id);
  }

  class VerifierRegistry {
    const config: Config
    var verifiers: seq<Verifier>

    ghost predicate Valid()
      reads this
    {
      DistinctIds(verifiers)
    }

    constructor (config: Config)
      ensures this.config == config && verifiers == [] && Valid()
    {
      this.config := config;
      verifiers := [];
    }

    /** Replaces the entry of the same scheme, which is handed back, or appends a new one. */
    method RegisterVerifier(v: Verifier) returns (replaced: Option<Verifier>)
      requires Valid()
      modifies this
      ensures Valid()
      ensures verifiers == Register(old(verifiers), v)
      ensures replaced == Lookup(old(verifiers), v.schemeId)
      ensures forall id :: Lookup(verifiers, id) == if id == v.schemeId then Some(v) else Lookup(old(verifiers), id)
    {
      ghost var before := verifiers;
      RegisterKeepsDistinct(before, v);
      forall id
        ensures Lookup(Register(before, v), id) == if id == v.schemeId then Some(v) else Lookup(before, id)
      {
        RegisterUpdatesMap(before, v, id);
      }
      var i := 0;
      while i < |verifiers| && verifiers[i].schemeId != v.schemeId
        invariant 0 <= i <= |verifiers|
        invariant forall j :: 0 <= j < i ==> verifiers[j].schemeId != v.schemeId
      {
        i := i + 1;
      }
      FirstMatch(before, v, i);
      if i < |verifiers| {
        replaced := Some(verifiers[i]);
        verifiers := verifiers[i := v];
      } else {
        replaced := None;
        verifiers := verifiers + [v];
      }
    }

    /** `seen` is what reached a verifier: the request itself, or nothing. */
    method Verify(id: byte, request: Request, path: VerificationPath) returns (r: Result<Unit, CryptoError>, seen: seq<Request>)
      requires Valid()
      ensures r == VerifyForPath(config, verifiers, id, request, path)
      ensures AnswersFor(config, Lookup(verifiers, id), id, request, path, r)
      ensures seen == [] || seen == [request]
      ensures seen != [] <==> Lookup(verifiers, id).Some? && WithinAllLimits(config, Lookup(verifiers, id).value, path, |request.signature|)
    {
      var v := Lookup(verifiers, id);
      if v.None? {
        return Err(UnsupportedScheme(id)), [];
      }
      var chosen := ConfigLimit(config, path);
      var scheme := v.value.maxSignatureSize(path);
      if scheme.Some? {
        if chosen.None? || scheme.value < chosen.value.maxSize {
          chosen := Some(Limit(scheme.value, Scheme));
        }
      }
      if chosen.Some? && |request.signature| > chosen.value.maxSize {
        return Err(SignatureSizeExceeded(chosen.value.maxSize, |request.signature|, path, chosen.value.kind)), [];
      }
      return Ask(v.value, request), [request];
    }
  }
}
