/** The staged block import, for services that may answer in any way and by anything asked before. */
module Import {
  import opened Bytes
  import opened Transactions
  import opened HashTreeRoot
  import opened State
  import opened Execution
  import Admission
  import Registry

  /** What the pipeline reads off a header; computing its root may fail. */
  datatype Header = Header(canonicalRoot: Result<Root, PrimitiveError>, witnessBytes: u64, transactionsRoot: Root,
                           executionWitnessesRoot: Root, stateRoot: Root, receiptsRoot: Root,
                           proposerSignature: seq<byte>, proposerIndexHint: Option<u64>)

  datatype Body = Body(transactionsRoot: Result<Root, PrimitiveError>, transactions: seq<Envelope>)

  datatype Sidecar = Sidecar(blockRoot: Root, committedRoot: Root)

  datatype Query = Query(blockRoot: Root, proposerIndexHint: Option<u64>)

  datatype Credential = Credential(schemeId: byte, publicKeyMaterial: seq<byte>)

  datatype ResolutionError = NotFound | ResolverUnavailable | InvalidCredentialEncoding(schemeId: byte, context: string)

  datatype ConsensusError =
    | Primitive(primitive: PrimitiveError)
    | Crypto(crypto: Registry.CryptoError)
    | TransactionValidation(validation: Admission.ValidationError)
    | Execution(execution: ExecutionError)
    | State(state: StateError)
    | ProposerCredentialResolution(resolution: ResolutionError)
    | WitnessByteLimitExceeded(maxBytes: u64, actualBytes: u64)
    | HeaderBodyRootMismatch(expected: Root, actual: Root)
    | SidecarBlockRootMismatch(expected: Root, actual: Root)
    | SidecarCommitmentMismatch(expected: Root, actual: Root)

  datatype ImportOutcome = ImportOutcome(blockRoot: Root, postStateRoot: Root, receiptsRoot: Root)

  // ----- Services -----

  datatype Call =
    | ResolveCredential(query: Query)
    | VerifySignature(schemeId: byte, request: Registry.Request)
    | RevalidateTransaction(tx: Envelope)
    | PrepareWitness
    | ExecuteTheBlock

  /** Each service sees the calls made so far, which lets it keep any state it likes. */
  datatype Services = Services(
    resolve: (seq<Call>, Query) -> Result<Credential, ResolutionError>,
    verify: (seq<Call>, byte, Registry.Request) -> Result<Unit, Registry.CryptoError>,
    revalidate: (seq<Call>, Envelope) -> Result<Unit, Admission.ValidationError>,
    prepare: (seq<Call>, Header, Sidecar) -> Result<Unit, StateError>,
    execute: (seq<Call>, Header, Body, Sidecar) -> Result<BlockOutcome, ExecutionError>)

  datatype Job = Job(maxWitnessBytes: Option<u64>, header: Header, body: Body, sidecar: Sidecar)

  // ----- The stages, as a list -----

  /** One stage: the service call it makes, if any, and the error it ends the import with, if any. */
  datatype Stage = Stage(call: Option<Call>, error: Option<ConsensusError>)

  function Check(failed: bool, e: ConsensusError): Stage
  {
    Stage(None, if failed then Some(e) else None)
  }

  function BlockRoot(job: Job): Root
  {
    match job.header.canonicalRoot case Ok(r) => r case Err(_) => ZERO_ROOT
  }

  function ValidatorRequest(sha: Sha, job: Job, c: Credential): Registry.Request
  {
    Registry.Request(c.publicKeyMaterial,
                     SigningRoot(sha, SigningData(BlockRoot(job), DOMAIN_VALIDATOR_MESSAGE)).root,
                     job.header.proposerSignature)
  }

  function ResolveCall(job: Job): Call
  {
    ResolveCredential(Query(BlockRoot(job), job.header.proposerIndexHint))
  }

  function ResolvedCredential(job: Job, s: Services): Credential
  {
    match s.resolve([], ResolveCall(job).query) case Ok(c) => c case Err(_) => Credential(0, [])
  }

  function VerifyCall(sha: Sha, job: Job, s: Services): Call
  {
    var c := ResolvedCredential(job, s);
    VerifySignature(c.schemeId, ValidatorRequest(sha, job, c))
  }

  /** The calls before the k-th revalidation. */
  function CallsBefore(sha: Sha, job: Job, s: Services, k: nat): seq<Call>
    requires k <= |job.body.transactions|
  {
    [ResolveCall(job), VerifyCall(sha, job, s)] + RevalidateCalls(job.body.transactions[..k])
  }

  function RevalidateCalls(txs: seq<Envelope>): (calls: seq<Call>)
    ensures |calls| == |txs|
    ensures forall i :: 0 <= i < |txs| ==> calls[i] == RevalidateTransaction(txs[i])
  {
    if txs == [] then [] else [RevalidateTransaction(txs[0])] + RevalidateCalls(txs[1..])
  }

  /** Every call of an import that fails nowhere, in order. */
  function FullTrace(sha: Sha, job: Job, s: Services): seq<Call>
  {
    CallsBefore(sha, job, s, |job.body.transactions|) + [PrepareWitness, ExecuteTheBlock]
  }

  function HeaderStages(sha: Sha, job: Job, s: Services): (stages: seq<Stage>)
    ensures |stages| == 6
  {
    var h, b := job.header, job.body;
    var resolved := s.resolve([], ResolveCall(job).query);
    var v := VerifyCall(sha, job, s);
    var verified := s.verify([ResolveCall(job)], v.schemeId, v.request);
    [ Stage(None, match h.canonicalRoot case Ok(_) => None case Err(e) => Some(Primitive(e))),
      Stage(None, if job.maxWitnessBytes.Some? && h.witnessBytes > job.maxWitnessBytes.value
                  then Some(WitnessByteLimitExceeded(job.maxWitnessBytes.value, h.witnessBytes)) else None),
      Stage(None, match b.transactionsRoot case Ok(_) => None case Err(e) => Some(Primitive(e))),
      Stage(None, match b.transactionsRoot
                  case Ok(r) => if r != h.transactionsRoot then Some(HeaderBodyRootMismatch(h.transactionsRoot, r)) else None
                  case Err(_) => None),
      Stage(Some(ResolveCall(job)), match resolved case Ok(_) => None case Err(e) => Some(ProposerCredentialResolution(e))),
      Stage(Some(v), match verified case Ok(_) => None case Err(e) => Some(Crypto(e))) ]
  }

  function RevalidateStage(sha: Sha, job: Job, s: Services, k: nat): Stage
    requires k < |job.body.transactions|
  {
    var tx := job.body.transactions[k];
    Stage(Some(RevalidateTransaction(tx)),
          match s.revalidate(CallsBefore(sha, job, s, k), tx) case Ok(_) => None case Err(e) => Some(TransactionValidation(e)))
  }

  function RevalidateStages(sha: Sha, job: Job, s: Services, k: nat): (stages: seq<Stage>)
    requires k <= |job.body.transactions|
    ensures |stages| == |job.body.transactions| - k
    ensures forall i :: 0 <= i < |stages| ==> stages[i] == RevalidateStage(sha, job, s, k + i)
    decreases |job.body.transactions| - k
  {
    if k == |job.body.transactions| then []
    else [RevalidateStage(sha, job, s, k)] + RevalidateStages(sha, job, s, k + 1)
  }

  function Executed(sha: Sha, job: Job, s: Services): Result<BlockOutcome, ExecutionError>
  {
    s.execute(CallsBefore(sha, job, s, |job.body.transactions|) + [PrepareWitness], job.header, job.body, job.sidecar)
  }

  function FinalStages(sha: Sha, job: Job, s: Services): (stages: seq<Stage>)
    ensures |stages| == 4
  {
    var h, c := job.header, job.sidecar;
    var prepared := s.prepare(CallsBefore(sha, job, s, |job.body.transactions|), h, c);
    [ Check(c.blockRoot != BlockRoot(job), SidecarBlockRootMismatch(BlockRoot(job), c.blockRoot)),
      Check(c.committedRoot != h.executionWitnessesRoot, SidecarCommitmentMismatch(h.executionWitnessesRoot, c.committedRoot)),
      Stage(Some(PrepareWitness), match prepared case Ok(_) => None case Err(e) => Some(State(e))),
      Stage(Some(ExecuteTheBlock),
            match Executed(sha, job, s)
            case Err(e) => Some(Execution(e))
            case Ok(o) => match EnsureMatches(o, h.stateRoot, h.receiptsRoot) case Ok(_) => None case Err(e) => Some(Execution(e))) ]
  }

  /** The stages in import order. Each is described as it would run if all earlier ones had passed. */
  function Stages(sha: Sha, job: Job, s: Services): (stages: seq<Stage>)
    ensures |stages| == |job.body.transactions| + 10
  {
    HeaderStages(sha, job, s) + RevalidateStages(sha, job, s, 0) + FinalStages(sha, job, s)
  }

  // ----- Running a list of stages -----

  function FirstFailing(stages: seq<Stage>): (k: nat)
    ensures k <= |stages|
    ensures forall i :: 0 <= i < k ==> stages[i].error.None?
    ensures k < |stages| ==> stages[k].error.Some?
  {
    if stages == [] || stages[0].error.Some? then 0 else 1 + FirstFailing(stages[1..])
  }

  function CallsOf(stages: seq<Stage>): seq<Call>
  {
    if stages == [] then []
    else (if stages[0].call.Some? then [stages[0].call.value] else []) + CallsOf(stages[1..])
  }

  datatype Run = Run(error: Option<ConsensusError>, trace: seq<Call>)

  /** Run to the first failing stage: its error, and the calls up to and including it. */
  function RunStages(stages: seq<Stage>): Run
  {
    if stages == [] then Run(None, [])
    else
      var calls := if stages[0].call.Some? then [stages[0].call.value] else [];
      if stages[0].error.Some? then Run(stages[0].error, calls)
      else var rest := RunStages(stages[1..]); Run(rest.error, calls + rest.trace)
  }

  /** The specification of an import: the earliest failing stage decides, and nothing after it is asked. */
  function ImportResult(sha: Sha, job: Job, s: Services): (r: (Result<ImportOutcome, ConsensusError>, seq<Call>))
  {
    var run := RunStages(Stages(sha, job, s));
    match run.error
    case Some(e) => (Err(e), run.trace)
    case None =>
      match Executed(sha, job, s)
      case Ok(o) => (Ok(ImportOutcome(BlockRoot(job), o.postStateRoot, o.receiptsRoot)), run.trace)
      case Err(e) => (Err(Execution(e)), run.trace)
  }

  lemma {:induction false} RunStagesExact(stages: seq<Stage>)
    ensures var k := FirstFailing(stages);
            && (k == |stages| ==> RunStages(stages) == Run(None, CallsOf(stages)))
            && (k < |stages| ==> RunStages(stages) == Run(stages[k].error, CallsOf(stages[..k + 1])))
  {
    if stages != [] {
      if stages[0].error.Some? {
        assert stages[..1][1..] == [];
      } else {
        RunStagesExact(stages[1..]);
        var k := FirstFailing(stages);
        if k < |stages| {
          assert stages[..k + 1][1..] == stages[1..][..k];
        }
      }
    }
  }

  lemma {:induction false} RunStagesConcat(a: seq<Stage>, b: seq<Stage>)
    ensures var ra, rb := RunStages(a), RunStages(b);
            RunStages(a + b) == if ra.error.Some? then ra else Run(rb.error, ra.trace + rb.trace)
  {
    if a == [] {
      assert a + b == b;
    } else {
      assert (a + b)[0] == a[0] && (a + b)[1..] == a[1..] + b;
      RunStagesConcat(a[1..], b);
    }
  }

  /** One step of a run, seen from position i of a list. */
  lemma RunAt(stages: seq<Stage>, i: nat)
    requires i < |stages|
    ensures var calls := if stages[i].call.Some? then [stages[i].call.value] else [];
            var rest := RunStages(stages[i + 1..]);
            RunStages(stages[i..]) == if stages[i].error.Some? then Run(stages[i].error, calls)
                                      else Run(rest.error, calls + rest.trace)
  {
    assert stages[i..][0] == stages[i] && stages[i..][1..] == stages[i + 1..];
  }

  // ----- The pipeline as code -----

  /** Prefilter, body binding, then the proposer signature. */
  method VerifyHeader(sha: Sha, job: Job, s: Services) returns (r: Result<Root, ConsensusError>, trace: seq<Call>)
    ensures RunStages(HeaderStages(sha, job, s)) == Run(if r.Err? then Some(r.error) else None, trace)
    ensures r.Ok? ==> r.value == BlockRoot(job) && trace == CallsBefore(sha, job, s, 0)
  {
    hide SigningRoot, RunStages;
    ghost var stages := HeaderStages(sha, job, s);
    assert stages[0..] == stages;
    assert RunStages(stages[6..]) == Run(None, []) by { RunNothing(stages[6..]); }
    var h := job.header;
    trace := [];
    RunAt(stages, 0);
    if h.canonicalRoot.Err? {
      return Err(Primitive(h.canonicalRoot.error)), trace;
    }
    var blockRoot := h.canonicalRoot.value;
    RunAt(stages, 1);
    if job.maxWitnessBytes.Some? && h.witnessBytes > job.maxWitnessBytes.value {
      return Err(WitnessByteLimitExceeded(job.maxWitnessBytes.value, h.witnessBytes)), trace;
    }
    RunAt(stages, 2);
    if job.body.transactionsRoot.Err? {
      return Err(Primitive(job.body.transactionsRoot.error)), trace;
    }
    RunAt(stages, 3);
    var actual := job.body.transactionsRoot.value;
    if actual != h.transactionsRoot {
      return Err(HeaderBodyRootMismatch(h.transactionsRoot, actual)), trace;
    }
    RunAt(stages, 4);
    var query := Query(blockRoot, h.proposerIndexHint);
    var credential := s.resolve(trace, query);
    trace := [ResolveCredential(query)];
    if credential.Err? {
      return Err(ProposerCredentialResolution(credential.error)), trace;
    }
    RunAt(stages, 5);
    var request := Registry.Request(credential.value.publicKeyMaterial,
                                    SigningRoot(sha, SigningData(blockRoot, DOMAIN_VALIDATOR_MESSAGE)).root,
                                    h.proposerSignature);
    var verified := s.verify(trace, credential.value.schemeId, request);
    trace := trace + [VerifySignature(credential.value.schemeId, request)];
    if verified.Err? {
      return Err(Crypto(verified.error)), trace;
    }
    return Ok(blockRoot), trace;
  }

  lemma RunNothing(stages: seq<Stage>)
    requires stages == []
    ensures RunStages(stages) == Run(None, [])
  {
  }

  lemma RevalidateAt(sha: Sha, job: Job, s: Services, k: nat)
    requires k < |job.body.transactions|
    ensures var stage, rest := RevalidateStage(sha, job, s, k), RunStages(RevalidateStages(sha, job, s, k + 1));
            RunStages(RevalidateStages(sha, job, s, k)) ==
            if stage.error.Some? then Run(stage.error, [stage.call.value])
            else Run(rest.error, [stage.call.value] + rest.trace)
    ensures CallsBefore(sha, job, s, k + 1) == CallsBefore(sha, job, s, k) + [RevalidateTransaction(job.body.transactions[k])]
  {
    hide VerifyCall;
    var all := RevalidateStages(sha, job, s, k);
    assert all[1..] == RevalidateStages(sha, job, s, k + 1);
    assert RevalidateCalls(job.body.transactions[..k + 1]) ==
           RevalidateCalls(job.body.transactions[..k]) + [RevalidateTransaction(job.body.transactions[k])];
  }

  /** Revalidates the body in order and stops at the first transaction refused. */
  method RevalidateBody(sha: Sha, job: Job, s: Services, before: seq<Call>) returns (r: Result<Unit, ConsensusError>, trace: seq<Call>)
    requires before == CallsBefore(sha, job, s, 0)
    ensures var run := RunStages(RevalidateStages(sha, job, s, 0));
            run.error == (if r.Err? then Some(r.error) else None) && trace == before + run.trace
    ensures r.Ok? ==> trace == CallsBefore(sha, job, s, |job.body.transactions|)
  {
    hide VerifyCall, RunStages, RevalidateStages;
    var txs := job.body.transactions;
    ghost var run := RunStages(RevalidateStages(sha, job, s, 0));
    trace := before;
    var k := 0;
    while k < |txs|
      invariant 0 <= k <= |txs|
      invariant trace == CallsBefore(sha, job, s, k)
      invariant run.error == RunStages(RevalidateStages(sha, job, s, k)).error
      invariant before + run.trace == trace + RunStages(RevalidateStages(sha, job, s, k)).trace
    {
      RevalidateAt(sha, job, s, k);
      var revalidated := s.revalidate(trace, txs[k]);
      trace := trace + [RevalidateTransaction(txs[k])];
      if revalidated.Err? {
        return Err(TransactionValidation(revalidated.error)), trace;
      }
      k := k + 1;
    }
    assert RunStages(RevalidateStages(sha, job, s, k)) == Run(None, []) by { RunNothing(RevalidateStages(sha, job, s, k)); }
    return Ok(Unit), trace;
  }

  /** Sidecar binding, witness preparation, execution and comparison. */
  method BindAndExecute(sha: Sha, job: Job, s: Services, before: seq<Call>) returns (r: Result<BlockOutcome, ConsensusError>, trace: seq<Call>)
    requires before == CallsBefore(sha, job, s, |job.body.transactions|)
    ensures var run := RunStages(FinalStages(sha, job, s));
            run.error == (if r.Err? then Some(r.error) else None) && trace == before + run.trace
    ensures r.Ok? ==> Executed(sha, job, s) == Ok(r.value)
  {
    hide CallsBefore, RunStages;
    ghost var stages := FinalStages(sha, job, s);
    assert stages[0..] == stages;
    assert RunStages(stages[4..]) == Run(None, []) by { RunNothing(stages[4..]); }
    var h, c := job.header, job.sidecar;
    trace := before;
    RunAt(stages, 0);
    if c.blockRoot != BlockRoot(job) {
      return Err(SidecarBlockRootMismatch(BlockRoot(job), c.blockRoot)), trace;
    }
    RunAt(stages, 1);
    if c.committedRoot != h.executionWitnessesRoot {
      return Err(SidecarCommitmentMismatch(h.executionWitnessesRoot, c.committedRoot)), trace;
    }
    RunAt(stages, 2);
    var prepared := s.prepare(trace, h, c);
    trace := trace + [PrepareWitness];
    if prepared.Err? {
      return Err(State(prepared.error)), trace;
    }
    RunAt(stages, 3);
    var executed := s.execute(trace, h, job.body, c);
    trace := trace + [ExecuteTheBlock];
    if executed.Err? {
      return Err(Execution(executed.error)), trace;
    }
    var matches := EnsureMatches(executed.value, h.stateRoot, h.receiptsRoot);
    if matches.Err? {
      return Err(Execution(matches.error)), trace;
    }
    return Ok(executed.value), trace;
  }

  /** The import pipeline, proved to be the run of its stages to the first failure. */
  method ImportBlock(sha: Sha, job: Job, s: Services) returns (r: Result<ImportOutcome, ConsensusError>, trace: seq<Call>)
    ensures (r, trace) == ImportResult(sha, job, s)
  {
    hide HeaderStages, RevalidateStages, FinalStages, RunStages, CallsBefore, BlockRoot, Executed;
    ghost var a, b, c := HeaderStages(sha, job, s), RevalidateStages(sha, job, s, 0), FinalStages(sha, job, s);
    RunStagesConcat(a + b, c);
    RunStagesConcat(a, b);
    var blockRoot;
    blockRoot, trace := VerifyHeader(sha, job, s);
    if blockRoot.Err? {
      return Err(blockRoot.error), trace;
    }
    var revalidated;
    revalidated, trace := RevalidateBody(sha, job, s, trace);
    if revalidated.Err? {
      return Err(revalidated.error), trace;
    }
    var outcome;
    outcome, trace := BindAndExecute(sha, job, s, trace);
    if outcome.Err? {
      return Err(outcome.error), trace;
    }
    r := Ok(ImportOutcome(blockRoot.value, outcome.value.postStateRoot, outcome.value.receiptsRoot));
  }

  // ----- Ordering over all runs -----

  lemma {:induction false} CallsOfConcat(a: seq<Stage>, b: seq<Stage>)
    ensures CallsOf(a + b) == CallsOf(a) + CallsOf(b)
  {
    if a == [] {
      assert a + b == b;
    } else {
      assert (a + b)[0] == a[0] && (a + b)[1..] == a[1..] + b;
      CallsOfConcat(a[1..], b);
      var first := if a[0].call.Some? then [a[0].call.value] else [];
      assert CallsOf(a + b) == first + (CallsOf(a[1..]) + CallsOf(b));
      assert CallsOf(a) == first + CallsOf(a[1..]);
    }
  }

  lemma CallsOfPrefix(stages: seq<Stage>, k: nat)
    requires k <= |stages|
    ensures CallsOf(stages[..k]) <= CallsOf(stages)
  {
    CallsOfConcat(stages[..k], stages[k..]);
    assert stages[..k] + stages[k..] == stages;
  }

  lemma {:induction false} RevalidateStagesCalls(sha: Sha, job: Job, s: Services, k: nat)
    requires k <= |job.body.transactions|
    ensures CallsOf(RevalidateStages(sha, job, s, k)) == RevalidateCalls(job.body.transactions[k..])
    decreases |job.body.transactions| - k
  {
    hide CallsBefore;
    var txs := job.body.transactions;
    if k < |txs| {
      RevalidateStagesCalls(sha, job, s, k + 1);
      assert RevalidateStages(sha, job, s, k)[1..] == RevalidateStages(sha, job, s, k + 1);
      assert txs[k..][0] == txs[k] && txs[k..][1..] == txs[k + 1..];
    }
  }

  lemma CallsAt(stages: seq<Stage>, i: nat)
    requires i < |stages|
    ensures CallsOf(stages[i..]) == (if stages[i].call.Some? then [stages[i].call.value] else []) + CallsOf(stages[i + 1..])
  {
    assert stages[i..][0] == stages[i] && stages[i..][1..] == stages[i + 1..];
  }

  lemma CallsOf4(stages: seq<Stage>)
    requires |stages| == 4 && stages[0].call.None? && stages[1].call.None? && stages[2].call.Some? && stages[3].call.Some?
    ensures CallsOf(stages) == [stages[2].call.value, stages[3].call.value]
  {
    assert stages[0..] == stages;
    assert CallsOf(stages[4..]) == [];
    hide CallsOf;
    CallsAt(stages, 0);
    CallsAt(stages, 1);
    CallsAt(stages, 2);
    CallsAt(stages, 3);
  }

  lemma HeaderCalls(sha: Sha, job: Job, s: Services)
    ensures CallsOf(HeaderStages(sha, job, s)) == [ResolveCall(job), VerifyCall(sha, job, s)]
  {
    hide ValidatorRequest, CallsOf;
    var a := HeaderStages(sha, job, s);
    assert a[0..] == a;
    CallsAt(a, 0);
    CallsAt(a, 1);
    CallsOf4(a[2..]);
  }

  lemma StagesCalls(sha: Sha, job: Job, s: Services)
    ensures CallsOf(Stages(sha, job, s)) == FullTrace(sha, job, s)
  {
    hide VerifyCall, Executed, CallsOf, HeaderStages;
    var a, b, c := HeaderStages(sha, job, s), RevalidateStages(sha, job, s, 0), FinalStages(sha, job, s);
    CallsOfConcat(a + b, c);
    CallsOfConcat(a, b);
    RevalidateStagesCalls(sha, job, s, 0);
    CallsOf4(c);
    HeaderCalls(sha, job, s);
    var n := |job.body.transactions|;
    assert job.body.transactions[0..] == job.body.transactions == job.body.transactions[..n];
  }

  /**
   * For any services and any number of transactions: the calls made are a prefix of resolve, verify,
   * revalidate in body order, prepare, execute; success means every stage passed and every call was
   * made; failure returns the error of the earliest failing stage, whose call is the last one made.
   */
  lemma ImportOrdering(sha: Sha, job: Job, s: Services)
    ensures var stages := Stages(sha, job, s);
            var k := FirstFailing(stages);
            var (r, trace) := ImportResult(sha, job, s);
            && trace <= FullTrace(sha, job, s)
            && (r.Ok? <==> k == |stages|)
            && (r.Ok? ==> trace == FullTrace(sha, job, s))
            && (k < |stages| ==> stages[k].error == Some(r.error) && trace == CallsOf(stages[..k + 1]))
  {
    hide HeaderStages, RevalidateStages, CallsBefore, BlockRoot, FullTrace;
    var stages := Stages(sha, job, s);
    var k := FirstFailing(stages);
    RunStagesExact(stages);
    StagesCalls(sha, job, s);
    if k < |stages| {
      CallsOfPrefix(stages, k + 1);
    } else {
      LastStage(sha, job, s);
    }
  }

  lemma LastStage(sha: Sha, job: Job, s: Services)
    requires FirstFailing(Stages(sha, job, s)) == |Stages(sha, job, s)|
    ensures Executed(sha, job, s).Ok?
    ensures EnsureMatches(Executed(sha, job, s).value, job.header.stateRoot, job.header.receiptsRoot).Ok?
  {
    hide HeaderStages, RevalidateStages, CallsBefore, BlockRoot, EnsureMatches, Executed;
    var stages := Stages(sha, job, s);
    assert stages[|stages| - 1] == FinalStages(sha, job, s)[3];
    assert stages[|stages| - 1].error.None?;
  }

  /** The expensive stages are reached only through all the cheaper ones. */
  lemma CheapFirst(sha: Sha, job: Job, s: Services)
    ensures var n := |job.body.transactions|;
            var k := FirstFailing(Stages(sha, job, s));
            var trace := ImportResult(sha, job, s).1;
            && (k < 4 ==> trace == [])
            && (k == 4 ==> trace == FullTrace(sha, job, s)[..1])
            && (5 <= k <= n + 5 ==> trace == FullTrace(sha, job, s)[..k - 3])
            && (n + 6 <= k <= n + 7 ==> trace == FullTrace(sha, job, s)[..n + 2])
            && (n + 8 <= k <= n + 9 ==> trace == FullTrace(sha, job, s)[..k - 5])
  {
    hide HeaderStages, RevalidateStages, FinalStages, CallsBefore, BlockRoot, FullTrace, Executed, CallsOf, RunStages;
    var stages := Stages(sha, job, s);
    var k := FirstFailing(stages);
    RunStagesExact(stages);
    StagesCalls(sha, job, s);
    if k < |stages| {
      CallsOfPrefix(stages, k + 1);
      CallCount(sha, job, s, k + 1);
    }
  }

  /** How many calls the first m stages make. */
  function CallsWithin(n: nat, m: nat): nat
  {
    if m <= 4 then 0 else if m <= n + 6 then m - 4 else if m <= n + 8 then n + 2 else m - 6
  }

  lemma {:induction false} CallCount(sha: Sha, job: Job, s: Services, m: nat)
    requires m <= |Stages(sha, job, s)|
    ensures |CallsOf(Stages(sha, job, s)[..m])| == CallsWithin(|job.body.transactions|, m)
    decreases m
  {
    hide CallsBefore, VerifyCall, Executed, BlockRoot, EnsureMatches;
    var stages := Stages(sha, job, s);
    if m > 0 {
      CallCount(sha, job, s, m - 1);
      CallsOfConcat(stages[..m - 1], [stages[m - 1]]);
      assert stages[..m] == stages[..m - 1] + [stages[m - 1]];
      assert [stages[m - 1]][1..] == [];
      StageCalls(sha, job, s, m - 1);
    }
  }

  lemma StageCalls(sha: Sha, job: Job, s: Services, i: nat)
    requires i < |Stages(sha, job, s)|
    ensures var n := |job.body.transactions|;
            Stages(sha, job, s)[i].call.Some? <==> 4 <= i < n + 6 || i >= n + 8
  {
    hide CallsBefore, VerifyCall, Executed, BlockRoot, EnsureMatches;
    var n := |job.body.transactions|;
    if 6 <= i < n + 6 {
      assert Stages(sha, job, s)[i] == RevalidateStages(sha, job, s, 0)[i - 6];
    } else if i >= n + 6 {
      assert Stages(sha, job, s)[i] == FinalStages(sha, job, s)[i - n - 6];
    } else {
      assert Stages(sha, job, s)[i] == HeaderStages(sha, job, s)[i];
    }
  }

  // ----- Each outcome by the condition that leads to it -----

  /** The checks that ask nobody: the root exists, the witness budget holds, and the body carries the header's root. */
  ghost predicate Prechecked(job: Job)
  {
    && job.header.canonicalRoot.Ok?
    && (job.maxWitnessBytes.Some? ==> job.header.witnessBytes <= job.maxWitnessBytes.value)
    && job.body.transactionsRoot == Ok(job.header.transactionsRoot)
  }

  /** The two questions about a proposer with this credential: who it is, and whether it signed the block root as a validator. */
  ghost function ProposerCalls(sha: Sha, job: Job, c: Credential): (calls: seq<Call>)
    requires job.header.canonicalRoot.Ok?
    ensures |calls| == 2 && calls[0].ResolveCredential? && calls[1].VerifySignature?
  {
    var root := job.header.canonicalRoot.value;
    [ResolveCredential(Query(root, job.header.proposerIndexHint)),
     VerifySignature(c.schemeId, Registry.Request(c.publicKeyMaterial, sha(root + PadRight([2, 0, 0, 0])), job.header.proposerSignature))]
  }

  /** The proposer resolves to `c` and its signature verifies. */
  ghost predicate ProposerSigned(sha: Sha, job: Job, s: Services, c: Credential)
    requires job.header.canonicalRoot.Ok?
  {
    var calls := ProposerCalls(sha, job, c);
    s.resolve([], calls[0].query) == Ok(c) && s.verify(calls[..1], calls[1].schemeId, calls[1].request).Ok?
  }

  /** All calls before body transaction k is revalidated. */
  ghost function AskedBefore(sha: Sha, job: Job, c: Credential, k: nat): seq<Call>
    requires job.header.canonicalRoot.Ok? && k <= |job.body.transactions|
  {
    ProposerCalls(sha, job, c) + RevalidateCalls(job.body.transactions[..k])
  }

  lemma FailsAt(sha: Sha, job: Job, s: Services, k: nat)
    requires k < |Stages(sha, job, s)| && Stages(sha, job, s)[k].error.Some?
    requires forall i :: 0 <= i < k ==> Stages(sha, job, s)[i].error.None?
    ensures var n := CallsWithin(|job.body.transactions|, k + 1);
            && n <= |FullTrace(sha, job, s)|
            && ImportResult(sha, job, s).0 == Err(Stages(sha, job, s)[k].error.value)
            && ImportResult(sha, job, s).1 == FullTrace(sha, job, s)[..n]
  {
    hide HeaderStages, RevalidateStages, FinalStages, CallsBefore, BlockRoot, FullTrace, Executed, CallsOf, RunStages;
    var stages := Stages(sha, job, s);
    assert FirstFailing(stages) == k;
    RunStagesExact(stages);
    StagesCalls(sha, job, s);
    CallsOfPrefix(stages, k + 1);
    CallCount(sha, job, s, k + 1);
    assert CallsOf(stages[..k + 1]) == FullTrace(sha, job, s)[..CallsWithin(|job.body.transactions|, k + 1)];
  }

  /** The header checks in order, each with its own error; nobody is asked before the free checks pass. */
  lemma HeaderRejects(sha: Sha, job: Job, s: Services)
    ensures var h, b := job.header, job.body;
            var over := job.maxWitnessBytes.Some? && h.witnessBytes > job.maxWitnessBytes.value;
            var outcome := ImportResult(sha, job, s);
            && (h.canonicalRoot.Err? ==> outcome == (Err(Primitive(h.canonicalRoot.error)), []))
            && (h.canonicalRoot.Ok? && over ==>
                  outcome == (Err(WitnessByteLimitExceeded(job.maxWitnessBytes.value, h.witnessBytes)), []))
            && (h.canonicalRoot.Ok? && !over && b.transactionsRoot.Err? ==> outcome == (Err(Primitive(b.transactionsRoot.error)), []))
            && (h.canonicalRoot.Ok? && !over && b.transactionsRoot.Ok? && b.transactionsRoot.value != h.transactionsRoot ==>
                  outcome == (Err(HeaderBodyRootMismatch(h.transactionsRoot, b.transactionsRoot.value)), []))
  {
    hide ValidatorRequest, RevalidateStages, FinalStages, ImportResult;
    var h, b, stages := job.header, job.body, HeaderStages(sha, job, s);
    assert forall i :: 0 <= i < 6 ==> Stages(sha, job, s)[i] == stages[i];
    if h.canonicalRoot.Err? {
      FailsAt(sha, job, s, 0);
    } else if job.maxWitnessBytes.Some? && h.witnessBytes > job.maxWitnessBytes.value {
      FailsAt(sha, job, s, 1);
    } else if b.transactionsRoot.Err? {
      FailsAt(sha, job, s, 2);
    } else if b.transactionsRoot.value != h.transactionsRoot {
      FailsAt(sha, job, s, 3);
    }
  }

  lemma ProposerStages(sha: Sha, job: Job, s: Services)
    requires Prechecked(job)
    ensures var query := Query(job.header.canonicalRoot.value, job.header.proposerIndexHint);
            var resolved := s.resolve([], query);
            && ResolveCall(job) == ResolveCredential(query) && BlockRoot(job) == job.header.canonicalRoot.value
            && (resolved.Ok? ==> [ResolveCall(job), VerifyCall(sha, job, s)] == ProposerCalls(sha, job, resolved.value))
            && (forall i :: 0 <= i < 4 ==> Stages(sha, job, s)[i].error.None?)
            && Stages(sha, job, s)[4].error == (if resolved.Ok? then None else Some(ProposerCredentialResolution(resolved.error)))
            && (resolved.Ok? ==>
                  var calls := ProposerCalls(sha, job, resolved.value);
                  var verified := s.verify(calls[..1], calls[1].schemeId, calls[1].request);
                  Stages(sha, job, s)[5].error == if verified.Ok? then None else Some(Crypto(verified.error)))
  {
    hide RevalidateStages, FinalStages, SigningRoot, PadRight;
    var root := job.header.canonicalRoot.value;
    SigningSpelledOut(sha, root);
    assert forall i :: 0 <= i < 6 ==> Stages(sha, job, s)[i] == HeaderStages(sha, job, s)[i];
    var resolved := s.resolve([], ResolveCall(job).query);
    if resolved.Ok? {
      assert ProposerCalls(sha, job, resolved.value)[..1] == [ResolveCall(job)];
    }
  }

  lemma SigningSpelledOut(sha: Sha, root: Root)
    ensures SigningRoot(sha, SigningData(root, DOMAIN_VALIDATOR_MESSAGE)).root == sha(root + PadRight([2, 0, 0, 0]))
  {
    hide Merkle.Merkleize;
    assert SigningRoot(sha, SigningData(root, DOMAIN_VALIDATOR_MESSAGE)).root == sha(root + PadRight(DOMAIN_VALIDATOR_MESSAGE)) by {
      ContainerOfTwo(sha, root, PadRight(DOMAIN_VALIDATOR_MESSAGE));
    }
  }

  /**
   * Past the free checks the resolver is asked for the proposer, and the dispatcher whether that proposer signed
   * the block root under the validator domain; a refusal of either ends the import at once.
   */
  lemma ProposerDecides(sha: Sha, job: Job, s: Services)
    requires Prechecked(job)
    ensures var query := Query(job.header.canonicalRoot.value, job.header.proposerIndexHint);
            var outcome, resolved := ImportResult(sha, job, s), s.resolve([], query);
            && (resolved.Err? ==> outcome == (Err(ProposerCredentialResolution(resolved.error)), [ResolveCredential(query)]))
            && (resolved.Ok? ==>
                  var calls := ProposerCalls(sha, job, resolved.value);
                  var verified := s.verify(calls[..1], calls[1].schemeId, calls[1].request);
                  && calls <= outcome.1
                  && (verified.Err? ==> outcome == (Err(Crypto(verified.error)), calls)))
  {
    hide HeaderStages, RevalidateStages, FinalStages, VerifyCall, ResolveCall, BlockRoot, ImportResult, ProposerCalls, Stages, CallsOf, RunStages;
    ProposerStages(sha, job, s);
    var query := Query(job.header.canonicalRoot.value, job.header.proposerIndexHint);
    var resolved := s.resolve([], query);
    var n := |job.body.transactions|;
    assert FullTrace(sha, job, s)[..1] == [ResolveCall(job)];
    assert FullTrace(sha, job, s)[..2] == [ResolveCall(job), VerifyCall(sha, job, s)];
    if resolved.Err? {
      FailsAt(sha, job, s, 4);
    } else {
      var k := FirstFailing(Stages(sha, job, s));
      if k < n + 10 {
        FailsAt(sha, job, s, k);
      } else {
        ImportOrdering(sha, job, s);
      }
    }
  }

  lemma PassedHeader(sha: Sha, job: Job, s: Services, c: Credential, k: nat)
    requires Prechecked(job) && ProposerSigned(sha, job, s, c) && k <= |job.body.transactions|
    ensures forall i :: 0 <= i < 6 ==> Stages(sha, job, s)[i].error.None?
    ensures CallsBefore(sha, job, s, k) == AskedBefore(sha, job, c, k)
    ensures BlockRoot(job) == job.header.canonicalRoot.value
  {
    hide HeaderStages, RevalidateStages, FinalStages, VerifyCall, ResolveCall, BlockRoot, Stages, RevalidateCalls;
    ProposerStages(sha, job, s);
    assert s.resolve([], Query(job.header.canonicalRoot.value, job.header.proposerIndexHint)) == Ok(c);
  }

  /** Body transaction k is the first to be refused: its refusal is returned, and it was the last one asked about. */
  lemma BodyRejects(sha: Sha, job: Job, s: Services, c: Credential, k: nat)
    requires Prechecked(job) && ProposerSigned(sha, job, s, c) && k < |job.body.transactions|
    requires forall j :: 0 <= j < k ==> s.revalidate(AskedBefore(sha, job, c, j), job.body.transactions[j]).Ok?
    requires s.revalidate(AskedBefore(sha, job, c, k), job.body.transactions[k]).Err?
    ensures ImportResult(sha, job, s) ==
            (Err(TransactionValidation(s.revalidate(AskedBefore(sha, job, c, k), job.body.transactions[k]).error)),
             AskedBefore(sha, job, c, k + 1))
  {
    hide HeaderStages, FinalStages, VerifyCall, ResolveCall, BlockRoot, ImportResult, ProposerCalls, AskedBefore, CallsBefore, FullTrace, Stages;
    RevalidatedTo(sha, job, s, c, k);
    PassedHeader(sha, job, s, c, k);
    PassedHeader(sha, job, s, c, k + 1);
    RevalidateStageAt(sha, job, s, k);
    FailsAt(sha, job, s, 6 + k);
    TraceTo(sha, job, s, k + 1);
  }

  lemma RevalidateStageAt(sha: Sha, job: Job, s: Services, k: nat)
    requires k < |job.body.transactions|
    ensures Stages(sha, job, s)[6 + k] == RevalidateStage(sha, job, s, k)
  {
    hide HeaderStages, FinalStages, RevalidateStage;
    assert Stages(sha, job, s)[6 + k] == RevalidateStages(sha, job, s, 0)[k];
    assert RevalidateStages(sha, job, s, 0)[k] == RevalidateStage(sha, job, s, 0 + k);
  }

  lemma TraceTo(sha: Sha, job: Job, s: Services, k: nat)
    requires k <= |job.body.transactions|
    ensures k + 2 <= |FullTrace(sha, job, s)| && FullTrace(sha, job, s)[..k + 2] == CallsBefore(sha, job, s, k)
  {
    hide VerifyCall, ResolveCall;
    var txs := job.body.transactions;
    var all, some := RevalidateCalls(txs[..|txs|]), RevalidateCalls(txs[..k]);
    assert all[..k] == some;
  }

  lemma RevalidatedTo(sha: Sha, job: Job, s: Services, c: Credential, k: nat)
    requires Prechecked(job) && ProposerSigned(sha, job, s, c) && k <= |job.body.transactions|
    requires forall j :: 0 <= j < k ==> s.revalidate(AskedBefore(sha, job, c, j), job.body.transactions[j]).Ok?
    ensures forall i :: 0 <= i < 6 + k ==> Stages(sha, job, s)[i].error.None?
  {
    hide HeaderStages, FinalStages, VerifyCall, ResolveCall, BlockRoot, ProposerCalls, AskedBefore, CallsBefore, Stages;
    PassedHeader(sha, job, s, c, 0);
    forall i | 6 <= i < 6 + k
      ensures Stages(sha, job, s)[i].error.None?
    {
      PassedHeader(sha, job, s, c, i - 6);
      RevalidateStageAt(sha, job, s, i - 6);
      assert s.revalidate(AskedBefore(sha, job, c, i - 6), job.body.transactions[i - 6]).Ok?;
    }
  }

  /**
   * With header and body passed: the sidecar must carry the block root, then the header's witness commitment;
   * witnesses are prepared, the block executed, and its roots compared, state before receipts.
   */
  lemma SidecarDecides(sha: Sha, job: Job, s: Services, c: Credential)
    requires Prechecked(job) && ProposerSigned(sha, job, s, c)
    requires forall j :: 0 <= j < |job.body.transactions| ==> s.revalidate(AskedBefore(sha, job, c, j), job.body.transactions[j]).Ok?
    ensures var h, root, side, asked := job.header, job.header.canonicalRoot.value, job.sidecar, AskedBefore(sha, job, c, |job.body.transactions|);
            var prepared, executed := s.prepare(asked, h, side), s.execute(asked + [PrepareWitness], h, job.body, side);
            var outcome := ImportResult(sha, job, s);
            if side.blockRoot != root then outcome == (Err(SidecarBlockRootMismatch(root, side.blockRoot)), asked)
            else if side.committedRoot != h.executionWitnessesRoot then
              outcome == (Err(SidecarCommitmentMismatch(h.executionWitnessesRoot, side.committedRoot)), asked)
            else if prepared.Err? then outcome == (Err(State(prepared.error)), asked + [PrepareWitness])
            else
              && outcome.1 == asked + [PrepareWitness, ExecuteTheBlock]
              && if executed.Err? then outcome.0 == Err(Execution(executed.error))
                 else if executed.value.postStateRoot != h.stateRoot then
                   outcome.0 == Err(Execution(PostStateRootMismatch(h.stateRoot, executed.value.postStateRoot)))
                 else if executed.value.receiptsRoot != h.receiptsRoot then
                   outcome.0 == Err(Execution(ReceiptsRootMismatch(h.receiptsRoot, executed.value.receiptsRoot)))
                 else outcome.0 == Ok(ImportOutcome(root, h.stateRoot, h.receiptsRoot))
  {
    hide HeaderStages, RevalidateStages, FinalStages, Stages, CallsBefore, AskedBefore, ProposerCalls, FullTrace, ImportResult, Executed, BlockRoot;
    var n, stages := |job.body.transactions|, Stages(sha, job, s);
    PassedHeader(sha, job, s, c, n);
    RevalidatedTo(sha, job, s, c, n);
    FinalTrace(sha, job, s);
    FinalStagesAt(sha, job, s);
    if stages[n + 6].error.Some? {
      FailsAt(sha, job, s, n + 6);
    } else if stages[n + 7].error.Some? {
      FailsAt(sha, job, s, n + 7);
    } else if stages[n + 8].error.Some? {
      FailsAt(sha, job, s, n + 8);
    } else if stages[n + 9].error.Some? {
      FailsAt(sha, job, s, n + 9);
    } else {
      assert FirstFailing(stages) == n + 10;
      ImportOrdering(sha, job, s);
      SucceedsWith(sha, job, s);
    }
  }

  lemma SucceedsWith(sha: Sha, job: Job, s: Services)
    requires ImportResult(sha, job, s).0.Ok?
    ensures Executed(sha, job, s).Ok?
    ensures ImportResult(sha, job, s).0.value ==
            ImportOutcome(BlockRoot(job), Executed(sha, job, s).value.postStateRoot, Executed(sha, job, s).value.receiptsRoot)
  {
    hide Stages, RunStages, Executed, BlockRoot;
  }

  lemma FinalTrace(sha: Sha, job: Job, s: Services)
    ensures var n, calls, full := |job.body.transactions|, CallsBefore(sha, job, s, |job.body.transactions|), FullTrace(sha, job, s);
            |full| == n + 4 && full[..n + 2] == calls && full[..n + 3] == calls + [PrepareWitness]
            && full == full[..n + 4] == calls + [PrepareWitness, ExecuteTheBlock]
  {
    hide VerifyCall, ResolveCall;
    assert |CallsBefore(sha, job, s, |job.body.transactions|)| == |job.body.transactions| + 2;
    hide CallsBefore;
  }

  lemma FinalStagesAt(sha: Sha, job: Job, s: Services)
    ensures var n, h, side, stages := |job.body.transactions|, job.header, job.sidecar, Stages(sha, job, s);
            var prepared, executed := s.prepare(CallsBefore(sha, job, s, n), h, side), Executed(sha, job, s);
            && executed == s.execute(CallsBefore(sha, job, s, n) + [PrepareWitness], h, job.body, side)
            && stages[n + 6].error == (if side.blockRoot != BlockRoot(job) then Some(SidecarBlockRootMismatch(BlockRoot(job), side.blockRoot)) else None)
            && stages[n + 7].error == (if side.committedRoot != h.executionWitnessesRoot
                                       then Some(SidecarCommitmentMismatch(h.executionWitnessesRoot, side.committedRoot)) else None)
            && stages[n + 8].error == (if prepared.Err? then Some(State(prepared.error)) else None)
            && stages[n + 9].error ==
               if executed.Err? then Some(Execution(executed.error))
               else if executed.value.postStateRoot != h.stateRoot
                 then Some(Execution(PostStateRootMismatch(h.stateRoot, executed.value.postStateRoot)))
               else if executed.value.receiptsRoot != h.receiptsRoot
                 then Some(Execution(ReceiptsRootMismatch(h.receiptsRoot, executed.value.receiptsRoot)))
               else None
  {
    hide HeaderStages, RevalidateStages, CallsBefore, BlockRoot;
    var n := |job.body.transactions|;
    assert forall i :: 0 <= i < 4 ==> Stages(sha, job, s)[n + 6 + i] == FinalStages(sha, job, s)[i];
    assert Stages(sha, job, s)[n + 6 + 0] == FinalStages(sha, job, s)[0];
  }
}
