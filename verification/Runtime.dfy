/** The reference runtime: admission, payload-root index, and block import wired to reference services; and what a run should mean. */
module Runtime {
  import opened Bytes
  import opened Transactions
  import opened HashTreeRoot
  import opened StateKeys
  import opened State
  import opened Commitments
  import opened Accumulator
  import opened Execution
  import opened Import
  import Admission
  import Registry

  datatype BlockHeader = BlockHeader(blockRoot: Root, witnessBytes: u64, transactionsRoot: Root, executionWitnessesRoot: Root,
                                     stateRoot: Root, receiptsRoot: Root, proposerSignature: seq<byte>, proposerIndexHint: Option<u64>)

  datatype BlockBody = BlockBody(transactions: seq<Envelope>, transactionsRoot: Root)

  datatype BlockSidecar = BlockSidecar(blockRoot: Root, executionWitnessesRoot: Root, witnesses: seq<StateWitness>)

  type Materials = seq<seq<byte>>

  type Entries = seq<(StateKey, seq<byte>)>

  datatype Scenario = Scenario(header: BlockHeader, body: BlockBody, sidecar: BlockSidecar,
                               admissionTransactions: seq<Envelope>, preStateRoot: Root, materializedState: Entries,
                               planned: seq<PlannedTransaction>, materials: seq<Materials>)

  /** What a run does that the dispatcher, the resolver and the state view can notice. */
  datatype Event =
    | Admitting(tx: Envelope)
    | Dispatched(schemeId: byte, request: Registry.Request, path: Registry.VerificationPath)
    | Resolved(query: Query)

  type Log = seq<Event>

  /** The services handed to the runtime answer by everything that happened before, across admission and import. */
  datatype Runtime = Runtime(sha: Sha,
                             dispatch: (Log, byte, Registry.Request, Registry.VerificationPath) -> Result<Unit, Registry.CryptoError>,
                             resolve: (Log, Query) -> Result<Credential, ResolutionError>,
                             policy: Admission.Policy, maxWitnessBytes: Option<u64>,
                             view: Option<(Log, Envelope) -> Option<u64>>)

  datatype ShapeContext = AdmissionCount | PlannedCount | MaterialsCount

  datatype LocalError =
    | ScenarioShape(expected: nat, actual: nat, context: ShapeContext)
    | DuplicateAdmissionPayloadRoot(root: Root)
    | AdmissionFailed(admission: Admission.ValidationError)
    | Consensus(consensus: ConsensusError)

  datatype FlowOutcome = FlowOutcome(admissions: seq<Admission.AuthorizationValidated>, imported: ImportOutcome)

  type Index = map<Root, (Envelope, Materials)>

  // ----- Admission and the index -----

  function CheckShape(sc: Scenario): Result<Unit, LocalError>
  {
    var n := |sc.body.transactions|;
    if |sc.admissionTransactions| != n then Err(ScenarioShape(n, |sc.admissionTransactions|, AdmissionCount))
    else if |sc.planned| != n then Err(ScenarioShape(n, |sc.planned|, PlannedCount))
    else if |sc.materials| != n then Err(ScenarioShape(n, |sc.materials|, MaterialsCount))
    else Ok(Unit)
  }

  function DispatchEvents(calls: seq<Admission.DispatchCall>): (log: Log)
    ensures |log| == |calls|
    ensures forall i :: 0 <= i < |log| ==> log[i] == Dispatched(calls[i].schemeId, calls[i].request, Registry.TransactionAuthorization)
  {
    if calls == [] then []
    else [Dispatched(calls[0].schemeId, calls[0].request, Registry.TransactionAuthorization)] + DispatchEvents(calls[1..])
  }

  /** The dispatcher as one admission sees it that begins after `log`. */
  function DispatcherAfter(rt: Runtime, log: Log): Admission.Dispatcher
  {
    (history: seq<Admission.DispatchCall>, id: byte, request: Registry.Request) =>
      rt.dispatch(log + DispatchEvents(history), id, request, Registry.TransactionAuthorization)
  }

  function ViewAfter(rt: Runtime, log: Log): Option<Admission.StateView>
  {
    match rt.view case None => None case Some(v) => Some((env: Envelope) => v(log, env))
  }

  function AdmitAfter(rt: Runtime, log: Log, env: Envelope, materials: Materials): Admission.Traced
  {
    Admission.AdmitAndVerify(rt.sha, DispatcherAfter(rt, log + [Admitting(env)]), rt.policy, env, ViewAfter(rt, log), materials)
  }

  function LogAfter(log: Log, env: Envelope, t: Admission.Traced): Log
  {
    log + [Admitting(env)] + DispatchEvents(t.calls)
  }

  datatype Admissions = Admissions(result: Result<seq<Admission.AuthorizationValidated>, LocalError>, log: Log)

  function AdmitAll(rt: Runtime, log: Log, txs: seq<Envelope>, materials: seq<Materials>): Admissions
    requires |txs| == |materials|
    decreases |txs|
  {
    hide AdmitAfter;
    if txs == [] then Admissions(Ok([]), log) else
    var t := AdmitAfter(rt, log, txs[0], materials[0]);
    var next := LogAfter(log, txs[0], t);
    match t.result
    case Err(e) => Admissions(Err(AdmissionFailed(e)), next)
    case Ok(a) => AdmittedThen([a], AdmitAll(rt, next, txs[1..], materials[1..]))
  }

  function AdmittedThen(done: seq<Admission.AuthorizationValidated>, rest: Admissions): Admissions
  {
    rest.(result := Collected(done, rest.result))
  }

  function PayloadRootOf(rt: Runtime, e: Envelope): Root
  {
    PayloadRoot(rt.sha, e.payload).root
  }

  function BuildIndex(rt: Runtime, txs: seq<Envelope>, materials: seq<Materials>, index: Index): Result<Index, LocalError>
    requires |txs| == |materials|
    decreases txs
  {
    hide PayloadRootOf;
    if txs == [] then Ok(index) else
    var root := PayloadRootOf(rt, txs[0]);
    if root in index then Err(DuplicateAdmissionPayloadRoot(root))
    else BuildIndex(rt, txs[1..], materials[1..], index[root := (txs[0], materials[0])])
  }

  // ----- Reference services -----

  datatype Revalidated = Revalidated(result: Result<Unit, Admission.ValidationError>, log: Log)

  /** Re-admits the admission transaction with the same payload root; the body's own authorizations play no part. */
  function Revalidate(rt: Runtime, index: Index, log: Log, tx: Envelope): Revalidated
  {
    var root := PayloadRootOf(rt, tx);
    if root !in index then Revalidated(Err(Admission.AuthorizationMaterialCount(1, 0)), log) else
    var t := AdmitAfter(rt, log, index[root].0, index[root].1);
    Revalidated(match t.result case Ok(_) => Ok(Unit) case Err(e) => Err(e), LogAfter(log, index[root].0, t))
  }

  /** What has happened by the time an import that began after `log` has made these calls. */
  function LogOf(rt: Runtime, index: Index, log: Log, calls: seq<Call>): Log
  {
    if calls == [] then log else
    var n := |calls| - 1;
    var before := LogOf(rt, index, log, calls[..n]);
    match calls[n]
    case ResolveCredential(query) => before + [Resolved(query)]
    case VerifySignature(id, request) => before + [Dispatched(id, request, Registry.ValidatorMessage)]
    case RevalidateTransaction(tx) => Revalidate(rt, index, before, tx).log
    case PrepareWitness => before
    case ExecuteTheBlock => before
  }

  function KeysOf(entries: Entries): (keys: seq<StateKey>)
    ensures |keys| == |entries| && forall i :: 0 <= i < |keys| ==> keys[i] == entries[i].0
  {
    if entries == [] then [] else [entries[0].0] + KeysOf(entries[1..])
  }

  function ValuesOf(entries: Entries): (values: seq<seq<byte>>)
    ensures |values| == |entries| && forall i :: 0 <= i < |values| ==> values[i] == entries[i].1
  {
    if entries == [] then [] else [entries[0].1] + ValuesOf(entries[1..])
  }

  function Materialize(sha: Sha, entries: Entries): Result<AccState, StateError>
  {
    if entries == [] then Ok(FRESH) else Apply(sha, FRESH, StatePatch(KeysOf(entries), ValuesOf(entries)))
  }

  function Prepare(rt: Runtime, sc: Scenario, witnessesRoot: Root): Result<Unit, StateError>
  {
    if WitnessesRoot(rt.sha, sc.sidecar.witnesses) != witnessesRoot then Err(WitnessVerificationFailed(CommittedRootMismatch)) else
    var acc :- Materialize(rt.sha, sc.materializedState);
    if acc.root != sc.preStateRoot then Err(RootContinuityMismatch(sc.preStateRoot, acc.root))
    else VerifyWitnesses(acc, sc.sidecar.witnesses, sc.preStateRoot)
  }

  function Execute(rt: Runtime, sc: Scenario, txs: seq<Envelope>): Result<BlockOutcome, ExecutionError>
  {
    match Materialize(rt.sha, sc.materializedState)
    case Err(e) => Err(StateTransition(e))
    case Ok(acc) =>
      if acc.root != sc.preStateRoot then Err(StateTransition(RootContinuityMismatch(sc.preStateRoot, acc.root))) else
      var p := RunBlock(rt.sha, sc.planned, acc, 0, sc.preStateRoot, txs);
      var outcome :- BlockResult(rt.sha, sc.preStateRoot, p);
      if p.cursor != |sc.planned| then Err(UnconsumedSteps) else Ok(outcome)
  }

  function ReferenceServices(rt: Runtime, sc: Scenario, index: Index, log: Log): Services
  {
    Services(
      (history: seq<Call>, query: Query) => rt.resolve(LogOf(rt, index, log, history), query),
      (history: seq<Call>, id: byte, request: Registry.Request) =>
        rt.dispatch(LogOf(rt, index, log, history), id, request, Registry.ValidatorMessage),
      (history: seq<Call>, tx: Envelope) => Revalidate(rt, index, LogOf(rt, index, log, history), tx).result,
      (history: seq<Call>, header: Header, sidecar: Sidecar) => Prepare(rt, sc, header.executionWitnessesRoot),
      (history: seq<Call>, header: Header, body: Body, sidecar: Sidecar) => Execute(rt, sc, body.transactions))
  }

  function JobOf(rt: Runtime, sc: Scenario): Job
  {
    var h := sc.header;
    Job(rt.maxWitnessBytes,
        Header(Ok(h.blockRoot), h.witnessBytes, h.transactionsRoot, h.executionWitnessesRoot, h.stateRoot, h.receiptsRoot,
               h.proposerSignature, h.proposerIndexHint),
        Body(Ok(sc.body.transactionsRoot), sc.body.transactions),
        Sidecar(sc.sidecar.blockRoot, sc.sidecar.executionWitnessesRoot))
  }

  function RunFlow(rt: Runtime, sc: Scenario): Result<FlowOutcome, LocalError>
  {
    var _ :- CheckShape(sc);
    var admitted := AdmitAll(rt, [], sc.admissionTransactions, sc.materials);
    var admissions :- admitted.result;
    var index :- BuildIndex(rt, sc.admissionTransactions, sc.materials, map[]);
    match ImportResult(rt.sha, JobOf(rt, sc), ReferenceServices(rt, sc, index, admitted.log)).0
    case Err(e) => Err(Consensus(e))
    case Ok(imported) => Ok(FlowOutcome(admissions, imported))
  }

  // ----- The runtime as code -----

  method MaterializeAccumulator(sha: Sha, entries: Entries) returns (r: Result<InMemoryAccumulator, StateError>)
    ensures match Materialize(sha, entries)
            case Ok(s) => r.Ok? && fresh(r.value) && r.value.Valid() && r.value.sha == sha && r.value.View() == s
            case Err(e) => r == Err(e)
  {
    hide Apply, ReferenceRoot;
    var acc := new InMemoryAccumulator(sha);
    if entries == [] {
      return Ok(acc);
    }
    var applied := acc.ApplyTransition(StatePatch(KeysOf(entries), ValuesOf(entries)));
    if applied.Err? {
      return Err(applied.error);
    }
    return Ok(acc);
  }

  /** The witness preparer, on a fresh accumulator. */
  method PrepareWitnesses(rt: Runtime, sc: Scenario, witnessesRoot: Root) returns (r: Result<Unit, StateError>)
    ensures r == Prepare(rt, sc, witnessesRoot)
  {
    hide Materialize, VerifyWitnesses, WitnessesRoot;
    var computed := ComputeExecutionWitnessesRoot(rt.sha, sc.sidecar.witnesses);
    if computed != witnessesRoot {
      return Err(WitnessVerificationFailed(CommittedRootMismatch));
    }
    var acc := MaterializeAccumulator(rt.sha, sc.materializedState);
    if acc.Err? {
      return Err(acc.error);
    }
    if acc.value.root != sc.preStateRoot {
      return Err(RootContinuityMismatch(sc.preStateRoot, acc.value.root));
    }
    r := acc.value.VerifyWitnesses(sc.sidecar.witnesses, sc.preStateRoot);
  }

  /** The execution engine, on a fresh accumulator and planner. */
  method ExecuteReference(rt: Runtime, sc: Scenario, txs: seq<Envelope>) returns (r: Result<BlockOutcome, ExecutionError>)
    ensures r == Execute(rt, sc, txs)
  {
    hide Materialize, RunBlock, BlockResult;
    var acc := MaterializeAccumulator(rt.sha, sc.materializedState);
    if acc.Err? {
      return Err(StateTransition(acc.error));
    }
    if acc.value.root != sc.preStateRoot {
      return Err(StateTransition(RootContinuityMismatch(sc.preStateRoot, acc.value.root)));
    }
    var planner := new PlannedTransactionExecutor(rt.sha, sc.planned);
    var applier := new ReferenceStateApplier(acc.value);
    var outcome := ExecuteBlock(sc.preStateRoot, txs, planner, applier);
    if outcome.Err? {
      return Err(outcome.error);
    }
    var exhausted := planner.EnsureExhausted();
    if exhausted.Err? {
      return Err(exhausted.error);
    }
    return outcome;
  }

  method AdmitTransactions(rt: Runtime, txs: seq<Envelope>, materials: seq<Materials>) returns (r: Admissions)
    requires |txs| == |materials|
    ensures r == AdmitAll(rt, [], txs, materials)
  {
    hide Admission.AdmitAndVerify, DispatchEvents;
    ghost var all := AdmitAll(rt, [], txs, materials);
    var done: seq<Admission.AuthorizationValidated>, log: Log, i := [], [], 0;
    assert txs[0..] == txs && materials[0..] == materials;
    assert all.result.Ok? ==> [] + all.result.value == all.result.value;
    while i < |txs|
      invariant 0 <= i <= |txs|
      invariant all == AdmittedThen(done, AdmitAll(rt, log, txs[i..], materials[i..]))
    {
      assert txs[i..][1..] == txs[i + 1..] && materials[i..][1..] == materials[i + 1..];
      var began := log + [Admitting(txs[i])];
      var t := Admission.AdmitAndVerifyLoop(rt.sha, DispatcherAfter(rt, began), rt.policy, txs[i], ViewAfter(rt, log), materials[i]);
      log := began + DispatchEvents(t.calls);
      if t.result.Err? {
        return Admissions(Err(AdmissionFailed(t.result.error)), log);
      }
      CollectedStep(done, t.result.value, AdmitAll(rt, log, txs[i + 1..], materials[i + 1..]).result);
      done := done + [t.result.value];
      i := i + 1;
    }
    assert done + [] == done;
    return Admissions(Ok(done), log);
  }

  method BuildIndexLoop(rt: Runtime, txs: seq<Envelope>, materials: seq<Materials>) returns (r: Result<Index, LocalError>)
    requires |txs| == |materials|
    ensures r == BuildIndex(rt, txs, materials, map[])
  {
    hide PayloadRootOf;
    var index: Index := map[];
    var i := 0;
    assert txs[0..] == txs && materials[0..] == materials;
    while i < |txs|
      invariant 0 <= i <= |txs|
      invariant BuildIndex(rt, txs, materials, map[]) == BuildIndex(rt, txs[i..], materials[i..], index)
    {
      assert txs[i..][1..] == txs[i + 1..] && materials[i..][1..] == materials[i + 1..];
      var root := PayloadRootOf(rt, txs[i]);
      if root in index {
        return Err(DuplicateAdmissionPayloadRoot(root));
      }
      index := index[root := (txs[i], materials[i])];
      i := i + 1;
    }
    return Ok(index);
  }

  method RunScenario(rt: Runtime, sc: Scenario) returns (r: Result<FlowOutcome, LocalError>)
    ensures r == RunFlow(rt, sc)
  {
    hide AdmitAll, BuildIndex, ImportResult;
    var shape := CheckShape(sc);
    if shape.Err? {
      return Err(shape.error);
    }
    var admissions := AdmitTransactions(rt, sc.admissionTransactions, sc.materials);
    if admissions.result.Err? {
      return Err(admissions.result.error);
    }
    var index := BuildIndexLoop(rt, sc.admissionTransactions, sc.materials);
    if index.Err? {
      return Err(index.error);
    }
    var imported, trace := ImportBlock(rt.sha, JobOf(rt, sc), ReferenceServices(rt, sc, index.value, admissions.log));
    if imported.Err? {
      return Err(Consensus(imported.error));
    }
    return Ok(FlowOutcome(admissions.result.value, imported.value));
  }

  // ----- What a successful run means -----

  /** The nonce that the state view knows after `log`. */
  ghost function ObservedAfter(rt: Runtime, log: Log, env: Envelope): Option<u64>
  {
    if rt.view.None? then None else rt.view.value(log, env)
  }

  /** What the dispatcher says to call i of an admission that begins after `log`. */
  ghost function AnswerAfter(rt: Runtime, log: Log, env: Envelope, calls: seq<Admission.DispatchCall>, i: nat): Result<Unit, Registry.CryptoError>
    requires i < |calls|
  {
    rt.dispatch(log + [Admitting(env)] + DispatchEvents(calls[..i]), calls[i].schemeId, calls[i].request, Registry.TransactionAuthorization)
  }

  /** An envelope that would be admitted after `log`: every check passes and each authorization verifies when asked. */
  ghost predicate AdmitsAfter(rt: Runtime, log: Log, env: Envelope, materials: Materials)
  {
    && Admission.PassesScreen(rt.sha, rt.policy, env, ObservedAfter(rt, log, env))
    && |materials| == |env.authorizations|
    && var calls := Admission.AdmissionCalls(rt.sha, rt.policy, env, materials);
    forall i :: 0 <= i < |calls| ==> AnswerAfter(rt, log, env, calls, i).Ok?
  }

  /** Why an envelope would not be admitted after `log`: the screen, the material count, or the first refusal. */
  ghost predicate RejectsAfter(rt: Runtime, log: Log, env: Envelope, materials: Materials, e: Admission.ValidationError)
  {
    if !Admission.PassesScreen(rt.sha, rt.policy, env, ObservedAfter(rt, log, env)) then
      Admission.RejectedFor(rt.sha, rt.policy, env, ObservedAfter(rt, log, env), e)
    else if |materials| != |env.authorizations| then
      e == Admission.AuthorizationMaterialCount(|env.authorizations|, |materials|)
    else
      var calls := Admission.AdmissionCalls(rt.sha, rt.policy, env, materials);
      exists k :: 0 <= k < |calls| && AnswerAfter(rt, log, env, calls, k).Err?
                  && Admission.Reports(AnswerAfter(rt, log, env, calls, k).error, e)
                  && forall j :: 0 <= j < k ==> AnswerAfter(rt, log, env, calls, j).Ok?
  }

  /** What one successful admission adds to the log; no service has a say in it. */
  function Session(rt: Runtime, env: Envelope, materials: Materials): Log
  {
    [Admitting(env)] +
    if |materials| == |env.authorizations| then DispatchEvents(Admission.AdmissionCalls(rt.sha, rt.policy, env, materials)) else []
  }

  function Sessions(rt: Runtime, txs: seq<Envelope>, materials: seq<Materials>): Log
    requires |txs| == |materials|
  {
    if txs == [] then [] else
    var n := |txs| - 1;
    Sessions(rt, txs[..n], materials[..n]) + Session(rt, txs[n], materials[n])
  }

  ghost predicate Aligned(sc: Scenario)
  {
    |sc.admissionTransactions| == |sc.planned| == |sc.materials| == |sc.body.transactions|
  }

  ghost predicate AdmittedAt(rt: Runtime, txs: seq<Envelope>, materials: seq<Materials>, i: nat)
    requires i < |txs| == |materials|
  {
    AdmitsAfter(rt, Sessions(rt, txs[..i], materials[..i]), txs[i], materials[i])
  }

  ghost predicate DistinctRoots(rt: Runtime, txs: seq<Envelope>)
  {
    forall i, j :: 0 <= i < j < |txs| ==> PayloadRootOf(rt, txs[i]) != PayloadRootOf(rt, txs[j])
  }

  /** The error names why transaction i is not admitted after the ones before it. */
  ghost predicate RejectedAt(rt: Runtime, txs: seq<Envelope>, materials: seq<Materials>, i: nat, e: LocalError)
    requires i < |txs| == |materials|
  {
    e.AdmissionFailed? && RejectsAfter(rt, Sessions(rt, txs[..i], materials[..i]), txs[i], materials[i], e.admission)
  }

  /** Each admission transaction is admitted after the ones before it, and their payload roots differ. */
  ghost predicate AdmissionsHold(rt: Runtime, sc: Scenario)
    requires Aligned(sc)
  {
    && (forall i :: 0 <= i < |sc.materials| ==> AdmittedAt(rt, sc.admissionTransactions, sc.materials, i))
    && DistinctRoots(rt, sc.admissionTransactions)
  }

  /** What has happened when the import begins. */
  function AdmissionLog(rt: Runtime, sc: Scenario): Log
    requires Aligned(sc)
  {
    Sessions(rt, sc.admissionTransactions, sc.materials)
  }

  function ProposerQuery(sc: Scenario): Query
  {
    Query(sc.header.blockRoot, sc.header.proposerIndexHint)
  }

  /** The question whether the proposer with this credential signed the block root under the validator domain. */
  ghost function ProposerRequest(rt: Runtime, sc: Scenario, c: Credential): Registry.Request
  {
    Registry.Request(c.publicKeyMaterial, rt.sha(sc.header.blockRoot + PadRight([2, 0, 0, 0])), sc.header.proposerSignature)
  }

  /** The header passes when the import begins after `log`. */
  ghost predicate HeaderHolds(rt: Runtime, sc: Scenario, log: Log)
  {
    var h := sc.header;
    var credential := rt.resolve(log, ProposerQuery(sc));
    && (rt.maxWitnessBytes.Some? ==> h.witnessBytes <= rt.maxWitnessBytes.value)
    && sc.body.transactionsRoot == h.transactionsRoot
    && credential.Ok?
    && rt.dispatch(log + [Resolved(ProposerQuery(sc))], credential.value.schemeId,
                   ProposerRequest(rt, sc, credential.value), Registry.ValidatorMessage).Ok?
  }

  /** The log once the header has passed. */
  ghost function HeaderLog(rt: Runtime, sc: Scenario, log: Log): Log
  {
    var c := match rt.resolve(log, ProposerQuery(sc)) case Ok(c) => c case Err(_) => Credential(0, []);
    log + [Resolved(ProposerQuery(sc)), Dispatched(c.schemeId, ProposerRequest(rt, sc, c), Registry.ValidatorMessage)]
  }

  /** The admission transaction that stands in for a body transaction: the first of its payload root, if any. */
  function Origin(rt: Runtime, sc: Scenario, tx: Envelope): (k: nat)
    ensures k <= |sc.admissionTransactions|
  {
    First(sc.admissionTransactions, (e: Envelope) => PayloadRootOf(rt, e) == PayloadRootOf(rt, tx))
  }

  /** What has happened before body transaction j is revalidated, all before it having passed. */
  ghost function BodyLog(rt: Runtime, sc: Scenario, j: nat): Log
    requires Aligned(sc) && j <= |sc.body.transactions|
  {
    if j == 0 then HeaderLog(rt, sc, AdmissionLog(rt, sc)) else
    var k := Origin(rt, sc, sc.body.transactions[j - 1]);
    BodyLog(rt, sc, j - 1) +
    if k < |sc.materials| then Session(rt, sc.admissionTransactions[k], sc.materials[k]) else []
  }

  /** The admission transaction behind body transaction j is admitted once more when its turn comes. */
  ghost predicate Readmitted(rt: Runtime, sc: Scenario, j: nat)
    requires Aligned(sc) && j < |sc.body.transactions|
  {
    var k := Origin(rt, sc, sc.body.transactions[j]);
    k < |sc.materials| && AdmitsAfter(rt, BodyLog(rt, sc, j), sc.admissionTransactions[k], sc.materials[k])
  }

  ghost predicate BodyReadmitted(rt: Runtime, sc: Scenario)
    requires Aligned(sc)
  {
    forall j :: 0 <= j < |sc.body.transactions| ==> Readmitted(rt, sc, j)
  }

  ghost predicate SidecarHolds(rt: Runtime, sc: Scenario)
  {
    && sc.sidecar.blockRoot == sc.header.blockRoot
    && sc.sidecar.executionWitnessesRoot == sc.header.executionWitnessesRoot
    && WitnessesRoot(rt.sha, sc.sidecar.witnesses) == sc.header.executionWitnessesRoot
  }

  /** The pre-state is the given sorted entries, and the witnesses are sorted true entries of it. */
  ghost predicate PreStateHolds(rt: Runtime, sc: Scenario)
  {
    && StrictlySorted(KeysOf(sc.materializedState))
    && Materialize(rt.sha, sc.materializedState).Ok?
    && Materialize(rt.sha, sc.materializedState).value.root == sc.preStateRoot
    && StrictlySorted(WitnessKeysOf(sc.sidecar.witnesses))
    && forall i :: 0 <= i < |sc.sidecar.witnesses| ==>
         sc.sidecar.witnesses[i].proof == [] &&
         (sc.sidecar.witnesses[i].key, sc.sidecar.witnesses[i].leafValue) in sc.materializedState
  }

  /** Body and plan agree one to one, and the header commits to folding the plan over the pre-state. */
  ghost predicate ExecutionHolds(rt: Runtime, sc: Scenario)
    requires Aligned(sc) && Materialize(rt.sha, sc.materializedState).Ok?
  {
    var post := Fold(rt.sha, Materialize(rt.sha, sc.materializedState).value, sc.planned);
    && (forall i :: 0 <= i < |sc.planned| ==> EnvelopeRoot(rt.sha, sc.body.transactions[i]).root == sc.planned[i].transactionRoot)
    && post.Ok?
    && sc.header.stateRoot == post.value.root
    && sc.header.receiptsRoot == ReceiptsRoot(rt.sha, PlannedReceipts(sc.planned)).root
  }

  ghost predicate Accepts(rt: Runtime, sc: Scenario)
  {
    && Aligned(sc) && AdmissionsHold(rt, sc) && HeaderHolds(rt, sc, AdmissionLog(rt, sc)) && BodyReadmitted(rt, sc)
    && SidecarHolds(rt, sc) && PreStateHolds(rt, sc) && ExecutionHolds(rt, sc)
  }
}
