/** What every part of the reference runtime, and a whole run, accepts and rejects. */
module RuntimeExact {
  import opened Bytes
  import opened Transactions
  import opened HashTreeRoot
  import opened StateKeys
  import opened State
  import opened Commitments
  import opened Execution
  import opened Import
  import opened Reference = Runtime
  import Admission
  import Registry

  // ----- Each part exactly -----

  /** What admission reports for a transaction: its payload root, the root signed, and all its authorizations counted. */
  ghost function AdmissionReport(rt: Runtime, env: Envelope): Admission.AuthorizationValidated
  {
    var root := PayloadRoot(rt.sha, env.payload).root;
    var domain := if rt.policy.domain.Canonical? then [1, 0, 0, 0] else rt.policy.domain.domainType;
    Admission.AuthorizationValidated(root, rt.sha(root + PadRight(domain)), |env.authorizations|)
  }

  lemma AnswersAfter(rt: Runtime, log: Log, env: Envelope, calls: seq<Admission.DispatchCall>, i: nat)
    requires i < |calls|
    ensures DispatcherAfter(rt, log + [Admitting(env)])(calls[..i], calls[i].schemeId, calls[i].request) == AnswerAfter(rt, log, env, calls, i)
  {
    hide DispatchEvents;
  }

  /** The admission's own condition, in terms of the services after `log`. */
  lemma AdmitsInLog(rt: Runtime, log: Log, env: Envelope, materials: Materials)
    ensures Admission.Admits(rt.sha, DispatcherAfter(rt, log + [Admitting(env)]), rt.policy, env, ObservedAfter(rt, log, env), materials) <==>
            AdmitsAfter(rt, log, env, materials)
  {
    hide Admission.PassesScreen, Admission.AdmissionCalls, DispatcherAfter, AnswerAfter;
    if |materials| == |env.authorizations| {
      var calls, d := Admission.AdmissionCalls(rt.sha, rt.policy, env, materials), DispatcherAfter(rt, log + [Admitting(env)]);
      forall i | 0 <= i < |calls|
        ensures d(calls[..i], calls[i].schemeId, calls[i].request) == AnswerAfter(rt, log, env, calls, i)
      {
        AnswersAfter(rt, log, env, calls, i);
      }
    }
  }

  lemma RefusalInLog(rt: Runtime, log: Log, env: Envelope, calls: seq<Admission.DispatchCall>, k: nat, t: Admission.Traced)
    requires k < |calls| && Admission.RefusedAt(DispatcherAfter(rt, log + [Admitting(env)]), calls, k, t)
    ensures t.result.Err? && AnswerAfter(rt, log, env, calls, k).Err? && Admission.Reports(AnswerAfter(rt, log, env, calls, k).error, t.result.error)
    ensures forall j :: 0 <= j < k ==> AnswerAfter(rt, log, env, calls, j).Ok?
  {
    hide DispatcherAfter, AnswerAfter, Admission.Reports;
    AnswersAfter(rt, log, env, calls, k);
    forall j | 0 <= j < k
      ensures AnswerAfter(rt, log, env, calls, j).Ok?
    {
      AnswersAfter(rt, log, env, calls, j);
    }
  }

  /** One admission after any log: when it succeeds, what it reports, what it leaves in the log, and why it fails. */
  lemma AdmitAfterExact(rt: Runtime, log: Log, env: Envelope, materials: Materials)
    ensures var t := AdmitAfter(rt, log, env, materials);
            && (t.result.Ok? <==> AdmitsAfter(rt, log, env, materials))
            && (t.result.Ok? ==> t.result.value == AdmissionReport(rt, env) && LogAfter(log, env, t) == log + Session(rt, env, materials))
            && (t.result.Err? ==> RejectsAfter(rt, log, env, materials, t.result.error))
  {
    hide Admission.AdmitAndVerify, Admission.Admits, Admission.PassesScreen, Admission.RejectedFor, Admission.AdmissionCalls, PayloadRoot,
         Admission.SigningRootFor, DispatchEvents, DispatcherAfter, AnswerAfter, Admission.RefusedAt, Admission.Reports, PadRight;
    var d, view := DispatcherAfter(rt, log + [Admitting(env)]), ViewAfter(rt, log);
    var t := AdmitAfter(rt, log, env, materials);
    assert ObservedAfter(rt, log, env) == match view case None => None case Some(v) => v(env);
    Admission.AdmitExact(rt.sha, d, rt.policy, env, view, materials);
    AdmitsInLog(rt, log, env, materials);
    if |materials| == |env.authorizations| {
      Admission.AdmissionAsks(rt.sha, rt.policy, env, materials);
      var calls := Admission.AdmissionCalls(rt.sha, rt.policy, env, materials);
      if t.result.Err? && Admission.PassesScreen(rt.sha, rt.policy, env, ObservedAfter(rt, log, env)) {
        var k :| 0 <= k < |calls| && Admission.RefusedAt(d, calls, k, t);
        RefusalInLog(rt, log, env, calls, k, t);
      }
    }
  }

  lemma AdmitStep(rt: Runtime, txs: seq<Envelope>, materials: seq<Materials>, n: nat)
    requires n < |txs| == |materials|
    ensures var log := Sessions(rt, txs[..n], materials[..n]);
            var t := AdmitAfter(rt, log, txs[n], materials[n]);
            && (t.result.Ok? <==> AdmittedAt(rt, txs, materials, n))
            && (t.result.Ok? ==>
                  && t.result.value == AdmissionReport(rt, txs[n])
                  && LogAfter(log, txs[n], t) == Sessions(rt, txs[..n + 1], materials[..n + 1]))
            && (t.result.Err? ==> RejectsAfter(rt, log, txs[n], materials[n], t.result.error))
  {
    hide AdmitAfter, AdmitsAfter, Session, LogAfter, AdmissionReport, RejectsAfter;
    AdmitAfterExact(rt, Sessions(rt, txs[..n], materials[..n]), txs[n], materials[n]);
    assert txs[..n + 1][..n] == txs[..n] && materials[..n + 1][..n] == materials[..n];
  }

  lemma {:induction false} AdmitAllFrom(rt: Runtime, txs: seq<Envelope>, materials: seq<Materials>, n: nat)
    requires |txs| == |materials| && n <= |txs|
    ensures var r := AdmitAll(rt, Sessions(rt, txs[..n], materials[..n]), txs[n..], materials[n..]);
            && (r.result.Ok? <==> forall i :: n <= i < |txs| ==> AdmittedAt(rt, txs, materials, i))
            && (r.result.Ok? ==>
                  && r.log == Sessions(rt, txs, materials)
                  && |r.result.value| == |txs| - n
                  && forall i :: n <= i < |txs| ==> r.result.value[i - n] == AdmissionReport(rt, txs[i]))
            && (r.result.Err? ==> exists i :: n <= i < |txs| && RejectedAt(rt, txs, materials, i, r.result.error)
                                              && forall j :: n <= j < i ==> AdmittedAt(rt, txs, materials, j))
    decreases |txs| - n
  {
    hide AdmitAfter, AdmittedAt, Sessions, LogAfter, AdmissionReport, RejectsAfter;
    if n == |txs| {
      assert txs[..n] == txs && materials[..n] == materials;
    } else {
      AdmitStep(rt, txs, materials, n);
      assert txs[n..][1..] == txs[n + 1..] && materials[n..][1..] == materials[n + 1..];
      AdmitAllFrom(rt, txs, materials, n + 1);
      var r := AdmitAll(rt, Sessions(rt, txs[..n], materials[..n]), txs[n..], materials[n..]);
      if !AdmittedAt(rt, txs, materials, n) {
        assert RejectedAt(rt, txs, materials, n, r.result.error);
      } else if r.result.Err? {
        var i :| n + 1 <= i < |txs| && RejectedAt(rt, txs, materials, i, r.result.error)
                 && forall j :: n + 1 <= j < i ==> AdmittedAt(rt, txs, materials, j);
        assert forall j :: n <= j < i ==> AdmittedAt(rt, txs, materials, j);
      }
    }
  }

  /** All are admitted exactly when each is after the ones before it; the log then holds one session per transaction. */
  lemma AdmitAllExact(rt: Runtime, txs: seq<Envelope>, materials: seq<Materials>)
    requires |txs| == |materials|
    ensures var r := AdmitAll(rt, [], txs, materials);
            && (r.result.Ok? <==> forall i :: 0 <= i < |txs| ==> AdmittedAt(rt, txs, materials, i))
            && (r.result.Ok? ==>
                  && r.log == Sessions(rt, txs, materials)
                  && |r.result.value| == |txs|
                  && forall i :: 0 <= i < |txs| ==> r.result.value[i] == AdmissionReport(rt, txs[i]))
            && (r.result.Err? ==> exists i :: 0 <= i < |txs| && RejectedAt(rt, txs, materials, i, r.result.error)
                                              && forall j :: 0 <= j < i ==> AdmittedAt(rt, txs, materials, j))
  {
    hide AdmitAll, AdmittedAt, RejectedAt, Session, AdmissionReport;
    assert txs[0..] == txs && materials[0..] == materials;
    assert Sessions(rt, txs[..0], materials[..0]) == [];
    AdmitAllFrom(rt, txs, materials, 0);
  }

  /** The index holds exactly the admission transactions, and is built exactly when their roots are distinct. */
  ghost predicate IndexFor(rt: Runtime, txs: seq<Envelope>, materials: seq<Materials>, index: Index)
    requires |txs| == |materials|
  {
    && (forall i :: 0 <= i < |txs| ==> PayloadRootOf(rt, txs[i]) in index && index[PayloadRootOf(rt, txs[i])] == (txs[i], materials[i]))
    && (forall r :: r in index ==> exists i :: 0 <= i < |txs| && PayloadRootOf(rt, txs[i]) == r)
  }

  /** Transaction m is the first whose payload root an earlier one already has, and the error names that root. */
  ghost predicate RepeatedAt(rt: Runtime, txs: seq<Envelope>, m: nat, e: LocalError)
  {
    && m < |txs| && e == DuplicateAdmissionPayloadRoot(PayloadRoot(rt.sha, txs[m].payload).root)
    && DistinctRoots(rt, txs[..m]) && !DistinctRoots(rt, txs[..m + 1])
  }

  lemma {:induction false} BuildIndexFrom(rt: Runtime, txs: seq<Envelope>, materials: seq<Materials>, n: nat, index: Index)
    requires |txs| == |materials| && n <= |txs|
    requires IndexFor(rt, txs[..n], materials[..n], index) && DistinctRoots(rt, txs[..n])
    ensures BuildIndex(rt, txs[n..], materials[n..], index).Ok? <==> DistinctRoots(rt, txs)
    ensures BuildIndex(rt, txs[n..], materials[n..], index).Ok? ==>
            IndexFor(rt, txs, materials, BuildIndex(rt, txs[n..], materials[n..], index).value)
    ensures BuildIndex(rt, txs[n..], materials[n..], index).Err? ==>
            exists m :: RepeatedAt(rt, txs, m, BuildIndex(rt, txs[n..], materials[n..], index).error)
    decreases |txs| - n
  {
    hide PayloadRootOf, IndexFor, DistinctRoots, RepeatedAt;
    if n == |txs| {
      assert txs[..n] == txs && materials[..n] == materials;
    } else {
      var root := PayloadRootOf(rt, txs[n]);
      assert txs[n..][1..] == txs[n + 1..] && materials[n..][1..] == materials[n + 1..];
      if root in index {
        DuplicateRoot(rt, txs, materials, n, index);
        assert RepeatedAt(rt, txs, n, DuplicateAdmissionPayloadRoot(root));
      } else {
        IndexGrows(rt, txs, materials, n, index);
        BuildIndexFrom(rt, txs, materials, n + 1, index[root := (txs[n], materials[n])]);
      }
    }
  }

  lemma DuplicateRoot(rt: Runtime, txs: seq<Envelope>, materials: seq<Materials>, n: nat, index: Index)
    requires |txs| == |materials| && n < |txs|
    requires IndexFor(rt, txs[..n], materials[..n], index) && PayloadRootOf(rt, txs[n]) in index && DistinctRoots(rt, txs[..n])
    ensures !DistinctRoots(rt, txs) && RepeatedAt(rt, txs, n, DuplicateAdmissionPayloadRoot(PayloadRootOf(rt, txs[n])))
  {
    hide PayloadRootOf;
    var i :| 0 <= i < n && PayloadRootOf(rt, txs[..n][i]) == PayloadRootOf(rt, txs[n]);
    assert PayloadRootOf(rt, txs[i]) == PayloadRootOf(rt, txs[n]);
    assert txs[..n + 1][i] == txs[i] && txs[..n + 1][n] == txs[n];
    assert DuplicateAdmissionPayloadRoot(PayloadRootOf(rt, txs[n])) == DuplicateAdmissionPayloadRoot(PayloadRoot(rt.sha, txs[n].payload).root)
      by { RootOf(rt, txs[n]); }
  }

  lemma RootOf(rt: Runtime, e: Envelope)
    ensures PayloadRootOf(rt, e) == PayloadRoot(rt.sha, e.payload).root
  {
    hide PayloadRoot;
  }

  lemma IndexGrows(rt: Runtime, txs: seq<Envelope>, materials: seq<Materials>, n: nat, index: Index)
    requires |txs| == |materials| && n < |txs|
    requires IndexFor(rt, txs[..n], materials[..n], index) && DistinctRoots(rt, txs[..n])
    requires PayloadRootOf(rt, txs[n]) !in index
    ensures var next := index[PayloadRootOf(rt, txs[n]) := (txs[n], materials[n])];
            IndexFor(rt, txs[..n + 1], materials[..n + 1], next) && DistinctRoots(rt, txs[..n + 1])
  {
    hide PayloadRootOf;
    assert txs[..n + 1] == txs[..n] + [txs[n]] && materials[..n + 1] == materials[..n] + [materials[n]];
    IndexSnoc(rt, txs[..n], materials[..n], txs[n], materials[n], index);
  }

  lemma IndexSnoc(rt: Runtime, b: seq<Envelope>, ms: seq<Materials>, tx: Envelope, m: Materials, index: Index)
    requires |b| == |ms| && IndexFor(rt, b, ms, index) && DistinctRoots(rt, b)
    requires PayloadRootOf(rt, tx) !in index
    ensures DistinctRoots(rt, b + [tx])
    ensures IndexFor(rt, b + [tx], ms + [m], index[PayloadRootOf(rt, tx) := (tx, m)])
  {
    hide PayloadRootOf;
    var a, root := b + [tx], PayloadRootOf(rt, tx);
    var next := index[root := (tx, m)];
    assert forall i :: 0 <= i < |b| ==> PayloadRootOf(rt, b[i]) in index;
    forall r | r in next
      ensures exists i :: 0 <= i < |a| && PayloadRootOf(rt, a[i]) == r
    {
      if r == root {
        assert PayloadRootOf(rt, a[|b|]) == r;
      } else {
        var i :| 0 <= i < |b| && PayloadRootOf(rt, b[i]) == r;
        assert PayloadRootOf(rt, a[i]) == r;
      }
    }
  }

  lemma IndexExact(rt: Runtime, txs: seq<Envelope>, materials: seq<Materials>)
    requires |txs| == |materials|
    ensures BuildIndex(rt, txs, materials, map[]).Ok? <==> DistinctRoots(rt, txs)
    ensures BuildIndex(rt, txs, materials, map[]).Ok? ==> IndexFor(rt, txs, materials, BuildIndex(rt, txs, materials, map[]).value)
    ensures BuildIndex(rt, txs, materials, map[]).Err? ==>
            exists m :: RepeatedAt(rt, txs, m, BuildIndex(rt, txs, materials, map[]).error)
  {
    hide BuildIndex, PayloadRootOf, RepeatedAt;
    assert txs[0..] == txs && materials[0..] == materials;
    BuildIndexFrom(rt, txs, materials, 0, map[]);
  }

  /** Revalidation re-admits the admission transaction of the same payload root after the log so far, and needs one. */
  lemma RevalidateExact(rt: Runtime, sc: Scenario, index: Index, log: Log, tx: Envelope)
    requires Aligned(sc) && IndexFor(rt, sc.admissionTransactions, sc.materials, index)
    ensures var r, k := Revalidate(rt, index, log, tx), Origin(rt, sc, tx);
            && (r.result.Ok? <==> k < |sc.materials| && AdmitsAfter(rt, log, sc.admissionTransactions[k], sc.materials[k]))
            && (r.result.Ok? ==> r.log == log + Session(rt, sc.admissionTransactions[k], sc.materials[k]))
            && (k == |sc.materials| ==> r.result == Err(Admission.AuthorizationMaterialCount(1, 0)))
            && (k < |sc.materials| && r.result.Err? ==>
                  RejectsAfter(rt, log, sc.admissionTransactions[k], sc.materials[k], r.result.error))
  {
    hide PayloadRoot, AdmitAfter, AdmitsAfter, Session, LogAfter, RejectsAfter;
    var root, k := PayloadRootOf(rt, tx), Origin(rt, sc, tx);
    if k < |sc.materials| {
      assert index[root] == (sc.admissionTransactions[k], sc.materials[k]);
      AdmitAfterExact(rt, log, sc.admissionTransactions[k], sc.materials[k]);
    } else {
      assert root !in index;
    }
  }

  lemma MaterializeExact(sha: Sha, entries: Entries)
    ensures Materialize(sha, entries).Ok? <==> StrictlySorted(KeysOf(entries))
    ensures Materialize(sha, entries).Ok? ==>
            && ValidState(sha, Materialize(sha, entries).value)
            && (forall k, v :: HoldsLeaf(Materialize(sha, entries).value.leaves, k, v) <==> (k, v) in entries)
            && Materialize(sha, entries).value.root == if entries == [] then Zeros(32) else sha(RootInput(sha, Materialize(sha, entries).value.leaves))
    ensures Materialize(sha, entries).Err? ==>
            exists v :: FirstUnsorted(KeysOf(entries), v) && Materialize(sha, entries).error == NonCanonicalWitnessOrdering(v, AccessKeys)
  {
    hide EncodeStateKey, RootInput, CompareStateKeys, Apply, FirstUnsorted;
    var patch := StatePatch(KeysOf(entries), ValuesOf(entries));
    ApplyIsOverride(sha, FRESH, patch);
    if entries != [] && Materialize(sha, entries).Ok? {
      FirstTransitionHashes(sha, FRESH, patch);
      var t := Materialize(sha, entries).value;
      forall k, v
        ensures HoldsLeaf(t.leaves, k, v) <==> (k, v) in entries
      {
        EntryHeld(sha, entries, k, v);
      }
    }
  }

  lemma EntryHeld(sha: Sha, entries: Entries, k: StateKey, v: seq<byte>)
    requires entries != [] && Materialize(sha, entries).Ok?
    ensures HoldsLeaf(Materialize(sha, entries).value.leaves, k, v) <==> (k, v) in entries
  {
    hide EncodeStateKey, RootInput, CompareStateKeys, Apply, FirstUnsorted, StrictlySorted;
    var patch := StatePatch(KeysOf(entries), ValuesOf(entries));
    ApplyIsOverride(sha, FRESH, patch);
    var t := Materialize(sha, entries).value;
    if HoldsLeaf(t.leaves, k, v) {
      assert exists i :: 0 <= i < |patch.accesses| && EncodeStateKey(patch.accesses[i]) == EncodeStateKey(k);
      var i :| 0 <= i < |patch.accesses| && EncodeStateKey(patch.accesses[i]) == EncodeStateKey(k);
      assert entries[i] == (k, v);
    }
    if (k, v) in entries {
      var i :| 0 <= i < |entries| && entries[i] == (k, v);
      assert patch.accesses[i] == k && patch.newValues[i] == v;
    }
  }

  /** Witness preparation passes exactly when the commitment, the pre-state and every witness hold. */
  lemma PrepareExact(rt: Runtime, sc: Scenario)
    ensures Prepare(rt, sc, sc.header.executionWitnessesRoot).Ok? <==>
            WitnessesRoot(rt.sha, sc.sidecar.witnesses) == sc.header.executionWitnessesRoot && PreStateHolds(rt, sc)
    ensures var r, m := Prepare(rt, sc, sc.header.executionWitnessesRoot), Materialize(rt.sha, sc.materializedState);
            if WitnessesRoot(rt.sha, sc.sidecar.witnesses) != sc.header.executionWitnessesRoot then
              r == Err(WitnessVerificationFailed(CommittedRootMismatch))
            else if m.Err? then r == Err(m.error)
            else if m.value.root != sc.preStateRoot then r == Err(RootContinuityMismatch(sc.preStateRoot, m.value.root))
            else r == VerifyWitnesses(m.value, sc.sidecar.witnesses, sc.preStateRoot)
  {
    hide WitnessesRoot, Materialize, VerifyWitnesses, StrictlySorted, WitnessKeysOf, KeysOf;
    var m := Materialize(rt.sha, sc.materializedState);
    SortedEntries(rt.sha, sc.materializedState);
    if m.Ok? && m.value.root == sc.preStateRoot {
      EntriesWitnessed(rt.sha, sc.materializedState, sc.sidecar.witnesses);
    }
  }

  lemma SortedEntries(sha: Sha, entries: Entries)
    ensures Materialize(sha, entries).Ok? <==> StrictlySorted(KeysOf(entries))
  {
    hide *;
    MaterializeExact(sha, entries);
  }

  lemma EntriesWitnessed(sha: Sha, entries: Entries, ws: seq<StateWitness>)
    requires Materialize(sha, entries).Ok?
    ensures var m := Materialize(sha, entries).value;
            VerifyWitnesses(m, ws, m.root).Ok? <==>
            StrictlySorted(WitnessKeysOf(ws)) && forall i :: 0 <= i < |ws| ==> ws[i].proof == [] && (ws[i].key, ws[i].leafValue) in entries
  {
    hide Materialize, VerifyWitnesses, VerifyWitness, EncodeStateKey, RootInput, HoldsLeaf, StrictlySorted, FirstUnsorted, WellKeyed;
    var m := Materialize(sha, entries).value;
    MaterializeExact(sha, entries);
    VerifyWitnessesExact(m, ws, m.root);
    forall i | 0 <= i < |ws|
      ensures TrueWitness(m, ws[i]) <==> ws[i].proof == [] && (ws[i].key, ws[i].leafValue) in entries
    {
      assert HoldsLeaf(m.leaves, ws[i].key, ws[i].leafValue) <==> (ws[i].key, ws[i].leafValue) in entries;
    }
  }

  /** Each outcome of the reference engine, on any transactions, by the condition that leads to it. */
  lemma ExecuteDecides(rt: Runtime, sc: Scenario, txs: seq<Envelope>)
    ensures var r, m := Execute(rt, sc, txs), Materialize(rt.sha, sc.materializedState);
            && (m.Err? ==> r == Err(StateTransition(m.error)))
            && (m.Ok? && m.value.root != sc.preStateRoot ==>
                  r == Err(StateTransition(RootContinuityMismatch(sc.preStateRoot, m.value.root))))
            && (m.Ok? && m.value.root == sc.preStateRoot && r.Err? ==>
                  || (exists k :: StopsAt(rt.sha, sc.planned, m.value, 0, txs, k, r.error))
                  || (r.error == UnconsumedSteps && |sc.planned| > |txs| && PlanCovers(rt.sha, sc.planned, m.value, 0, txs)))
            && (r.Ok? ==> m.Ok? && |sc.planned| == |txs| && ExecutesTo(rt.sha, sc.planned, m.value, 0, txs, r.value))
  {
    hide Materialize, RunBlock, StopsAt, PlanCovers, ExecutesTo, EnvelopeRoot, ReceiptsRoot, Fold, FollowsPlan;
    var m := Materialize(rt.sha, sc.materializedState);
    if m.Ok? {
      FailureExact(rt.sha, sc.planned, m.value, 0, txs);
      OutcomeExact(rt.sha, sc.planned, m.value, 0, txs);
      ExecutionExact(rt.sha, sc.planned, m.value, 0, txs);
      Lineage(rt.sha, sc.planned, m.value, 0, txs);
    }
  }

  /** On an aligned scenario with the right pre-state, execution and the header agree exactly when `ExecutionHolds`. */
  lemma ExecuteExact(rt: Runtime, sc: Scenario)
    requires Aligned(sc) && PreStateHolds(rt, sc)
    ensures var r := Execute(rt, sc, sc.body.transactions);
            r.Ok? && r.value.postStateRoot == sc.header.stateRoot && r.value.receiptsRoot == sc.header.receiptsRoot <==> ExecutionHolds(rt, sc)
  {
    hide Materialize, RunBlock, EnvelopeRoot, ReceiptsRoot, Receipts, PlannedReceipts, StrictlySorted, Fold, PlanCovers, FollowsPlan, StopsAt;
    var m := Materialize(rt.sha, sc.materializedState).value;
    assert sc.planned[0..0 + |sc.planned|] == sc.planned;
    ExecuteDecides(rt, sc, sc.body.transactions);
    ExecutionExact(rt.sha, sc.planned, m, 0, sc.body.transactions);
    CoversIff(rt, sc, m);
  }

  lemma CoversIff(rt: Runtime, sc: Scenario, m: AccState)
    requires Aligned(sc)
    ensures PlanCovers(rt.sha, sc.planned, m, 0, sc.body.transactions) <==>
            && (forall i :: 0 <= i < |sc.planned| ==> EnvelopeRoot(rt.sha, sc.body.transactions[i]).root == sc.planned[i].transactionRoot)
            && Fold(rt.sha, m, sc.planned).Ok?
  {
    hide EnvelopeRoot, Fold;
    assert sc.planned[0..0 + |sc.body.transactions|] == sc.planned;
    assert forall i :: 0 <= i < |sc.planned| ==> sc.planned[0 + i] == sc.planned[i];
  }

  // ----- Import stages on reference services -----

  /** The log as the header checks extend it. */
  lemma HeaderLogs(rt: Runtime, sc: Scenario, index: Index, log: Log)
    ensures var job, s := JobOf(rt, sc), ReferenceServices(rt, sc, index, log);
            && LogOf(rt, index, log, []) == log
            && LogOf(rt, index, log, [ResolveCall(job)]) == log + [Resolved(ProposerQuery(sc))]
            && LogOf(rt, index, log, CallsBefore(rt.sha, job, s, 0)) == HeaderLog(rt, sc, log)
  {
    hide SigningRoot, PadRight, Revalidate, Prepare, Execute;
    SigningSpelledOut(rt.sha, sc.header.blockRoot);
    var job, s := JobOf(rt, sc), ReferenceServices(rt, sc, index, log);
    var calls := CallsBefore(rt.sha, job, s, 0);
    assert calls == [ResolveCall(job), VerifyCall(rt.sha, job, s)];
    assert calls[..1] == [ResolveCall(job)] && [ResolveCall(job)][..0] == [];
  }

  lemma LogOfSnoc(rt: Runtime, index: Index, log: Log, calls: seq<Call>, tx: Envelope)
    ensures LogOf(rt, index, log, calls + [RevalidateTransaction(tx)]) == Revalidate(rt, index, LogOf(rt, index, log, calls), tx).log
  {
    hide Revalidate;
    assert (calls + [RevalidateTransaction(tx)])[..|calls|] == calls;
  }

  ghost predicate StagePasses(rt: Runtime, sc: Scenario, index: Index, j: nat)
    requires Aligned(sc) && j < |sc.body.transactions|
  {
    RevalidateStage(rt.sha, JobOf(rt, sc), ReferenceServices(rt, sc, index, AdmissionLog(rt, sc)), j).error.None?
  }

  ghost function LogBefore(rt: Runtime, sc: Scenario, index: Index, k: nat): Log
    requires Aligned(sc) && k <= |sc.body.transactions|
  {
    var log := AdmissionLog(rt, sc);
    LogOf(rt, index, log, CallsBefore(rt.sha, JobOf(rt, sc), ReferenceServices(rt, sc, index, log), k))
  }

  lemma RevalidateStep(rt: Runtime, sc: Scenario, index: Index, k: nat)
    requires Aligned(sc) && k < |sc.body.transactions|
    ensures StagePasses(rt, sc, index, k) <==> Revalidate(rt, index, LogBefore(rt, sc, index, k), sc.body.transactions[k]).result.Ok?
    ensures LogBefore(rt, sc, index, k + 1) == Revalidate(rt, index, LogBefore(rt, sc, index, k), sc.body.transactions[k]).log
  {
    hide Revalidate, LogOf, CallsBefore, AdmissionLog, Prepare, Execute;
    var log := AdmissionLog(rt, sc);
    var job, s := JobOf(rt, sc), ReferenceServices(rt, sc, index, log);
    RevalidateAt(rt.sha, job, s, k);
    LogOfSnoc(rt, index, log, CallsBefore(rt.sha, job, s, k), sc.body.transactions[k]);
  }

  /** The first k revalidations pass exactly when the first k transactions are readmitted, and then left their sessions. */
  lemma {:induction false} RevalidationsTo(rt: Runtime, sc: Scenario, index: Index, k: nat)
    requires Aligned(sc) && IndexFor(rt, sc.admissionTransactions, sc.materials, index) && k <= |sc.body.transactions|
    ensures (forall j :: 0 <= j < k ==> StagePasses(rt, sc, index, j)) <==> forall j :: 0 <= j < k ==> Readmitted(rt, sc, j)
    ensures (forall j :: 0 <= j < k ==> Readmitted(rt, sc, j)) ==> LogBefore(rt, sc, index, k) == BodyLog(rt, sc, k)
  {
    hide StagePasses, LogBefore, Revalidate, AdmitsAfter, Session, IndexFor, Origin, HeaderLog;
    if k == 0 {
      assert LogBefore(rt, sc, index, 0) == BodyLog(rt, sc, 0) by { FirstLog(rt, sc, index); }
    } else {
      RevalidationsTo(rt, sc, index, k - 1);
      RevalidateStep(rt, sc, index, k - 1);
      RevalidateExact(rt, sc, index, LogBefore(rt, sc, index, k - 1), sc.body.transactions[k - 1]);
      if forall j :: 0 <= j < k - 1 ==> Readmitted(rt, sc, j) {
        assert StagePasses(rt, sc, index, k - 1) <==> Readmitted(rt, sc, k - 1);
      }
    }
  }

  lemma FirstLog(rt: Runtime, sc: Scenario, index: Index)
    requires Aligned(sc)
    ensures LogBefore(rt, sc, index, 0) == BodyLog(rt, sc, 0)
  {
    hide LogOf, CallsBefore, HeaderLog, AdmissionLog;
    HeaderLogs(rt, sc, index, AdmissionLog(rt, sc));
  }

  // ----- How an import over the reference services fails -----

  /** Header failures, in order, with nothing asked before the free checks pass. */
  lemma HeaderFails(rt: Runtime, sc: Scenario, index: Index, log: Log)
    ensures var h, r := sc.header, ImportResult(rt.sha, JobOf(rt, sc), ReferenceServices(rt, sc, index, log)).0;
            var resolved := rt.resolve(log, ProposerQuery(sc));
            if rt.maxWitnessBytes.Some? && h.witnessBytes > rt.maxWitnessBytes.value then
              r == Err(WitnessByteLimitExceeded(rt.maxWitnessBytes.value, h.witnessBytes))
            else if sc.body.transactionsRoot != h.transactionsRoot then
              r == Err(HeaderBodyRootMismatch(h.transactionsRoot, sc.body.transactionsRoot))
            else if resolved.Err? then r == Err(ProposerCredentialResolution(resolved.error))
            else
              var verified := rt.dispatch(log + [Resolved(ProposerQuery(sc))], resolved.value.schemeId,
                                          ProposerRequest(rt, sc, resolved.value), Registry.ValidatorMessage);
              verified.Err? ==> r == Err(Crypto(verified.error))
  {
    hide ImportResult, LogOf, Revalidate, Prepare, Execute, PadRight;
    var job, s := JobOf(rt, sc), ReferenceServices(rt, sc, index, log);
    HeaderLogs(rt, sc, index, log);
    HeaderRejects(rt.sha, job, s);
    if Prechecked(job) {
      ProposerDecides(rt.sha, job, s);
      var resolved := s.resolve([], ProposerQuery(sc));
      if resolved.Ok? {
        assert ProposerCalls(rt.sha, job, resolved.value)[..1] == [ResolveCall(job)];
      }
    }
  }

  lemma HeaderSigned(rt: Runtime, sc: Scenario, index: Index, log: Log) returns (c: Credential)
    requires HeaderHolds(rt, sc, log)
    ensures var job, s := JobOf(rt, sc), ReferenceServices(rt, sc, index, log);
            Prechecked(job) && ProposerSigned(rt.sha, job, s, c)
  {
    hide LogOf, Revalidate, Prepare, Execute, PadRight;
    HeaderLogs(rt, sc, index, log);
    var job := JobOf(rt, sc);
    c := rt.resolve(log, ProposerQuery(sc)).value;
    assert ProposerCalls(rt.sha, job, c)[..1] == [ResolveCall(job)];
  }

  /** Body transaction j is the first that is not readmitted, and this is why. */
  ghost predicate NotReadmitted(rt: Runtime, sc: Scenario, j: nat, e: ConsensusError)
    requires Aligned(sc) && j < |sc.body.transactions|
  {
    var k := Origin(rt, sc, sc.body.transactions[j]);
    && (forall i :: 0 <= i < j ==> Readmitted(rt, sc, i))
    && e.TransactionValidation?
    && if k == |sc.materials| then e.validation == Admission.AuthorizationMaterialCount(1, 0)
       else RejectsAfter(rt, BodyLog(rt, sc, j), sc.admissionTransactions[k], sc.materials[k], e.validation)
  }

  lemma RevalidatedAt(rt: Runtime, sc: Scenario, index: Index, c: Credential, j: nat)
    requires Aligned(sc) && IndexFor(rt, sc.admissionTransactions, sc.materials, index) && j < |sc.body.transactions|
    requires var job, s := JobOf(rt, sc), ReferenceServices(rt, sc, index, AdmissionLog(rt, sc));
             Prechecked(job) && ProposerSigned(rt.sha, job, s, c)
    requires forall i :: 0 <= i < j ==> Readmitted(rt, sc, i)
    ensures var job, s := JobOf(rt, sc), ReferenceServices(rt, sc, index, AdmissionLog(rt, sc));
            s.revalidate(AskedBefore(rt.sha, job, c, j), sc.body.transactions[j]) ==
            Revalidate(rt, index, BodyLog(rt, sc, j), sc.body.transactions[j]).result
  {
    hide LogOf, Revalidate, Prepare, Execute, IndexFor, Readmitted, AdmissionLog, BodyLog, CallsBefore, AskedBefore, ProposerSigned;
    var job, s := JobOf(rt, sc), ReferenceServices(rt, sc, index, AdmissionLog(rt, sc));
    RevalidationsTo(rt, sc, index, j);
    PassedHeader(rt.sha, job, s, c, j);
  }

  /** With the header passed, the first body transaction that is not readmitted ends the import. */
  lemma BodyFails(rt: Runtime, sc: Scenario, index: Index)
    requires Aligned(sc) && IndexFor(rt, sc.admissionTransactions, sc.materials, index)
    requires HeaderHolds(rt, sc, AdmissionLog(rt, sc)) && !BodyReadmitted(rt, sc)
    ensures var r := ImportResult(rt.sha, JobOf(rt, sc), ReferenceServices(rt, sc, index, AdmissionLog(rt, sc))).0;
            r.Err? && exists j :: 0 <= j < |sc.body.transactions| && NotReadmitted(rt, sc, j, r.error)
  {
    hide ImportResult, LogOf, Revalidate, Prepare, Execute, IndexFor, Readmitted, AdmissionLog, BodyLog, CallsBefore, AskedBefore,
         ProposerSigned, HeaderHolds, Prechecked, AdmitsAfter, RejectsAfter, Origin;
    var job, s, txs := JobOf(rt, sc), ReferenceServices(rt, sc, index, AdmissionLog(rt, sc)), sc.body.transactions;
    var c := HeaderSigned(rt, sc, index, AdmissionLog(rt, sc));
    var j := FirstNotReadmitted(rt, sc);
    forall i | 0 <= i <= j
      ensures s.revalidate(AskedBefore(rt.sha, job, c, i), txs[i]).Ok? <==> i < j
    {
      RevalidatedAt(rt, sc, index, c, i);
      RevalidateExact(rt, sc, index, BodyLog(rt, sc, i), txs[i]);
      assert Readmitted(rt, sc, i) <==> i < j;
      ReadmittedIs(rt, sc, i);
    }
    RevalidatedAt(rt, sc, index, c, j);
    RevalidateExact(rt, sc, index, BodyLog(rt, sc, j), txs[j]);
    BodyRejects(rt.sha, job, s, c, j);
    var r := ImportResult(rt.sha, job, s).0;
    assert NotReadmitted(rt, sc, j, r.error);
  }

  lemma ReadmittedIs(rt: Runtime, sc: Scenario, j: nat)
    requires Aligned(sc) && j < |sc.body.transactions|
    ensures var k := Origin(rt, sc, sc.body.transactions[j]);
            Readmitted(rt, sc, j) <==>
            k < |sc.materials| && AdmitsAfter(rt, BodyLog(rt, sc, j), sc.admissionTransactions[k], sc.materials[k])
  {
    hide AdmitsAfter, BodyLog, Origin;
  }

  lemma FirstNotReadmitted(rt: Runtime, sc: Scenario) returns (j: nat)
    requires Aligned(sc) && !BodyReadmitted(rt, sc)
    ensures j < |sc.body.transactions| && !Readmitted(rt, sc, j) && forall i :: 0 <= i < j ==> Readmitted(rt, sc, i)
  {
    hide Readmitted;
    j := 0;
    while Readmitted(rt, sc, j)
      invariant j < |sc.body.transactions| && forall i :: 0 <= i < j ==> Readmitted(rt, sc, i)
      decreases |sc.body.transactions| - j
    {
      j := j + 1;
    }
  }

  /** With header and body passed: sidecar root, sidecar commitment, preparation, execution, the two roots. */
  lemma BlockFails(rt: Runtime, sc: Scenario, index: Index)
    requires Aligned(sc) && IndexFor(rt, sc.admissionTransactions, sc.materials, index)
    requires HeaderHolds(rt, sc, AdmissionLog(rt, sc)) && BodyReadmitted(rt, sc)
    ensures var h, side := sc.header, sc.sidecar;
            var r := ImportResult(rt.sha, JobOf(rt, sc), ReferenceServices(rt, sc, index, AdmissionLog(rt, sc))).0;
            var prepared, executed := Prepare(rt, sc, h.executionWitnessesRoot), Execute(rt, sc, sc.body.transactions);
            if side.blockRoot != h.blockRoot then r == Err(SidecarBlockRootMismatch(h.blockRoot, side.blockRoot))
            else if side.executionWitnessesRoot != h.executionWitnessesRoot then
              r == Err(SidecarCommitmentMismatch(h.executionWitnessesRoot, side.executionWitnessesRoot))
            else if prepared.Err? then r == Err(State(prepared.error))
            else if executed.Err? then r == Err(ConsensusError.Execution(executed.error))
            else if executed.value.postStateRoot != h.stateRoot then
              r == Err(ConsensusError.Execution(PostStateRootMismatch(h.stateRoot, executed.value.postStateRoot)))
            else if executed.value.receiptsRoot != h.receiptsRoot then
              r == Err(ConsensusError.Execution(ReceiptsRootMismatch(h.receiptsRoot, executed.value.receiptsRoot)))
            else r == Ok(ImportOutcome(h.blockRoot, h.stateRoot, h.receiptsRoot))
  {
    hide ImportResult, LogOf, Revalidate, Prepare, Execute, IndexFor, Readmitted, AdmissionLog, BodyLog, CallsBefore, AskedBefore,
         ProposerSigned, HeaderHolds, Prechecked, AdmitsAfter, RejectsAfter, Origin;
    var job, s, txs := JobOf(rt, sc), ReferenceServices(rt, sc, index, AdmissionLog(rt, sc)), sc.body.transactions;
    var c := HeaderSigned(rt, sc, index, AdmissionLog(rt, sc));
    forall i | 0 <= i < |txs|
      ensures s.revalidate(AskedBefore(rt.sha, job, c, i), txs[i]).Ok?
    {
      RevalidatedAt(rt, sc, index, c, i);
      RevalidateExact(rt, sc, index, BodyLog(rt, sc, i), txs[i]);
      assert Readmitted(rt, sc, i);
      ReadmittedIs(rt, sc, i);
    }
    SidecarDecides(rt.sha, job, s, c);
  }

  /** An import over the reference services after the admissions succeeds exactly when every part of the block holds. */
  lemma ImportExact(rt: Runtime, sc: Scenario, index: Index)
    requires Aligned(sc) && IndexFor(rt, sc.admissionTransactions, sc.materials, index)
    ensures var r := ImportResult(rt.sha, JobOf(rt, sc), ReferenceServices(rt, sc, index, AdmissionLog(rt, sc))).0;
            && (r.Ok? <==> && HeaderHolds(rt, sc, AdmissionLog(rt, sc)) && BodyReadmitted(rt, sc) && SidecarHolds(rt, sc)
                           && PreStateHolds(rt, sc) && ExecutionHolds(rt, sc))
            && (r.Ok? ==> r.value == ImportOutcome(sc.header.blockRoot, sc.header.stateRoot, sc.header.receiptsRoot))
  {
    hide ImportResult, ReferenceServices, IndexFor, AdmissionLog, BodyReadmitted, PreStateHolds, ExecutionHolds, Prepare, Execute,
         WitnessesRoot, NotReadmitted, Materialize, VerifyWitnesses;
    HeaderFails(rt, sc, index, AdmissionLog(rt, sc));
    if HeaderHolds(rt, sc, AdmissionLog(rt, sc)) {
      if BodyReadmitted(rt, sc) {
        BlockFails(rt, sc, index);
        PrepareExact(rt, sc);
        if PreStateHolds(rt, sc) {
          ExecuteExact(rt, sc);
        }
      } else {
        BodyFails(rt, sc, index);
      }
    }
  }

  /**
   * End to end, for services that answer by anything that happened before. A reference run succeeds exactly
   * when the scenario is acceptable: each admission verifies in its turn and payload roots are distinct, the
   * proposer signed the block, every body transaction has an admission transaction that verifies once more
   * in its turn, witnesses are sorted true leaves of the pre-state, body and plan match one to one, and the
   * header's state and receipts roots are those of folding the plan. The outcome repeats the header's roots.
   */
  lemma RunExact(rt: Runtime, sc: Scenario)
    ensures RunFlow(rt, sc).Ok? <==> Accepts(rt, sc)
    ensures RunFlow(rt, sc).Ok? ==>
            && RunFlow(rt, sc).value.imported == ImportOutcome(sc.header.blockRoot, sc.header.stateRoot, sc.header.receiptsRoot)
            && |RunFlow(rt, sc).value.admissions| == |sc.admissionTransactions|
            && forall i :: 0 <= i < |sc.admissionTransactions| ==>
                 RunFlow(rt, sc).value.admissions[i] == AdmissionReport(rt, sc.admissionTransactions[i])
  {
    hide ImportResult, AdmitAll, BuildIndex, AdmissionReport, AdmittedAt, PayloadRootOf, BodyReadmitted, Sessions,
         HeaderHolds, SidecarHolds, PreStateHolds, ExecutionHolds;
    if Aligned(sc) {
      var txs, materials := sc.admissionTransactions, sc.materials;
      AdmitAllExact(rt, txs, materials);
      IndexExact(rt, txs, materials);
      if AdmissionsHold(rt, sc) {
        ImportExact(rt, sc, BuildIndex(rt, txs, materials, map[]).value);
      }
    }
  }

  /** Each failure of a run by its cause, in order: shape, the first admission refused, a repeated root, the import. */
  lemma RunRejects(rt: Runtime, sc: Scenario)
    ensures var n, r := |sc.body.transactions|, RunFlow(rt, sc);
            var txs, ms := sc.admissionTransactions, sc.materials;
            if |txs| != n then r == Err(ScenarioShape(n, |txs|, AdmissionCount))
            else if |sc.planned| != n then r == Err(ScenarioShape(n, |sc.planned|, PlannedCount))
            else if |ms| != n then r == Err(ScenarioShape(n, |ms|, MaterialsCount))
            else if exists i :: 0 <= i < n && !AdmittedAt(rt, txs, ms, i) then
              r.Err? && exists i :: 0 <= i < n && RejectedAt(rt, txs, ms, i, r.error) && forall j :: 0 <= j < i ==> AdmittedAt(rt, txs, ms, j)
            else if !DistinctRoots(rt, txs) then r.Err? && exists m :: RepeatedAt(rt, txs, m, r.error)
            else exists index :: IndexFor(rt, txs, ms, index) && ImportedAs(rt, sc, index, r)
  {
    hide ImportResult, AdmitAll, BuildIndex, AdmittedAt, RejectedAt, RepeatedAt, DistinctRoots, IndexFor, Sessions, AdmissionReport;
    if Aligned(sc) {
      AdmitAllExact(rt, sc.admissionTransactions, sc.materials);
      IndexExact(rt, sc.admissionTransactions, sc.materials);
      var index := BuildIndex(rt, sc.admissionTransactions, sc.materials, map[]);
      if AdmitAll(rt, [], sc.admissionTransactions, sc.materials).result.Ok? && index.Ok? {
        assert ImportedAs(rt, sc, index.value, RunFlow(rt, sc));
      }
    }
  }

  /** The run ends as the import over the reference services does, after the admissions. */
  ghost predicate ImportedAs(rt: Runtime, sc: Scenario, index: Index, r: Result<FlowOutcome, LocalError>)
    requires Aligned(sc)
  {
    match ImportResult(rt.sha, JobOf(rt, sc), ReferenceServices(rt, sc, index, AdmissionLog(rt, sc))).0
    case Err(e) => r == Err(Consensus(e))
    case Ok(o) => r.Ok? && r.value.imported == o
  }

  // ----- Services without memory -----

  ghost predicate Memoryless(rt: Runtime)
  {
    && (forall l, id, request, path :: rt.dispatch(l, id, request, path) == rt.dispatch([], id, request, path))
    && (forall l, query :: rt.resolve(l, query) == rt.resolve([], query))
    && (rt.view.Some? ==> forall l, env :: rt.view.value(l, env) == rt.view.value([], env))
  }

  ghost predicate KnownRoot(rt: Runtime, sc: Scenario, tx: Envelope)
  {
    exists i :: 0 <= i < |sc.admissionTransactions| && PayloadRootOf(rt, sc.admissionTransactions[i]) == PayloadRootOf(rt, tx)
  }

  /** Every transaction of the body has the payload root of some admitted transaction. */
  ghost predicate BodyAdmitted(rt: Runtime, sc: Scenario)
  {
    forall j :: 0 <= j < |sc.body.transactions| ==> KnownRoot(rt, sc, sc.body.transactions[j])
  }

  lemma MemorylessAdmits(rt: Runtime, l: Log, m: Log, env: Envelope, materials: Materials)
    requires Memoryless(rt) && AdmitsAfter(rt, l, env, materials)
    ensures AdmitsAfter(rt, m, env, materials)
  {
    hide DispatchEvents, Admission.PassesScreen, Admission.AdmissionCalls;
    var calls := Admission.AdmissionCalls(rt.sha, rt.policy, env, materials);
    assert ObservedAfter(rt, l, env) == ObservedAfter(rt, m, env);
    forall i | 0 <= i < |calls|
      ensures AnswerAfter(rt, m, env, calls, i).Ok?
    {
      assert AnswerAfter(rt, l, env, calls, i).Ok?;
    }
  }

  /** Without memory nothing is asked in vain: the body passes exactly when each of its payload roots was admitted. */
  lemma MemorylessBody(rt: Runtime, sc: Scenario)
    requires Memoryless(rt) && Aligned(sc) && AdmissionsHold(rt, sc)
    ensures BodyReadmitted(rt, sc) <==> BodyAdmitted(rt, sc)
  {
    hide AdmitsAfter, PayloadRootOf, Sessions, BodyLog, Memoryless;
    forall j | 0 <= j < |sc.body.transactions|
      ensures Readmitted(rt, sc, j) <==> KnownRoot(rt, sc, sc.body.transactions[j])
    {
      var k := Origin(rt, sc, sc.body.transactions[j]);
      if k < |sc.materials| {
        assert AdmittedAt(rt, sc.admissionTransactions, sc.materials, k);
        MemorylessAdmits(rt, Sessions(rt, sc.admissionTransactions[..k], sc.materials[..k]), BodyLog(rt, sc, j),
                         sc.admissionTransactions[k], sc.materials[k]);
      }
    }
  }

  /** The acceptance condition for services that are functions of their arguments. */
  lemma MemorylessRun(rt: Runtime, sc: Scenario)
    requires Memoryless(rt)
    ensures RunFlow(rt, sc).Ok? <==>
            && Aligned(sc) && DistinctRoots(rt, sc.admissionTransactions)
            && (forall i :: 0 <= i < |sc.materials| ==> AdmitsAfter(rt, [], sc.admissionTransactions[i], sc.materials[i]))
            && HeaderHolds(rt, sc, []) && BodyAdmitted(rt, sc)
            && SidecarHolds(rt, sc) && PreStateHolds(rt, sc) && ExecutionHolds(rt, sc)
  {
    hide RunFlow, AdmitsAfter, PayloadRootOf, Sessions, SidecarHolds, PreStateHolds, ExecutionHolds, BodyReadmitted, BodyAdmitted;
    RunExact(rt, sc);
    if Aligned(sc) {
      var txs, ms := sc.admissionTransactions, sc.materials;
      forall i | 0 <= i < |ms|
        ensures AdmittedAt(rt, txs, ms, i) <==> AdmitsAfter(rt, [], txs[i], ms[i])
      {
        var log := Sessions(rt, txs[..i], ms[..i]);
        if AdmitsAfter(rt, log, txs[i], ms[i]) {
          MemorylessAdmits(rt, log, [], txs[i], ms[i]);
        } else if AdmitsAfter(rt, [], txs[i], ms[i]) {
          MemorylessAdmits(rt, [], log, txs[i], ms[i]);
        }
      }
      if AdmissionsHold(rt, sc) {
        MemorylessBody(rt, sc);
      }
      assert HeaderHolds(rt, sc, AdmissionLog(rt, sc)) <==> HeaderHolds(rt, sc, []);
    }
  }

  // ----- What the header commits to -----

  function PostState(rt: Runtime, sc: Scenario): Result<AccState, StateError>
  {
    var pre :- Materialize(rt.sha, sc.materializedState);
    Fold(rt.sha, pre, sc.planned)
  }

  lemma {:induction false} FoldValid(sha: Sha, s: AccState, steps: seq<PlannedTransaction>)
    requires ValidState(sha, s) && Fold(sha, s, steps).Ok?
    ensures ValidState(sha, Fold(sha, s, steps).value)
    decreases steps
  {
    hide Apply, ReferenceRoot, ValidState;
    if steps != [] {
      FirstTransitionHashes(sha, s, steps[0].plan.patch);
      FoldValid(sha, Apply(sha, s, steps[0].plan.patch).value, steps[1..]);
    }
  }

  /** An accepted header carries the root of the post-state, of the planned receipts and of the witnesses. */
  lemma HeaderCommits(rt: Runtime, sc: Scenario)
    requires RunFlow(rt, sc).Ok?
    ensures PostState(rt, sc).Ok? && ValidState(rt.sha, PostState(rt, sc).value)
    ensures sc.header.stateRoot == PostState(rt, sc).value.root
    ensures sc.header.receiptsRoot == ReceiptsRoot(rt.sha, PlannedReceipts(sc.planned)).root
    ensures sc.header.executionWitnessesRoot == WitnessesRoot(rt.sha, sc.sidecar.witnesses)
  {
    hide RunFlow, AdmissionsHold, HeaderHolds, BodyReadmitted, Materialize, Fold, ValidState, WitnessesRoot, ReceiptsRoot, EnvelopeRoot,
         StrictlySorted, AdmissionLog;
    RunExact(rt, sc);
    MaterializeExact(rt.sha, sc.materializedState);
    FoldValid(rt.sha, Materialize(rt.sha, sc.materializedState).value, sc.planned);
  }

  /** Equal leaves, or a collision between what was hashed for them, or a fresh state against a hash that is zero. */
  ghost predicate SameOrCollision(sha: Sha, p: AccState, q: AccState)
  {
    || p.leaves == q.leaves
    || CollisionBetween(sha, ReferenceRoot(sha, p.leaves).inputs, ReferenceRoot(sha, q.leaves).inputs)
    || (p == FRESH && sha(RootInput(sha, q.leaves)) == ZERO_ROOT)
    || (q == FRESH && sha(RootInput(sha, p.leaves)) == ZERO_ROOT)
  }

  /**
   * Two accepted runs, of any two runtimes over one hash: equal state roots in their headers mean the same
   * leaves after the block, equal receipts roots the same receipts, equal witness roots the same witnesses,
   * or else two strings that were hashed for them collide.
   */
  lemma EqualHeaders(r: Runtime, a: Scenario, r': Runtime, b: Scenario)
    requires r.sha == r'.sha && RunFlow(r, a).Ok? && RunFlow(r', b).Ok?
    ensures PostState(r, a).Ok? && PostState(r', b).Ok?
    ensures a.header.stateRoot == b.header.stateRoot ==> SameOrCollision(r.sha, PostState(r, a).value, PostState(r', b).value)
    ensures a.header.receiptsRoot == b.header.receiptsRoot ==>
            var p, q := PlannedReceipts(a.planned), PlannedReceipts(b.planned);
            p == q || CollisionBetween(r.sha, ReceiptsRoot(r.sha, p).inputs, ReceiptsRoot(r.sha, q).inputs)
    ensures a.header.executionWitnessesRoot == b.header.executionWitnessesRoot &&
            AllLengthsFit(a.sidecar.witnesses) && AllLengthsFit(b.sidecar.witnesses) ==>
            || a.sidecar.witnesses == b.sidecar.witnesses
            || CollisionBetween(r.sha, {WitnessesInput(a.sidecar.witnesses)}, {WitnessesInput(b.sidecar.witnesses)})
  {
    hide RunFlow, PostState, ReceiptsRoot, WitnessesRoot, WitnessesInput, ReferenceRoot, RootInput, ValidState, AllLengthsFit;
    HeaderCommits(r, a);
    HeaderCommits(r', b);
    if a.header.stateRoot == b.header.stateRoot {
      ReachableRootBinding(r.sha, PostState(r, a).value, PostState(r', b).value);
    }
    if a.header.receiptsRoot == b.header.receiptsRoot {
      ReceiptsRootBinding(r.sha, PlannedReceipts(a.planned), PlannedReceipts(b.planned));
    }
    if a.header.executionWitnessesRoot == b.header.executionWitnessesRoot &&
       AllLengthsFit(a.sidecar.witnesses) && AllLengthsFit(b.sidecar.witnesses) {
      WitnessesRootBinding(r.sha, a.sidecar.witnesses, b.sidecar.witnesses);
    }
  }
}
