/** Block execution: the planner's cursor, the per-transaction loop, and what a block run leaves behind. */
module Execution {
  import opened Bytes
  import opened Transactions
  import opened HashTreeRoot
  import opened State
  import opened Commitments
  import opened Accumulator

  datatype ExecutionError =
    | StateTransition(state: StateError)
    | MissingPlannedStep
    | PlannedRootMismatch
    | UnconsumedSteps
    | PostStateRootMismatch(expected: Root, actual: Root)
    | ReceiptsRootMismatch(expected: Root, actual: Root)

  datatype ExecutionPlan = ExecutionPlan(patch: StatePatch, receipt: ExecutionReceipt)

  datatype PlannedTransaction = PlannedTransaction(transactionRoot: Root, plan: ExecutionPlan)

  datatype TransactionOutcome = TransactionOutcome(transactionRoot: Root, postStateRoot: Root, receipt: ExecutionReceipt)

  datatype BlockOutcome = BlockOutcome(postStateRoot: Root, receiptsRoot: Root, outcomes: seq<TransactionOutcome>)

  // ----- The planner -----

  function PlanStep(sha: Sha, planned: seq<PlannedTransaction>, cursor: nat, tx: Envelope): Result<ExecutionPlan, ExecutionError>
  {
    if cursor >= |planned| then Err(MissingPlannedStep)
    else if EnvelopeRoot(sha, tx).root != planned[cursor].transactionRoot then Err(PlannedRootMismatch)
    else Ok(planned[cursor].plan)
  }

  class PlannedTransactionExecutor {
    const sha: Sha
    const planned: seq<PlannedTransaction>
    var nextIndex: nat

    constructor (sha: Sha, planned: seq<PlannedTransaction>)
      ensures this.sha == sha && this.planned == planned && nextIndex == 0
    {
      this.sha := sha;
      this.planned := planned;
      nextIndex := 0;
    }

    /** The cursor moves by one on success and stays on every failure. */
    method ExecuteTransaction(tx: Envelope) returns (r: Result<ExecutionPlan, ExecutionError>)
      modifies this`nextIndex
      ensures r == PlanStep(sha, planned, old(nextIndex), tx)
      ensures r.Ok? <==> old(nextIndex) < |planned| && EnvelopeRoot(sha, tx).root == planned[old(nextIndex)].transactionRoot
      ensures r.Ok? ==> r.value == planned[old(nextIndex)].plan
      ensures r.Err? ==> r.error == if old(nextIndex) < |planned| then PlannedRootMismatch else MissingPlannedStep
      ensures nextIndex == old(nextIndex) + (if r.Ok? then 1 else 0)
    {
      hide EnvelopeRoot;
      if nextIndex >= |planned| {
        return Err(MissingPlannedStep);
      }
      if EnvelopeRoot(sha, tx).root != planned[nextIndex].transactionRoot {
        return Err(PlannedRootMismatch);
      }
      r := Ok(planned[nextIndex].plan);
      nextIndex := nextIndex + 1;
    }

    method EnsureExhausted() returns (r: Result<Unit, ExecutionError>)
      ensures r == if nextIndex == |planned| then Ok(Unit) else Err(UnconsumedSteps)
    {
      r := if nextIndex == |planned| then Ok(Unit) else Err(UnconsumedSteps);
    }
  }

  // ----- The block loop -----

  /** Where a block run stands: what it produced, what it left in planner and state, and how it stopped. */
  datatype Progress = Progress(state: AccState, cursor: nat, outcomes: seq<TransactionOutcome>, error: Option<ExecutionError>)

  function RunBlock(sha: Sha, planned: seq<PlannedTransaction>, s: AccState, cursor: nat, root: Root, txs: seq<Envelope>): Progress
    decreases txs
  {
    if txs == [] then Progress(s, cursor, [], None) else
    match PlanStep(sha, planned, cursor, txs[0])
    case Err(e) => Progress(s, cursor, [], Some(e))
    case Ok(plan) =>
      match ApplyFrom(sha, s, root, plan.patch)
      case Err(e) => Progress(s, cursor + 1, [], Some(StateTransition(e)))
      case Ok(t) =>
        var outcome := TransactionOutcome(EnvelopeRoot(sha, txs[0]).root, t.root, plan.receipt);
        After([outcome], RunBlock(sha, planned, t, cursor + 1, t.root, txs[1..]))
  }

  function After(done: seq<TransactionOutcome>, p: Progress): Progress
  {
    p.(outcomes := done + p.outcomes)
  }

  lemma AfterAfter(a: seq<TransactionOutcome>, b: seq<TransactionOutcome>, p: Progress)
    ensures After(a, After(b, p)) == After(a + b, p)
    ensures After([], p) == p
  {
    assert a + (b + p.outcomes) == a + b + p.outcomes;
    assert [] + p.outcomes == p.outcomes;
  }

  function FinalRoot(pre: Root, outcomes: seq<TransactionOutcome>): Root
  {
    if outcomes == [] then pre else outcomes[|outcomes| - 1].postStateRoot
  }

  function Receipts(outcomes: seq<TransactionOutcome>): (rs: seq<ExecutionReceipt>)
    ensures |rs| == |outcomes|
    ensures forall i :: 0 <= i < |rs| ==> rs[i] == outcomes[i].receipt
  {
    if outcomes == [] then [] else [outcomes[0].receipt] + Receipts(outcomes[1..])
  }

  function BlockResult(sha: Sha, pre: Root, p: Progress): Result<BlockOutcome, ExecutionError>
  {
    match p.error
    case Some(e) => Err(e)
    case None => Ok(BlockOutcome(FinalRoot(pre, p.outcomes), ReceiptsRoot(sha, Receipts(p.outcomes)).root, p.outcomes))
  }

  /** Executes a block in order: plan, apply on the running root, record; the first failure ends it. */
  method ExecuteBlock(pre: Root, txs: seq<Envelope>, planner: PlannedTransactionExecutor, applier: ReferenceStateApplier)
    returns (r: Result<BlockOutcome, ExecutionError>)
    requires applier.accumulator.Valid() && applier.accumulator.sha == planner.sha
    modifies planner`nextIndex, applier.accumulator
    ensures applier.accumulator.Valid()
    ensures var p := RunBlock(planner.sha, planner.planned, old(applier.accumulator.View()), old(planner.nextIndex), pre, txs);
            r == BlockResult(planner.sha, pre, p) && applier.accumulator.View() == p.state && planner.nextIndex == p.cursor
    ensures pre == old(applier.accumulator.root) && old(planner.nextIndex) <= |planner.planned| && r.Ok? ==>
            ExecutesTo(planner.sha, planner.planned, old(applier.accumulator.View()), old(planner.nextIndex), txs, r.value)
  {
    hide EnvelopeRoot, ReferenceRoot, Apply, ReceiptsRoot, ExecutesTo;
    var acc, sha := applier.accumulator, planner.sha;
    ghost var all := RunBlock(sha, planner.planned, acc.View(), planner.nextIndex, pre, txs);
    var current := pre;
    var receipts: seq<ExecutionReceipt>, outcomes: seq<TransactionOutcome> := [], [];
    var i := 0;
    AfterAfter([], [], all);
    assert txs[0..] == txs;
    while i < |txs|
      invariant 0 <= i <= |txs|
      invariant acc.Valid()
      invariant all == After(outcomes, RunBlock(sha, planner.planned, acc.View(), planner.nextIndex, current, txs[i..]))
      invariant current == FinalRoot(pre, outcomes) && receipts == Receipts(outcomes)
    {
      assert txs[i..][0] == txs[i] && txs[i..][1..] == txs[i + 1..];
      var transactionRoot := EnvelopeRoot(sha, txs[i]).root;
      var plan := planner.ExecuteTransaction(txs[i]);
      if plan.Err? {
        return Err(plan.error);
      }
      var applied := applier.ApplyTransition(current, plan.value.patch);
      if applied.Err? {
        return Err(StateTransition(applied.error));
      }
      current := applied.value;
      var outcome := TransactionOutcome(transactionRoot, current, plan.value.receipt);
      AfterAfter(outcomes, [outcome], RunBlock(sha, planner.planned, acc.View(), planner.nextIndex, current, txs[i + 1..]));
      receipts, outcomes := receipts + [plan.value.receipt], outcomes + [outcome];
      assert receipts == Receipts(outcomes);
      i := i + 1;
    }
    assert outcomes + [] == outcomes;
    var receiptsRoot := ComputeReceiptsRoot(sha, receipts);
    r := Ok(BlockOutcome(current, receiptsRoot, outcomes));
    assert r == BlockResult(sha, pre, all);
    if pre == old(applier.accumulator.root) && old(planner.nextIndex) <= |planner.planned| {
      OutcomeExact(sha, planner.planned, old(applier.accumulator.View()), old(planner.nextIndex), txs);
    }
  }

  // ----- Folding planned patches, the reference for the loop -----

  function Fold(sha: Sha, s: AccState, steps: seq<PlannedTransaction>): Result<AccState, StateError>
    decreases steps
  {
    if steps == [] then Ok(s) else
    var t :- Apply(sha, s, steps[0].plan.patch);
    Fold(sha, t, steps[1..])
  }

  /** Step j of the plan belongs to transaction i: roots agree and the recorded outcome is the planned one. */
  ghost predicate FollowsPlan(sha: Sha, planned: seq<PlannedTransaction>, s: AccState, cursor: nat, txs: seq<Envelope>, outcomes: seq<TransactionOutcome>, i: nat)
    requires i < |outcomes| <= |txs| && cursor + |outcomes| <= |planned|
  {
    var step := planned[cursor + i];
    var after := Fold(sha, s, planned[cursor..cursor + i + 1]);
    && EnvelopeRoot(sha, txs[i]).root == step.transactionRoot
    && after.Ok?
    && outcomes[i] == TransactionOutcome(step.transactionRoot, after.value.root, step.plan.receipt)
  }

  lemma FoldCons(sha: Sha, s: AccState, planned: seq<PlannedTransaction>, cursor: nat, n: nat)
    requires cursor + n < |planned|
    ensures Fold(sha, s, planned[cursor..cursor + n + 1]) ==
            match Apply(sha, s, planned[cursor].plan.patch)
            case Ok(t) => Fold(sha, t, planned[cursor + 1..cursor + n + 1])
            case Err(e) => Err(e)
  {
    var steps := planned[cursor..cursor + n + 1];
    assert steps[0] == planned[cursor] && steps[1..] == planned[cursor + 1..cursor + n + 1];
  }

  /**
   * Lineage. A run that starts on its own state's root never breaks root continuity. Outcome i is the
   * planned receipt with the root after the first i + 1 patches. The state left is the fold of as many
   * patches as there are outcomes, whether or not the block failed, and the cursor is ahead by that
   * many, plus one when it was the state transition that failed.
   */
  lemma {:induction false} Lineage(sha: Sha, planned: seq<PlannedTransaction>, s: AccState, cursor: nat, txs: seq<Envelope>)
    requires cursor <= |planned|
    ensures var p := RunBlock(sha, planned, s, cursor, s.root, txs);
            var k := |p.outcomes|;
            && k <= |txs| && cursor + k <= |planned|
            && Fold(sha, s, planned[cursor..cursor + k]) == Ok(p.state)
            && p.state.root == FinalRoot(s.root, p.outcomes)
            && (p.error.None? <==> k == |txs|)
            && p.cursor == cursor + k + (if p.error.Some? && p.error.value.StateTransition? then 1 else 0)
            && forall i :: 0 <= i < k ==> FollowsPlan(sha, planned, s, cursor, txs, p.outcomes, i)
    decreases txs
  {
    hide EnvelopeRoot, Apply;
    assert planned[cursor..cursor] == [];
    if txs != [] && PlanStep(sha, planned, cursor, txs[0]).Ok? {
      var plan := planned[cursor].plan;
      if Apply(sha, s, plan.patch).Ok? {
        LineageStep(sha, planned, s, cursor, txs);
      }
    }
  }

  lemma {:induction false} LineageStep(sha: Sha, planned: seq<PlannedTransaction>, s: AccState, cursor: nat, txs: seq<Envelope>)
    requires cursor < |planned| && txs != []
    requires PlanStep(sha, planned, cursor, txs[0]).Ok? && Apply(sha, s, planned[cursor].plan.patch).Ok?
    ensures var p := RunBlock(sha, planned, s, cursor, s.root, txs);
            var k := |p.outcomes|;
            && 0 < k <= |txs| && cursor + k <= |planned|
            && Fold(sha, s, planned[cursor..cursor + k]) == Ok(p.state)
            && p.state.root == FinalRoot(s.root, p.outcomes)
            && (p.error.None? <==> k == |txs|)
            && p.cursor == cursor + k + (if p.error.Some? && p.error.value.StateTransition? then 1 else 0)
            && forall i :: 0 <= i < k ==> FollowsPlan(sha, planned, s, cursor, txs, p.outcomes, i)
    decreases txs, 0
  {
    hide EnvelopeRoot, Apply, FollowsPlan;
    var t := Apply(sha, s, planned[cursor].plan.patch).value;
    var rest := RunBlock(sha, planned, t, cursor + 1, t.root, txs[1..]);
    Lineage(sha, planned, t, cursor + 1, txs[1..]);
    var p := RunBlock(sha, planned, s, cursor, s.root, txs);
    var k := |rest.outcomes|;
    FoldCons(sha, s, planned, cursor, k);
    forall i | 0 <= i <= k
      ensures FollowsPlan(sha, planned, s, cursor, txs, p.outcomes, i)
    {
      OutcomeStep(sha, planned, s, cursor, txs, t, p.outcomes, rest.outcomes, i);
    }
  }

  /** Outcome i of a block is outcome i - 1 of the block after its first transaction. */
  lemma OutcomeStep(sha: Sha, planned: seq<PlannedTransaction>, s: AccState, cursor: nat, txs: seq<Envelope>, t: AccState,
                    outcomes: seq<TransactionOutcome>, rest: seq<TransactionOutcome>, i: nat)
    requires txs != [] && i < |outcomes| == |rest| + 1 <= |txs| && cursor + |outcomes| <= |planned|
    requires PlanStep(sha, planned, cursor, txs[0]).Ok? && Apply(sha, s, planned[cursor].plan.patch) == Ok(t)
    requires outcomes == [TransactionOutcome(EnvelopeRoot(sha, txs[0]).root, t.root, planned[cursor].plan.receipt)] + rest
    requires i > 0 ==> FollowsPlan(sha, planned, t, cursor + 1, txs[1..], rest, i - 1)
    ensures FollowsPlan(sha, planned, s, cursor, txs, outcomes, i)
  {
    hide EnvelopeRoot, Apply;
    FoldCons(sha, s, planned, cursor, i);
    if i == 0 {
      assert planned[cursor + 1..cursor + 1] == [];
    } else {
      assert cursor + 1 + (i - 1) == cursor + i;
    }
  }

  function PlannedReceipts(planned: seq<PlannedTransaction>): (rs: seq<ExecutionReceipt>)
    ensures |rs| == |planned| && forall i :: 0 <= i < |rs| ==> rs[i] == planned[i].plan.receipt
  {
    if planned == [] then [] else [planned[0].plan.receipt] + PlannedReceipts(planned[1..])
  }

  /**
   * What a block execution returns: for each transaction its envelope root, the root after its patch and the planned
   * receipt, and for the block the root of the folded plan and of the planned receipts.
   */
  ghost predicate ExecutesTo(sha: Sha, planned: seq<PlannedTransaction>, s: AccState, cursor: nat, txs: seq<Envelope>, o: BlockOutcome)
  {
    && cursor + |txs| <= |planned| && |o.outcomes| == |txs|
    && var steps := planned[cursor..cursor + |txs|];
    && Fold(sha, s, steps).Ok? && o.postStateRoot == Fold(sha, s, steps).value.root
    && o.receiptsRoot == ReceiptsRoot(sha, PlannedReceipts(steps)).root
    && forall i :: 0 <= i < |txs| ==> FollowsPlan(sha, planned, s, cursor, txs, o.outcomes, i)
  }

  lemma ReceiptsArePlanned(sha: Sha, planned: seq<PlannedTransaction>, s: AccState, cursor: nat, txs: seq<Envelope>)
    requires cursor <= |planned| && RunBlock(sha, planned, s, cursor, s.root, txs).error.None?
    ensures cursor + |txs| <= |planned|
    ensures Receipts(RunBlock(sha, planned, s, cursor, s.root, txs).outcomes) == PlannedReceipts(planned[cursor..cursor + |txs|])
  {
    hide RunBlock, EnvelopeRoot, Fold, Receipts, PlannedReceipts;
    Lineage(sha, planned, s, cursor, txs);
    var p := RunBlock(sha, planned, s, cursor, s.root, txs);
    var x, y := Receipts(p.outcomes), PlannedReceipts(planned[cursor..cursor + |txs|]);
    forall i | 0 <= i < |txs|
      ensures x[i] == y[i]
    {
      assert FollowsPlan(sha, planned, s, cursor, txs, p.outcomes, i);
    }
  }

  lemma OutcomeExact(sha: Sha, planned: seq<PlannedTransaction>, s: AccState, cursor: nat, txs: seq<Envelope>)
    requires cursor <= |planned|
    ensures var r := BlockResult(sha, s.root, RunBlock(sha, planned, s, cursor, s.root, txs));
            r.Ok? ==> ExecutesTo(sha, planned, s, cursor, txs, r.value)
  {
    hide RunBlock, EnvelopeRoot, ReceiptsRoot, Fold, FollowsPlan, Receipts, PlannedReceipts;
    Lineage(sha, planned, s, cursor, txs);
    if RunBlock(sha, planned, s, cursor, s.root, txs).error.None? {
      ReceiptsArePlanned(sha, planned, s, cursor, txs);
    }
  }

  /** Step k is where a block stops: everything before it went by the plan, and this is what is wrong with it. */
  ghost predicate StopsAt(sha: Sha, planned: seq<PlannedTransaction>, s: AccState, cursor: nat, txs: seq<Envelope>, k: nat, e: ExecutionError)
  {
    && k < |txs| && cursor + k <= |planned|
    && (forall i :: 0 <= i < k ==> EnvelopeRoot(sha, txs[i]).root == planned[cursor + i].transactionRoot)
    && var before := Fold(sha, s, planned[cursor..cursor + k]);
    && before.Ok?
    && if cursor + k == |planned| then e == MissingPlannedStep
       else if EnvelopeRoot(sha, txs[k]).root != planned[cursor + k].transactionRoot then e == PlannedRootMismatch
       else var applied := Apply(sha, before.value, planned[cursor + k].plan.patch);
            applied.Err? && e == StateTransition(applied.error)
  }

  /** A failed block names the first step that is missing, for another transaction, or not applicable. */
  lemma {:induction false} FailureExact(sha: Sha, planned: seq<PlannedTransaction>, s: AccState, cursor: nat, txs: seq<Envelope>)
    requires cursor <= |planned|
    ensures var p := RunBlock(sha, planned, s, cursor, s.root, txs);
            p.error.Some? ==> StopsAt(sha, planned, s, cursor, txs, |p.outcomes|, p.error.value)
    decreases txs
  {
    hide EnvelopeRoot, Apply;
    assert planned[cursor..cursor] == [];
    var p := RunBlock(sha, planned, s, cursor, s.root, txs);
    if p.error.Some? && PlanStep(sha, planned, cursor, txs[0]).Ok? && Apply(sha, s, planned[cursor].plan.patch).Ok? {
      var t := Apply(sha, s, planned[cursor].plan.patch).value;
      FailureExact(sha, planned, t, cursor + 1, txs[1..]);
      StopsLater(sha, planned, s, cursor, txs, |p.outcomes| - 1, p.error.value);
    }
  }

  lemma StopsLater(sha: Sha, planned: seq<PlannedTransaction>, s: AccState, cursor: nat, txs: seq<Envelope>, j: nat, e: ExecutionError)
    requires txs != [] && PlanStep(sha, planned, cursor, txs[0]).Ok? && Apply(sha, s, planned[cursor].plan.patch).Ok?
    requires StopsAt(sha, planned, Apply(sha, s, planned[cursor].plan.patch).value, cursor + 1, txs[1..], j, e)
    ensures StopsAt(sha, planned, s, cursor, txs, j + 1, e)
  {
    hide EnvelopeRoot, Apply;
    FoldCons(sha, s, planned, cursor, j);
    forall i | 0 <= i < j + 1
      ensures EnvelopeRoot(sha, txs[i]).root == planned[cursor + i].transactionRoot
    {
      if i > 0 {
        assert EnvelopeRoot(sha, txs[1..][i - 1]).root == planned[cursor + 1 + (i - 1)].transactionRoot;
      }
    }
  }

  /** Continuity errors need a caller who starts on a wrong root. */
  lemma {:induction false} NoContinuityError(sha: Sha, planned: seq<PlannedTransaction>, s: AccState, cursor: nat, root: Root, txs: seq<Envelope>)
    ensures var p := RunBlock(sha, planned, s, cursor, root, txs);
            && ((p.error.Some? && p.error.value.StateTransition? && p.error.value.state.RootContinuityMismatch?) <==>
                root != s.root && txs != [] && cursor < |planned| && EnvelopeRoot(sha, txs[0]).root == planned[cursor].transactionRoot)
            && (root != s.root && txs != [] && cursor < |planned| && EnvelopeRoot(sha, txs[0]).root == planned[cursor].transactionRoot ==>
                  p.error == Some(StateTransition(RootContinuityMismatch(root, s.root))) && p.outcomes == [])
            && (txs == [] ==> BlockResult(sha, root, p) == Ok(BlockOutcome(root, ReceiptsRoot(sha, []).root, [])))
    decreases txs
  {
    hide EnvelopeRoot, OrderCheck, ApplyLeaves, ReferenceRoot;
    if txs != [] && PlanStep(sha, planned, cursor, txs[0]).Ok? && root == s.root {
      var applied := Apply(sha, s, planned[cursor].plan.patch);
      assert applied.Err? ==> !applied.error.RootContinuityMismatch? by { ApplyErrorKinds(sha, s, planned[cursor].plan.patch); }
      if applied.Ok? {
        NoContinuityError(sha, planned, applied.value, cursor + 1, applied.value.root, txs[1..]);
      }
    }
  }

  lemma ApplyErrorKinds(sha: Sha, s: AccState, patch: StatePatch)
    ensures Apply(sha, s, patch).Err? ==>
            Apply(sha, s, patch).error.TransitionShapeMismatch? || Apply(sha, s, patch).error.NonCanonicalWitnessOrdering?
  {
    hide ReferenceRoot;
  }

  /** The exact condition for a block to execute, stated on plan, transactions and state alone. */
  ghost predicate PlanCovers(sha: Sha, planned: seq<PlannedTransaction>, s: AccState, cursor: nat, txs: seq<Envelope>)
  {
    && cursor + |txs| <= |planned|
    && (forall i :: 0 <= i < |txs| ==> EnvelopeRoot(sha, txs[i]).root == planned[cursor + i].transactionRoot)
    && Fold(sha, s, planned[cursor..cursor + |txs|]).Ok?
  }

  /** A block executes exactly when the plan covers it; the planner is then exhausted iff nothing is left over. */
  lemma ExecutionExact(sha: Sha, planned: seq<PlannedTransaction>, s: AccState, cursor: nat, txs: seq<Envelope>)
    requires cursor <= |planned|
    ensures var p := RunBlock(sha, planned, s, cursor, s.root, txs);
            && (p.error.None? <==> PlanCovers(sha, planned, s, cursor, txs))
            && (p.error.None? ==> (p.cursor == |planned| <==> |planned| == cursor + |txs|))
  {
    hide EnvelopeRoot, Apply;
    Lineage(sha, planned, s, cursor, txs);
    var p := RunBlock(sha, planned, s, cursor, s.root, txs);
    if p.error.None? {
      forall i | 0 <= i < |txs|
        ensures EnvelopeRoot(sha, txs[i]).root == planned[cursor + i].transactionRoot
      {
        assert FollowsPlan(sha, planned, s, cursor, txs, p.outcomes, i);
      }
    }
    if PlanCovers(sha, planned, s, cursor, txs) {
      CoveredRuns(sha, planned, s, cursor, txs);
    }
  }

  lemma {:induction false} CoveredRuns(sha: Sha, planned: seq<PlannedTransaction>, s: AccState, cursor: nat, txs: seq<Envelope>)
    requires PlanCovers(sha, planned, s, cursor, txs)
    ensures RunBlock(sha, planned, s, cursor, s.root, txs).error.None?
    decreases txs
  {
    hide EnvelopeRoot, Apply;
    if txs != [] {
      FoldCons(sha, s, planned, cursor, |txs| - 1);
      var t := Apply(sha, s, planned[cursor].plan.patch).value;
      assert EnvelopeRoot(sha, txs[0]).root == planned[cursor + 0].transactionRoot;
      forall i | 0 <= i < |txs| - 1
        ensures EnvelopeRoot(sha, txs[1..][i]).root == planned[cursor + 1 + i].transactionRoot
      {
        assert EnvelopeRoot(sha, txs[i + 1]).root == planned[cursor + (i + 1)].transactionRoot;
      }
      CoveredRuns(sha, planned, t, cursor + 1, txs[1..]);
    }
  }

  /** Running A and then B on what A left is running A + B; if A fails, B changes nothing. */
  lemma {:induction false} BlockComposition(sha: Sha, planned: seq<PlannedTransaction>, s: AccState, cursor: nat, root: Root, a: seq<Envelope>, b: seq<Envelope>)
    ensures var p := RunBlock(sha, planned, s, cursor, root, a);
            RunBlock(sha, planned, s, cursor, root, a + b) ==
            if p.error.Some? then p
            else After(p.outcomes, RunBlock(sha, planned, p.state, p.cursor, FinalRoot(root, p.outcomes), b))
    decreases a
  {
    hide EnvelopeRoot, Apply;
    if a == [] {
      assert a + b == b;
      AfterAfter([], [], RunBlock(sha, planned, s, cursor, root, b));
    } else {
      assert (a + b)[0] == a[0] && (a + b)[1..] == a[1..] + b;
      match PlanStep(sha, planned, cursor, a[0])
      case Err(_) =>
      case Ok(plan) =>
        match ApplyFrom(sha, s, root, plan.patch)
        case Err(_) =>
        case Ok(t) =>
          BlockComposition(sha, planned, t, cursor + 1, t.root, a[1..], b);
          var q := RunBlock(sha, planned, t, cursor + 1, t.root, a[1..]);
          var first := [TransactionOutcome(EnvelopeRoot(sha, a[0]).root, t.root, plan.receipt)];
          assert FinalRoot(root, first + q.outcomes) == FinalRoot(t.root, q.outcomes);
          AfterAfter(first, q.outcomes, RunBlock(sha, planned, q.state, q.cursor, FinalRoot(t.root, q.outcomes), b));
    }
  }

  // ----- Comparing against committed roots -----

  function EnsureMatches(outcome: BlockOutcome, stateRoot: Root, receiptsRoot: Root): Result<Unit, ExecutionError>
  {
    if outcome.postStateRoot != stateRoot then Err(PostStateRootMismatch(stateRoot, outcome.postStateRoot))
    else if outcome.receiptsRoot != receiptsRoot then Err(ReceiptsRootMismatch(receiptsRoot, outcome.receiptsRoot))
    else Ok(Unit)
  }
}
