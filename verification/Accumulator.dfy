/** The mutable accumulator and the applier around it, proved against the state functions. */
module Accumulator {
  import opened Bytes
  import opened StateKeys
  import opened State
  import opened Commitments

  /** The neighbour scan: passes exactly sorted lists, else names the first offending index. */
  method EnsureCanonicalOrder(keys: seq<StateKey>, subject: OrderSubject) returns (r: Result<Unit, StateError>)
    ensures r == OrderCheck(keys, subject)
    ensures r.Ok? <==> StrictlySorted(keys)
    ensures r.Err? ==> exists v :: FirstUnsorted(keys, v) && r.error == NonCanonicalWitnessOrdering(v, subject)
  {
    hide EncodeStateKey, CompareStateKeys, FirstUnsorted, StrictlySorted;
    OrderCheckExact(keys, subject);
    var i := 1;
    while i < |keys|
      invariant 1 <= i
      invariant FirstViolation(keys, 1) == FirstViolation(keys, i)
    {
      if CompareStateKeys(keys[i - 1], keys[i]) != Less {
        return Err(NonCanonicalWitnessOrdering(i, subject));
      }
      i := i + 1;
    }
    return Ok(Unit);
  }

  class InMemoryAccumulator {
    const sha: Sha
    var leaves: Leaves
    var root: Root

    function View(): AccState
      reads this
    {
      AccState(leaves, root)
    }

    ghost predicate Valid()
      reads this
    {
      ValidState(sha, View())
    }

    constructor (sha: Sha)
      ensures this.sha == sha && View() == FRESH && Valid()
    {
      this.sha := sha;
      leaves := map[];
      root := ZERO_ROOT;
    }

    method ApplyLeaf(key: StateKey, value: seq<byte>)
      modifies this`leaves
      ensures leaves == old(leaves)[EncodeStateKey(key) := StoredLeaf(key, value)]
    {
      leaves := leaves[EncodeStateKey(key) := StoredLeaf(key, value)];
    }

    method RecomputeRoot()
      modifies this`root
      ensures root == ReferenceRoot(sha, leaves).root
    {
      root := ComputeReferenceRoot(sha, leaves);
    }

    /** Either the whole patch is applied and the new root returned, or nothing changes. */
    method ApplyTransition(patch: StatePatch) returns (r: Result<Root, StateError>)
      requires Valid()
      modifies this
      ensures Valid()
      ensures match Apply(sha, old(View()), patch)
              case Ok(t) => View() == t && r == Ok(t.root)
              case Err(e) => View() == old(View()) && r == Err(e)
    {
      hide EncodeStateKey, ReferenceRoot;
      if |patch.accesses| != |patch.newValues| {
        return Err(TransitionShapeMismatch(|patch.accesses|, |patch.newValues|));
      }
      var order := EnsureCanonicalOrder(patch.accesses, AccessKeys);
      if order.Err? {
        return Err(order.error);
      }
      ghost var after := ApplyLeaves(leaves, patch.accesses, patch.newValues);
      ApplyLeavesWellKeyed(leaves, patch.accesses, patch.newValues);
      var i := 0;
      assert patch.accesses[0..] == patch.accesses && patch.newValues[0..] == patch.newValues;
      while i < |patch.accesses|
        invariant 0 <= i <= |patch.accesses|
        invariant ApplyLeaves(leaves, patch.accesses[i..], patch.newValues[i..]) == after
      {
        assert patch.accesses[i..][1..] == patch.accesses[i + 1..];
        assert patch.newValues[i..][1..] == patch.newValues[i + 1..];
        ApplyLeaf(patch.accesses[i], patch.newValues[i]);
        i := i + 1;
      }
      assert leaves == after;
      RecomputeRoot();
      r := Ok(root);
    }

    /** Accepts a witness exactly when it names a true leaf of this state under its current root. */
    method VerifyWitness(w: StateWitness, expected: Root) returns (r: Result<Unit, StateError>)
      requires Valid()
      ensures r == State.VerifyWitness(View(), w, expected)
      ensures r.Ok? <==> TrueWitness(View(), w) && expected == root
    {
      hide EncodeStateKey, ReferenceRoot, CompareStateKeys;
      VerifyWitnessExact(View(), w, expected);
      var path := DeriveProofPath(View(), w);
      if path.Err? {
        return Err(path.error);
      }
      r := PathVerifies(path.value, w, expected);
    }

    /** Order first, then each witness in turn, stopping at the first failure. */
    method VerifyWitnesses(ws: seq<StateWitness>, expected: Root) returns (r: Result<Unit, StateError>)
      requires Valid()
      ensures r == State.VerifyWitnesses(View(), ws, expected)
    {
      hide EncodeStateKey, ReferenceRoot, State.VerifyWitness;
      var order := EnsureCanonicalOrder(WitnessKeysOf(ws), WitnessKeys);
      if order.Err? {
        return Err(order.error);
      }
      var i := 0;
      assert ws[0..] == ws;
      while i < |ws|
        invariant 0 <= i <= |ws|
        invariant VerifyEach(View(), ws, expected) == VerifyEach(View(), ws[i..], expected)
      {
        assert ws[i..][1..] == ws[i + 1..];
        var one := this.VerifyWitness(ws[i], expected);
        if one.Err? {
          return Err(one.error);
        }
        i := i + 1;
      }
      return Ok(Unit);
    }

    method GetWitnessForAccesses(accesses: seq<StateKey>) returns (r: Result<seq<StateWitness>, StateError>)
      requires Valid()
      ensures r == GetWitnesses(View(), accesses)
    {
      hide EncodeStateKey, ReferenceRoot, ProofPathFor;
      var order := EnsureCanonicalOrder(accesses, AccessKeys);
      if order.Err? {
        return Err(order.error);
      }
      var ws: seq<StateWitness>, i := [], 0;
      ghost var all := WitnessEach(View(), accesses);
      assert accesses[0..] == accesses;
      assert all.Ok? ==> [] + all.value == all.value;
      while i < |accesses|
        invariant 0 <= i <= |accesses|
        invariant all == Collected(ws, WitnessEach(View(), accesses[i..]))
      {
        assert accesses[i..][1..] == accesses[i + 1..];
        var path := ProofPathFor(View(), accesses[i]);
        if path.Err? {
          return Err(path.error);
        }
        var w := StateWitness(accesses[i], path.value.leaf.leafValue, []);
        CollectedStep(ws, w, WitnessEach(View(), accesses[i + 1..]));
        ws := ws + [w];
        i := i + 1;
      }
      assert ws + [] == ws;
      return Ok(ws);
    }
  }

  // ----- The applier -----

  function ApplyFrom(sha: Sha, s: AccState, preStateRoot: Root, patch: StatePatch): Result<AccState, StateError>
  {
    if s.root != preStateRoot then Err(RootContinuityMismatch(preStateRoot, s.root)) else Apply(sha, s, patch)
  }

  class ReferenceStateApplier {
    const accumulator: InMemoryAccumulator

    constructor (accumulator: InMemoryAccumulator)
      ensures this.accumulator == accumulator
    {
      this.accumulator := accumulator;
    }

    /** Applies a patch only on top of the root the caller believes in. */
    method ApplyTransition(preStateRoot: Root, patch: StatePatch) returns (r: Result<Root, StateError>)
      requires accumulator.Valid()
      modifies accumulator
      ensures accumulator.Valid()
      ensures old(accumulator.root) != preStateRoot ==>
                accumulator.View() == old(accumulator.View()) && r == Err(RootContinuityMismatch(preStateRoot, old(accumulator.root)))
      ensures old(accumulator.root) == preStateRoot ==>
                match Apply(accumulator.sha, old(accumulator.View()), patch)
                case Ok(t) => accumulator.View() == t && r == Ok(t.root)
                case Err(e) => accumulator.View() == old(accumulator.View()) && r == Err(e)
    {
      if accumulator.root != preStateRoot {
        return Err(RootContinuityMismatch(preStateRoot, accumulator.root));
      }
      r := accumulator.ApplyTransition(patch);
    }
  }
}
