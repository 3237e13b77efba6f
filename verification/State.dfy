/** The reference state as a value: leaves and cached root, transitions, proof paths and witnesses. */
module State {
  import opened Bytes
  import opened StateKeys

  datatype StoredLeaf = StoredLeaf(key: StateKey, leafValue: seq<byte>)

  type Leaves = map<seq<byte>, StoredLeaf>

  datatype StatePatch = StatePatch(accesses: seq<StateKey>, newValues: seq<seq<byte>>)

  datatype StateWitness = StateWitness(key: StateKey, leafValue: seq<byte>, proof: seq<Root>)

  datatype OrderSubject = AccessKeys | WitnessKeys

  datatype WitnessFailure =
    | DifferentStateRoot | KeyMismatch | ValueMismatch | LeftBoundary | RightBoundary
    | CommittedRootMismatch

  datatype StateError =
    | NonCanonicalWitnessOrdering(index: nat, subject: OrderSubject)
    | RootContinuityMismatch(expected: Root, actual: Root)
    | WitnessVerificationFailed(reason: WitnessFailure)
    | UnsupportedProofShape
    | TransitionShapeMismatch(accesses: nat, newValues: nat)
    | NotMaterialized

  // ----- The reference root -----

  function Ascii(s: string): (b: seq<byte>)
    ensures |b| == |s|
  {
    seq(|s|, i requires 0 <= i < |s| => s[i] as int % 256)
  }

  const ROOT_PREFIX: seq<byte> := Ascii("shell-state/reference-root/v1")
  const LEAF_PREFIX: seq<byte> := Ascii("shell-state/reference-leaf/v1")

  /** What is hashed for one leaf; both lengths are cut to 32 bits. */
  function LeafInput(key: seq<byte>, value: seq<byte>): seq<byte>
  {
    LEAF_PREFIX + (Be(|key| % U32_LIMIT, 4) + (key + (Be(|value| % U32_LIMIT, 4) + value)))
  }

  function LeafRoots(sha: Sha, leaves: Leaves, keys: seq<seq<byte>>): (roots: seq<Root>)
    requires forall k :: k in keys ==> k in leaves
    ensures |roots| == |keys|
    ensures forall i :: 0 <= i < |keys| ==> roots[i] == sha(LeafInput(keys[i], leaves[keys[i]].leafValue))
  {
    if keys == [] then [] else
    [sha(LeafInput(keys[0], leaves[keys[0]].leafValue))] + LeafRoots(sha, leaves, keys[1..])
  }

  function RootInput(sha: Sha, leaves: Leaves): seq<byte>
  {
    ROOT_PREFIX + Concat(LeafRoots(sha, leaves, SortedKeys(leaves.Keys)))
  }

  function ReferenceRoot(sha: Sha, leaves: Leaves): Digest
  {
    Digest(sha(RootInput(sha, leaves)),
           {RootInput(sha, leaves)} + set k | k in leaves :: LeafInput(k, leaves[k].leafValue))
  }

  /** The string starts with this text, one byte per character. */
  ghost predicate StartsWith(s: seq<byte>, text: string)
  {
    |text| <= |s| && forall i :: 0 <= i < |text| ==> s[i] == text[i] as int
  }

  /** What is hashed for a leaf, field by field: text, big-endian 32-bit key length, key, value length, value. */
  lemma LeafInputLayout(key: seq<byte>, value: seq<byte>)
    ensures var s := LeafInput(key, value);
            && |s| == 37 + |key| + |value|
            && StartsWith(s, "shell-state/reference-leaf/v1")
            && s[29..33] == Be(|key| % 0x1_0000_0000, 4) && s[33..33 + |key|] == key
            && s[33 + |key|..37 + |key|] == Be(|value| % 0x1_0000_0000, 4) && s[37 + |key|..] == value
  {
    hide Be;
    AsciiText("shell-state/reference-leaf/v1");
    hide Ascii;
    assert |"shell-state/reference-leaf/v1"| == 29;
    var lengths := Be(|key| % U32_LIMIT, 4) + (key + (Be(|value| % U32_LIMIT, 4) + value));
    assert LeafInput(key, value)[29..] == lengths;
    assert lengths[4..] == key + (Be(|value| % U32_LIMIT, 4) + value);
  }

  lemma AsciiText(text: string)
    requires forall i :: 0 <= i < |text| ==> text[i] < 128 as char
    ensures StartsWith(Ascii(text), text)
  {
  }

  /** What is hashed for a state: text, then the digest of each leaf in key order. */
  lemma RootInputLayout(sha: Sha, leaves: Leaves)
    ensures var s, keys := RootInput(sha, leaves), SortedKeys(leaves.Keys);
            && |s| == 29 + 32 * |leaves| && |keys| == |leaves|
            && StartsWith(s, "shell-state/reference-root/v1")
            && (forall i :: 0 <= i < |keys| ==> s[29 + 32 * i..29 + 32 * i + 32] == sha(LeafInput(keys[i], leaves[keys[i]].leafValue)))
    ensures ReferenceRoot(sha, leaves).root == sha(RootInput(sha, leaves))
  {
    AsciiText("shell-state/reference-root/v1");
    hide Ascii, LeafInput, SortedKeys, LeafRoots;
    RootsAfter(ROOT_PREFIX, LeafRoots(sha, leaves, SortedKeys(leaves.Keys)), 29);
  }

  // ----- States and transitions -----

  datatype AccState = AccState(leaves: Leaves, root: Root)

  const FRESH: AccState := AccState(map[], ZERO_ROOT)

  /** Every leaf is stored under the encoding of its own key. */
  ghost predicate WellKeyed(leaves: Leaves)
  {
    forall k :: k in leaves ==> EncodeStateKey(leaves[k].key) == k
  }

  /** The cached root is the recomputed one, except that a fresh state caches zero. */
  ghost predicate ValidState(sha: Sha, s: AccState)
  {
    WellKeyed(s.leaves) && (s == FRESH || s.root == ReferenceRoot(sha, s.leaves).root)
  }

  function ApplyLeaves(leaves: Leaves, keys: seq<StateKey>, values: seq<seq<byte>>): Leaves
    requires |keys| == |values|
    decreases keys
  {
    if keys == [] then leaves
    else ApplyLeaves(leaves[EncodeStateKey(keys[0]) := StoredLeaf(keys[0], values[0])], keys[1..], values[1..])
  }

  function OrderCheck(keys: seq<StateKey>, subject: OrderSubject): Result<Unit, StateError>
  {
    var v := FirstViolation(keys, 1);
    if v < |keys| then Err(NonCanonicalWitnessOrdering(v, subject)) else Ok(Unit)
  }

  /** Index v is the first whose key does not come after its predecessor. */
  ghost predicate FirstUnsorted(keys: seq<StateKey>, v: nat)
  {
    1 <= v < |keys| && CompareStateKeys(keys[v - 1], keys[v]) != Less && StrictlySorted(keys[..v])
  }

  /** The order check passes exactly sorted lists, and otherwise names the first offending index. */
  lemma OrderCheckExact(keys: seq<StateKey>, subject: OrderSubject)
    ensures OrderCheck(keys, subject).Ok? <==> StrictlySorted(keys)
    ensures OrderCheck(keys, subject).Err? ==>
            exists v :: FirstUnsorted(keys, v) && OrderCheck(keys, subject).error == NonCanonicalWitnessOrdering(v, subject)
  {
    hide CompareStateKeys;
    NeighboursSuffice(keys);
    var v := FirstViolation(keys, 1);
    if v < |keys| {
      NeighboursSuffice(keys[..v]);
      assert FirstViolation(keys[..v], 1) >= v by { PrefixSorted(keys, v); }
      assert FirstUnsorted(keys, v);
    }
  }

  lemma PrefixSorted(keys: seq<StateKey>, v: nat)
    requires v <= |keys| && v <= FirstViolation(keys, 1)
    ensures FirstViolation(keys[..v], 1) >= v
  {
    hide CompareStateKeys;
  }

  function Apply(sha: Sha, s: AccState, patch: StatePatch): Result<AccState, StateError>
  {
    if |patch.accesses| != |patch.newValues| then
      Err(TransitionShapeMismatch(|patch.accesses|, |patch.newValues|))
    else
      var _ :- OrderCheck(patch.accesses, AccessKeys);
      var leaves := ApplyLeaves(s.leaves, patch.accesses, patch.newValues);
      Ok(AccState(leaves, ReferenceRoot(sha, leaves).root))
  }

  /** A run: each patch is tried in turn, and one that fails changes nothing. */
  function RunPatches(sha: Sha, s: AccState, patches: seq<StatePatch>): AccState
    decreases patches
  {
    if patches == [] then s else
    var next := match Apply(sha, s, patches[0]) case Ok(t) => t case Err(_) => s;
    RunPatches(sha, next, patches[1..])
  }

  // ----- Transitions are map override -----

  lemma {:induction false} ApplyLeavesKeeps(leaves: Leaves, keys: seq<StateKey>, values: seq<seq<byte>>, k: seq<byte>)
    requires |keys| == |values|
    requires forall i :: 0 <= i < |keys| ==> EncodeStateKey(keys[i]) != k
    ensures k in ApplyLeaves(leaves, keys, values) <==> k in leaves
    ensures k in leaves ==> ApplyLeaves(leaves, keys, values)[k] == leaves[k]
    decreases keys
  {
    hide EncodeStateKey;
    if keys != [] {
      ApplyLeavesKeeps(leaves[EncodeStateKey(keys[0]) := StoredLeaf(keys[0], values[0])], keys[1..], values[1..], k);
    }
  }

  lemma {:induction false} ApplyLeavesSets(leaves: Leaves, keys: seq<StateKey>, values: seq<seq<byte>>, i: nat)
    requires |keys| == |values| && i < |keys| && StrictlySorted(keys)
    ensures var k := EncodeStateKey(keys[i]);
            k in ApplyLeaves(leaves, keys, values) && ApplyLeaves(leaves, keys, values)[k] == StoredLeaf(keys[i], values[i])
    decreases i
  {
    hide EncodeStateKey;
    var next := leaves[EncodeStateKey(keys[0]) := StoredLeaf(keys[0], values[0])];
    if i > 0 {
      ApplyLeavesSets(next, keys[1..], values[1..], i - 1);
    } else {
      forall j | 0 <= j < |keys[1..]|
        ensures EncodeStateKey(keys[1..][j]) != EncodeStateKey(keys[0])
      {
        LexEqual(EncodeStateKey(keys[0]), EncodeStateKey(keys[j + 1]));
      }
      ApplyLeavesKeeps(next, keys[1..], values[1..], EncodeStateKey(keys[0]));
    }
  }

  /**
   * A transition succeeds exactly on well-shaped, globally sorted patches, and then overrides the map and
   * caches the root of the result. Shape is checked before order.
   */
  lemma ApplyIsOverride(sha: Sha, s: AccState, patch: StatePatch)
    ensures Apply(sha, s, patch).Ok? <==> |patch.accesses| == |patch.newValues| && StrictlySorted(patch.accesses)
    ensures Apply(sha, s, patch).Ok? ==>
      var t := Apply(sha, s, patch).value;
      && (forall i :: 0 <= i < |patch.accesses| ==>
            var k := EncodeStateKey(patch.accesses[i]);
            k in t.leaves && t.leaves[k] == StoredLeaf(patch.accesses[i], patch.newValues[i]))
      && (forall k :: (forall i :: 0 <= i < |patch.accesses| ==> EncodeStateKey(patch.accesses[i]) != k) ==>
            (k in t.leaves <==> k in s.leaves) && (k in s.leaves ==> t.leaves[k] == s.leaves[k]))
      && t.root == sha(RootInput(sha, t.leaves))
    ensures |patch.accesses| != |patch.newValues| ==>
            Apply(sha, s, patch) == Err(TransitionShapeMismatch(|patch.accesses|, |patch.newValues|))
    ensures |patch.accesses| == |patch.newValues| && Apply(sha, s, patch).Err? ==>
            exists v :: FirstUnsorted(patch.accesses, v) && Apply(sha, s, patch).error == NonCanonicalWitnessOrdering(v, AccessKeys)
  {
    hide EncodeStateKey, RootInput, OrderCheck, CompareStateKeys;
    OrderCheckExact(patch.accesses, AccessKeys);
    if Apply(sha, s, patch).Ok? {
      var keys, values := patch.accesses, patch.newValues;
      forall i | 0 <= i < |keys|
        ensures var k := EncodeStateKey(keys[i]);
                k in ApplyLeaves(s.leaves, keys, values) && ApplyLeaves(s.leaves, keys, values)[k] == StoredLeaf(keys[i], values[i])
      {
        ApplyLeavesSets(s.leaves, keys, values, i);
      }
      forall k | forall i :: 0 <= i < |keys| ==> EncodeStateKey(keys[i]) != k
        ensures k in ApplyLeaves(s.leaves, keys, values) <==> k in s.leaves
        ensures k in s.leaves ==> ApplyLeaves(s.leaves, keys, values)[k] == s.leaves[k]
      {
        ApplyLeavesKeeps(s.leaves, keys, values, k);
      }
    }
  }

  lemma {:induction false} ApplyLeavesSplit(leaves: Leaves, keys: seq<StateKey>, values: seq<seq<byte>>, n: nat)
    requires |keys| == |values| && n <= |keys|
    ensures ApplyLeaves(leaves, keys, values) ==
            ApplyLeaves(ApplyLeaves(leaves, keys[..n], values[..n]), keys[n..], values[n..])
    decreases n
  {
    hide EncodeStateKey;
    if n == 0 {
      assert keys[0..] == keys && values[0..] == values;
    } else {
      ApplyLeavesSplit(leaves[EncodeStateKey(keys[0]) := StoredLeaf(keys[0], values[0])], keys[1..], values[1..], n - 1);
      assert keys[..n][1..] == keys[1..][..n - 1] && values[..n][1..] == values[1..][..n - 1];
      assert keys[1..][n - 1..] == keys[n..] && values[1..][n - 1..] == values[n..];
    }
  }

  /** Cutting one canonical patch into two consecutive ones gives the same leaves and the same root. */
  lemma PatchSplits(sha: Sha, s: AccState, patch: StatePatch, n: nat)
    requires n <= |patch.accesses| && Apply(sha, s, patch).Ok?
    ensures var first := StatePatch(patch.accesses[..n], patch.newValues[..n]);
            var second := StatePatch(patch.accesses[n..], patch.newValues[n..]);
            Apply(sha, s, first).Ok? && Apply(sha, Apply(sha, s, first).value, second) == Apply(sha, s, patch)
  {
    hide EncodeStateKey, ReferenceRoot, ApplyLeaves, CompareStateKeys;
    NeighboursSuffice(patch.accesses);
    NeighboursSuffice(patch.accesses[..n]);
    NeighboursSuffice(patch.accesses[n..]);
    ApplyLeavesSplit(s.leaves, patch.accesses, patch.newValues, n);
  }

  /** The patch that a list of consecutive pieces was cut from. */
  function Joined(pieces: seq<StatePatch>): StatePatch
  {
    if pieces == [] then StatePatch([], []) else
    var rest := Joined(pieces[1..]);
    StatePatch(pieces[0].accesses + rest.accesses, pieces[0].newValues + rest.newValues)
  }

  /**
   * However a canonical patch is cut into consecutive pieces, each piece applies in its turn and the run
   * over them leaves the leaves and root of the whole.
   */
  lemma {:induction false} PatchPieces(sha: Sha, s: AccState, pieces: seq<StatePatch>)
    requires pieces != [] && Apply(sha, s, Joined(pieces)).Ok?
    requires forall i :: 0 <= i < |pieces| ==> |pieces[i].accesses| == |pieces[i].newValues|
    ensures Ok(RunPatches(sha, s, pieces)) == Apply(sha, s, Joined(pieces))
    ensures forall i :: 0 <= i < |pieces| ==> Apply(sha, RunPatches(sha, s, pieces[..i]), pieces[i]).Ok?
    decreases pieces
  {
    hide Apply;
    var whole, first, rest := Joined(pieces), pieces[0], pieces[1..];
    PatchSplits(sha, s, whole, |first.accesses|);
    assert StatePatch(whole.accesses[..|first.accesses|], whole.newValues[..|first.accesses|]) == first;
    assert StatePatch(whole.accesses[|first.accesses|..], whole.newValues[|first.accesses|..]) == Joined(rest);
    var t := Apply(sha, s, first).value;
    if rest != [] {
      PatchPieces(sha, t, rest);
    } else {
      assert first.accesses + [] == first.accesses && first.newValues + [] == first.newValues;
    }
    forall i | 0 <= i < |pieces|
      ensures Apply(sha, RunPatches(sha, s, pieces[..i]), pieces[i]).Ok?
    {
      if i > 0 {
        assert pieces[..i][0] == first && pieces[..i][1..] == rest[..i - 1] && pieces[i] == rest[i - 1];
      }
    }
  }

  // ----- Run invariant -----

  lemma {:induction false} ApplyLeavesWellKeyed(leaves: Leaves, keys: seq<StateKey>, values: seq<seq<byte>>)
    requires |keys| == |values| && WellKeyed(leaves)
    ensures WellKeyed(ApplyLeaves(leaves, keys, values))
    ensures leaves.Keys <= ApplyLeaves(leaves, keys, values).Keys
    decreases keys
  {
    hide EncodeStateKey;
    if keys != [] {
      ApplyLeavesWellKeyed(leaves[EncodeStateKey(keys[0]) := StoredLeaf(keys[0], values[0])], keys[1..], values[1..]);
    }
  }

  /** Every run keeps the invariant and never drops a key. */
  lemma {:induction false} RunInvariant(sha: Sha, s: AccState, patches: seq<StatePatch>)
    requires ValidState(sha, s)
    ensures ValidState(sha, RunPatches(sha, s, patches))
    ensures s.leaves.Keys <= RunPatches(sha, s, patches).leaves.Keys
    decreases patches
  {
    hide EncodeStateKey, ReferenceRoot;
    if patches != [] {
      var p := patches[0];
      match Apply(sha, s, p)
      case Ok(t) =>
        ApplyLeavesWellKeyed(s.leaves, p.accesses, p.newValues);
        RunInvariant(sha, t, patches[1..]);
      case Err(_) =>
        RunInvariant(sha, s, patches[1..]);
    }
  }

  /** A fresh state caches zero; from the first successful transition on, even an empty one, the root is hashed. */
  lemma FirstTransitionHashes(sha: Sha, s: AccState, patch: StatePatch)
    requires ValidState(sha, s) && Apply(sha, s, patch).Ok?
    ensures var t := Apply(sha, s, patch).value;
            t.root == ReferenceRoot(sha, t.leaves).root && ValidState(sha, t)
    ensures patch == StatePatch([], []) ==> Apply(sha, s, patch).value.leaves == s.leaves
  {
    hide EncodeStateKey, ReferenceRoot;
    ApplyLeavesWellKeyed(s.leaves, patch.accesses, patch.newValues);
  }

  // ----- Proof paths and witness verification -----

  datatype ProofLeaf = ProofLeaf(key: StateKey, canonicalKey: seq<byte>, leafValue: seq<byte>)

  datatype ProofPath = ProofPath(expectedRoot: Root, leaf: ProofLeaf, left: Option<ProofLeaf>, right: Option<ProofLeaf>)

  function LeafAt(leaves: Leaves, k: seq<byte>): ProofLeaf
    requires k in leaves
  {
    ProofLeaf(leaves[k].key, k, leaves[k].leafValue)
  }

  function OptionalLeaf(leaves: Leaves, k: Option<seq<byte>>): Option<ProofLeaf>
    requires k.Some? ==> k.value in leaves
  {
    match k case None => None case Some(key) => Some(LeafAt(leaves, key))
  }

  function ProofPathFor(s: AccState, access: StateKey): Result<ProofPath, StateError>
  {
    var k := EncodeStateKey(access);
    if k !in s.leaves then Err(NotMaterialized)
    else Ok(ProofPath(s.root, LeafAt(s.leaves, k),
                      OptionalLeaf(s.leaves, Below(s.leaves.Keys, k)),
                      OptionalLeaf(s.leaves, Above(s.leaves.Keys, k))))
  }

  function PathVerifies(path: ProofPath, w: StateWitness, expected: Root): Result<Unit, StateError>
  {
    if path.expectedRoot != expected then Err(WitnessVerificationFailed(DifferentStateRoot))
    else if path.leaf.key != w.key then Err(WitnessVerificationFailed(KeyMismatch))
    else if path.leaf.leafValue != w.leafValue then Err(WitnessVerificationFailed(ValueMismatch))
    else if path.left.Some? && CompareStateKeys(path.left.value.key, w.key) != Less then
      Err(WitnessVerificationFailed(LeftBoundary))
    else if path.right.Some? && CompareStateKeys(w.key, path.right.value.key) != Less then
      Err(WitnessVerificationFailed(RightBoundary))
    else Ok(Unit)
  }

  function DeriveProofPath(s: AccState, w: StateWitness): Result<ProofPath, StateError>
  {
    if w.proof != [] then Err(UnsupportedProofShape) else
    var path :- ProofPathFor(s, w.key);
    var _ :- PathVerifies(path, w, s.root);
    Ok(path)
  }

  function VerifyWitness(s: AccState, w: StateWitness, expected: Root): Result<Unit, StateError>
  {
    var path :- DeriveProofPath(s, w);
    PathVerifies(path, w, expected)
  }

  /** What a leaf map says about a key, with no mention of paths or neighbours. */
  ghost predicate HoldsLeaf(leaves: Leaves, key: StateKey, value: seq<byte>)
  {
    EncodeStateKey(key) in leaves && leaves[EncodeStateKey(key)] == StoredLeaf(key, value)
  }

  /** The neighbours of a proof path are the stored leaves right before and after, so its boundary checks always pass. */
  lemma PathBoundaries(s: AccState, access: StateKey)
    requires WellKeyed(s.leaves)
    ensures EncodeStateKey(access) !in s.leaves ==> ProofPathFor(s, access) == Err(NotMaterialized)
    ensures EncodeStateKey(access) in s.leaves ==> ProofPathFor(s, access).Ok?
    ensures EncodeStateKey(access) in s.leaves ==>
            var path := ProofPathFor(s, access).value;
            && path.expectedRoot == s.root
            && path.leaf.key == access && HoldsLeaf(s.leaves, access, path.leaf.leafValue)
            && (path.left.Some? ==> CompareStateKeys(path.left.value.key, access) == Less &&
                                    HoldsLeaf(s.leaves, path.left.value.key, path.left.value.leafValue))
            && (path.right.Some? ==> CompareStateKeys(access, path.right.value.key) == Less &&
                                     HoldsLeaf(s.leaves, path.right.value.key, path.right.value.leafValue))
            && (forall k :: k in s.leaves && CompareStateKeys(s.leaves[k].key, access) == Less ==>
                  path.left.Some? && (s.leaves[k].key == path.left.value.key
                                      || CompareStateKeys(s.leaves[k].key, path.left.value.key) == Less))
            && (forall k :: k in s.leaves && CompareStateKeys(access, s.leaves[k].key) == Less ==>
                  path.right.Some? && (s.leaves[k].key == path.right.value.key
                                       || CompareStateKeys(path.right.value.key, s.leaves[k].key) == Less))
  {
    if EncodeStateKey(access) in s.leaves {
      EncodeInjective(s.leaves[EncodeStateKey(access)].key, access);
    }
    hide EncodeStateKey;
  }

  /** A witness with an empty proof that names a leaf the state holds. */
  ghost predicate TrueWitness(s: AccState, w: StateWitness)
  {
    w.proof == [] && HoldsLeaf(s.leaves, w.key, w.leafValue)
  }

  /**
   * Verification accepts exactly the true leaves against the current root, and each kind of false
   * witness gets its own error. The value is checked before the root, and no boundary error occurs.
   */
  lemma VerifyWitnessExact(s: AccState, w: StateWitness, expected: Root)
    requires WellKeyed(s.leaves)
    ensures VerifyWitness(s, w, expected).Ok? <==>
            w.proof == [] && expected == s.root && HoldsLeaf(s.leaves, w.key, w.leafValue)
    ensures VerifyWitness(s, w, expected) == Err(UnsupportedProofShape) <==> w.proof != []
    ensures VerifyWitness(s, w, expected) == Err(NotMaterialized) <==>
            w.proof == [] && EncodeStateKey(w.key) !in s.leaves
    ensures VerifyWitness(s, w, expected) == Err(WitnessVerificationFailed(ValueMismatch)) <==>
            && w.proof == [] && EncodeStateKey(w.key) in s.leaves
            && s.leaves[EncodeStateKey(w.key)].leafValue != w.leafValue
    ensures VerifyWitness(s, w, expected) == Err(WitnessVerificationFailed(DifferentStateRoot)) <==>
            w.proof == [] && HoldsLeaf(s.leaves, w.key, w.leafValue) && expected != s.root
  {
    hide EncodeStateKey, CompareStateKeys;
    PathBoundaries(s, w.key);
  }

  // ----- Lists of witnesses -----

  function WitnessKeysOf(ws: seq<StateWitness>): (keys: seq<StateKey>)
    ensures |keys| == |ws|
    ensures forall i :: 0 <= i < |ws| ==> keys[i] == ws[i].key
  {
    if ws == [] then [] else [ws[0].key] + WitnessKeysOf(ws[1..])
  }

  function VerifyEach(s: AccState, ws: seq<StateWitness>, expected: Root): Result<Unit, StateError>
  {
    if ws == [] then Ok(Unit) else
    var _ :- VerifyWitness(s, ws[0], expected);
    VerifyEach(s, ws[1..], expected)
  }

  function VerifyWitnesses(s: AccState, ws: seq<StateWitness>, expected: Root): Result<Unit, StateError>
  {
    var _ :- OrderCheck(WitnessKeysOf(ws), WitnessKeys);
    VerifyEach(s, ws, expected)
  }

  function WitnessEach(s: AccState, accesses: seq<StateKey>): (r: Result<seq<StateWitness>, StateError>)
  {
    if accesses == [] then Ok([]) else
    var path :- ProofPathFor(s, accesses[0]);
    var rest :- WitnessEach(s, accesses[1..]);
    Ok([StateWitness(accesses[0], path.leaf.leafValue, [])] + rest)
  }

  function GetWitnesses(s: AccState, accesses: seq<StateKey>): Result<seq<StateWitness>, StateError>
  {
    var _ :- OrderCheck(accesses, AccessKeys);
    WitnessEach(s, accesses)
  }

  lemma {:induction false} VerifyEachExact(s: AccState, ws: seq<StateWitness>, expected: Root)
    ensures VerifyEach(s, ws, expected).Ok? <==>
            forall i :: 0 <= i < |ws| ==> VerifyWitness(s, ws[i], expected).Ok?
    ensures VerifyEach(s, ws, expected).Err? ==>
            exists i :: 0 <= i < |ws| && VerifyWitness(s, ws[i], expected) == VerifyEach(s, ws, expected)
                        && forall j :: 0 <= j < i ==> VerifyWitness(s, ws[j], expected).Ok?
  {
    hide VerifyWitness;
    if ws != [] {
      VerifyEachExact(s, ws[1..], expected);
      var rest := ws[1..];
      assert forall i :: 0 <= i < |rest| ==> rest[i] == ws[i + 1];
      if VerifyEach(s, ws, expected).Ok? {
        forall i | 0 <= i < |ws|
          ensures VerifyWitness(s, ws[i], expected).Ok?
        {
          assert i > 0 ==> ws[i] == rest[i - 1];
        }
      } else if VerifyWitness(s, ws[0], expected).Ok? {
        var i :| 0 <= i < |rest| && VerifyWitness(s, rest[i], expected) == VerifyEach(s, rest, expected)
                 && forall j :: 0 <= j < i ==> VerifyWitness(s, rest[j], expected).Ok?;
        forall j | 0 <= j < i + 1
          ensures VerifyWitness(s, ws[j], expected).Ok?
        {
          assert j > 0 ==> ws[j] == rest[j - 1];
        }
        assert VerifyWitness(s, ws[i + 1], expected) == VerifyEach(s, ws, expected);
      }
    }
  }

  /** A witness list is accepted exactly when it is sorted and every entry is a true leaf. */
  lemma VerifyWitnessesExact(s: AccState, ws: seq<StateWitness>, expected: Root)
    requires WellKeyed(s.leaves)
    ensures VerifyWitnesses(s, ws, expected).Ok? <==>
            && StrictlySorted(WitnessKeysOf(ws))
            && (ws == [] || expected == s.root)
            && forall i :: 0 <= i < |ws| ==> TrueWitness(s, ws[i])
    ensures !StrictlySorted(WitnessKeysOf(ws)) ==>
            exists v :: FirstUnsorted(WitnessKeysOf(ws), v) &&
                        VerifyWitnesses(s, ws, expected) == Err(NonCanonicalWitnessOrdering(v, WitnessKeys))
    ensures StrictlySorted(WitnessKeysOf(ws)) && VerifyWitnesses(s, ws, expected).Err? ==>
            exists i :: 0 <= i < |ws| && VerifyWitness(s, ws[i], expected) == VerifyWitnesses(s, ws, expected)
                        && forall j :: 0 <= j < i ==> VerifyWitness(s, ws[j], expected).Ok?
  {
    hide VerifyWitness, HoldsLeaf, EncodeStateKey, CompareStateKeys, VerifyEach, StrictlySorted, OrderCheck, FirstUnsorted;
    OrderCheckExact(WitnessKeysOf(ws), WitnessKeys);
    VerifyEachExact(s, ws, expected);
    forall i | 0 <= i < |ws|
      ensures VerifyWitness(s, ws[i], expected).Ok? <==>
              ws[i].proof == [] && expected == s.root && HoldsLeaf(s.leaves, ws[i].key, ws[i].leafValue)
    {
      VerifyWitnessExact(s, ws[i], expected);
    }
    if ws != [] && VerifyEach(s, ws, expected).Ok? {
      assert VerifyWitness(s, ws[0], expected).Ok?;
    }
  }

  lemma {:induction false} WitnessEachExists(s: AccState, accesses: seq<StateKey>)
    ensures WitnessEach(s, accesses).Ok? <==>
            forall i :: 0 <= i < |accesses| ==> EncodeStateKey(accesses[i]) in s.leaves
    ensures WitnessEach(s, accesses).Err? ==> WitnessEach(s, accesses) == Err(NotMaterialized)
  {
    hide EncodeStateKey, Below, Above;
    if accesses != [] {
      WitnessEachExists(s, accesses[1..]);
      assert accesses == [accesses[0]] + accesses[1..];
    }
  }

  lemma {:induction false} WitnessEachTrue(s: AccState, accesses: seq<StateKey>)
    requires WellKeyed(s.leaves) && WitnessEach(s, accesses).Ok?
    ensures var ws := WitnessEach(s, accesses).value;
            WitnessKeysOf(ws) == accesses && forall i :: 0 <= i < |ws| ==> TrueWitness(s, ws[i])
  {
    hide EncodeStateKey, CompareStateKeys, TrueWitness, ProofPathFor, WitnessKeysOf, WellKeyed;
    if accesses != [] {
      var rest := WitnessEach(s, accesses[1..]).value;
      WitnessEachTrue(s, accesses[1..]);
      var w := StateWitness(accesses[0], ProofPathFor(s, accesses[0]).value.leaf.leafValue, []);
      FirstWitnessTrue(s, w);
      assert accesses == [accesses[0]] + accesses[1..];
      KeysOfCons(w, rest);
      assert forall i :: 0 < i <= |rest| ==> ([w] + rest)[i] == rest[i - 1];
    }
  }

  lemma KeysOfCons(w: StateWitness, rest: seq<StateWitness>)
    ensures WitnessKeysOf([w] + rest) == [w.key] + WitnessKeysOf(rest)
  {
    assert ([w] + rest)[1..] == rest;
  }

  lemma FirstWitnessTrue(s: AccState, w: StateWitness)
    requires WellKeyed(s.leaves) && ProofPathFor(s, w.key).Ok?
    requires w == StateWitness(w.key, ProofPathFor(s, w.key).value.leaf.leafValue, [])
    ensures TrueWitness(s, w)
  {
    hide EncodeStateKey, CompareStateKeys;
    PathBoundaries(s, w.key);
  }

  /** Witnesses drawn from a state verify against it; they exist exactly for sorted, present keys. */
  lemma WitnessRoundTrip(s: AccState, accesses: seq<StateKey>)
    requires WellKeyed(s.leaves)
    ensures GetWitnesses(s, accesses).Ok? <==>
            StrictlySorted(accesses) && forall i :: 0 <= i < |accesses| ==> EncodeStateKey(accesses[i]) in s.leaves
    ensures GetWitnesses(s, accesses).Ok? ==>
            && WitnessKeysOf(GetWitnesses(s, accesses).value) == accesses
            && VerifyWitnesses(s, GetWitnesses(s, accesses).value, s.root).Ok?
    ensures !StrictlySorted(accesses) ==>
            exists v :: FirstUnsorted(accesses, v) && GetWitnesses(s, accesses) == Err(NonCanonicalWitnessOrdering(v, AccessKeys))
    ensures StrictlySorted(accesses) && GetWitnesses(s, accesses).Err? ==> GetWitnesses(s, accesses) == Err(NotMaterialized)
  {
    hide EncodeStateKey, VerifyWitnesses, HoldsLeaf, CompareStateKeys, OrderCheck, FirstUnsorted, StrictlySorted;
    OrderCheckExact(accesses, AccessKeys);
    WitnessEachExists(s, accesses);
    if GetWitnesses(s, accesses).Ok? {
      WitnessEachTrue(s, accesses);
      VerifyWitnessesExact(s, GetWitnesses(s, accesses).value, s.root);
    }
  }

  /** Once a run has left a different value under its key, a witness is rejected for every root. */
  lemma StaleWitnessRejected(sha: Sha, s: AccState, patches: seq<StatePatch>, w: StateWitness, earlier: Root, expected: Root)
    requires ValidState(sha, s) && VerifyWitness(s, w, earlier).Ok?
    ensures var t := RunPatches(sha, s, patches);
            && EncodeStateKey(w.key) in t.leaves
            && (t.leaves[EncodeStateKey(w.key)].leafValue != w.leafValue ==>
                  VerifyWitness(t, w, expected) == Err(WitnessVerificationFailed(ValueMismatch)))
            && (t.leaves[EncodeStateKey(w.key)].leafValue == w.leafValue ==>
                  (VerifyWitness(t, w, expected).Ok? <==> expected == t.root))
  {
    hide EncodeStateKey, VerifyWitness, ReferenceRoot;
    RunInvariant(sha, s, patches);
    VerifyWitnessExact(s, w, earlier);
    var t := RunPatches(sha, s, patches);
    VerifyWitnessExact(t, w, expected);
    assert t.leaves[EncodeStateKey(w.key)].key == w.key by {
      EncodeInjective(t.leaves[EncodeStateKey(w.key)].key, w.key);
    }
  }
}
