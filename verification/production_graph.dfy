/** Production graphs, their validation, and what a change of a stage or a revision makes stale. */
module ProductionGraph {
  import opened Text
  import opened Artifact
  import opened DependencyGraph
  import opened Reachability
  import opened StaleClosure
  import opened CycleSearch
  import Delivery

  const MAX_STAGES := 64

  datatype Specialist = Narrative | Asset | Storyboard | Visual | VideoAssembly | Audio | UnknownSpecialist
  datatype ReviewPolicy = ReviewRequired | UnknownReviewPolicy
  datatype CostPolicy = NoCost | CostApprovalRequired | UnknownCostPolicy

  datatype Stage = Stage(
    stageKey: string,
    specialist: Specialist,
    dependsOn: seq<string>,
    inputRevisions: seq<RevisionRef>,
    expectedDelivery: Delivery.ExpectedDelivery,
    reviewPolicy: ReviewPolicy,
    costPolicy: CostPolicy)

  datatype Draft = Draft(graphKey: string, stages: seq<Stage>)

  datatype GraphError = GraphInvalid | GraphCycle | RevisionInvalid | RevisionCycle

  function Nodes(stages: seq<Stage>): (nodes: seq<Node<string>>)
    ensures |nodes| == |stages|
    ensures forall i :: 0 <= i < |stages| ==> nodes[i] == Node(stages[i].stageKey, stages[i].dependsOn)
  {
    seq(|stages|, i requires 0 <= i < |stages| => Node(stages[i].stageKey, stages[i].dependsOn))
  }

  predicate ValidStage(s: Stage) {
    && ValidKey(s.stageKey)
    && !s.specialist.UnknownSpecialist?
    && !s.reviewPolicy.UnknownReviewPolicy?
    && !s.costPolicy.UnknownCostPolicy?
    && Delivery.ValidDelivery(s.expectedDelivery)
    && ValidRefs(s.inputRevisions)
  }

  /** The dependencies are other stages, each named once. */
  predicate ValidDependencies(node: Node<string>, keys: set<string>) {
    && Distinct(node.dependsOn)
    && forall d :: d in node.dependsOn ==> d != node.key && d in keys
  }

  predicate ValidDraft(draft: Draft) {
    && ValidKey(draft.graphKey)
    && 1 <= |draft.stages| <= MAX_STAGES
    && (forall i :: 0 <= i < |draft.stages| ==> ValidStage(draft.stages[i]))
    && UniqueKeys(Nodes(draft.stages))
    && forall i :: 0 <= i < |draft.stages| ==> ValidDependencies(Nodes(draft.stages)[i], Keys(Nodes(draft.stages)))
  }

  method CheckStage(s: Stage) returns (ok: bool)
    ensures ok <==> ValidStage(s)
  {
    hide ValidKey, ValidRefs, Delivery.ValidDelivery;
    if !ValidKey(s.stageKey) || s.specialist.UnknownSpecialist? {
      return false;
    }
    if s.reviewPolicy.UnknownReviewPolicy? || s.costPolicy.UnknownCostPolicy? {
      return false;
    }
    ok := Delivery.Validate(s.expectedDelivery);
    if ok {
      ok := CheckRefs(s.inputRevisions);
    }
  }

  method CheckStages(stages: seq<Stage>) returns (ok: bool, known: set<string>)
    ensures ok <==> (forall i :: 0 <= i < |stages| ==> ValidStage(stages[i])) && UniqueKeys(Nodes(stages))
    ensures ok ==> known == Keys(Nodes(stages))
  {
    hide ValidStage;
    known := {};
    var nodes := Nodes(stages);
    for i := 0 to |stages|
      invariant forall k :: 0 <= k < i ==> ValidStage(stages[k])
      invariant UniqueKeys(nodes[..i])
      invariant forall key :: key in known <==> exists k :: 0 <= k < i && nodes[k].key == key
    {
      ok := CheckStage(stages[i]);
      if !ok || nodes[i].key in known {
        return false, known;
      }
      known := known + {nodes[i].key};
    }
    assert nodes[..|stages|] == nodes;
    assert known == Keys(nodes);
    return true, known;
  }

  method CheckDependencies(node: Node<string>, known: set<string>) returns (ok: bool)
    requires forall k :: k in known ==> ValidKey(k)
    ensures ok <==> ValidDependencies(node, known)
  {
    hide Trim, Utf8Len;
    var deps := node.dependsOn;
    var seen: set<string> := {};
    for j := 0 to |deps|
      invariant Distinct(deps[..j])
      invariant forall d :: d in seen <==> d in deps[..j]
      invariant forall d :: d in deps[..j] ==> d != node.key && d in known
    {
      var d := deps[j];
      assert d in deps;
      if Trim(d) != d || d == "" || d == node.key || d !in known || d in seen {
        if d in seen {
          assert exists k :: 0 <= k < j && deps[k] == d;
        }
        return false;
      }
      DistinctAppend(deps[..j], d);
      assert deps[..j + 1] == deps[..j] + [d];
      seen := seen + {d};
    }
    assert deps[..|deps|] == deps;
    return true;
  }

  method CheckAllDependencies(nodes: seq<Node<string>>, known: set<string>) returns (ok: bool)
    requires forall k :: k in known ==> ValidKey(k)
    ensures ok <==> forall i :: 0 <= i < |nodes| ==> ValidDependencies(nodes[i], known)
  {
    hide ValidDependencies, ValidKey;
    for i := 0 to |nodes|
      invariant forall k :: 0 <= k < i ==> ValidDependencies(nodes[k], known)
    {
      ok := CheckDependencies(nodes[i], known);
      if !ok {
        return false;
      }
    }
    return true;
  }

  lemma ValidDraftIsWellFormed(draft: Draft)
    requires ValidDraft(draft)
    ensures WellFormed(Nodes(draft.stages))
  {
    hide ValidStage, ValidKey;
    var nodes := Nodes(draft.stages);
    forall n | n in nodes ensures Distinct(n.dependsOn) && forall d :: d in n.dependsOn ==> d in Keys(nodes) {
      var i :| 0 <= i < |nodes| && nodes[i] == n;
      assert ValidDependencies(nodes[i], Keys(nodes));
    }
  }

  lemma StageKeysAreValid(stages: seq<Stage>)
    requires forall i :: 0 <= i < |stages| ==> ValidStage(stages[i])
    ensures forall k :: k in Keys(Nodes(stages)) ==> ValidKey(k)
  {
    hide ValidKey, ValidRefs, Delivery.ValidDelivery;
    forall k | k in Keys(Nodes(stages)) ensures ValidKey(k) {
      var i :| 0 <= i < |stages| && Nodes(stages)[i].key == k;
      assert ValidStage(stages[i]);
    }
  }

  /** The verdict on a draft. */
  ghost function Verdict(draft: Draft): Option<GraphError> {
    if !ValidDraft(draft) then Some(GraphInvalid)
    else if !Acyclic(Edges(Nodes(draft.stages))) then Some(GraphCycle)
    else None
  }

  /** Accepts exactly the well-formed drafts in which no stage depends on itself in the end, and
      tells a cycle from every other fault. */
  method ValidateProductionGraph(draft: Draft) returns (error: Option<GraphError>)
    ensures error == Verdict(draft)
  {
    hide ValidKey, ValidStage, ValidDependencies, Acyclic, Edges, UniqueKeys;
    if !ValidKey(draft.graphKey) {
      return Some(GraphInvalid);
    }
    if |draft.stages| == 0 || |draft.stages| > MAX_STAGES {
      return Some(GraphInvalid);
    }
    var ok, known := CheckStages(draft.stages);
    if !ok {
      return Some(GraphInvalid);
    }
    StageKeysAreValid(draft.stages);
    ok := CheckAllDependencies(Nodes(draft.stages), known);
    if !ok {
      return Some(GraphInvalid);
    }
    ValidDraftIsWellFormed(draft);
    var all := ProcessesAll(Nodes(draft.stages));
    return if all then None else Some(GraphCycle);
  }

  // ---------------------------------------------------------------- stages stale after a stage changed

  /** The verdict on a draft and a changed stage, or the stages that depend on it. */
  ghost function StaleAfterStage(draft: Draft, changed: string): Result<seq<string>, GraphError> {
    var nodes := Nodes(draft.stages);
    if Verdict(draft).Some? then Failure(Verdict(draft).value)
    else if changed !in Keys(nodes) then Failure(GraphInvalid)
    else Success(Select(DeclaredKeys(nodes), StrictDependents(nodes, changed)))
  }

  method StaleDependentStages(draft: Draft, changed: string) returns (r: Result<seq<string>, GraphError>)
    ensures r == StaleAfterStage(draft, changed)
  {
    hide ValidStage, Acyclic, Edges, StrictDependents, Select, Trim, Utf8Len, Dependents;
    var error := ValidateProductionGraph(draft);
    if error.Some? {
      return Failure(error.value);
    }
    StageKeysAreValid(draft.stages);
    ValidDraftIsWellFormed(draft);
    if Trim(changed) != changed || changed == "" {
      return Failure(GraphInvalid);
    }
    var nodes := Nodes(draft.stages);
    var dependents := BuildDependents(nodes);
    var found := FindKey(nodes, changed);
    if !found {
      return Failure(GraphInvalid);
    }
    var stale := MarkWhenTaken(nodes, dependents, changed);
    return Success(stale);
  }

  method FindKey<K(!new, ==)>(nodes: seq<Node<K>>, key: K) returns (found: bool)
    ensures found <==> key in Keys(nodes)
  {
    found := false;
    for i := 0 to |nodes|
      invariant found <==> exists k :: 0 <= k < i && nodes[k].key == key
    {
      if nodes[i].key == key {
        found := true;
      }
    }
  }

  /** An accepted change makes stale exactly the stages that depend on the changed one by one or
      more edges, never that stage itself, and names each once. */
  lemma StaleStagesExactly(draft: Draft, changed: string, stale: seq<string>)
    requires StaleAfterStage(draft, changed) == Success(stale)
    ensures changed !in stale && Distinct(stale)
    ensures forall k :: k in stale <==> ReachesStrictly(Edges(Nodes(draft.stages)), changed, k)
  {
    hide ValidKey, ValidStage, Select;
    var nodes := Nodes(draft.stages);
    SelectHolds(DeclaredKeys(nodes), StrictDependents(nodes, changed));
    SelectDistinct(DeclaredKeys(nodes), StrictDependents(nodes, changed));
    forall k ensures k in stale <==> ReachesStrictly(Edges(nodes), changed, k) {
      StrictDependentsAre(nodes, changed, k);
      if ReachesStrictly(Edges(nodes), changed, k) {
        var e := LastEdge(Edges(nodes), changed, k);
        assert k in Keys(nodes);
        KeyIsDeclared(nodes, k);
      }
    }
  }

  lemma KeyIsDeclared<K(!new)>(nodes: seq<Node<K>>, k: K)
    requires k in Keys(nodes)
    ensures k in DeclaredKeys(nodes)
  {
    var n :| n in nodes && n.key == k;
    var i :| 0 <= i < |nodes| && nodes[i] == n;
    assert DeclaredKeys(nodes)[i] == k;
  }

  // ---------------------------------------------------------------- stages stale after revisions changed

  ghost function Hit(stages: seq<Stage>, changed: set<RevisionRef>): set<string> {
    set s | s in stages && (exists r :: r in s.inputRevisions && r in changed) :: s.stageKey
  }

  method TakesChanged(inputs: seq<RevisionRef>, changed: set<RevisionRef>) returns (hit: bool)
    ensures hit <==> exists r :: r in inputs && r in changed
  {
    for j := 0 to |inputs|
      invariant forall k :: 0 <= k < j ==> inputs[k] !in changed
    {
      if inputs[j] in changed {
        return true;
      }
    }
    return false;
  }

  method CollectHits(stages: seq<Stage>, changed: set<RevisionRef>) returns (stale: set<string>, queue: seq<string>)
    ensures stale == Hit(stages, changed) && Elements(queue) == stale
  {
    stale, queue := {}, [];
    for i := 0 to |stages|
      invariant stale == Hit(stages[..i], changed) && Elements(queue) == stale
    {
      var hit := TakesChanged(stages[i].inputRevisions, changed);
      var key := stages[i].stageKey;
      assert stages[..i + 1] == stages[..i] + [stages[i]];
      HitAppend(stages[..i], stages[i], changed);
      if hit && key !in stale {
        assert Elements(queue + [key]) == Elements(queue) + {key};
        stale := stale + {key};
        queue := queue + [key];
      }
    }
    assert stages[..|stages|] == stages;
  }

  lemma HitAppend(stages: seq<Stage>, s: Stage, changed: set<RevisionRef>)
    ensures Hit(stages + [s], changed) ==
            Hit(stages, changed) + (if exists r :: r in s.inputRevisions && r in changed then {s.stageKey} else {})
  {
    assert forall x :: x in stages + [s] <==> x in stages || x == s;
  }

  ghost predicate ValidChange(changed: seq<RevisionRef>) {
    && changed != []
    && Distinct(changed)
    && forall i :: 0 <= i < |changed| ==> changed[i].Valid()
  }

  method CheckChange(changed: seq<RevisionRef>) returns (ok: bool, changedSet: set<RevisionRef>)
    ensures ok <==> ValidChange(changed)
    ensures changedSet <= Elements(changed) && (ok ==> changedSet == Elements(changed))
  {
    hide ValidKey;
    changedSet := {};
    if |changed| == 0 {
      return false, changedSet;
    }
    for i := 0 to |changed|
      invariant changedSet == Elements(changed[..i])
      invariant Distinct(changed[..i]) && forall k :: 0 <= k < i ==> changed[k].Valid()
    {
      assert changed[i] in changed[..i] ==> !Distinct(changed);
      assert changed[..i + 1] == changed[..i] + [changed[i]];
      if !changed[i].Valid() || changed[i] in changedSet {
        return false, changedSet;
      }
      DistinctAppend(changed[..i], changed[i]);
      changedSet := changedSet + {changed[i]};
    }
    assert changed[..|changed|] == changed;
    return true, changedSet;
  }

  ghost function StaleAfterRevisions(draft: Draft, changed: seq<RevisionRef>): Result<seq<string>, GraphError> {
    var nodes := Nodes(draft.stages);
    if Verdict(draft).Some? then Failure(Verdict(draft).value)
    else if !ValidChange(changed) then Failure(RevisionInvalid)
    else Success(Select(DeclaredKeys(nodes), Affected(nodes, Hit(draft.stages, Elements(changed)))))
  }

  method StaleStagesForRevisionChanges(draft: Draft, changed: seq<RevisionRef>) returns (r: Result<seq<string>, GraphError>)
    ensures r == StaleAfterRevisions(draft, changed)
  {
    hide ValidStage, ValidKey, ValidChange, Acyclic, Edges, Affected, Select, Dependents, Hit;
    var error := ValidateProductionGraph(draft);
    if error.Some? {
      return Failure(error.value);
    }
    ValidDraftIsWellFormed(draft);
    var ok, changedSet := CheckChange(changed);
    if !ok {
      return Failure(RevisionInvalid);
    }
    var nodes := Nodes(draft.stages);
    var dependents := BuildDependents(nodes);
    var hits, queue := CollectHits(draft.stages, changedSet);
    var marked := MarkWhenPushed(nodes, dependents, {}, hits, queue);
    assert marked == Affected(nodes, hits);
    var stale := ListSelected(nodes, marked);
    return Success(stale);
  }

  /** Changed revisions make stale exactly the stages that take one of them as input and the stages
      that become stale when one of those changes. */
  lemma RevisionChangeIsUnionOfStageChanges(draft: Draft, changed: seq<RevisionRef>, stale: seq<string>, k: string)
    requires StaleAfterRevisions(draft, changed) == Success(stale)
    ensures k in stale <==>
            || k in Hit(draft.stages, Elements(changed))
            || exists h :: h in Hit(draft.stages, Elements(changed)) && k in StaleAfterStage(draft, h).value
  {
    hide ValidKey, ValidStage, Select, ValidChange, StrictDependents, Edges, Affected;
    var nodes, hits := Nodes(draft.stages), Hit(draft.stages, Elements(changed));
    SelectHolds(DeclaredKeys(nodes), Affected(nodes, hits));
    AffectedUnion(nodes, hits, k);
    forall h | h in hits
      ensures h in Keys(nodes) && StaleAfterStage(draft, h).Success?
      ensures k in StaleAfterStage(draft, h).value <==> k in DeclaredKeys(nodes) && k in StrictDependents(nodes, h)
    {
      HitIsKey(draft.stages, Elements(changed), h);
      SelectHolds(DeclaredKeys(nodes), StrictDependents(nodes, h));
    }
    if k in hits {
      KeyIsDeclared(nodes, k);
    }
    if h :| h in hits && k in StrictDependents(nodes, h) {
      StrictIsDeclared(nodes, h, k);
    }
  }

  lemma HitIsKey(stages: seq<Stage>, changed: set<RevisionRef>, h: string)
    requires h in Hit(stages, changed)
    ensures h in Keys(Nodes(stages))
  {
    var s :| s in stages && s.stageKey == h;
    var i :| 0 <= i < |stages| && stages[i] == s;
    assert Nodes(stages)[i].key == h;
  }

  lemma StrictIsDeclared<K(!new)>(nodes: seq<Node<K>>, h: K, k: K)
    requires k in StrictDependents(nodes, h)
    ensures k in DeclaredKeys(nodes)
  {
    assert k in Keys(nodes);
    KeyIsDeclared(nodes, k);
  }

  // ---------------------------------------------------------------- revisions stale after revisions changed

  /** One revision and what it was made from; None is a missing list, which is not an empty one. */
  datatype RevisionNode = RevisionNode(revision: RevisionRef, dependsOn: Option<seq<RevisionRef>>)

  function RevisionNodes(revisions: seq<RevisionNode>): (nodes: seq<Node<RevisionRef>>)
    ensures |nodes| == |revisions|
    ensures forall i :: 0 <= i < |nodes| ==>
              nodes[i] == Node(revisions[i].revision, if revisions[i].dependsOn.Some? then revisions[i].dependsOn.value else [])
  {
    seq(|revisions|, i requires 0 <= i < |revisions| =>
      Node(revisions[i].revision, if revisions[i].dependsOn.Some? then revisions[i].dependsOn.value else []))
  }

  predicate ValidRevisionNode(n: RevisionNode) {
    n.revision.Valid() && n.dependsOn.Some? && ValidRefs(n.dependsOn.value)
  }

  predicate ValidRevisions(revisions: seq<RevisionNode>) {
    && revisions != []
    && (forall i :: 0 <= i < |revisions| ==> ValidRevisionNode(revisions[i]))
    && UniqueKeys(RevisionNodes(revisions))
    && forall n :: n in RevisionNodes(revisions) ==> forall d :: d in n.dependsOn ==> d in Keys(RevisionNodes(revisions))
  }

  ghost function StaleRevisions(revisions: seq<RevisionNode>, changed: seq<RevisionRef>): Result<seq<RevisionRef>, GraphError> {
    var nodes := RevisionNodes(revisions);
    if !ValidRevisions(revisions) || !ValidChange(changed) || !(Elements(changed) <= Keys(nodes)) then Failure(RevisionInvalid)
    else if !Acyclic(Edges(nodes)) then Failure(RevisionCycle)
    else Success(Select(DeclaredKeys(nodes), Affected(nodes, Elements(changed)) - Elements(changed)))
  }

  method TabulateRevisions(revisions: seq<RevisionNode>) returns (ok: bool, table: map<RevisionRef, seq<RevisionRef>>)
    ensures ok <==> (forall i :: 0 <= i < |revisions| ==> ValidRevisionNode(revisions[i])) && UniqueKeys(RevisionNodes(revisions))
    ensures ok ==> Tabulates(table, RevisionNodes(revisions))
  {
    hide ValidKey, ValidRefs;
    table := map[];
    var nodes := RevisionNodes(revisions);
    for i := 0 to |revisions|
      invariant forall k :: 0 <= k < i ==> ValidRevisionNode(revisions[k])
      invariant UniqueKeys(nodes[..i])
      invariant forall key :: key in table <==> exists k :: 0 <= k < i && nodes[k].key == key
      invariant forall k :: 0 <= k < i ==> nodes[k].key in table && table[nodes[k].key] == nodes[k].dependsOn
    {
      if !revisions[i].revision.Valid() || revisions[i].dependsOn.None? {
        return false, table;
      }
      ok := CheckRefs(revisions[i].dependsOn.value);
      if !ok || nodes[i].key in table {
        return false, table;
      }
      table := table[nodes[i].key := nodes[i].dependsOn];
    }
    assert nodes[..|revisions|] == nodes;
    assert table.Keys == Keys(nodes);
    return true, table;
  }

  method AllKnown<K(!new, ==)>(nodes: seq<Node<K>>, table: map<K, seq<K>>) returns (ok: bool)
    ensures ok <==> forall n :: n in nodes ==> forall d :: d in n.dependsOn ==> d in table
  {
    for i := 0 to |nodes|
      invariant forall k :: 0 <= k < i ==> forall d :: d in nodes[k].dependsOn ==> d in table
    {
      var deps := nodes[i].dependsOn;
      for j := 0 to |deps|
        invariant forall k :: 0 <= k < j ==> deps[k] in table
      {
        if deps[j] !in table {
          assert nodes[i] in nodes && deps[j] in nodes[i].dependsOn;
          return false;
        }
      }
    }
    return true;
  }

  lemma ValidRevisionsAreDistinct(revisions: seq<RevisionNode>)
    requires forall i :: 0 <= i < |revisions| ==> ValidRevisionNode(revisions[i])
    ensures forall n :: n in RevisionNodes(revisions) ==> Distinct(n.dependsOn)
  {
    hide ValidKey;
    var nodes := RevisionNodes(revisions);
    forall n | n in nodes ensures Distinct(n.dependsOn) {
      var i :| 0 <= i < |nodes| && nodes[i] == n;
      assert ValidRevisionNode(revisions[i]);
      assert ValidRefs(n.dependsOn);
    }
  }

  method StaleDependentRevisions(revisions: seq<RevisionNode>, changed: seq<RevisionRef>) returns (r: Result<seq<RevisionRef>, GraphError>)
    ensures r == StaleRevisions(revisions, changed)
  {
    hide ValidRevisionNode, ValidChange, Acyclic, Edges, Affected, Select, Dependents, UniqueKeys, Distinct, Tabulates;
    var nodes := RevisionNodes(revisions);
    if |revisions| == 0 || |changed| == 0 {
      if |changed| == 0 {
        ChangeIsNotEmpty(changed);
      }
      return Failure(RevisionInvalid);
    }
    var ok, table := TabulateRevisions(revisions);
    if !ok {
      return Failure(RevisionInvalid);
    }
    TableFits(table, nodes);
    TableKeys(table, nodes);
    var changedSet: set<RevisionRef>;
    ok, changedSet := CheckChange(changed);
    if !ok || exists c :: c in changedSet && c !in table {
      return Failure(RevisionInvalid);
    }
    ok := AllKnown(nodes, table);
    if !ok {
      return Failure(RevisionInvalid);
    }
    ValidRevisionsAreDistinct(revisions);
    var dependents := BuildDependents(nodes);
    var cyclic := ContainsCycle(nodes, table);
    if cyclic {
      return Failure(RevisionCycle);
    }
    var marked := MarkWhenPushed(nodes, dependents, changedSet, {}, changed);
    var stale := ListSelected(nodes, marked);
    return Success(stale);
  }

  lemma ChangeIsNotEmpty(changed: seq<RevisionRef>)
    requires changed == []
    ensures !ValidChange(changed)
  {
  }

  /** An accepted change makes stale exactly the revisions that some changed one leads to, except
      the changed ones, and names each once. */
  lemma StaleRevisionsExactly(revisions: seq<RevisionNode>, changed: seq<RevisionRef>, stale: seq<RevisionRef>)
    requires StaleRevisions(revisions, changed) == Success(stale)
    ensures Distinct(stale)
    ensures forall k :: k in stale <==> k !in changed && ReachedFrom(Edges(RevisionNodes(revisions)), Elements(changed), k)
  {
    hide ValidRevisionNode, ValidChange, Select, Acyclic, ReachedFrom, Edges;
    var nodes, roots := RevisionNodes(revisions), Elements(changed);
    SelectHolds(DeclaredKeys(nodes), Affected(nodes, roots) - roots);
    SelectDistinct(DeclaredKeys(nodes), Affected(nodes, roots) - roots);
    forall k ensures k in stale <==> k !in changed && ReachedFrom(Edges(nodes), roots, k) {
      AffectedAre(nodes, roots, k);
      if k in Affected(nodes, roots) && k !in roots {
        AffectedIsDeclared(nodes, roots, k);
      }
    }
  }

  lemma AffectedIsDeclared<K(!new)>(nodes: seq<Node<K>>, roots: set<K>, k: K)
    requires k in Affected(nodes, roots) && k !in roots
    ensures k in DeclaredKeys(nodes)
  {
    assert k in Keys(nodes);
    KeyIsDeclared(nodes, k);
  }
}
