/** Verdicts on production graphs and what becomes stale, said on stages and revisions alone. */
module GraphOutcomes {
  import opened Text
  import opened Artifact
  import opened DependencyGraph
  import opened Reachability
  import opened ProductionGraph
  import opened StaleClosure
  import Delivery

  // ---------------------------------------------------------------- walks along dependencies

  /** Places in a list of nodes, each of them a dependency of the next one. */
  ghost predicate Walk<K(!new)>(nodes: seq<Node<K>>, p: seq<nat>) {
    && p != [] && (forall k :: 0 <= k < |p| ==> p[k] < |nodes|)
    && forall k :: 0 <= k < |p| - 1 ==> nodes[p[k]].key in nodes[p[k + 1]].dependsOn
  }

  ghost predicate WalkFrom<K(!new)>(nodes: seq<Node<K>>, p: seq<nat>, i: nat, j: nat) {
    Walk(nodes, p) && p[0] == i && p[|p| - 1] == j
  }

  lemma PlaceOf<K(!new)>(nodes: seq<Node<K>>, key: K) returns (i: nat)
    requires key in Keys(nodes)
    ensures i < |nodes| && nodes[i].key == key
  {
    var n :| n in nodes && n.key == key;
    i :| i < |nodes| && nodes[i] == n;
  }

  lemma {:induction false} WalkOfChain<K(!new)>(nodes: seq<Node<K>>, q: seq<K>, i: nat, j: nat) returns (p: seq<nat>)
    requires UniqueKeys(nodes) && Chain(Edges(nodes), q) && i < |nodes| && j < |nodes|
    requires q[0] == nodes[i].key && q[|q| - 1] == nodes[j].key
    ensures WalkFrom(nodes, p, i, j) && |p| == |q|
  {
    if |q| == 1 {
      p := [i];
    } else {
      var front := q[..|q| - 1];
      forall k | 0 <= k < |front| - 1 ensures (front[k], front[k + 1]) in Edges(nodes) {
        assert front[k] == q[k] && front[k + 1] == q[k + 1];
      }
      assert (q[|q| - 2], q[|q| - 2 + 1]) in Edges(nodes);
      EdgeOf(nodes, j, q[|q| - 2]);
      var up := LastPlace(nodes, front, i);
      p := WalkOfChain(nodes, front, i, up);
      p := p + [j];
    }
  }

  lemma LastPlace<K(!new)>(nodes: seq<Node<K>>, q: seq<K>, i: nat) returns (up: nat)
    requires Chain(Edges(nodes), q) && i < |nodes| && q[0] == nodes[i].key
    ensures up < |nodes| && nodes[up].key == q[|q| - 1]
  {
    if |q| == 1 {
      up := i;
    } else {
      assert (q[|q| - 2], q[|q| - 2 + 1]) in Edges(nodes);
      up := PlaceOf(nodes, q[|q| - 1]);
    }
  }

  function KeysAlong<K>(nodes: seq<Node<K>>, p: seq<nat>): (q: seq<K>)
    requires forall k :: 0 <= k < |p| ==> p[k] < |nodes|
    ensures |q| == |p| && forall k :: 0 <= k < |q| ==> q[k] == nodes[p[k]].key
  {
    seq(|p|, k requires 0 <= k < |p| => nodes[p[k]].key)
  }

  lemma ChainOfWalk<K(!new)>(nodes: seq<Node<K>>, p: seq<nat>, i: nat, j: nat) returns (q: seq<K>)
    requires WalkFrom(nodes, p, i, j)
    ensures i < |nodes| && j < |nodes| && ChainFrom(Edges(nodes), q, nodes[i].key, nodes[j].key) && |q| == |p|
  {
    q := KeysAlong(nodes, p);
    forall k | 0 <= k < |q| - 1 ensures (q[k], q[k + 1]) in Edges(nodes) {
      assert nodes[p[k + 1]] in nodes && nodes[p[k]].key in nodes[p[k + 1]].dependsOn;
    }
  }

  /** One key strictly leads to another exactly when a walk of two places or more does. */
  lemma StrictlyExactly<K(!new)>(nodes: seq<Node<K>>, i: nat, j: nat)
    requires UniqueKeys(nodes) && i < |nodes| && j < |nodes|
    ensures ReachesStrictly(Edges(nodes), nodes[i].key, nodes[j].key) <==> exists p :: WalkFrom(nodes, p, i, j) && |p| >= 2
  {
    hide Edges;
    if ReachesStrictly(Edges(nodes), nodes[i].key, nodes[j].key) {
      var q :| ChainFrom(Edges(nodes), q, nodes[i].key, nodes[j].key) && |q| >= 2;
      var p := WalkOfChain(nodes, q, i, j);
    }
    if p :| WalkFrom(nodes, p, i, j) && |p| >= 2 {
      var q := ChainOfWalk(nodes, p, i, j);
    }
  }

  lemma ReachesExactly<K(!new)>(nodes: seq<Node<K>>, i: nat, j: nat)
    requires UniqueKeys(nodes) && i < |nodes| && j < |nodes|
    ensures Reaches(Edges(nodes), nodes[i].key, nodes[j].key) <==> exists p :: WalkFrom(nodes, p, i, j)
  {
    hide Edges;
    if Reaches(Edges(nodes), nodes[i].key, nodes[j].key) {
      var q :| ChainFrom(Edges(nodes), q, nodes[i].key, nodes[j].key);
      var p := WalkOfChain(nodes, q, i, j);
    }
    if p :| WalkFrom(nodes, p, i, j) {
      var q := ChainOfWalk(nodes, p, i, j);
    }
  }

  /** A cycle passes through the key of some node. */
  lemma CycleHasPlace<K(!new)>(nodes: seq<Node<K>>, x: K) returns (i: nat)
    requires ReachesStrictly(Edges(nodes), x, x)
    ensures i < |nodes| && nodes[i].key == x
  {
    hide Edges, Keys;
    var e := LastEdge(Edges(nodes), x, x);
    EdgeEndsAtNode(nodes, e);
    i := PlaceOf(nodes, x);
  }

  lemma EdgeEndsAtNode<K(!new)>(nodes: seq<Node<K>>, e: (K, K))
    requires e in Edges(nodes)
    ensures e.1 in Keys(nodes)
  {
  }

  // ---------------------------------------------------------------- verdicts on drafts

  predicate StageInForm(s: Stage) {
    && ValidText(s.stageKey, 120)
    && s.specialist in {Narrative, Asset, Storyboard, Visual, VideoAssembly, Audio}
    && s.reviewPolicy == ReviewRequired && s.costPolicy in {NoCost, CostApprovalRequired}
    && Delivery.ValidDelivery(s.expectedDelivery)
    && (forall i :: 0 <= i < |s.inputRevisions| ==>
         ValidText(s.inputRevisions[i].artifactId, 120) && ValidText(s.inputRevisions[i].revisionId, 120))
    && forall i, j :: 0 <= i < j < |s.inputRevisions| ==> s.inputRevisions[i].artifactId != s.inputRevisions[j].artifactId
  }

  predicate HasStage(draft: Draft, key: string) {
    exists i :: 0 <= i < |draft.stages| && draft.stages[i].stageKey == key
  }

  /** One to sixty-four stages in form, with keys of their own, each depending on other stages of the
      draft, named once. */
  predicate DraftInForm(draft: Draft) {
    && ValidText(draft.graphKey, 120) && 1 <= |draft.stages| <= 64
    && (forall i :: 0 <= i < |draft.stages| ==> StageInForm(draft.stages[i]))
    && (forall i, j :: 0 <= i < j < |draft.stages| ==> draft.stages[i].stageKey != draft.stages[j].stageKey)
    && forall i :: 0 <= i < |draft.stages| ==>
         && Distinct(draft.stages[i].dependsOn)
         && forall d :: d in draft.stages[i].dependsOn ==> d != draft.stages[i].stageKey && HasStage(draft, d)
  }

  /** Stages by their places, each a dependency of the next one. */
  ghost predicate StageWalk(draft: Draft, p: seq<nat>) {
    && p != [] && (forall k :: 0 <= k < |p| ==> p[k] < |draft.stages|)
    && forall k :: 0 <= k < |p| - 1 ==> draft.stages[p[k]].stageKey in draft.stages[p[k + 1]].dependsOn
  }

  ghost predicate StageWalkFrom(draft: Draft, p: seq<nat>, i: nat, j: nat) {
    StageWalk(draft, p) && p[0] == i && p[|p| - 1] == j
  }

  ghost predicate DependsInTheEnd(draft: Draft, i: nat, j: nat) {
    exists p :: StageWalkFrom(draft, p, i, j) && |p| >= 2
  }

  lemma FormExactly(s: Stage)
    ensures ValidStage(s) <==> StageInForm(s)
  {
    hide ValidText, Delivery.ValidDelivery;
  }

  lemma HasStageExactly(draft: Draft, key: string)
    ensures key in Keys(Nodes(draft.stages)) <==> HasStage(draft, key)
  {
    var nodes := Nodes(draft.stages);
    if key in Keys(nodes) {
      var i := PlaceOf(nodes, key);
    }
    if i :| 0 <= i < |draft.stages| && draft.stages[i].stageKey == key {
      assert nodes[i].key == key && nodes[i] in nodes;
    }
  }

  lemma DraftExactly(draft: Draft)
    ensures ValidDraft(draft) <==> DraftInForm(draft)
  {
    hide ValidText, ValidStage, StageInForm, HasStage, Keys;
    var nodes := Nodes(draft.stages);
    forall i | 0 <= i < |draft.stages| ensures ValidStage(draft.stages[i]) <==> StageInForm(draft.stages[i]) {
      FormExactly(draft.stages[i]);
    }
    forall key ensures key in Keys(nodes) <==> HasStage(draft, key) {
      HasStageExactly(draft, key);
    }
    assert UniqueKeys(nodes) <==>
      forall i, j :: 0 <= i < j < |draft.stages| ==> draft.stages[i].stageKey != draft.stages[j].stageKey by { KeysDiffer(draft); }
    forall i | 0 <= i < |draft.stages|
      ensures ValidDependencies(nodes[i], Keys(nodes)) <==>
              && Distinct(draft.stages[i].dependsOn)
              && forall d :: d in draft.stages[i].dependsOn ==> d != draft.stages[i].stageKey && HasStage(draft, d)
    {
    }
    hide ValidDependencies, UniqueKeys, Distinct;
  }

  lemma KeysDiffer(draft: Draft)
    ensures UniqueKeys(Nodes(draft.stages)) <==>
            forall i, j :: 0 <= i < j < |draft.stages| ==> draft.stages[i].stageKey != draft.stages[j].stageKey
  {
    var nodes := Nodes(draft.stages);
    if UniqueKeys(nodes) {
      forall i, j | 0 <= i < j < |draft.stages| ensures draft.stages[i].stageKey != draft.stages[j].stageKey {
        assert nodes[i].key != nodes[j].key;
      }
    }
  }

  lemma StageWalkExactly(draft: Draft, p: seq<nat>, i: nat, j: nat)
    ensures WalkFrom(Nodes(draft.stages), p, i, j) <==> StageWalkFrom(draft, p, i, j)
  {
  }

  lemma DependsExactly(draft: Draft, i: nat, j: nat)
    requires UniqueKeys(Nodes(draft.stages)) && i < |draft.stages| && j < |draft.stages|
    ensures ReachesStrictly(Edges(Nodes(draft.stages)), draft.stages[i].stageKey, draft.stages[j].stageKey) <==> DependsInTheEnd(draft, i, j)
  {
    hide ReachesStrictly, Edges, WalkFrom, StageWalkFrom, UniqueKeys;
    StrictlyExactly(Nodes(draft.stages), i, j);
    forall p ensures WalkFrom(Nodes(draft.stages), p, i, j) <==> StageWalkFrom(draft, p, i, j) {
      StageWalkExactly(draft, p, i, j);
    }
  }

  /** Some stage depends on itself in the end. */
  ghost predicate HasLoop(draft: Draft) {
    exists i: nat :: i < |draft.stages| && DependsInTheEnd(draft, i, i)
  }

  lemma LoopExactly(draft: Draft)
    requires UniqueKeys(Nodes(draft.stages))
    ensures Acyclic(Edges(Nodes(draft.stages))) <==> !HasLoop(draft)
  {
    hide ReachesStrictly, Edges, DependsInTheEnd, UniqueKeys;
    var nodes := Nodes(draft.stages);
    if HasLoop(draft) {
      var i: nat :| i < |draft.stages| && DependsInTheEnd(draft, i, i);
      DependsExactly(draft, i, i);
    }
    if !Acyclic(Edges(nodes)) {
      var x :| ReachesStrictly(Edges(nodes), x, x);
      var i := CycleHasPlace(nodes, x);
      DependsExactly(draft, i, i);
    }
  }

  /** A draft is accepted if and only if it is in form and no stage depends on itself in the end; in form
      with such a stage it is refused as cyclic, and otherwise as invalid. */
  lemma VerdictExactly(draft: Draft)
    ensures Verdict(draft) ==
            if !DraftInForm(draft) then Some(GraphInvalid) else if HasLoop(draft) then Some(GraphCycle) else None
  {
    DraftExactly(draft);
    hide DraftInForm, Acyclic, HasLoop, Edges, ValidStage, ValidDependencies, ValidKey;
    if ValidDraft(draft) {
      LoopExactly(draft);
    }
  }

  // ---------------------------------------------------------------- what becomes stale

  /** A change of the stage at place i makes the stage at place j stale exactly when j depends on i in the
      end; an unknown stage is refused. */
  lemma StaleAfterStageExactly(draft: Draft, i: nat, j: nat)
    requires Verdict(draft).None? && i < |draft.stages| && j < |draft.stages|
    ensures var r := StaleAfterStage(draft, draft.stages[i].stageKey);
            r.Success? && (draft.stages[j].stageKey in r.value <==> DependsInTheEnd(draft, i, j))
  {
    hide ValidStage, ValidDependencies, ValidKey, Acyclic, Edges, DependsInTheEnd, StrictDependents, UniqueKeys, ReachesStrictly;
    assert Nodes(draft.stages)[i].key == draft.stages[i].stageKey && Nodes(draft.stages)[i] in Nodes(draft.stages);
    var stale := StaleAfterStage(draft, draft.stages[i].stageKey).value;
    StaleStagesExactly(draft, draft.stages[i].stageKey, stale);
    DependsExactly(draft, i, j);
  }

  lemma UnknownStageIsRefused(draft: Draft, changed: string)
    requires Verdict(draft).None? && !HasStage(draft, changed)
    ensures StaleAfterStage(draft, changed) == Failure(GraphInvalid)
  {
    hide Verdict, HasStage, Keys;
    HasStageExactly(draft, changed);
  }

  /** The stage takes one of the changed revisions as input. */
  predicate TakesOneOf(s: Stage, changed: seq<RevisionRef>) {
    exists r :: r in s.inputRevisions && r in changed
  }

  predicate ChangeInForm(changed: seq<RevisionRef>) {
    && changed != [] && Distinct(changed)
    && forall i :: 0 <= i < |changed| ==> ValidText(changed[i].artifactId, 120) && ValidText(changed[i].revisionId, 120)
  }

  /** A change of revisions makes the stage at place j stale exactly when it takes one of them as input or
      depends in the end on a stage that does. */
  lemma StaleAfterRevisionsExactly(draft: Draft, changed: seq<RevisionRef>, j: nat)
    requires Verdict(draft).None? && j < |draft.stages|
    ensures var r := StaleAfterRevisions(draft, changed);
            && (r.Success? <==> ChangeInForm(changed)) && (r.Failure? ==> r.error == RevisionInvalid)
            && (r.Success? ==>
                 (draft.stages[j].stageKey in r.value <==>
                  || TakesOneOf(draft.stages[j], changed)
                  || exists i: nat :: i < |draft.stages| && TakesOneOf(draft.stages[i], changed) && DependsInTheEnd(draft, i, j)))
  {
    hide ValidStage, ValidDependencies, ValidText, Acyclic, Edges, DependsInTheEnd, Affected, UniqueKeys, StaleAfterStage, TakesOneOf, Hit;
    var r := StaleAfterRevisions(draft, changed);
    if r.Success? {
      var key := draft.stages[j].stageKey;
      RevisionChangeIsUnionOfStageChanges(draft, changed, r.value, key);
      forall i: nat | i < |draft.stages|
        ensures draft.stages[i].stageKey in Hit(draft.stages, Elements(changed)) <==> TakesOneOf(draft.stages[i], changed)
        ensures StaleAfterStage(draft, draft.stages[i].stageKey).Success?
        ensures key in StaleAfterStage(draft, draft.stages[i].stageKey).value <==> DependsInTheEnd(draft, i, j)
      {
        HitExactly(draft, i, changed);
        StaleAfterStageExactly(draft, i, j);
      }
      forall h | h in Hit(draft.stages, Elements(changed)) ensures exists i: nat :: i < |draft.stages| && draft.stages[i].stageKey == h {
        HitHasPlace(draft, h, changed);
      }
    }
  }

  lemma HitHasPlace(draft: Draft, h: string, changed: seq<RevisionRef>)
    requires h in Hit(draft.stages, Elements(changed))
    ensures exists i: nat :: i < |draft.stages| && draft.stages[i].stageKey == h
  {
    var s :| s in draft.stages && s.stageKey == h;
    var i :| 0 <= i < |draft.stages| && draft.stages[i] == s;
  }

  lemma HitExactly(draft: Draft, i: nat, changed: seq<RevisionRef>)
    requires UniqueKeys(Nodes(draft.stages)) && i < |draft.stages|
    ensures draft.stages[i].stageKey in Hit(draft.stages, Elements(changed)) <==> TakesOneOf(draft.stages[i], changed)
  {
    var s, nodes := draft.stages[i], Nodes(draft.stages);
    assert s in draft.stages;
    if s.stageKey in Hit(draft.stages, Elements(changed)) {
      var t :| t in draft.stages && t.stageKey == s.stageKey && exists r :: r in t.inputRevisions && r in Elements(changed);
      var j :| 0 <= j < |draft.stages| && draft.stages[j] == t;
      assert nodes[i].key == nodes[j].key;
      assert i == j;
    }
  }

  // ---------------------------------------------------------------- revisions made from changed ones

  predicate HasRevision(revisions: seq<RevisionNode>, r: RevisionRef) {
    exists i :: 0 <= i < |revisions| && revisions[i].revision == r
  }

  predicate RefInForm(r: RevisionRef) {
    ValidText(r.artifactId, 120) && ValidText(r.revisionId, 120)
  }

  predicate RevisionInForm(n: RevisionNode) {
    && RefInForm(n.revision) && n.dependsOn.Some?
    && (forall k :: 0 <= k < |n.dependsOn.value| ==> RefInForm(n.dependsOn.value[k]))
    && forall k, l :: 0 <= k < l < |n.dependsOn.value| ==> n.dependsOn.value[k].artifactId != n.dependsOn.value[l].artifactId
  }

  /** Distinct revisions, at least one, each with a list of what it was made from: listed revisions, one an
      artifact. */
  predicate RevisionsInForm(revisions: seq<RevisionNode>) {
    && revisions != [] && (forall i :: 0 <= i < |revisions| ==> RevisionInForm(revisions[i]))
    && (forall i, j :: 0 <= i < j < |revisions| ==> revisions[i].revision != revisions[j].revision)
    && forall i, d :: 0 <= i < |revisions| && d in revisions[i].dependsOn.value ==> HasRevision(revisions, d)
  }

  /** What a revision names as its sources; a missing list names none. */
  function Sources(n: RevisionNode): seq<RevisionRef> {
    match n.dependsOn
    case Some(list) => list
    case None => []
  }

  /** Revisions by their places, the next one each time made from the one before. */
  ghost predicate RevisionWalk(revisions: seq<RevisionNode>, p: seq<nat>) {
    && p != [] && (forall k :: 0 <= k < |p| ==> p[k] < |revisions|)
    && forall k :: 0 <= k < |p| - 1 ==> revisions[p[k]].revision in Sources(revisions[p[k + 1]])
  }

  ghost predicate RevisionWalkFrom(revisions: seq<RevisionNode>, p: seq<nat>, i: nat, j: nat) {
    RevisionWalk(revisions, p) && p[0] == i && p[|p| - 1] == j
  }

  ghost predicate MadeFrom(revisions: seq<RevisionNode>, i: nat, j: nat) {
    exists p :: RevisionWalkFrom(revisions, p, i, j) && |p| >= 2
  }

  lemma RevisionWalkExactly(revisions: seq<RevisionNode>, p: seq<nat>, i: nat, j: nat)
    ensures WalkFrom(RevisionNodes(revisions), p, i, j) <==> RevisionWalkFrom(revisions, p, i, j)
  {
    var nodes := RevisionNodes(revisions);
    forall k: nat | k < |revisions| ensures nodes[k].key == revisions[k].revision && nodes[k].dependsOn == Sources(revisions[k]) {
    }
    hide Sources;
  }

  lemma MadeFromExactly(revisions: seq<RevisionNode>, i: nat, j: nat)
    requires UniqueKeys(RevisionNodes(revisions)) && i < |revisions| && j < |revisions|
    ensures ReachesStrictly(Edges(RevisionNodes(revisions)), revisions[i].revision, revisions[j].revision) <==> MadeFrom(revisions, i, j)
    ensures i != j ==>
              (Reaches(Edges(RevisionNodes(revisions)), revisions[i].revision, revisions[j].revision) <==> MadeFrom(revisions, i, j))
  {
    var nodes := RevisionNodes(revisions);
    hide Reaches, ReachesStrictly, Edges, RevisionWalk, UniqueKeys;
    StrictlyExactly(nodes, i, j);
    ReachesExactly(nodes, i, j);
    forall p ensures WalkFrom(nodes, p, i, j) <==> RevisionWalkFrom(revisions, p, i, j) {
      RevisionWalkExactly(revisions, p, i, j);
    }
    forall p | i != j && WalkFrom(nodes, p, i, j) ensures |p| >= 2 {
    }
    hide WalkFrom, RevisionWalkFrom;
  }

  lemma HasRevisionExactly(revisions: seq<RevisionNode>, r: RevisionRef)
    ensures r in Keys(RevisionNodes(revisions)) <==> HasRevision(revisions, r)
  {
    var nodes := RevisionNodes(revisions);
    if r in Keys(nodes) {
      var i := PlaceOf(nodes, r);
    }
    if i :| 0 <= i < |revisions| && revisions[i].revision == r {
      assert nodes[i].key == r && nodes[i] in nodes;
    }
  }

  lemma RevisionFormExactly(n: RevisionNode)
    ensures ValidRevisionNode(n) <==> RevisionInForm(n)
  {
    hide ValidText;
  }

  lemma RevisionsExactly(revisions: seq<RevisionNode>)
    ensures ValidRevisions(revisions) <==> RevisionsInForm(revisions)
    ensures ValidRevisions(revisions) ==> UniqueKeys(RevisionNodes(revisions))
  {
    hide RefInForm, ValidRevisionNode, HasRevision, Keys;
    var nodes := RevisionNodes(revisions);
    forall i | 0 <= i < |revisions|
      ensures ValidRevisionNode(revisions[i]) <==> RevisionInForm(revisions[i])
      ensures RevisionInForm(revisions[i]) ==> nodes[i].dependsOn == revisions[i].dependsOn.value
    {
      RevisionFormExactly(revisions[i]);
    }
    forall r ensures r in Keys(nodes) <==> HasRevision(revisions, r) {
      HasRevisionExactly(revisions, r);
    }
    assert UniqueKeys(nodes) <==>
      forall i, j :: 0 <= i < j < |revisions| ==> revisions[i].revision != revisions[j].revision by {
      RevisionsDiffer(revisions);
    }
    hide RevisionInForm, UniqueKeys;
    if ValidRevisions(revisions) {
      forall i, d | 0 <= i < |revisions| && d in revisions[i].dependsOn.value ensures HasRevision(revisions, d) {
        assert nodes[i] in nodes && d in nodes[i].dependsOn;
      }
    }
  }

  lemma RevisionsDiffer(revisions: seq<RevisionNode>)
    ensures UniqueKeys(RevisionNodes(revisions)) <==>
            forall i, j :: 0 <= i < j < |revisions| ==> revisions[i].revision != revisions[j].revision
  {
    var nodes := RevisionNodes(revisions);
    if UniqueKeys(nodes) {
      forall i, j | 0 <= i < j < |revisions| ensures revisions[i].revision != revisions[j].revision {
        assert nodes[i].key != nodes[j].key;
      }
    }
  }

  /** Some revision was made from itself in the end. */
  ghost predicate RevisionLoop(revisions: seq<RevisionNode>) {
    exists i: nat :: i < |revisions| && MadeFrom(revisions, i, i)
  }

  lemma RevisionLoopExactly(revisions: seq<RevisionNode>)
    requires UniqueKeys(RevisionNodes(revisions))
    ensures Acyclic(Edges(RevisionNodes(revisions))) <==> !RevisionLoop(revisions)
  {
    hide ReachesStrictly, Edges, MadeFrom, UniqueKeys;
    var nodes := RevisionNodes(revisions);
    if RevisionLoop(revisions) {
      var i: nat :| i < |revisions| && MadeFrom(revisions, i, i);
      MadeFromExactly(revisions, i, i);
    }
    if !Acyclic(Edges(nodes)) {
      var x :| ReachesStrictly(Edges(nodes), x, x);
      var i := CycleHasPlace(nodes, x);
      MadeFromExactly(revisions, i, i);
    }
  }

  /** Listed revisions are refused as invalid unless they and the change are in form and every changed one
      is listed, and as cyclic if one was made from itself in the end. */
  lemma RevisionVerdictExactly(revisions: seq<RevisionNode>, changed: seq<RevisionRef>)
    ensures var r := StaleRevisions(revisions, changed);
            var inForm := RevisionsInForm(revisions) && ChangeInForm(changed) && forall c :: c in changed ==> HasRevision(revisions, c);
            && (r == Failure(RevisionInvalid) <==> !inForm)
            && (r == Failure(RevisionCycle) <==> inForm && RevisionLoop(revisions))
            && (r.Success? <==> inForm && !RevisionLoop(revisions))
  {
    hide RevisionsInForm, ValidRevisions, RevisionLoop, Acyclic, HasRevision, Keys, Edges, Select, Affected, UniqueKeys;
    RevisionsExactly(revisions);
    forall c ensures c in Keys(RevisionNodes(revisions)) <==> HasRevision(revisions, c) {
      HasRevisionExactly(revisions, c);
    }
    if ValidRevisions(revisions) {
      RevisionLoopExactly(revisions);
    }
  }

  /** A listed revision becomes stale exactly when it is not itself changed and was made in the end from a
      changed one. */
  lemma StaleRevisionExactly(revisions: seq<RevisionNode>, changed: seq<RevisionRef>, stale: seq<RevisionRef>, j: nat)
    requires StaleRevisions(revisions, changed) == Success(stale) && j < |revisions|
    ensures revisions[j].revision in stale <==>
            && revisions[j].revision !in changed
            && exists i: nat :: i < |revisions| && revisions[i].revision in changed && MadeFrom(revisions, i, j)
  {
    hide ValidRevisionNode, ValidChange, Acyclic, Edges, Reaches, MadeFrom, Select, Affected;
    var nodes, key := RevisionNodes(revisions), revisions[j].revision;
    StaleRevisionsExactly(revisions, changed, stale);
    if key !in changed {
      forall i: nat | i < |revisions| && revisions[i].revision in changed
        ensures Reaches(Edges(nodes), revisions[i].revision, key) <==> MadeFrom(revisions, i, j)
      {
        MadeFromExactly(revisions, i, j);
      }
      forall c | c in changed ensures exists i: nat :: i < |revisions| && revisions[i].revision == c {
        HasRevisionExactly(revisions, c);
      }
    }
  }
}
