/** Camera trees: cameras that own shots and may hang under another camera. */
module CameraTree {
  import opened Text
  import opened Artifact
  import opened DependencyGraph
  import opened Reachability
  import CycleSearch

  // An empty parent key marks a root.
  datatype Camera = Camera(
    cameraKey: string,
    parentKey: string,
    independent: bool,
    shotKeys: seq<string>,
    subjectKeys: seq<string>,
    shotSize: string,
    angle: string,
    screenDirection: string,
    purpose: string)

  datatype Relation = Relation(relationKey: string, fromCamera: string, toCamera: string, relation: string, evidence: seq<RevisionRef>)

  datatype Gap = Gap(gapKey: string, description: string, relatedCameras: Option<seq<string>>)

  // None stands for a list that is missing from the payload.
  datatype Tree = Tree(
    storyboard: RevisionRef,
    visualEvidence: Option<seq<RevisionRef>>,
    shotKeys: seq<string>,
    cameras: seq<Camera>,
    relations: Option<seq<Relation>>,
    missingViews: Option<seq<Gap>>)

  datatype TreeError = PayloadInvalid | SelfReference | Cycle

  predicate ValidTextList(values: seq<string>, maximum: nat) {
    Distinct(values) && forall i :: 0 <= i < |values| ==> ValidText(values[i], maximum)
  }

  predicate ValidCamera(c: Camera) {
    && ValidText(c.cameraKey, 120)
    && (c.parentKey == "" || ValidText(c.parentKey, 120))
    && c.shotKeys != []
    && c.subjectKeys != []
    && ValidTextList(c.subjectKeys, 120)
    && ValidText(c.shotSize, 240)
    && ValidText(c.angle, 240)
    && ValidText(c.screenDirection, 4 * 1024)
    && ValidText(c.purpose, 4 * 1024)
  }

  /** The cameras as graph nodes: a camera depends on its parent. */
  function Nodes(cameras: seq<Camera>): (nodes: seq<Node<string>>)
    ensures |nodes| == |cameras|
    ensures forall i :: 0 <= i < |cameras| ==> nodes[i] == Node(cameras[i].cameraKey, Parents(cameras[i]))
  {
    seq(|cameras|, i requires 0 <= i < |cameras| => Node(cameras[i].cameraKey, Parents(cameras[i])))
  }

  function Parents(c: Camera): seq<string> {
    if c.parentKey == "" then [] else [c.parentKey]
  }

  predicate ValidHeader(tree: Tree) {
    && tree.storyboard.Valid()
    && tree.visualEvidence.Some?
    && tree.shotKeys != []
    && tree.cameras != []
    && tree.relations.Some?
    && tree.missingViews.Some?
    && ValidRefs([tree.storyboard] + tree.visualEvidence.value)
    && ValidTextList(tree.shotKeys, 120)
  }

  /** The first n cameras are valid, have keys of their own, and none is its own parent. */
  predicate CleanUpTo(cameras: seq<Camera>, n: nat)
    requires n <= |cameras|
  {
    && (forall k :: 0 <= k < n ==> ValidCamera(cameras[k]) && cameras[k].parentKey != cameras[k].cameraKey)
    && UniqueKeys(Nodes(cameras)[..n])
  }

  predicate SelfReferenceAt(cameras: seq<Camera>, i: nat)
    requires i < |cameras|
  {
    CleanUpTo(cameras, i) && ValidCamera(cameras[i]) && cameras[i].parentKey == cameras[i].cameraKey
  }

  /** Some camera is its own parent and no fault comes before it. */
  ghost predicate SelfReferenceFirst(cameras: seq<Camera>) {
    exists i :: 0 <= i < |cameras| && SelfReferenceAt(cameras, i)
  }

  /** The shots of all cameras in turn. */
  function AllShots(cameras: seq<Camera>): seq<string> {
    if cameras == [] then [] else AllShots(cameras[..|cameras| - 1]) + cameras[|cameras| - 1].shotKeys
  }

  /** A camera under another one names an existing parent and is not independent. */
  predicate ValidParent(c: Camera, keys: set<string>) {
    c.parentKey == "" || (!c.independent && c.parentKey in keys)
  }

  predicate ValidLinks(tree: Tree) {
    && (forall i :: 0 <= i < |tree.cameras| ==> ValidParent(tree.cameras[i], Keys(Nodes(tree.cameras))))
    && Distinct(AllShots(tree.cameras))
    && forall shot :: shot in AllShots(tree.cameras) ==> shot in tree.shotKeys
  }

  predicate AllAssigned(tree: Tree) {
    forall shot :: shot in tree.shotKeys ==> shot in AllShots(tree.cameras)
  }

  function Roots(cameras: seq<Camera>): seq<Camera> {
    if cameras == [] then []
    else
      var last := cameras[|cameras| - 1];
      Roots(cameras[..|cameras| - 1]) + (if last.parentKey == "" then [last] else [])
  }

  predicate RootsAgree(cameras: seq<Camera>) {
    |Roots(cameras)| > 1 ==> forall c :: c in Roots(cameras) ==> c.independent
  }

  predicate ValidRelation(r: Relation, keys: set<string>, evidence: seq<RevisionRef>) {
    && ValidText(r.relationKey, 120)
    && ValidText(r.relation, 240)
    && r.fromCamera != r.toCamera
    && ValidRefs(r.evidence)
    && (forall e :: e in r.evidence ==> e in evidence)
    && r.fromCamera in keys && r.toCamera in keys
  }

  predicate ValidGap(g: Gap, keys: set<string>) {
    && ValidText(g.gapKey, 120)
    && ValidText(g.description, 4 * 1024)
    && g.relatedCameras.Some?
    && forall c :: c in g.relatedCameras.value ==> c in keys
  }

  predicate ValidNotes(tree: Tree)
    requires ValidHeader(tree)
  {
    var keys, relations, gaps := Keys(Nodes(tree.cameras)), tree.relations.value, tree.missingViews.value;
    && (forall i :: 0 <= i < |relations| ==> ValidRelation(relations[i], keys, tree.visualEvidence.value))
    && (forall i, j :: 0 <= i < j < |relations| ==> relations[i].relationKey != relations[j].relationKey)
    && (forall i :: 0 <= i < |gaps| ==> ValidGap(gaps[i], keys))
    && (forall i, j :: 0 <= i < j < |gaps| ==> gaps[i].gapKey != gaps[j].gapKey)
  }

  ghost predicate HasCycle(cameras: seq<Camera>) {
    !Acyclic(Edges(Nodes(cameras)))
  }

  ghost predicate FindsSelfReference(tree: Tree) {
    ValidHeader(tree) && SelfReferenceFirst(tree.cameras)
  }

  /** Keys, parents and shots are in order, so that the roots and cycles are looked at. */
  ghost predicate Linked(tree: Tree) {
    ValidHeader(tree) && CleanUpTo(tree.cameras, |tree.cameras|) && ValidLinks(tree)
  }

  ghost predicate FindsCycle(tree: Tree) {
    && Linked(tree)
    && HasCycle(tree.cameras)
    && (Roots(tree.cameras) != [] && AllAssigned(tree) ==> RootsAgree(tree.cameras))
  }

  ghost predicate Accepted(tree: Tree) {
    && Linked(tree)
    && Roots(tree.cameras) != []
    && AllAssigned(tree)
    && RootsAgree(tree.cameras)
    && !HasCycle(tree.cameras)
    && ValidNotes(tree)
  }

  ghost function Verdict(tree: Tree): Option<TreeError> {
    if Accepted(tree) then None
    else if FindsSelfReference(tree) then Some(SelfReference)
    else if FindsCycle(tree) then Some(Cycle)
    else Some(PayloadInvalid)
  }

  // ---------------------------------------------------------------- the checks

  method CheckTextList(values: seq<string>, maximum: nat) returns (ok: bool, known: set<string>)
    ensures ok <==> ValidTextList(values, maximum)
    ensures ok ==> known == Elements(values)
  {
    hide ValidText;
    known := {};
    for i := 0 to |values|
      invariant known == Elements(values[..i])
      invariant Distinct(values[..i]) && forall k :: 0 <= k < i ==> ValidText(values[k], maximum)
    {
      assert values[i] in values[..i] ==> !Distinct(values);
      assert values[..i + 1] == values[..i] + [values[i]];
      if !ValidText(values[i], maximum) || values[i] in known {
        return false, known;
      }
      DistinctAppend(values[..i], values[i]);
      known := known + {values[i]};
    }
    assert values[..|values|] == values;
    return true, known;
  }

  method CheckCamera(c: Camera) returns (ok: bool)
    ensures ok <==> ValidCamera(c)
  {
    hide ValidText, ValidTextList;
    var listed, _ := CheckTextList(c.subjectKeys, 120);
    ok := ValidText(c.cameraKey, 120) && (c.parentKey == "" || ValidText(c.parentKey, 120))
          && c.shotKeys != [] && c.subjectKeys != [] && listed
          && ValidText(c.shotSize, 240) && ValidText(c.angle, 240)
          && ValidText(c.screenDirection, 4 * 1024) && ValidText(c.purpose, 4 * 1024);
  }

  /** Reads the cameras up to the first fault. */
  method CheckCameras(cameras: seq<Camera>) returns (error: Option<TreeError>, keys: set<string>)
    ensures error == None <==> CleanUpTo(cameras, |cameras|)
    ensures error != Some(Cycle)
    ensures error == Some(SelfReference) <==> SelfReferenceFirst(cameras)
    ensures error == None ==> keys == Keys(Nodes(cameras))
  {
    hide ValidCamera;
    keys := {};
    var nodes := Nodes(cameras);
    for i := 0 to |cameras|
      invariant CleanUpTo(cameras, i)
      invariant forall k :: 0 <= k < i ==> !SelfReferenceAt(cameras, k)
      invariant forall key :: key in keys <==> exists k :: 0 <= k < i && nodes[k].key == key
    {
      var camera := cameras[i];
      var ok := CheckCamera(camera);
      if !ok {
        FaultStops(cameras, i);
        return Some(PayloadInvalid), keys;
      }
      if camera.parentKey == camera.cameraKey {
        assert SelfReferenceAt(cameras, i);
        FaultStops(cameras, i);
        return Some(SelfReference), keys;
      }
      if camera.cameraKey in keys {
        FaultStops(cameras, i);
        return Some(PayloadInvalid), keys;
      }
      keys := keys + {camera.cameraKey};
    }
    assert nodes[..|cameras|] == nodes;
    assert keys == Keys(nodes);
    return None, keys;
  }

  lemma PrefixIsClean(cameras: seq<Camera>, n: nat, m: nat)
    requires m <= n <= |cameras| && CleanUpTo(cameras, n)
    ensures CleanUpTo(cameras, m)
  {
    hide ValidCamera;
    var longer, shorter := Nodes(cameras)[..n], Nodes(cameras)[..m];
    forall a, b | 0 <= a < b < m ensures shorter[a].key != shorter[b].key {
      assert longer[a] == shorter[a] && longer[b] == shorter[b];
    }
  }

  /** A fault at camera i keeps every longer prefix from being clean. */
  lemma FaultStops(cameras: seq<Camera>, i: nat)
    requires i < |cameras| && !CleanUpTo(cameras, i + 1)
    ensures forall n :: i < n <= |cameras| ==> !CleanUpTo(cameras, n)
  {
    hide CleanUpTo;
    forall n | i < n <= |cameras| ensures !CleanUpTo(cameras, n) {
      if CleanUpTo(cameras, n) {
        PrefixIsClean(cameras, n, i + 1);
      }
    }
  }

  lemma {:induction false} DistinctPrefix<K>(a: seq<K>, b: seq<K>)
    requires Distinct(a + b)
    ensures Distinct(a) && Distinct(b) && forall x :: x in a ==> x !in b
  {
    var t := a + b;
    assert forall i :: 0 <= i < |a| ==> t[i] == a[i];
    assert forall j :: 0 <= j < |b| ==> t[|a| + j] == b[j];
  }

  /** Appends the shots of one camera to the taken ones. */
  method AssignShots(shots: seq<string>, known: set<string>, taken: set<string>, ghost before: seq<string>)
    returns (ok: bool, after: set<string>)
    requires taken == Elements(before) && Distinct(before)
    ensures ok <==> Distinct(before + shots) && forall s :: s in shots ==> s in known
    ensures ok ==> after == Elements(before + shots)
  {
    after := taken;
    for k := 0 to |shots|
      invariant after == Elements(before + shots[..k])
      invariant Distinct(before + shots[..k])
      invariant forall s :: s in shots[..k] ==> s in known
    {
      assert before + shots[..k + 1] == (before + shots[..k]) + [shots[k]];
      DistinctAppend(before + shots[..k], shots[k]);
      if shots[k] !in known || shots[k] in after {
        if Distinct(before + shots) {
          assert before + shots == before + shots[..k + 1] + shots[k + 1..];
          DistinctPrefix(before + shots[..k + 1], shots[k + 1..]);
        }
        return false, after;
      }
      after := after + {shots[k]};
    }
    assert shots[..|shots|] == shots;
    return true, after;
  }

  method CheckLinks(cameras: seq<Camera>, keys: set<string>, known: set<string>)
    returns (ok: bool, taken: set<string>, rootCount: nat)
    ensures ok <==> (forall i :: 0 <= i < |cameras| ==> ValidParent(cameras[i], keys))
                    && Distinct(AllShots(cameras)) && (forall s :: s in AllShots(cameras) ==> s in known)
    ensures ok ==> taken == Elements(AllShots(cameras)) && rootCount == |Roots(cameras)|
  {
    taken, rootCount := {}, 0;
    for i := 0 to |cameras|
      invariant forall k :: 0 <= k < i ==> ValidParent(cameras[k], keys)
      invariant Distinct(AllShots(cameras[..i])) && (forall s :: s in AllShots(cameras[..i]) ==> s in known)
      invariant taken == Elements(AllShots(cameras[..i])) && rootCount == |Roots(cameras[..i])|
    {
      var camera := cameras[i];
      assert cameras[..i + 1][..i] == cameras[..i];
      if camera.parentKey == "" {
        rootCount := rootCount + 1;
      } else if camera.independent || camera.parentKey !in keys {
        return false, taken, rootCount;
      }
      ghost var before := AllShots(cameras[..i]);
      assert AllShots(cameras[..i + 1]) == before + camera.shotKeys;
      ok, taken := AssignShots(camera.shotKeys, known, taken, before);
      if !ok {
        EarlierShotsStay(cameras, i + 1);
        return false, taken, rootCount;
      }
    }
    assert cameras[..|cameras|] == cameras;
    ok := true;
  }

  lemma {:induction false} EarlierShotsStay(cameras: seq<Camera>, n: nat)
    requires n <= |cameras|
    ensures Distinct(AllShots(cameras)) ==> Distinct(AllShots(cameras[..n]))
    ensures forall s :: s in AllShots(cameras[..n]) ==> s in AllShots(cameras)
    decreases |cameras|
  {
    if n == |cameras| {
      assert cameras[..n] == cameras;
    } else {
      var front := cameras[..|cameras| - 1];
      assert front[..n] == cameras[..n];
      EarlierShotsStay(front, n);
      if Distinct(AllShots(cameras)) {
        DistinctPrefix(AllShots(front), cameras[|cameras| - 1].shotKeys);
      }
    }
  }

  method CheckRootsAgree(cameras: seq<Camera>, rootCount: nat) returns (ok: bool)
    requires rootCount == |Roots(cameras)|
    ensures ok <==> RootsAgree(cameras)
  {
    if rootCount <= 1 {
      return true;
    }
    for i := 0 to |cameras|
      invariant forall c :: c in Roots(cameras[..i]) ==> c.independent
    {
      assert cameras[..i + 1][..i] == cameras[..i];
      if cameras[i].parentKey == "" && !cameras[i].independent {
        RootsHold(cameras, cameras[i]);
        return false;
      }
    }
    assert cameras[..|cameras|] == cameras;
    return true;
  }

  lemma {:induction false} RootsHold(cameras: seq<Camera>, c: Camera)
    ensures c in Roots(cameras) <==> c in cameras && c.parentKey == ""
  {
    if cameras != [] {
      var front := cameras[..|cameras| - 1];
      RootsHold(front, c);
      assert cameras == front + [cameras[|cameras| - 1]];
    }
  }

  method ContainsCycle(cameras: seq<Camera>) returns (cyclic: bool)
    requires UniqueKeys(Nodes(cameras))
    requires forall i :: 0 <= i < |cameras| ==> ValidParent(cameras[i], Keys(Nodes(cameras)))
    ensures cyclic <==> HasCycle(cameras)
  {
    var nodes := Nodes(cameras);
    CleanIsWellFormed(cameras);
    hide CycleSearch.Tabulates, UniqueKeys, Acyclic, Edges;
    var parents := CycleSearch.Tabulate(nodes);
    CycleSearch.TableFits(parents, nodes);
    CycleSearch.TableKeys(parents, nodes);
    cyclic := CycleSearch.ContainsCycleAnyOrder(nodes, parents);
  }

  method CheckRelation(r: Relation, keys: set<string>, evidence: seq<RevisionRef>, allowed: set<RevisionRef>) returns (ok: bool)
    requires allowed == Elements(evidence)
    ensures ok <==> ValidRelation(r, keys, evidence)
  {
    hide ValidText, ValidRefs;
    if !ValidText(r.relationKey, 120) || !ValidText(r.relation, 240) || r.fromCamera == r.toCamera {
      return false;
    }
    ok := CheckRefs(r.evidence);
    ok := ok && (forall e :: e in r.evidence ==> e in allowed) && r.fromCamera in keys && r.toCamera in keys;
  }

  method CheckRelations(relations: seq<Relation>, keys: set<string>, evidence: seq<RevisionRef>) returns (ok: bool)
    ensures ok <==> (forall i :: 0 <= i < |relations| ==> ValidRelation(relations[i], keys, evidence))
                    && forall i, j :: 0 <= i < j < |relations| ==> relations[i].relationKey != relations[j].relationKey
  {
    hide ValidRelation;
    var allowed := set e | e in evidence;
    var seen: set<string> := {};
    for i := 0 to |relations|
      invariant forall k :: 0 <= k < i ==> ValidRelation(relations[k], keys, evidence)
      invariant forall a, b :: 0 <= a < b < i ==> relations[a].relationKey != relations[b].relationKey
      invariant forall key :: key in seen <==> exists k :: 0 <= k < i && relations[k].relationKey == key
    {
      ok := CheckRelation(relations[i], keys, evidence, allowed);
      if !ok || relations[i].relationKey in seen {
        return false;
      }
      seen := seen + {relations[i].relationKey};
    }
    return true;
  }

  method CheckGaps(gaps: seq<Gap>, keys: set<string>) returns (ok: bool)
    ensures ok <==> (forall i :: 0 <= i < |gaps| ==> ValidGap(gaps[i], keys))
                    && forall i, j :: 0 <= i < j < |gaps| ==> gaps[i].gapKey != gaps[j].gapKey
  {
    hide ValidText;
    var seen: set<string> := {};
    for i := 0 to |gaps|
      invariant forall k :: 0 <= k < i ==> ValidGap(gaps[k], keys)
      invariant forall a, b :: 0 <= a < b < i ==> gaps[a].gapKey != gaps[b].gapKey
      invariant forall key :: key in seen <==> exists k :: 0 <= k < i && gaps[k].gapKey == key
    {
      var gap := gaps[i];
      if !ValidText(gap.gapKey, 120) || !ValidText(gap.description, 4 * 1024) || gap.relatedCameras.None? {
        return false;
      }
      if gap.gapKey in seen || exists c :: c in gap.relatedCameras.value && c !in keys {
        return false;
      }
      seen := seen + {gap.gapKey};
    }
    return true;
  }

  method CheckHeader(tree: Tree) returns (ok: bool, known: set<string>)
    ensures ok <==> ValidHeader(tree)
    ensures ok ==> known == Elements(tree.shotKeys)
  {
    hide ValidRefs, ValidTextList, ValidKey;
    known := {};
    if !tree.storyboard.Valid() || tree.visualEvidence.None? || |tree.shotKeys| == 0 || |tree.cameras| == 0 {
      return false, known;
    }
    if tree.relations.None? || tree.missingViews.None? {
      return false, known;
    }
    ok := CheckRefs([tree.storyboard] + tree.visualEvidence.value);
    if ok {
      ok, known := CheckTextList(tree.shotKeys, 120);
    }
  }

  /** Accepts exactly the trees of `Accepted`, and names a self-reference or a cycle exactly when
      the search for faults comes across one first. */
  method ValidateCameraTree(tree: Tree) returns (error: Option<TreeError>)
    ensures error == Verdict(tree)
  {
    hide ValidHeader, CleanUpTo, SelfReferenceFirst, HasCycle, Roots, AllShots, ValidNotes, RootsAgree;
    var ok, known := CheckHeader(tree);
    if !ok {
      return Some(PayloadInvalid);
    }
    var keys: set<string>;
    error, keys := CheckCameras(tree.cameras);
    if error.Some? {
      assert !Linked(tree);
      assert error.value.PayloadInvalid? || error.value.SelfReference?;
      return error;
    }
    var taken, rootCount;
    ok, taken, rootCount := CheckLinks(tree.cameras, keys, known);
    assert ok <==> ValidLinks(tree);
    if !ok {
      return Some(PayloadInvalid);
    }
    assert Linked(tree);
    AssignedCount(tree, taken, known);
    CleanIsUnique(tree.cameras);
    if rootCount == 0 || |taken| != |known| {
      var cyclic := ContainsCycle(tree.cameras);
      return if cyclic then Some(Cycle) else Some(PayloadInvalid);
    }
    ok := CheckRootsAgree(tree.cameras, rootCount);
    if !ok {
      return Some(PayloadInvalid);
    }
    var cyclic := ContainsCycle(tree.cameras);
    if cyclic {
      return Some(Cycle);
    }
    ok := CheckNotes(tree, keys);
    return if ok then None else Some(PayloadInvalid);
  }

  method CheckNotes(tree: Tree, keys: set<string>) returns (ok: bool)
    requires ValidHeader(tree) && keys == Keys(Nodes(tree.cameras))
    ensures ok <==> ValidNotes(tree)
  {
    hide ValidRelation, ValidGap;
    ok := CheckRelations(tree.relations.value, keys, tree.visualEvidence.value);
    if ok {
      ok := CheckGaps(tree.missingViews.value, keys);
    }
  }

  lemma CleanIsUnique(cameras: seq<Camera>)
    requires CleanUpTo(cameras, |cameras|)
    ensures UniqueKeys(Nodes(cameras))
    ensures !SelfReferenceFirst(cameras)
  {
    hide ValidCamera;
    assert Nodes(cameras)[..|cameras|] == Nodes(cameras);
  }

  lemma AssignedCount(tree: Tree, taken: set<string>, known: set<string>)
    requires ValidLinks(tree) && taken == Elements(AllShots(tree.cameras)) && known == Elements(tree.shotKeys)
    ensures |taken| == |known| <==> AllAssigned(tree)
  {
    hide AllShots;
    assert taken <= known;
    SubsetCount(taken, known);
    if AllAssigned(tree) {
      assert taken == known;
    } else {
      var shot :| shot in tree.shotKeys && shot !in AllShots(tree.cameras);
      assert shot in known && shot !in taken;
    }
  }

  // ---------------------------------------------------------------- what acceptance means

  /** The parent links lead from the camera to a root. */
  ghost predicate HangsUnderRoot(cameras: seq<Camera>, key: string) {
    exists r :: r in Roots(cameras) && Reaches(Edges(Nodes(cameras)), r.cameraKey, key)
  }

  /** The cameras above or at x. */
  ghost function Ancestors<K(!new)>(nodes: seq<Node<K>>, x: K): set<K> {
    set k | k in Keys(nodes) && Reaches(Edges(nodes), k, x)
  }

  lemma PrependChain<K(!new)>(edges: set<(K, K)>, a: K, b: K, c: K)
    requires (a, b) in edges && Reaches(edges, b, c)
    ensures Reaches(edges, a, c) && ReachesStrictly(edges, a, c)
  {
    var p :| ChainFrom(edges, p, b, c);
    var q := [a] + p;
    forall i | 0 <= i < |q| - 1 ensures (q[i], q[i + 1]) in edges {
      if i > 0 {
        assert q[i] == p[i - 1] && q[i + 1] == p[i - 1 + 1];
      }
    }
    assert ChainFrom(edges, q, a, c);
  }

  /** Without cycles some ancestor has no dependency. */
  lemma AncestorWithoutDependency<K(!new)>(nodes: seq<Node<K>>, x: K) returns (i: nat)
    requires WellFormed(nodes) && Acyclic(Edges(nodes)) && x in Keys(nodes)
    ensures i < |nodes| && nodes[i].dependsOn == [] && Reaches(Edges(nodes), nodes[i].key, x)
  {
    hide Acyclic, Reaches, ReachesStrictly;
    var above := Ancestors(nodes, x);
    SingleChain(Edges(nodes), x);
    assert x in above;
    if forall y :: y in above ==> HasDependency(Edges(nodes), above, y) {
      EndlessSetHasCycle(Edges(nodes), above);
    }
    var y :| y in above && !HasDependency(Edges(nodes), above, y);
    i := IndexOf(nodes, y);
    if nodes[i].dependsOn != [] {
      var d := nodes[i].dependsOn[0];
      assert nodes[i] in nodes && d in nodes[i].dependsOn;
      EdgeOf(nodes, i, d);
      PrependChain(Edges(nodes), d, y, x);
    }
  }

  lemma IndexOf<K(!new)>(nodes: seq<Node<K>>, key: K) returns (i: nat)
    requires key in Keys(nodes)
    ensures i < |nodes| && nodes[i].key == key
  {
    var n :| n in nodes && n.key == key;
    i :| i < |nodes| && nodes[i] == n;
  }

  lemma CleanIsWellFormed(cameras: seq<Camera>)
    requires UniqueKeys(Nodes(cameras))
    requires forall i :: 0 <= i < |cameras| ==> ValidParent(cameras[i], Keys(Nodes(cameras)))
    ensures WellFormed(Nodes(cameras))
  {
    var nodes := Nodes(cameras);
    forall n | n in nodes ensures Distinct(n.dependsOn) && forall d :: d in n.dependsOn ==> d in Keys(nodes) {
      var i :| 0 <= i < |nodes| && nodes[i] == n;
      assert ValidParent(cameras[i], Keys(nodes));
    }
  }

  lemma LinkedIsWellFormed(tree: Tree)
    requires Linked(tree)
    ensures WellFormed(Nodes(tree.cameras))
  {
    hide ValidHeader, ValidCamera, AllShots;
    CleanIsUnique(tree.cameras);
    CleanIsWellFormed(tree.cameras);
  }

  /** Every node of a path that leads to a node on a cycle is on a cycle, as links lead one way up. */
  lemma {:induction false} CycleSpreadsUp<K(!new)>(nodes: seq<Node<K>>, p: seq<K>, back: nat)
    requires UniqueKeys(nodes) && forall n :: n in nodes ==> |n.dependsOn| <= 1
    requires Chain(Edges(nodes), p) && back < |p| && ReachesStrictly(Edges(nodes), p[|p| - 1], p[|p| - 1])
    ensures ReachesStrictly(Edges(nodes), p[|p| - 1 - back], p[|p| - 1 - back])
  {
    if back > 0 {
      CycleSpreadsUp(nodes, p, back - 1);
      var k := |p| - 1 - back;
      assert (p[k], p[k + 1]) in Edges(nodes);
      OnlyLinkIsOnCycle(nodes, p[k], p[k + 1]);
    }
  }

  lemma OnlyLinkIsOnCycle<K(!new)>(nodes: seq<Node<K>>, up: K, x: K)
    requires UniqueKeys(nodes) && forall n :: n in nodes ==> |n.dependsOn| <= 1
    requires (up, x) in Edges(nodes) && ReachesStrictly(Edges(nodes), x, x)
    ensures ReachesStrictly(Edges(nodes), up, up)
  {
    var q :| ChainFrom(Edges(nodes), q, x, x) && |q| >= 2;
    var w := q[|q| - 2];
    assert (w, q[|q| - 2 + 1]) in Edges(nodes);
    SameLink(nodes, up, w, x);
    var front := q[..|q| - 1];
    forall i | 0 <= i < |front| - 1 ensures (front[i], front[i + 1]) in Edges(nodes) {
      assert q[i] == front[i] && q[i + 1] == front[i + 1];
    }
    assert ChainFrom(Edges(nodes), front, x, w);
    PrependChain(Edges(nodes), up, x, w);
  }

  lemma SameLink<K(!new)>(nodes: seq<Node<K>>, a: K, b: K, x: K)
    requires UniqueKeys(nodes) && forall n :: n in nodes ==> |n.dependsOn| <= 1
    requires (a, x) in Edges(nodes) && (b, x) in Edges(nodes)
    ensures a == b
  {
    var n :| n in nodes && a in n.dependsOn && n.key == x;
    var i :| 0 <= i < |nodes| && nodes[i] == n;
    EdgeOf(nodes, i, b);
  }

  /** In a linked tree, having no cycle is the same as every camera hanging under a root. */
  lemma ForestExactly(tree: Tree)
    requires Linked(tree)
    ensures !HasCycle(tree.cameras) <==> forall key :: key in Keys(Nodes(tree.cameras)) ==> HangsUnderRoot(tree.cameras, key)
  {
    var cameras, nodes := tree.cameras, Nodes(tree.cameras);
    LinkedIsWellFormed(tree);
    hide Linked, Reaches, ReachesStrictly, Acyclic, Roots;
    if !HasCycle(cameras) {
      forall key | key in Keys(nodes) ensures HangsUnderRoot(cameras, key) {
        var i := AncestorWithoutDependency(nodes, key);
        RootsHold(cameras, cameras[i]);
      }
    } else if forall key :: key in Keys(nodes) ==> HangsUnderRoot(cameras, key) {
      var x := CycleNode(Edges(nodes));
      var e := LastEdge(Edges(nodes), x, x);
      assert HangsUnderRoot(cameras, x);
      var r :| r in Roots(cameras) && Reaches(Edges(nodes), r.cameraKey, x);
      RootsHold(cameras, r);
      RootOffCycles(cameras, r, x);
    }
  }

  lemma CycleNode<K(!new)>(edges: set<(K, K)>) returns (x: K)
    requires !Acyclic(edges)
    ensures ReachesStrictly(edges, x, x)
  {
    x :| ReachesStrictly(edges, x, x);
  }

  lemma RootOffCycles(cameras: seq<Camera>, r: Camera, x: string)
    requires UniqueKeys(Nodes(cameras)) && r in cameras && r.parentKey == ""
    requires Reaches(Edges(Nodes(cameras)), r.cameraKey, x)
    ensures !ReachesStrictly(Edges(Nodes(cameras)), x, x)
  {
    var nodes := Nodes(cameras);
    if ReachesStrictly(Edges(nodes), x, x) {
      var p :| ChainFrom(Edges(nodes), p, r.cameraKey, x);
      CycleSpreadsUp(nodes, p, |p| - 1);
      var e := LastEdge(Edges(nodes), r.cameraKey, r.cameraKey);
      var i :| 0 <= i < |cameras| && cameras[i] == r;
      EdgeOf(nodes, i, e.0);
    }
  }

  /** Without a root, a tree that gets as far as the root count is always refused as cyclic. */
  lemma NoRootIsCycle(tree: Tree)
    requires Linked(tree) && Roots(tree.cameras) == []
    ensures Verdict(tree) == Some(Cycle)
  {
    var cameras, nodes := tree.cameras, Nodes(tree.cameras);
    assert cameras != [] by { hide Roots, AllShots; }
    LinkedIsWellFormed(tree);
    CleanIsUnique(cameras);
    hide Linked, Reaches, ReachesStrictly, Roots, CleanUpTo, ValidNotes, RootsAgree, AllAssigned, SelfReferenceFirst;
    if !HasCycle(cameras) {
      assert nodes[0] in nodes;
      var i := AncestorWithoutDependency(nodes, nodes[0].key);
      RootsHold(cameras, cameras[i]);
    }
  }

  lemma {:induction false} ShotsOf(cameras: seq<Camera>, i: nat)
    requires i < |cameras| && Distinct(AllShots(cameras))
    ensures Distinct(cameras[i].shotKeys) && forall s :: s in cameras[i].shotKeys ==> s in AllShots(cameras)
    ensures forall j, s :: 0 <= j < |cameras| && j != i && s in cameras[i].shotKeys ==> s !in cameras[j].shotKeys
  {
    var front, last := cameras[..|cameras| - 1], cameras[|cameras| - 1];
    DistinctPrefix(AllShots(front), last.shotKeys);
    if i < |front| {
      ShotsOf(front, i);
    } else {
      forall j, s | 0 <= j < |front| && s in last.shotKeys ensures s !in cameras[j].shotKeys {
        ShotsOf(front, j);
      }
    }
  }

  lemma {:induction false} ShotHasCamera(cameras: seq<Camera>, shot: string) returns (i: nat)
    requires shot in AllShots(cameras)
    ensures i < |cameras| && shot in cameras[i].shotKeys
  {
    var front, last := cameras[..|cameras| - 1], cameras[|cameras| - 1];
    if shot in last.shotKeys {
      i := |front|;
    } else {
      i := ShotHasCamera(front, shot);
    }
  }

  /** In an accepted tree each shot belongs to exactly one camera, once. */
  lemma OneCameraPerShot(tree: Tree, shot: string) returns (i: nat)
    requires Verdict(tree) == None && shot in tree.shotKeys
    ensures i < |tree.cameras| && shot in tree.cameras[i].shotKeys && Distinct(tree.cameras[i].shotKeys)
    ensures forall j :: 0 <= j < |tree.cameras| && shot in tree.cameras[j].shotKeys ==> j == i
  {
    hide ValidHeader, CleanUpTo, HasCycle, ValidNotes, RootsAgree, AllShots;
    i := ShotHasCamera(tree.cameras, shot);
    ShotsOf(tree.cameras, i);
  }

  /** In an accepted tree every camera hangs under a root, no camera under another one is
      independent, and several roots are all independent. */
  lemma AcceptedTreeIsForest(tree: Tree, c: Camera)
    requires Verdict(tree) == None && c in tree.cameras
    ensures HangsUnderRoot(tree.cameras, c.cameraKey)
    ensures c.independent ==> c.parentKey == ""
    ensures |Roots(tree.cameras)| > 1 && c.parentKey == "" ==> c.independent
  {
    hide ValidHeader, CleanUpTo, HasCycle, ValidNotes, AllShots, HangsUnderRoot;
    ForestExactly(tree);
    RootsHold(tree.cameras, c);
    var i :| 0 <= i < |tree.cameras| && tree.cameras[i] == c;
    assert Nodes(tree.cameras)[i].key == c.cameraKey;
    assert ValidParent(c, Keys(Nodes(tree.cameras)));
  }

  /** The smallest tree: one root camera that owns the one shot. */
  function SingleCamera(key: string, revision: RevisionRef): Tree {
    Tree(revision, Some([]), [key], [Camera(key, "", false, [key], [key], key, key, key, key)], Some([]), Some([]))
  }

  lemma SingleCameraParts(key: string, revision: RevisionRef)
    ensures var cameras := SingleCamera(key, revision).cameras;
            AllShots(cameras) == [key] && Roots(cameras) == cameras && Keys(Nodes(cameras)) == {key} && Edges(Nodes(cameras)) == {}
  {
    var cameras := SingleCamera(key, revision).cameras;
    assert cameras[..0] == [];
    assert AllShots(cameras[..0]) == [] && Roots(cameras[..0]) == [];
    assert Roots(cameras) == [] + [cameras[0]];
  }

  lemma SingleCameraIsLinked(key: string, revision: RevisionRef)
    requires ValidKey(key) && revision.Valid()
    ensures Linked(SingleCamera(key, revision))
  {
    hide Trim, Utf8Len;
    SingleCameraParts(key, revision);
    hide AllShots, Roots, Edges, Keys;
    var tree := SingleCamera(key, revision);
    assert [tree.storyboard] + tree.visualEvidence.value == [revision];
    assert ValidText(key, 240) && ValidText(key, 4 * 1024);
  }

  /** The single camera is accepted. */
  lemma SingleCameraIsAccepted(key: string, revision: RevisionRef)
    requires ValidKey(key) && revision.Valid()
    ensures Verdict(SingleCamera(key, revision)) == None
  {
    hide Linked, AllShots, Roots, Edges, Acyclic, Nodes, Keys;
    SingleCameraIsLinked(key, revision);
    SingleCameraParts(key, revision);
    NoEdgesAreAcyclic(Edges(Nodes(SingleCamera(key, revision).cameras)));
  }

  lemma NoEdgesAreAcyclic(edges: set<(string, string)>)
    requires edges == {}
    ensures Acyclic(edges)
  {
    forall x ensures !ReachesStrictly(edges, x, x) {
      if ReachesStrictly(edges, x, x) {
        var e := LastEdge(edges, x, x);
      }
    }
  }
}
