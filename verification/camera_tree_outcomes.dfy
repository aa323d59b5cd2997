/** When a camera tree is accepted, and how it is refused, said on its fields alone. */
module CameraOutcomes {
  import opened Text
  import opened Artifact
  import opened DependencyGraph
  import opened Reachability
  import opened CameraTree

  // ---------------------------------------------------------------- hanging under a root

  /** Cameras from a root downwards, each the parent of the next one, by their places in the list. */
  ghost predicate Line(cameras: seq<Camera>, p: seq<nat>) {
    && p != [] && (forall k :: 0 <= k < |p| ==> p[k] < |cameras|)
    && cameras[p[0]].parentKey == ""
    && forall k :: 0 <= k < |p| - 1 ==> cameras[p[k + 1]].parentKey == cameras[p[k]].cameraKey
  }

  /** Some line leads from a root to the camera at place i. */
  ghost predicate UnderRoot(cameras: seq<Camera>, i: nat) {
    exists p :: Line(cameras, p) && p[|p| - 1] == i
  }

  lemma {:induction false} LineOfPath(cameras: seq<Camera>, q: seq<string>, root: nat, i: nat) returns (p: seq<nat>)
    requires Chain(Edges(Nodes(cameras)), q) && UniqueKeys(Nodes(cameras)) && root < |cameras| && i < |cameras|
    requires cameras[root].parentKey == "" && q[0] == cameras[root].cameraKey && q[|q| - 1] == cameras[i].cameraKey
    ensures Line(cameras, p) && p[|p| - 1] == i
  {
    if |q| == 1 {
      SameCamera(cameras, root, i);
      p := [root];
    } else {
      var front := q[..|q| - 1];
      forall k | 0 <= k < |front| - 1 ensures (front[k], front[k + 1]) in Edges(Nodes(cameras)) {
        assert front[k] == q[k] && front[k + 1] == q[k + 1];
      }
      assert (q[|q| - 2], q[|q| - 2 + 1]) in Edges(Nodes(cameras));
      ParentOf(cameras, q[|q| - 2], i);
      var up := CameraOf(cameras, front, root);
      var above := LineOfPath(cameras, front, root, up);
      p := above + [i];
    }
  }

  lemma SameCamera(cameras: seq<Camera>, i: nat, j: nat)
    requires UniqueKeys(Nodes(cameras)) && i < |cameras| && j < |cameras| && cameras[i].cameraKey == cameras[j].cameraKey
    ensures i == j
  {
    var nodes := Nodes(cameras);
    assert nodes[i].key == nodes[j].key;
  }

  lemma ParentOf(cameras: seq<Camera>, up: string, i: nat)
    requires UniqueKeys(Nodes(cameras)) && i < |cameras|
    ensures (up, cameras[i].cameraKey) in Edges(Nodes(cameras)) <==> cameras[i].parentKey != "" && cameras[i].parentKey == up
  {
    EdgeOf(Nodes(cameras), i, up);
  }

  /** Each key on a path that starts at a camera is the key of a camera. */
  lemma CameraOf(cameras: seq<Camera>, q: seq<string>, root: nat) returns (i: nat)
    requires Chain(Edges(Nodes(cameras)), q) && root < |cameras| && q[0] == cameras[root].cameraKey
    ensures i < |cameras| && cameras[i].cameraKey == q[|q| - 1]
  {
    if |q| == 1 {
      i := root;
    } else {
      assert (q[|q| - 2], q[|q| - 2 + 1]) in Edges(Nodes(cameras));
      i := IndexOf(Nodes(cameras), q[|q| - 1]);
    }
  }

  lemma {:induction false} PathOfLine(cameras: seq<Camera>, p: seq<nat>)
    requires UniqueKeys(Nodes(cameras)) && Line(cameras, p) && forall c :: c in cameras ==> c.cameraKey != ""
    ensures Reaches(Edges(Nodes(cameras)), cameras[p[0]].cameraKey, cameras[p[|p| - 1]].cameraKey)
  {
    if |p| == 1 {
      SingleChain(Edges(Nodes(cameras)), cameras[p[0]].cameraKey);
    } else {
      var front := p[..|p| - 1];
      forall k | 0 <= k < |front| - 1 ensures cameras[front[k + 1]].parentKey == cameras[front[k]].cameraKey {
        assert front[k] == p[k] && front[k + 1] == p[k + 1];
      }
      PathOfLine(cameras, front);
      var up, i := p[|p| - 2], p[|p| - 2 + 1];
      assert cameras[up] in cameras && cameras[i].parentKey == cameras[up].cameraKey;
      ParentOf(cameras, cameras[up].cameraKey, i);
      ExtendChain(Edges(Nodes(cameras)), cameras[p[0]].cameraKey, cameras[up].cameraKey, cameras[i].cameraKey);
    }
  }

  lemma HangsExactly(cameras: seq<Camera>, i: nat)
    requires UniqueKeys(Nodes(cameras)) && i < |cameras| && forall c :: c in cameras ==> c.cameraKey != ""
    ensures HangsUnderRoot(cameras, cameras[i].cameraKey) <==> UnderRoot(cameras, i)
  {
    hide Edges, Roots;
    if HangsUnderRoot(cameras, cameras[i].cameraKey) {
      var r :| r in Roots(cameras) && Reaches(Edges(Nodes(cameras)), r.cameraKey, cameras[i].cameraKey);
      RootsHold(cameras, r);
      var root :| 0 <= root < |cameras| && cameras[root] == r;
      var q :| ChainFrom(Edges(Nodes(cameras)), q, r.cameraKey, cameras[i].cameraKey);
      var p := LineOfPath(cameras, q, root, i);
    }
    if UnderRoot(cameras, i) {
      var p :| Line(cameras, p) && p[|p| - 1] == i;
      RootsHold(cameras, cameras[p[0]]);
      PathOfLine(cameras, p);
    }
  }

  // ---------------------------------------------------------------- shots and roots

  /** Every shot belongs to exactly one camera, once, and the cameras have no others. */
  ghost predicate ShotsDealt(tree: Tree) {
    && (forall i :: 0 <= i < |tree.cameras| ==> Distinct(tree.cameras[i].shotKeys))
    && (forall i, j, shot :: 0 <= i < j < |tree.cameras| && shot in tree.cameras[i].shotKeys ==> shot !in tree.cameras[j].shotKeys)
    && forall shot :: shot in tree.shotKeys <==> exists i :: 0 <= i < |tree.cameras| && shot in tree.cameras[i].shotKeys
  }

  lemma {:induction false} ShotsHold(cameras: seq<Camera>, shot: string)
    ensures shot in AllShots(cameras) <==> exists i :: 0 <= i < |cameras| && shot in cameras[i].shotKeys
  {
    if cameras != [] {
      var front, last := cameras[..|cameras| - 1], cameras[|cameras| - 1];
      ShotsHold(front, shot);
      assert forall i :: 0 <= i < |front| ==> front[i] == cameras[i];
    }
  }

  lemma DistinctConcat<K>(a: seq<K>, b: seq<K>)
    requires Distinct(a) && Distinct(b) && forall x :: x in a ==> x !in b
    ensures Distinct(a + b)
  {
    var t := a + b;
    forall i, j | 0 <= i < j < |t| ensures t[i] != t[j] {
      if i < |a| <= j {
        assert t[i] in a && t[j] in b;
      }
    }
  }

  lemma {:induction false} ShotsDistinct(cameras: seq<Camera>)
    ensures Distinct(AllShots(cameras)) <==>
            && (forall i :: 0 <= i < |cameras| ==> Distinct(cameras[i].shotKeys))
            && forall i, j, shot :: 0 <= i < j < |cameras| && shot in cameras[i].shotKeys ==> shot !in cameras[j].shotKeys
  {
    if Distinct(AllShots(cameras)) {
      forall i | 0 <= i < |cameras|
        ensures Distinct(cameras[i].shotKeys)
        ensures forall j, shot :: i < j < |cameras| && shot in cameras[i].shotKeys ==> shot !in cameras[j].shotKeys
      {
        ShotsOf(cameras, i);
      }
    }
    if cameras != [] && (forall i :: 0 <= i < |cameras| ==> Distinct(cameras[i].shotKeys))
       && forall i, j, shot :: 0 <= i < j < |cameras| && shot in cameras[i].shotKeys ==> shot !in cameras[j].shotKeys {
      var front, last := cameras[..|cameras| - 1], cameras[|cameras| - 1];
      assert forall i :: 0 <= i < |front| ==> front[i] == cameras[i];
      ShotsDistinct(front);
      forall x | x in AllShots(front) ensures x !in last.shotKeys {
        ShotsHold(front, x);
      }
      DistinctConcat(AllShots(front), last.shotKeys);
    }
  }

  lemma LinksExactly(tree: Tree)
    requires forall i :: 0 <= i < |tree.cameras| ==> ValidParent(tree.cameras[i], Keys(Nodes(tree.cameras)))
    ensures ValidLinks(tree) && AllAssigned(tree) <==> ShotsDealt(tree)
  {
    hide AllShots, ValidParent, Keys;
    ShotsDistinct(tree.cameras);
    forall shot ensures shot in AllShots(tree.cameras) <==> exists i :: 0 <= i < |tree.cameras| && shot in tree.cameras[i].shotKeys {
      ShotsHold(tree.cameras, shot);
    }
  }

  predicate IsRoot(cameras: seq<Camera>, i: nat) {
    i < |cameras| && cameras[i].parentKey == ""
  }

  /** Any two roots are both independent. */
  predicate RootsStandAlone(cameras: seq<Camera>) {
    forall i, j :: 0 <= i < j < |cameras| && IsRoot(cameras, i) && IsRoot(cameras, j) ==> cameras[i].independent && cameras[j].independent
  }

  lemma NoRoots(cameras: seq<Camera>)
    ensures Roots(cameras) == [] <==> forall i :: 0 <= i < |cameras| ==> !IsRoot(cameras, i)
  {
    hide Roots;
    forall c ensures c in Roots(cameras) <==> c in cameras && c.parentKey == "" {
      RootsHold(cameras, c);
    }
    if Roots(cameras) != [] {
      assert Roots(cameras)[0] in Roots(cameras);
      var i :| 0 <= i < |cameras| && cameras[i] == Roots(cameras)[0];
      assert IsRoot(cameras, i);
    }
    if i :| 0 <= i < |cameras| && IsRoot(cameras, i) {
      assert cameras[i] in Roots(cameras);
    }
  }

  predicate TwoRoots(cameras: seq<Camera>) {
    exists i, j :: 0 <= i < j < |cameras| && IsRoot(cameras, i) && IsRoot(cameras, j)
  }

  lemma {:induction false} RootCount(cameras: seq<Camera>)
    ensures |Roots(cameras)| > 1 <==> TwoRoots(cameras)
  {
    if cameras != [] {
      var n := |cameras| - 1;
      var front := cameras[..n];
      RootCount(front);
      NoRoots(front);
      assert forall i :: 0 <= i < n ==> (IsRoot(front, i) <==> IsRoot(cameras, i));
      if TwoRoots(front) {
        var i, j :| 0 <= i < j < n && IsRoot(front, i) && IsRoot(front, j);
        assert IsRoot(cameras, i) && IsRoot(cameras, j);
      } else if IsRoot(cameras, n) && Roots(front) != [] {
        var i :| 0 <= i < n && IsRoot(front, i);
        assert IsRoot(cameras, i);
      } else {
        forall i, j | 0 <= i < j < |cameras| ensures !IsRoot(cameras, i) || !IsRoot(cameras, j) {
          assert IsRoot(front, i) <==> IsRoot(cameras, i);
          assert j < n ==> (IsRoot(front, j) <==> IsRoot(cameras, j));
        }
      }
    }
  }

  lemma RootsExactly(cameras: seq<Camera>)
    ensures RootsAgree(cameras) <==> RootsStandAlone(cameras)
  {
    RootCount(cameras);
    hide Roots;
    forall c ensures c in Roots(cameras) <==> c in cameras && c.parentKey == "" {
      RootsHold(cameras, c);
    }
    if RootsAgree(cameras) {
      forall i, j | 0 <= i < j < |cameras| && IsRoot(cameras, i) && IsRoot(cameras, j) ensures cameras[i].independent && cameras[j].independent {
        assert cameras[i] in Roots(cameras) && cameras[j] in Roots(cameras);
      }
    }
    if RootsStandAlone(cameras) && |Roots(cameras)| > 1 {
      var i, j :| 0 <= i < j < |cameras| && IsRoot(cameras, i) && IsRoot(cameras, j);
      forall c | c in Roots(cameras) ensures c.independent {
        var k :| 0 <= k < |cameras| && cameras[k] == c;
        assert IsRoot(cameras, k);
        OtherRoot(cameras, i, j, k);
      }
    }
  }

  lemma OtherRoot(cameras: seq<Camera>, i: nat, j: nat, k: nat)
    requires RootsStandAlone(cameras) && i < j && IsRoot(cameras, i) && IsRoot(cameras, j) && IsRoot(cameras, k)
    ensures cameras[k].independent
  {
    if k < j {
      assert IsRoot(cameras, k) && IsRoot(cameras, j);
    } else {
      assert IsRoot(cameras, i) && IsRoot(cameras, k);
    }
  }

  // ---------------------------------------------------------------- acceptance

  predicate HeaderInForm(tree: Tree) {
    && tree.storyboard.Valid() && tree.visualEvidence.Some? && tree.relations.Some? && tree.missingViews.Some?
    && ValidRefs([tree.storyboard] + tree.visualEvidence.value)
    && tree.cameras != [] && tree.shotKeys != [] && Distinct(tree.shotKeys)
    && forall i :: 0 <= i < |tree.shotKeys| ==> ValidText(tree.shotKeys[i], 120)
  }

  predicate CameraInForm(c: Camera) {
    && ValidText(c.cameraKey, 120) && (c.parentKey != "" ==> ValidText(c.parentKey, 120))
    && c.shotKeys != [] && c.subjectKeys != [] && Distinct(c.subjectKeys)
    && (forall i :: 0 <= i < |c.subjectKeys| ==> ValidText(c.subjectKeys[i], 120))
    && ValidText(c.shotSize, 240) && ValidText(c.angle, 240) && ValidText(c.screenDirection, 4096) && ValidText(c.purpose, 4096)
  }

  predicate HasCamera(tree: Tree, key: string) {
    exists i :: 0 <= i < |tree.cameras| && tree.cameras[i].cameraKey == key
  }

  /** The first n cameras are in form, none is its own parent, and no two share a key. */
  predicate InFormUpTo(cameras: seq<Camera>, n: nat)
    requires n <= |cameras|
  {
    && (forall i :: 0 <= i < n ==> CameraInForm(cameras[i]) && cameras[i].parentKey != cameras[i].cameraKey)
    && forall i, j :: 0 <= i < j < n ==> cameras[i].cameraKey != cameras[j].cameraKey
  }

  /** Each camera under another one names one of the tree and is not independent. */
  predicate ParentsInForm(tree: Tree) {
    forall i :: 0 <= i < |tree.cameras| && tree.cameras[i].parentKey != "" ==>
      HasCamera(tree, tree.cameras[i].parentKey) && !tree.cameras[i].independent
  }

  predicate RelationInForm(tree: Tree, r: Relation)
    requires tree.visualEvidence.Some?
  {
    && ValidText(r.relationKey, 120) && ValidText(r.relation, 240) && r.fromCamera != r.toCamera
    && HasCamera(tree, r.fromCamera) && HasCamera(tree, r.toCamera)
    && ValidRefs(r.evidence) && forall e :: e in r.evidence ==> e in tree.visualEvidence.value
  }

  predicate GapInForm(tree: Tree, g: Gap) {
    && ValidText(g.gapKey, 120) && ValidText(g.description, 4096) && g.relatedCameras.Some?
    && forall c :: c in g.relatedCameras.value ==> HasCamera(tree, c)
  }

  predicate NotesInForm(tree: Tree)
    requires HeaderInForm(tree)
  {
    var relations, gaps := tree.relations.value, tree.missingViews.value;
    && (forall i :: 0 <= i < |relations| ==> RelationInForm(tree, relations[i]))
    && (forall i, j :: 0 <= i < j < |relations| ==> relations[i].relationKey != relations[j].relationKey)
    && (forall i :: 0 <= i < |gaps| ==> GapInForm(tree, gaps[i]))
    && forall i, j :: 0 <= i < j < |gaps| ==> gaps[i].gapKey != gaps[j].gapKey
  }

  lemma CleanExactly(cameras: seq<Camera>, n: nat)
    requires n <= |cameras|
    ensures CleanUpTo(cameras, n) <==> InFormUpTo(cameras, n)
  {
    hide ValidText;
    var nodes := Nodes(cameras)[..n];
    assert forall i :: 0 <= i < n ==> nodes[i].key == cameras[i].cameraKey;
  }

  lemma KeysExactly(tree: Tree, key: string)
    ensures key in Keys(Nodes(tree.cameras)) <==> HasCamera(tree, key)
  {
    if key in Keys(Nodes(tree.cameras)) {
      var i := IndexOf(Nodes(tree.cameras), key);
    }
    if i :| 0 <= i < |tree.cameras| && tree.cameras[i].cameraKey == key {
      assert Nodes(tree.cameras)[i].key == key;
    }
  }

  lemma ParentsExactly(tree: Tree)
    ensures (forall i :: 0 <= i < |tree.cameras| ==> ValidParent(tree.cameras[i], Keys(Nodes(tree.cameras)))) <==> ParentsInForm(tree)
  {
    hide HasCamera, Keys;
    forall key ensures key in Keys(Nodes(tree.cameras)) <==> HasCamera(tree, key) {
      KeysExactly(tree, key);
    }
  }

  lemma RelationExactly(tree: Tree, r: Relation)
    requires tree.visualEvidence.Some?
    ensures ValidRelation(r, Keys(Nodes(tree.cameras)), tree.visualEvidence.value) <==> RelationInForm(tree, r)
  {
    hide HasCamera, Keys, ValidText, ValidRefs;
    KeysExactly(tree, r.fromCamera);
    KeysExactly(tree, r.toCamera);
  }

  lemma GapExactly(tree: Tree, g: Gap)
    ensures ValidGap(g, Keys(Nodes(tree.cameras))) <==> GapInForm(tree, g)
  {
    hide HasCamera, Keys, ValidText;
    forall key ensures key in Keys(Nodes(tree.cameras)) <==> HasCamera(tree, key) {
      KeysExactly(tree, key);
    }
  }

  lemma NotesExactly(tree: Tree)
    requires HeaderInForm(tree) && ValidHeader(tree)
    ensures ValidNotes(tree) <==> NotesInForm(tree)
  {
    hide RelationInForm, ValidRelation, GapInForm, ValidGap, Keys, ValidText, ValidRefs;
    forall r ensures ValidRelation(r, Keys(Nodes(tree.cameras)), tree.visualEvidence.value) <==> RelationInForm(tree, r) {
      RelationExactly(tree, r);
    }
    forall g ensures ValidGap(g, Keys(Nodes(tree.cameras))) <==> GapInForm(tree, g) {
      GapExactly(tree, g);
    }
  }

  lemma HeaderExactly(tree: Tree)
    ensures ValidHeader(tree) <==> HeaderInForm(tree)
  {
    hide ValidText, ValidRefs;
  }

  /** Everything in order up to the roots: header, cameras and parents. */
  ghost predicate InOrder(tree: Tree) {
    HeaderInForm(tree) && InFormUpTo(tree.cameras, |tree.cameras|) && ParentsInForm(tree)
  }

  ghost predicate AllUnderRoots(cameras: seq<Camera>) {
    forall i :: 0 <= i < |cameras| ==> UnderRoot(cameras, i)
  }

  lemma NamedCameras(cameras: seq<Camera>)
    requires CleanUpTo(cameras, |cameras|)
    ensures forall c :: c in cameras ==> c.cameraKey != ""
  {
    forall c | c in cameras ensures c.cameraKey != "" {
      var i :| 0 <= i < |cameras| && cameras[i] == c;
      assert ValidCamera(cameras[i]);
    }
  }

  /** In a linked tree there is no cycle exactly when a line leads from a root to every camera. */
  lemma LinesExactly(tree: Tree)
    requires Linked(tree)
    ensures !HasCycle(tree.cameras) <==> AllUnderRoots(tree.cameras)
  {
    ForestExactly(tree);
    CleanIsUnique(tree.cameras);
    NamedCameras(tree.cameras);
    hide Linked, HasCycle, UnderRoot, HangsUnderRoot, UniqueKeys, Keys;
    forall i | 0 <= i < |tree.cameras| ensures HangsUnderRoot(tree.cameras, tree.cameras[i].cameraKey) <==> UnderRoot(tree.cameras, i) {
      HangsExactly(tree.cameras, i);
    }
    forall i | 0 <= i < |tree.cameras| ensures tree.cameras[i].cameraKey in Keys(Nodes(tree.cameras)) {
      KeysExactly(tree, tree.cameras[i].cameraKey);
    }
    forall key | key in Keys(Nodes(tree.cameras)) ensures exists i :: 0 <= i < |tree.cameras| && tree.cameras[i].cameraKey == key {
      KeysExactly(tree, key);
    }
  }

  lemma LinkedExactly(tree: Tree)
    ensures Linked(tree) && AllAssigned(tree) <==> InOrder(tree) && ShotsDealt(tree)
    ensures Linked(tree) ==> InOrder(tree)
  {
    HeaderExactly(tree);
    CleanExactly(tree.cameras, |tree.cameras|);
    ParentsExactly(tree);
    hide ValidHeader, HeaderInForm, CleanUpTo, InFormUpTo, ParentsInForm, ValidParent, ShotsDealt, Keys, AllAssigned, AllShots;
    if ParentsInForm(tree) {
      LinksExactly(tree);
    }
  }

  /** A tree is accepted if and only if header, cameras, parents, relations and gaps are in form, its shots
      are dealt out to the cameras, a line leads from a root to each camera, and roots that are not alone
      are independent. */
  lemma AcceptedExactly(tree: Tree)
    ensures Verdict(tree) == None <==>
            InOrder(tree) && ShotsDealt(tree) && AllUnderRoots(tree.cameras) && RootsStandAlone(tree.cameras) && NotesInForm(tree)
  {
    hide Linked, ValidHeader, HeaderInForm, InFormUpTo, ParentsInForm, ShotsDealt, RootsAgree, RootsStandAlone, HasCycle, AllUnderRoots, ValidNotes,
      NotesInForm, AllAssigned, Roots, FindsSelfReference, FindsCycle;
    LinkedExactly(tree);
    RootsExactly(tree.cameras);
    if Linked(tree) {
      LinesExactly(tree);
      HeaderExactly(tree);
      NotesExactly(tree);
      FormHasCameras(tree);
      if AllUnderRoots(tree.cameras) {
        SomeRoot(tree.cameras);
      }
    }
  }

  lemma FormHasCameras(tree: Tree)
    requires HeaderInForm(tree)
    ensures tree.cameras != []
  {
  }

  lemma SomeRoot(cameras: seq<Camera>)
    requires AllUnderRoots(cameras) && cameras != []
    ensures Roots(cameras) != []
  {
    NoRoots(cameras);
    hide Roots;
    assert UnderRoot(cameras, 0);
    var p :| Line(cameras, p) && p[|p| - 1] == 0;
    assert IsRoot(cameras, p[0]);
  }

  /** A self-reference is reported exactly when, behind a header in form, some camera in form is its own
      parent and the cameras before it are in form, with keys of their own and other parents. */
  lemma SelfReferenceExactly(tree: Tree)
    ensures Verdict(tree) == Some(SelfReference) <==>
            HeaderInForm(tree) && exists i :: 0 <= i < |tree.cameras| && OwnParentAt(tree.cameras, i)
  {
    HeaderExactly(tree);
    forall i | 0 <= i < |tree.cameras| ensures SelfReferenceAt(tree.cameras, i) <==> OwnParentAt(tree.cameras, i) {
      CleanExactly(tree.cameras, i);
      FormExactly(tree.cameras[i]);
      hide CleanUpTo, InFormUpTo, ValidCamera, CameraInForm;
    }
    hide ValidHeader, HeaderInForm, SelfReferenceAt, OwnParentAt, ValidLinks, HasCycle, ValidNotes, RootsAgree, AllAssigned, Roots;
    if Accepted(tree) {
      CleanIsUnique(tree.cameras);
    }
  }

  predicate OwnParentAt(cameras: seq<Camera>, i: nat)
    requires i < |cameras|
  {
    InFormUpTo(cameras, i) && CameraInForm(cameras[i]) && cameras[i].parentKey == cameras[i].cameraKey
  }

  lemma FormExactly(c: Camera)
    ensures ValidCamera(c) <==> CameraInForm(c)
  {
    hide ValidText;
  }

  /** A cycle is reported exactly when header, cameras, parents and the dealing of shots so far are in order,
      no line leads to some camera, and no fault among the roots was come across before. */
  lemma CycleExactly(tree: Tree)
    ensures Verdict(tree) == Some(Cycle) <==>
            && InOrder(tree) && ValidLinks(tree) && !AllUnderRoots(tree.cameras)
            && ((exists i :: IsRoot(tree.cameras, i)) && AllAssigned(tree) ==> RootsStandAlone(tree.cameras))
  {
    HeaderExactly(tree);
    CleanExactly(tree.cameras, |tree.cameras|);
    ParentsExactly(tree);
    RootsExactly(tree.cameras);
    NoRoots(tree.cameras);
    hide ValidHeader, HeaderInForm, CleanUpTo, InFormUpTo, ParentsInForm, ValidParent, RootsAgree, RootsStandAlone, HasCycle,
      AllUnderRoots, ValidNotes, Keys, AllAssigned, AllShots, Roots, SelfReferenceFirst, IsRoot;
    if Linked(tree) {
      LinesExactly(tree);
      CleanIsUnique(tree.cameras);
    }
  }
}
