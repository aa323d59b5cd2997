/** The delivery contract a run freezes and the check of evidence against it. */
module Delivery {
  import opened Text

  datatype DeliveryKind = Answer | CanvasChange | GeneratedAsset | Mixed | UnknownKind

  // NoArtifact is the empty string, UnknownArtifact any other text outside the five kinds.
  datatype ArtifactKind = Image | Video | Audio | TextArtifact | CanvasRevision | NoArtifact | UnknownArtifact {
    predicate Valid() { !NoArtifact? && !UnknownArtifact? }
  }

  datatype Fact =
    | FinalMessage | CanvasRevisionFact | ArtifactFact | ArtifactRevision | Resource
    | Publication | TaskBackedResource | CanvasBoundResource | UnknownFact
  {
    predicate AboutArtifact() {
      !FinalMessage? && !CanvasRevisionFact? && !UnknownFact?
    }
  }

  datatype Criterion = Criterion(fact: Fact, artifact: ArtifactKind)

  datatype ExpectedDelivery = ExpectedDelivery(
    kind: DeliveryKind,
    requiredArtifacts: seq<ArtifactKind>,
    targetCanvasId: string,
    completionCriteria: seq<Criterion>)

  const MAX_CRITERIA := 16

  predicate HasFact(e: ExpectedDelivery, fact: Fact) {
    exists c :: c in e.completionCriteria && c.fact == fact
  }

  /** Some criterion is about an artifact of this kind. */
  predicate HasArtifactCriterion(e: ExpectedDelivery, kind: ArtifactKind) {
    exists c :: c in e.completionCriteria && c.fact.AboutArtifact() && c.artifact == kind
  }

  predicate HasAnyArtifactCriterion(e: ExpectedDelivery) {
    exists c :: c in e.completionCriteria && c.fact.AboutArtifact()
  }

  predicate WellFormedCriterion(c: Criterion) {
    && !c.fact.UnknownFact?
    && (if c.fact.AboutArtifact() then c.artifact.Valid() else c.artifact == NoArtifact)
  }

  /** A required artifact is covered when some completion criterion can witness it. */
  predicate Covered(e: ExpectedDelivery, kind: ArtifactKind) {
    || (kind == TextArtifact && HasFact(e, FinalMessage))
    || (kind == CanvasRevision && HasFact(e, CanvasRevisionFact))
    || HasArtifactCriterion(e, kind)
  }

  predicate ConsistentKind(e: ExpectedDelivery) {
    match e.kind
    case Answer =>
      HasFact(e, FinalMessage) && !HasFact(e, CanvasRevisionFact) && !HasAnyArtifactCriterion(e) && Trim(e.targetCanvasId) == ""
    case CanvasChange =>
      HasFact(e, CanvasRevisionFact) && !HasAnyArtifactCriterion(e) && Trim(e.targetCanvasId) != ""
    case GeneratedAsset =>
      e.requiredArtifacts != [] && HasAnyArtifactCriterion(e) && !HasFact(e, CanvasRevisionFact) && Trim(e.targetCanvasId) == ""
    case Mixed =>
      HasFact(e, CanvasRevisionFact) && (HasFact(e, FinalMessage) || HasAnyArtifactCriterion(e)) && Trim(e.targetCanvasId) != ""
    case UnknownKind => false
  }

  /** What `ExpectedDelivery.Validate` accepts, said without its loops and flags. */
  predicate ValidDelivery(e: ExpectedDelivery) {
    && 1 <= |e.completionCriteria| <= MAX_CRITERIA
    && (forall a :: a in e.requiredArtifacts ==> a.Valid() && Covered(e, a))
    && Distinct(e.requiredArtifacts)
    && (forall c :: c in e.completionCriteria ==> WellFormedCriterion(c))
    && ConsistentKind(e)
  }

  method CheckRequiredArtifacts(kinds: seq<ArtifactKind>) returns (ok: bool, required: set<ArtifactKind>)
    ensures ok <==> Distinct(kinds) && forall a :: a in kinds ==> a.Valid()
    ensures ok ==> forall a :: a in required <==> a in kinds
  {
    required := {};
    for i := 0 to |kinds|
      invariant forall a :: a in required <==> a in kinds[..i]
      invariant forall a :: a in kinds[..i] ==> a.Valid()
      invariant Distinct(kinds[..i])
    {
      var artifact := kinds[i];
      assert kinds[..i + 1] == kinds[..i] + [artifact];
      if !artifact.Valid() {
        return false, required;
      }
      if artifact in required {
        var j :| 0 <= j < i && kinds[..i][j] == artifact;
        assert kinds[j] == kinds[i];
        return false, required;
      }
      required := required + {artifact};
    }
    assert kinds[..|kinds|] == kinds;
    return true, required;
  }

  method ScanCriteria(e: ExpectedDelivery)
    returns (ok: bool, criteriaArtifacts: set<ArtifactKind>, hasFinalMessage: bool, hasCanvasRevision: bool)
    ensures ok <==> forall c :: c in e.completionCriteria ==> WellFormedCriterion(c)
    ensures ok ==> (hasFinalMessage <==> HasFact(e, FinalMessage))
    ensures ok ==> (hasCanvasRevision <==> HasFact(e, CanvasRevisionFact))
    ensures ok ==> forall a :: a in criteriaArtifacts <==> HasArtifactCriterion(e, a)
    ensures ok ==> (criteriaArtifacts != {} <==> HasAnyArtifactCriterion(e))
  {
    ghost var criteria := e.completionCriteria;
    criteriaArtifacts, hasFinalMessage, hasCanvasRevision := {}, false, false;
    for i := 0 to |e.completionCriteria|
      invariant forall k :: 0 <= k < i ==> WellFormedCriterion(criteria[k])
      invariant hasFinalMessage <==> exists k :: 0 <= k < i && criteria[k].fact == FinalMessage
      invariant hasCanvasRevision <==> exists k :: 0 <= k < i && criteria[k].fact == CanvasRevisionFact
      invariant forall a :: a in criteriaArtifacts <==>
                  exists k :: 0 <= k < i && criteria[k].fact.AboutArtifact() && criteria[k].artifact == a
    {
      var criterion := e.completionCriteria[i];
      assert criterion in e.completionCriteria;
      match criterion.fact {
        case FinalMessage =>
          hasFinalMessage := true;
          if criterion.artifact != NoArtifact { return false, criteriaArtifacts, hasFinalMessage, hasCanvasRevision; }
        case CanvasRevisionFact =>
          hasCanvasRevision := true;
          if criterion.artifact != NoArtifact { return false, criteriaArtifacts, hasFinalMessage, hasCanvasRevision; }
        case UnknownFact =>
          return false, criteriaArtifacts, hasFinalMessage, hasCanvasRevision;
        case _ =>
          if !criterion.artifact.Valid() { return false, criteriaArtifacts, hasFinalMessage, hasCanvasRevision; }
          criteriaArtifacts := criteriaArtifacts + {criterion.artifact};
      }
    }
    if c :| c in criteria && c.fact.AboutArtifact() {
      assert c.artifact in criteriaArtifacts;
    }
    if a :| a in criteriaArtifacts {
      assert HasArtifactCriterion(e, a);
    }
    return true, criteriaArtifacts, hasFinalMessage, hasCanvasRevision;
  }

  method Validate(e: ExpectedDelivery) returns (ok: bool)
    ensures ok <==> ValidDelivery(e)
  {
    if e.kind.UnknownKind? {
      return false;
    }
    if |e.completionCriteria| == 0 || |e.completionCriteria| > MAX_CRITERIA {
      return false;
    }
    if (e.kind.CanvasChange? || e.kind.Mixed?) && Trim(e.targetCanvasId) == "" {
      return false;
    }
    var requiredOk, required := CheckRequiredArtifacts(e.requiredArtifacts);
    if !requiredOk {
      return false;
    }
    var criteriaOk, criteriaArtifacts, hasFinalMessage, hasCanvasRevision := ScanCriteria(e);
    if !criteriaOk {
      return false;
    }
    var unchecked := required;
    while unchecked != {}
      invariant unchecked <= required
      invariant forall a :: a in required && a !in unchecked ==> Covered(e, a)
    {
      var artifact :| artifact in unchecked;
      unchecked := unchecked - {artifact};
      if artifact == TextArtifact && hasFinalMessage {
        continue;
      }
      if artifact == CanvasRevision && hasCanvasRevision {
        continue;
      }
      if artifact !in criteriaArtifacts {
        assert !Covered(e, artifact);
        return false;
      }
    }
    assert required == {} <==> e.requiredArtifacts == [] by {
      assert e.requiredArtifacts != [] ==> e.requiredArtifacts[0] in required;
    }
    match e.kind {
      case Answer =>
        ok := !(!hasFinalMessage || hasCanvasRevision || |criteriaArtifacts| > 0 || Trim(e.targetCanvasId) != "");
      case CanvasChange =>
        ok := !(!hasCanvasRevision || |criteriaArtifacts| > 0);
      case GeneratedAsset =>
        ok := !(|required| == 0 || |criteriaArtifacts| == 0 || hasCanvasRevision || Trim(e.targetCanvasId) != "");
      case Mixed =>
        ok := !(!hasCanvasRevision || (!hasFinalMessage && |criteriaArtifacts| == 0));
    }
  }

  /** Two contracts agree exactly when they are the same value. */
  method Equal(expected: ExpectedDelivery, other: ExpectedDelivery) returns (same: bool)
    ensures same <==> expected == other
  {
    if expected.kind != other.kind || expected.targetCanvasId != other.targetCanvasId ||
       |expected.requiredArtifacts| != |other.requiredArtifacts| ||
       |expected.completionCriteria| != |other.completionCriteria| {
      return false;
    }
    for i := 0 to |expected.requiredArtifacts|
      invariant expected.requiredArtifacts[..i] == other.requiredArtifacts[..i]
    {
      if expected.requiredArtifacts[i] != other.requiredArtifacts[i] {
        return false;
      }
    }
    for i := 0 to |expected.completionCriteria|
      invariant expected.completionCriteria[..i] == other.completionCriteria[..i]
    {
      if expected.completionCriteria[i] != other.completionCriteria[i] {
        return false;
      }
    }
    assert expected.requiredArtifacts == expected.requiredArtifacts[..|expected.requiredArtifacts|] == other.requiredArtifacts;
    assert expected.completionCriteria == expected.completionCriteria[..|expected.completionCriteria|] == other.completionCriteria;
    return true;
  }

  datatype Artifact = Artifact(
    kind: ArtifactKind, artifactId: string, revisionId: string, resourceId: string, url: string,
    resourceReady: bool, approved: bool, publicationId: string, sourceTaskId: string,
    sourceTaskSucceeded: bool, currentRevision: bool, targetCanvasNodeId: string, canvasBound: bool)

  datatype Evidence = Evidence(
    finalMessage: string, canvasId: string, canvasRevision: int, canvasCurrent: bool,
    artifacts: seq<Artifact>)

  datatype VerificationStatus = Satisfied | Repairable | Failed
  datatype Rationale = ContractInvalid | ArtifactInvalid | EvidenceIncomplete | EveryCriterionMet
  datatype Verification = Verification(status: VerificationStatus, rationale: Rationale, missing: seq<Criterion>)

  predicate ValidOptionalIdentity(value: string) {
    Trimmed(value) && Utf8Len(value) <= 120
  }

  /** The consistency rules between the optional facts of one evidence artifact. */
  predicate ValidArtifact(a: Artifact) {
    var exactRevision := a.artifactId != "" && a.revisionId != "";
    && a.kind.Valid()
    && ValidOptionalIdentity(a.artifactId) && ValidOptionalIdentity(a.revisionId)
    && ValidOptionalIdentity(a.resourceId) && ValidOptionalIdentity(a.publicationId)
    && ValidOptionalIdentity(a.sourceTaskId) && ValidOptionalIdentity(a.targetCanvasNodeId)
    && Trimmed(a.url) && Utf8Len(a.url) <= 4 * 1024
    && (a.artifactId == "" <==> a.revisionId == "")
    && (a.canvasBound ==>
         a.targetCanvasNodeId != "" && a.resourceId != "" && a.url != "" && a.resourceReady &&
         a.sourceTaskId != "" && a.sourceTaskSucceeded)
    && (a.url != "" || exactRevision)
    && (a.approved ==> exactRevision || a.publicationId != "")
    && (a.resourceReady ==> a.resourceId != "" && a.url != "")
    && (a.currentRevision ==> exactRevision)
    && (a.publicationId == "" || (a.approved && a.resourceReady))
  }

  /** Artifact `a` is what a criterion with this fact asks for. */
  predicate Matches(fact: Fact, a: Artifact) {
    match fact
    case ArtifactFact =>
      if a.kind == TextArtifact then a.artifactId != "" && a.revisionId != "" && a.approved && a.currentRevision
      else a.url != ""
    case ArtifactRevision =>
      a.artifactId != "" && a.revisionId != "" && a.approved
    case Resource =>
      a.artifactId != "" && a.revisionId != "" && a.approved && a.resourceId != "" && a.resourceReady && a.url != ""
    case Publication =>
      a.approved && a.resourceId != "" && a.resourceReady && a.url != "" && a.publicationId != ""
    case TaskBackedResource =>
      (a.artifactId == "" || a.currentRevision) && a.resourceId != "" && a.resourceReady && a.url != "" &&
      a.sourceTaskId != "" && a.sourceTaskSucceeded
    case CanvasBoundResource =>
      a.resourceId != "" && a.resourceReady && a.url != "" && a.sourceTaskId != "" && a.sourceTaskSucceeded &&
      a.targetCanvasNodeId != "" && a.canvasBound
    case _ => false
  }

  predicate CanvasWitness(target: string, evidence: Evidence) {
    evidence.canvasRevision > 0 && evidence.canvasId == target && evidence.canvasCurrent
  }

  predicate Meets(target: string, evidence: Evidence, c: Criterion) {
    match c.fact
    case FinalMessage => Trim(evidence.finalMessage) != ""
    case CanvasRevisionFact => CanvasWitness(target, evidence)
    case _ => exists a :: a in evidence.artifacts && a.kind == c.artifact && Matches(c.fact, a)
  }

  /** The criteria of a list that the evidence does not meet, in their order. */
  function Unmet(target: string, evidence: Evidence, criteria: seq<Criterion>): (missing: seq<Criterion>)
    ensures forall c :: c in missing <==> c in criteria && !Meets(target, evidence, c)
  {
    if criteria == [] then []
    else
      var last := criteria[|criteria| - 1];
      assert criteria == criteria[..|criteria| - 1] + [last];
      Unmet(target, evidence, criteria[..|criteria| - 1]) + (if Meets(target, evidence, last) then [] else [last])
  }

  function Verify(expected: ExpectedDelivery, evidence: Evidence): Verification {
    if !ValidDelivery(expected) then Verification(Failed, ContractInvalid, [])
    else if exists a :: a in evidence.artifacts && !ValidArtifact(a) then Verification(Failed, ArtifactInvalid, [])
    else
      var missing := Unmet(expected.targetCanvasId, evidence, expected.completionCriteria);
      if missing != [] then Verification(Repairable, EvidenceIncomplete, missing)
      else Verification(Satisfied, EveryCriterionMet, [])
  }

  /** Evidence artifacts grouped by kind, or the finding that one of them breaks the rules. */
  method GroupArtifacts(artifacts: seq<Artifact>) returns (ok: bool, byKind: map<ArtifactKind, seq<Artifact>>)
    ensures ok <==> forall a :: a in artifacts ==> ValidArtifact(a)
    ensures ok ==> forall k, a :: (k in byKind && a in byKind[k]) <==> (a in artifacts && a.kind == k)
  {
    byKind := map[];
    for i := 0 to |artifacts|
      invariant forall j :: 0 <= j < i ==> ValidArtifact(artifacts[j])
      invariant forall k, a :: (k in byKind && a in byKind[k]) <==> (a in artifacts[..i] && a.kind == k)
    {
      var artifact := artifacts[i];
      if !ValidArtifact(artifact) {
        return false, byKind;
      }
      assert artifacts[..i + 1] == artifacts[..i] + [artifact];
      var same := if artifact.kind in byKind then byKind[artifact.kind] else [];
      byKind := byKind[artifact.kind := same + [artifact]];
    }
    assert artifacts[..|artifacts|] == artifacts;
    return true, byKind;
  }

  method AnyMatches(fact: Fact, candidates: seq<Artifact>) returns (found: bool)
    ensures found <==> exists a :: a in candidates && Matches(fact, a)
  {
    for k := 0 to |candidates|
      invariant forall j :: 0 <= j < k ==> !Matches(fact, candidates[j])
    {
      if Matches(fact, candidates[k]) {
        return true;
      }
    }
    return false;
  }

  method CheckCriterion(target: string, evidence: Evidence, criterion: Criterion, byKind: map<ArtifactKind, seq<Artifact>>)
    returns (satisfied: bool)
    requires forall k, a :: (k in byKind && a in byKind[k]) <==> (a in evidence.artifacts && a.kind == k)
    ensures satisfied <==> Meets(target, evidence, criterion)
  {
    match criterion.fact {
      case FinalMessage => satisfied := Trim(evidence.finalMessage) != "";
      case CanvasRevisionFact => satisfied := CanvasWitness(target, evidence);
      case _ =>
        var candidates := if criterion.artifact in byKind then byKind[criterion.artifact] else [];
        assert forall a :: a in candidates <==> a in evidence.artifacts && a.kind == criterion.artifact;
        satisfied := AnyMatches(criterion.fact, candidates);
    }
  }

  method VerifyDelivery(expected: ExpectedDelivery, evidence: Evidence) returns (r: Verification)
    ensures r == Verify(expected, evidence)
  {
    hide ValidDelivery, ValidArtifact, Meets;
    var valid := Validate(expected);
    if !valid {
      return Verification(Failed, ContractInvalid, []);
    }
    var allValid, artifacts := GroupArtifacts(evidence.artifacts);
    if !allValid {
      return Verification(Failed, ArtifactInvalid, []);
    }
    ghost var target := expected.targetCanvasId;
    var missing: seq<Criterion> := [];
    for i := 0 to |expected.completionCriteria|
      invariant missing == Unmet(target, evidence, expected.completionCriteria[..i])
    {
      var criterion := expected.completionCriteria[i];
      var satisfied := CheckCriterion(expected.targetCanvasId, evidence, criterion, artifacts);
      assert expected.completionCriteria[..i + 1][..i] == expected.completionCriteria[..i];
      if !satisfied {
        missing := missing + [criterion];
      }
    }
    assert expected.completionCriteria[..|expected.completionCriteria|] == expected.completionCriteria;
    if |missing| > 0 {
      return Verification(Repairable, EvidenceIncomplete, missing);
    }
    return Verification(Satisfied, EveryCriterionMet, []);
  }

  /** The three verdicts, each exactly when: a contract or artifact that breaks its rules fails,
      otherwise evidence short of some criterion is repairable and evidence for all is enough. */
  lemma VerdictExactly(expected: ExpectedDelivery, evidence: Evidence)
    ensures Verify(expected, evidence).status == Failed <==>
            !ValidDelivery(expected) || exists a :: a in evidence.artifacts && !ValidArtifact(a)
    ensures Verify(expected, evidence).status == Satisfied <==>
            && ValidDelivery(expected)
            && (forall a :: a in evidence.artifacts ==> ValidArtifact(a))
            && (forall c :: c in expected.completionCriteria ==> Meets(expected.targetCanvasId, evidence, c))
    ensures Verify(expected, evidence).status == Repairable ==>
            && Verify(expected, evidence).missing != []
            && (forall c :: c in Verify(expected, evidence).missing <==>
                 c in expected.completionCriteria && !Meets(expected.targetCanvasId, evidence, c))
  {
    var missing := Unmet(expected.targetCanvasId, evidence, expected.completionCriteria);
    if missing != [] {
      assert missing[0] in missing;
    }
  }

  /** The rationale says which rule decided, and only evidence that falls short names criteria. */
  lemma RationaleExactly(expected: ExpectedDelivery, evidence: Evidence)
    ensures var v := Verify(expected, evidence);
            && (v.rationale == ContractInvalid <==> !ValidDelivery(expected))
            && (v.rationale == ArtifactInvalid <==> ValidDelivery(expected) && exists a :: a in evidence.artifacts && !ValidArtifact(a))
            && (v.rationale == EvidenceIncomplete <==> v.status == Repairable)
            && (v.rationale == EveryCriterionMet <==> v.status == Satisfied)
            && (v.missing != [] <==> v.status == Repairable)
  {
    hide ValidDelivery, ValidArtifact;
  }

  /** The missing criteria stand in the order of the contract: those of the first part, then the rest. */
  lemma {:induction false} UnmetSplits(target: string, evidence: Evidence, a: seq<Criterion>, b: seq<Criterion>)
    ensures Unmet(target, evidence, a + b) == Unmet(target, evidence, a) + Unmet(target, evidence, b)
  {
    hide Meets;
    if b == [] {
      assert a + b == a;
    } else {
      var front, last := b[..|b| - 1], b[|b| - 1];
      assert (a + b)[..|a + b| - 1] == a + front && (a + b)[|a + b| - 1] == last;
      UnmetSplits(target, evidence, a, front);
    }
  }

  /** What stands for a required artifact kind in satisfying evidence. */
  predicate Witnessed(expected: ExpectedDelivery, evidence: Evidence, kind: ArtifactKind) {
    || (kind == TextArtifact && Trim(evidence.finalMessage) != "")
    || (kind == CanvasRevision && CanvasWitness(expected.targetCanvasId, evidence))
    || (exists a :: a in evidence.artifacts && a.kind == kind && ValidArtifact(a))
  }

  /** Satisfied evidence holds a concrete witness for every artifact kind the contract requires. */
  lemma RequiredArtifactsAreWitnessed(expected: ExpectedDelivery, evidence: Evidence, kind: ArtifactKind)
    requires Verify(expected, evidence).status == Satisfied && kind in expected.requiredArtifacts
    ensures Witnessed(expected, evidence, kind)
  {
    VerdictExactly(expected, evidence);
    assert Covered(expected, kind);
    if HasArtifactCriterion(expected, kind) {
      var c :| c in expected.completionCriteria && c.fact.AboutArtifact() && c.artifact == kind;
      assert Meets(expected.targetCanvasId, evidence, c);
    } else if kind == TextArtifact {
      var c :| c in expected.completionCriteria && c.fact == FinalMessage;
      assert Meets(expected.targetCanvasId, evidence, c);
    } else {
      var c :| c in expected.completionCriteria && c.fact == CanvasRevisionFact;
      assert Meets(expected.targetCanvasId, evidence, c);
    }
  }

  // ---------------------------------------------------------------- what satisfied evidence shows

  predicate SomeArtifact(evidence: Evidence, kind: ArtifactKind, has: Artifact -> bool) {
    exists a :: a in evidence.artifacts && a.kind == kind && has(a)
  }

  /** Among artifacts that keep their rules a criterion about an artifact comes down to a few facts: a
      publication shows the rest of what it needs by itself, and so does a binding to the canvas. */
  lemma MetExactly(target: string, evidence: Evidence, c: Criterion)
    requires forall a :: a in evidence.artifacts ==> ValidArtifact(a)
    ensures Meets(target, evidence, c) <==>
            match c.fact
            case FinalMessage => Trim(evidence.finalMessage) != ""
            case CanvasRevisionFact => evidence.canvasRevision > 0 && evidence.canvasId == target && evidence.canvasCurrent
            case ArtifactFact =>
              if c.artifact == TextArtifact then SomeArtifact(evidence, TextArtifact, (a: Artifact) => a.approved && a.currentRevision)
              else SomeArtifact(evidence, c.artifact, (a: Artifact) => a.url != "")
            case ArtifactRevision => SomeArtifact(evidence, c.artifact, (a: Artifact) => a.revisionId != "" && a.approved)
            case Resource => SomeArtifact(evidence, c.artifact, (a: Artifact) => a.revisionId != "" && a.approved && a.resourceReady)
            case Publication => SomeArtifact(evidence, c.artifact, (a: Artifact) => a.publicationId != "")
            case TaskBackedResource =>
              SomeArtifact(evidence, c.artifact, (a: Artifact) =>
                a.resourceReady && a.sourceTaskId != "" && a.sourceTaskSucceeded && (a.revisionId == "" || a.currentRevision))
            case CanvasBoundResource => SomeArtifact(evidence, c.artifact, (a: Artifact) => a.canvasBound)
            case UnknownFact => false
  {
    hide Trim, Utf8Len;
    forall a | a in evidence.artifacts && a.kind == c.artifact ensures Matches(c.fact, a) <==> MatchesBriefly(c.fact, a) {
      BriefMatch(c.fact, a);
    }
    hide Matches, ValidArtifact;
  }

  /** What `Matches` comes down to on an artifact that keeps its rules. */
  predicate MatchesBriefly(fact: Fact, a: Artifact) {
    match fact
    case ArtifactFact => if a.kind == TextArtifact then a.approved && a.currentRevision else a.url != ""
    case ArtifactRevision => a.revisionId != "" && a.approved
    case Resource => a.revisionId != "" && a.approved && a.resourceReady
    case Publication => a.publicationId != ""
    case TaskBackedResource => a.resourceReady && a.sourceTaskId != "" && a.sourceTaskSucceeded && (a.revisionId == "" || a.currentRevision)
    case CanvasBoundResource => a.canvasBound
    case _ => false
  }

  lemma BriefMatch(fact: Fact, a: Artifact)
    requires ValidArtifact(a)
    ensures Matches(fact, a) <==> MatchesBriefly(fact, a)
  {
    hide Trim, Utf8Len;
  }

  /** Short enough, without white space at either end; it may be empty. */
  predicate Plain(value: string, limit: nat) {
    Utf8Len(value) <= limit && (value == "" || (!IsSpace(value[0]) && !IsSpace(value[|value| - 1])))
  }

  /** The rules between the facts of an artifact, by what it has: one without a revision has an address, is
      not current and is approved exactly when it is published; one that is published is approved and ready;
      one that is ready has a resource and an address; one bound to the canvas is ready, with a node and a
      task that succeeded. */
  lemma ArtifactExactly(a: Artifact)
    ensures ValidArtifact(a) <==>
            && a.kind in {Image, Video, Audio, TextArtifact, CanvasRevision} && Plain(a.url, 4096)
            && (forall id :: id in {a.artifactId, a.revisionId, a.resourceId, a.publicationId, a.sourceTaskId, a.targetCanvasNodeId} ==>
                 Plain(id, 120))
            && (if a.revisionId == "" then a.artifactId == "" && a.url != "" && !a.currentRevision && (a.approved <==> a.publicationId != "")
                else a.artifactId != "")
            && (a.publicationId != "" ==> a.approved && a.resourceReady)
            && (a.resourceReady ==> a.resourceId != "" && a.url != "")
            && (a.canvasBound ==> a.resourceReady && a.targetCanvasNodeId != "" && a.sourceTaskId != "" && a.sourceTaskSucceeded)
  {
    hide Utf8Len, IsSpace;
    forall id ensures ValidOptionalIdentity(id) <==> Plain(id, 120) {
    }
    assert Trimmed(a.url) && Utf8Len(a.url) <= 4096 <==> Plain(a.url, 4096);
    hide Trimmed, Plain, ValidOptionalIdentity;
  }

  /** Satisfied evidence shows, field by field, an artifact for every criterion about one. */
  lemma SatisfiedShows(expected: ExpectedDelivery, evidence: Evidence, c: Criterion) returns (a: Artifact)
    requires Verify(expected, evidence).status == Satisfied && c in expected.completionCriteria && c.fact.AboutArtifact()
    ensures a in evidence.artifacts && a.kind == c.artifact
    ensures c.fact in {ArtifactRevision, Resource} ==> a.artifactId != "" && a.revisionId != "" && a.approved
    ensures c.fact in {Resource, Publication, TaskBackedResource, CanvasBoundResource} ==> a.resourceId != "" && a.resourceReady && a.url != ""
    ensures c.fact == Publication ==> a.publicationId != "" && a.approved
    ensures c.fact in {TaskBackedResource, CanvasBoundResource} ==> a.sourceTaskId != "" && a.sourceTaskSucceeded
    ensures c.fact == TaskBackedResource ==> a.artifactId == "" || a.currentRevision
    ensures c.fact == CanvasBoundResource ==> a.targetCanvasNodeId != "" && a.canvasBound
    ensures c.fact == ArtifactFact ==>
              if c.artifact == TextArtifact then a.artifactId != "" && a.revisionId != "" && a.approved && a.currentRevision else a.url != ""
  {
    VerdictExactly(expected, evidence);
    hide ValidDelivery, ValidArtifact, Verify;
    assert Meets(expected.targetCanvasId, evidence, c);
    a :| a in evidence.artifacts && a.kind == c.artifact && Matches(c.fact, a);
  }

  // ---------------------------------------------------------------- what a contract may ask for

  const MESSAGE := Criterion(FinalMessage, NoArtifact)
  const CANVAS := Criterion(CanvasRevisionFact, NoArtifact)

  /** A criterion about an artifact of one of the five kinds. */
  predicate AsksArtifact(c: Criterion) {
    && c.fact in {ArtifactFact, ArtifactRevision, Resource, Publication, TaskBackedResource, CanvasBoundResource}
    && c.artifact in {Image, Video, Audio, TextArtifact, CanvasRevision}
  }

  /** Some criterion stands for the required kind: one about such an artifact, the message for a text, or
      the canvas for a canvas revision. */
  predicate StandsFor(e: ExpectedDelivery, kind: ArtifactKind) {
    || (exists c :: c in e.completionCriteria && AsksArtifact(c) && c.artifact == kind)
    || (kind == TextArtifact && MESSAGE in e.completionCriteria)
    || (kind == CanvasRevision && CANVAS in e.completionCriteria)
  }

  /** A contract is valid if and only if it has one to sixteen criteria, requires kinds that some criterion
      stands for, each once, and asks for what its kind is about: an answer for the message alone, a canvas
      change for the canvas and perhaps the message, a generated asset for artifacts but not the canvas, and
      a mixed one for the canvas and something else; a canvas is named exactly where it is asked for. */
  lemma ContractExactly(e: ExpectedDelivery)
    ensures ValidDelivery(e) <==>
            && 1 <= |e.completionCriteria| <= 16
            && (forall c :: c in e.completionCriteria ==> c == MESSAGE || c == CANVAS || AsksArtifact(c))
            && (forall k :: k in e.requiredArtifacts ==> k in {Image, Video, Audio, TextArtifact, CanvasRevision} && StandsFor(e, k))
            && (forall i, j :: 0 <= i < j < |e.requiredArtifacts| ==> e.requiredArtifacts[i] != e.requiredArtifacts[j])
            && (Trim(e.targetCanvasId) != "" <==> CANVAS in e.completionCriteria)
            && match e.kind
               case Answer => forall c :: c in e.completionCriteria ==> c == MESSAGE
               case CanvasChange => CANVAS in e.completionCriteria && forall c :: c in e.completionCriteria ==> !AsksArtifact(c)
               case GeneratedAsset =>
                 e.requiredArtifacts != [] && CANVAS !in e.completionCriteria && exists c :: c in e.completionCriteria && AsksArtifact(c)
               case Mixed => CANVAS in e.completionCriteria && exists c :: c in e.completionCriteria && c != CANVAS
               case UnknownKind => false
  {
    hide Trim;
    if e.completionCriteria != [] {
      assert e.completionCriteria[0] in e.completionCriteria;
    }
    forall c | c in e.completionCriteria ensures WellFormedCriterion(c) <==> c == MESSAGE || c == CANVAS || AsksArtifact(c) {
    }
    assert Distinct(e.requiredArtifacts) <==>
      forall i, j :: 0 <= i < j < |e.requiredArtifacts| ==> e.requiredArtifacts[i] != e.requiredArtifacts[j];
    if forall c :: c in e.completionCriteria ==> WellFormedCriterion(c) {
      FactsOfCriteria(e);
    }
  }

  lemma FactsOfCriteria(e: ExpectedDelivery)
    requires forall c :: c in e.completionCriteria ==> WellFormedCriterion(c)
    ensures HasFact(e, FinalMessage) <==> MESSAGE in e.completionCriteria
    ensures HasFact(e, CanvasRevisionFact) <==> CANVAS in e.completionCriteria
    ensures forall k :: HasArtifactCriterion(e, k) <==> exists c :: c in e.completionCriteria && AsksArtifact(c) && c.artifact == k
    ensures HasAnyArtifactCriterion(e) <==> exists c :: c in e.completionCriteria && AsksArtifact(c)
  {
    forall c | c in e.completionCriteria ensures c.fact.AboutArtifact() <==> AsksArtifact(c) {
    }
    hide WellFormedCriterion;
    if HasFact(e, FinalMessage) {
      var c :| c in e.completionCriteria && c.fact == FinalMessage;
      MessageCriterion(c);
    }
    if HasFact(e, CanvasRevisionFact) {
      var c :| c in e.completionCriteria && c.fact == CanvasRevisionFact;
      MessageCriterion(c);
    }
  }

  lemma MessageCriterion(c: Criterion)
    requires WellFormedCriterion(c)
    ensures c.fact == FinalMessage ==> c == MESSAGE
    ensures c.fact == CanvasRevisionFact ==> c == CANVAS
  {
  }
}
