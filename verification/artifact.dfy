/** References to exact artifact revisions. */
module Artifact {
  import opened Text

  const MAX_KEY := 120

  /** A non-empty trimmed text of bounded length in bytes. */
  predicate ValidText(value: string, maximum: nat) {
    Trim(value) == value && value != "" && Utf8Len(value) <= maximum
  }

  /** A valid text begins and ends with something that is not white space, and fits. */
  lemma ValidTextExactly(value: string, maximum: nat)
    ensures ValidText(value, maximum) <==>
            value != "" && !IsSpace(value[0]) && !IsSpace(value[|value| - 1]) && Utf8Len(value) <= maximum
  {
    hide IsSpace, Utf8Len, Trim;
  }

  predicate ValidKey(key: string) {
    ValidText(key, MAX_KEY)
  }

  datatype RevisionRef = RevisionRef(artifactId: string, revisionId: string) {
    predicate Valid() {
      ValidKey(artifactId) && ValidKey(revisionId)
    }
  }

  /** Valid references to distinct artifacts. */
  predicate ValidRefs(refs: seq<RevisionRef>) {
    && (forall i :: 0 <= i < |refs| ==> refs[i].Valid())
    && forall i, j :: 0 <= i < j < |refs| ==> refs[i].artifactId != refs[j].artifactId
  }

  method CheckRefs(refs: seq<RevisionRef>) returns (ok: bool)
    ensures ok <==> ValidRefs(refs)
  {
    hide ValidKey;
    var seen: set<string> := {};
    for i := 0 to |refs|
      invariant ValidRefs(refs[..i])
      invariant forall a :: a in seen <==> exists k :: 0 <= k < i && refs[k].artifactId == a
    {
      if !refs[i].Valid() || refs[i].artifactId in seen {
        return false;
      }
      seen := seen + {refs[i].artifactId};
    }
    assert refs[..|refs|] == refs;
    return true;
  }
}
