/** The "Sanity Check Collection" operator: every required object name must
    appear among the objects of the collection named "Collection". */
module SanityCheck {
  import opened Common
  import opened BlendData

  /** The collection the operator inspects. */
  const CollectionName: string := "Collection"

  /** The required object names, in the order they are checked and
      reported. */
  const RequiredObjects: seq<string> := [
    "BODY_H", "HLIGHT_L", "RLIGHT_L", "SHADOW_H", "TLIGHT_L",
    "WHL0_H", "WHL1_H", "WHL2_H", "WHL3_H"
  ]

  /** No element occurs twice. */
  predicate Distinct<T(==)>(s: seq<T>) {
    forall i, j :: 0 <= i < j < |s| ==> s[i] != s[j]
  }

  /** `a` is `b` with some elements dropped, the rest kept in order. */
  predicate IsSubsequence<T(==)>(a: seq<T>, b: seq<T>)
    decreases |b|
  {
    if a == [] then true
    else if b == [] then false
    else if a[|a| - 1] == b[|b| - 1] then IsSubsequence(a[..|a| - 1], b[..|b| - 1])
    else IsSubsequence(a, b[..|b| - 1])
  }

  /** The required names absent from `present`, in the order of `required`:
      exactly the names that are required and not present, none out of
      order. */
  function Missing(required: seq<string>, present: seq<string>): (m: seq<string>)
    ensures forall x :: x in m <==> x in required && x !in present
    ensures IsSubsequence(m, required)
    ensures |m| <= |required|
  {
    if required == [] then []
    else
      var last := required[|required| - 1];
      var prefix := Missing(required[..|required| - 1], present);
      assert required == required[..|required| - 1] + [last];
      if last in present then
        SubsequenceExtend(prefix, required[..|required| - 1], last);
        prefix
      else prefix + [last]
  }

  /** Adding an element at the end of the larger sequence keeps a
      subsequence a subsequence. */
  lemma {:induction false} SubsequenceExtend(a: seq<string>, b: seq<string>, x: string)
    requires IsSubsequence(a, b)
    ensures IsSubsequence(a, b + [x])
    decreases |b|, 1
  {
    assert (b + [x])[..|b|] == b;
    if a != [] && a[|a| - 1] == x {
      SubsequenceDropLast(a, b);
    }
  }

  /** Dropping the last element of a subsequence keeps it a subsequence. */
  lemma {:induction false} SubsequenceDropLast(a: seq<string>, b: seq<string>)
    requires a != [] && IsSubsequence(a, b)
    ensures IsSubsequence(a[..|a| - 1], b)
    decreases |b|, 0
  {
    var a', b' := a[..|a| - 1], b[..|b| - 1];
    assert b == b' + [b[|b| - 1]];
    if a[|a| - 1] == b[|b| - 1] {
      SubsequenceExtend(a', b', b[|b| - 1]);
    } else {
      SubsequenceDropLast(a, b');
      SubsequenceExtend(a', b', b[|b| - 1]);
    }
  }

  /** A required list without repeats yields a missing list without
      repeats. */
  lemma {:induction false} MissingDistinct(required: seq<string>, present: seq<string>)
    requires Distinct(required)
    ensures Distinct(Missing(required, present))
  {
    if required != [] {
      var prefix := required[..|required| - 1];
      MissingDistinct(prefix, present);
      assert required[|required| - 1] !in prefix;
    }
  }

  /** The nine required names are pairwise different. */
  lemma RequiredObjectsDistinct()
    ensures Distinct(RequiredObjects)
  {
  }

  /** The loop that fills `missing_objects`: for each required name in turn,
      append it when it is not among the collection's names. */
  method CollectMissing(required: seq<string>, present: seq<string>) returns (missing: seq<string>)
    ensures missing == Missing(required, present)
  {
    missing := [];
    for i := 0 to |required|
      invariant missing == Missing(required[..i], present)
    {
      assert required[..i + 1][..i] == required[..i];
      if required[i] !in present {
        missing := missing + [required[i]];
      }
    }
    assert required[..|required|] == required;
  }

  /** The operator: CANCELLED with nothing listed when there is no
      collection called "Collection"; otherwise the list of missing required
      names, and CANCELLED exactly when that list is non-empty. */
  method SanityCheckCollection(collections: map<string, Collection>) returns (status: Status, missing: seq<string>)
    ensures CollectionName !in collections ==> status == Cancelled && missing == []
    ensures CollectionName in collections ==>
      missing == Missing(RequiredObjects, ObjectNames(collections[CollectionName].objects))
    ensures CollectionName in collections ==> (status == Cancelled <==> missing != [])
    ensures status == Finished <==>
      CollectionName in collections &&
      forall r :: r in RequiredObjects ==> r in ObjectNames(collections[CollectionName].objects)
    ensures Distinct(missing)
  {
    missing := [];
    if CollectionName !in collections {
      return Cancelled, missing;
    }
    var collection := collections[CollectionName];
    var names := ObjectNames(collection.objects);
    missing := CollectMissing(RequiredObjects, names);
    RequiredObjectsDistinct();
    MissingDistinct(RequiredObjects, names);
    if missing != [] {
      assert missing[0] in RequiredObjects && missing[0] !in names;
      return Cancelled, missing;
    }
    status := Finished;
  }
}
