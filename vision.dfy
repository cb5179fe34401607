/** The label normalisation of the YOLO ingredient service
    `yolo_service.py`: detector labels are mapped to their Vietnamese names
    through the configured dictionary and deduplicated. The detector itself
    is a parameter. */
module Vision {
  import opened Wrappers

  /** A detection as `detect_objects` reports it. */
  datatype Detection = Detection(rawLabel: string, confidence: real)

  /** `YOLO_CLASS_TO_VI.get(raw_label)` when it is truthy. */
  function VietName(raw: string, classToVi: map<string, string>): Option<string>
  {
    if raw in classToVi && classToVi[raw] != "" then Some(classToVi[raw]) else None
  }

  /** Some detection's label maps to `name`. */
  predicate Produces(detections: seq<Detection>, classToVi: map<string, string>, name: string)
  {
    exists k :: 0 <= k < |detections| && VietName(detections[k].rawLabel, classToVi) == Some(name)
  }

  predicate Distinct(names: seq<string>)
  {
    forall i, j :: 0 <= i < j < |names| ==> names[i] != names[j]
  }

  /** `names` is a normalisation of `detections`: no name twice, every name
      the mapping of some detection, and every mapped detection represented.
      The order is left open, as the order of `list(set)` is. */
  predicate NormalizedFrom(names: seq<string>, detections: seq<Detection>, classToVi: map<string, string>)
  {
    && Distinct(names)
    && (forall i :: 0 <= i < |names| ==> Produces(detections, classToVi, names[i]))
    && (forall k :: 0 <= k < |detections| && VietName(detections[k].rawLabel, classToVi).Some? ==>
          VietName(detections[k].rawLabel, classToVi).value in names)
  }

  /** The set `normalize_ingredients` builds: the truthy mappings of the
      detections' labels. */
  method CollectNames(detections: seq<Detection>, classToVi: map<string, string>) returns (ingredients: set<string>)
    ensures forall x :: x in ingredients ==> Produces(detections, classToVi, x)
    ensures forall k :: 0 <= k < |detections| && VietName(detections[k].rawLabel, classToVi).Some? ==>
              VietName(detections[k].rawLabel, classToVi).value in ingredients
  {
    ingredients := {};
    var i := 0;
    while i < |detections|
      invariant 0 <= i <= |detections|
      invariant forall x :: x in ingredients ==>
                  exists k :: 0 <= k < i && VietName(detections[k].rawLabel, classToVi) == Some(x)
      invariant forall k :: 0 <= k < i && VietName(detections[k].rawLabel, classToVi).Some? ==>
                  VietName(detections[k].rawLabel, classToVi).value in ingredients
    {
      var viName := VietName(detections[i].rawLabel, classToVi);
      if viName.Some? {
        ingredients := ingredients + {viName.value};
      }
      i := i + 1;
    }
  }

  /** `list(s)`: the elements of the set, each once, in some order. */
  method ListOf(s: set<string>) returns (names: seq<string>)
    ensures Distinct(names)
    ensures forall x :: x in names <==> x in s
    ensures forall j :: 0 <= j < |names| ==> names[j] in s
  {
    names := [];
    var rest := s;
    while rest != {}
      invariant rest <= s
      invariant forall x :: x in s ==> (x in rest <==> x !in names)
      invariant forall j :: 0 <= j < |names| ==> names[j] in s
      invariant Distinct(names)
      decreases |rest|
    {
      var x :| x in rest;
      names := names + [x];
      rest := rest - {x};
    }
  }

  /** `normalize_ingredients(detections)`: the names are collected in a set,
      which is then listed in some order. */
  method NormalizeIngredients(detections: seq<Detection>, classToVi: map<string, string>) returns (names: seq<string>)
    ensures NormalizedFrom(names, detections, classToVi)
  {
    var ingredients := CollectNames(detections, classToVi);
    names := ListOf(ingredients);
    forall i | 0 <= i < |names| ensures Produces(detections, classToVi, names[i]) {
      assert names[i] in ingredients;
    }
  }

  /** In a list without repeats every element occurs once. */
  lemma {:induction false} DistinctOccursOnce(names: seq<string>, x: string)
    requires Distinct(names)
    ensures multiset(names)[x] == if x in names then 1 else 0
    decreases |names|
  {
    if names != [] {
      var init := names[..|names| - 1];
      assert names == init + [names[|names| - 1]];
      assert Distinct(init);
      DistinctOccursOnce(init, x);
      assert names[|names| - 1] !in init;
    }
  }

  /** Two normalisations of the same detections hold the same names: they
      differ at most in order. */
  lemma NormalizedUpToOrder(a: seq<string>, b: seq<string>, detections: seq<Detection>, classToVi: map<string, string>)
    requires NormalizedFrom(a, detections, classToVi) && NormalizedFrom(b, detections, classToVi)
    ensures multiset(a) == multiset(b)
  {
    forall x ensures multiset(a)[x] == multiset(b)[x] {
      DistinctOccursOnce(a, x);
      DistinctOccursOnce(b, x);
      if x in a {
        var i :| 0 <= i < |a| && a[i] == x;
        assert Produces(detections, classToVi, a[i]);
      }
      if x in b {
        var i :| 0 <= i < |b| && b[i] == x;
        assert Produces(detections, classToVi, b[i]);
      }
    }
  }

  /** No detection, no ingredient; nor when no label has a truthy mapping
      (it is missing from the dictionary or mapped to the empty string). */
  lemma NormalizedFromNothing(names: seq<string>, detections: seq<Detection>, classToVi: map<string, string>)
    requires NormalizedFrom(names, detections, classToVi)
    requires forall k :: 0 <= k < |detections| ==>
               detections[k].rawLabel !in classToVi || classToVi[detections[k].rawLabel] == ""
    ensures names == []
  {
    assert forall k :: 0 <= k < |detections| ==> VietName(detections[k].rawLabel, classToVi).None?;
    assert forall x :: x !in names;
    assert multiset(names) == multiset{};
    assert |names| == |multiset(names)| == 0;
  }

  /** `detect_ingredients(image_bytes)`: the detector (which raises on an
      image it cannot decode), then the normalisation of its detections. */
  method DetectIngredients(detect: seq<int> -> Result<seq<Detection>, string>, classToVi: map<string, string>,
                           image: seq<int>) returns (r: Result<seq<string>, string>)
    ensures detect(image).Err? ==> r == Err(detect(image).error)
    ensures detect(image).Ok? ==> r.Ok? && NormalizedFrom(r.value, detect(image).value, classToVi)
  {
    var detections := detect(image);
    if detections.Err? {
      return Err(detections.error);
    }
    var names := NormalizeIngredients(detections.value, classToVi);
    return Ok(names);
  }
}
