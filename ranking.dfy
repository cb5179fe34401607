/** The recipe ranking engine (`RecipeRAGService`): an ingredient-overlap
    score, and `retrieve`, which takes twice `top_k` nearest neighbours from
    the vector index, scores each against the query ingredients, keeps those
    scoring at least 0.2, sorts them by (match score, semantic score) from
    high to low and returns the first `top_k`. The encoder and the vector
    search are parameters; scores are reals. */
module Ranking {
  import opened Wrappers
  import opened Text
  import opened Json
  import Embedding

  /** The smallest match score a candidate needs to be kept. */
  const Threshold: real := 0.2

  /** The payload key holding the comma-separated search ingredients. */
  const CsvKey := "nguyen_lieu_search"

  /** The payload key holding the dish name. */
  const NameKey := "ten_mon"

  /** The payload key `retrieve` reads the recipe id from. */
  const ReadIdKey := "id"

  /** The exceptions `retrieve` can raise while reading a payload. */
  datatype Fault =
    | KeyError(key: string)        // `payload[key]` on an absent key
    | AttributeError(key: string)  // `.split` on a value that is not a string

  /** A nearest neighbour: its similarity score and its payload. */
  datatype Hit = Hit(score: real, payload: Dict)

  /** One entry of the result. */
  datatype Ranked = Ranked(id: Value, name: Value, matchScore: real, semanticScore: real)

  // ---------------------------------------------------------------------
  // Match score
  // ---------------------------------------------------------------------

  /** `set(xs)` */
  function ElemSet(xs: seq<string>): set<string>
  {
    set x | x in xs
  }

  lemma ElemSetEmpty(xs: seq<string>)
    ensures ElemSet(xs) == {} <==> xs == []
  {
    if xs != [] {
      assert xs[0] in ElemSet(xs);
    }
  }

  /** A subset is no larger than its superset, and equally large only when it
      is the whole superset. */
  lemma {:induction false} SubsetCardinality(a: set<string>, b: set<string>)
    requires a <= b
    ensures |a| <= |b|
    ensures |a| == |b| ==> a == b
    decreases |b|
  {
    if a != {} {
      var x :| x in a;
      SubsetCardinality(a - {x}, b - {x});
      assert |a - {x}| == |a| - 1 && |b - {x}| == |b| - 1;
      if |a| == |b| {
        assert a == (a - {x}) + {x} == (b - {x}) + {x} == b;
      }
    } else if b != {} {
      var y :| y in b;
      assert y !in a;
    }
  }

  /** `ingredient_match_score`: the size of the intersection over the size of
      the union of the two ingredient sets (Jaccard), and 0 when either set is
      empty. The score lies in [0, 1]; it is 0 exactly when the sets share no
      ingredient and 1 exactly when they are the same non-empty set. */
  function MatchScore(recipe: seq<string>, query: seq<string>): (score: real)
    ensures 0.0 <= score <= 1.0
    ensures score == 0.0 <==> ElemSet(recipe) * ElemSet(query) == {}
    ensures score == 1.0 <==> recipe != [] && ElemSet(recipe) == ElemSet(query)
  {
    var r, q := ElemSet(recipe), ElemSet(query);
    ElemSetEmpty(recipe);
    ElemSetEmpty(query);
    if q == {} || r == {} then 0.0
    else
      SubsetCardinality(r * q, r + q);
      SubsetCardinality(r, r + q);
      assert r * q == {} <==> |r * q| == 0;
      assert r * q == r + q ==> r == q by {
        if r * q == r + q {
          assert forall x :: x in r ==> x in q;
          assert forall x :: x in q ==> x in r;
        }
      }
      Ratio(|r * q|, |r + q|);
      (|r * q| as real) / (|r + q| as real)
  }

  /** A count over a larger positive count lies in [0, 1], is 0 exactly when
      the count is, and 1 exactly when the two are equal. */
  lemma Ratio(a: nat, b: nat)
    requires 0 < b && a <= b
    ensures var x := (a as real) / (b as real);
            && 0.0 <= x <= 1.0
            && (x == 0.0 <==> a == 0)
            && (x == 1.0 <==> a == b)
  {
    var x := (a as real) / (b as real);
    assert x * (b as real) == a as real;
  }

  /** The score is symmetric in its two arguments: it is Jaccard similarity,
      not intersection over the query. */
  lemma MatchScoreSymmetric(recipe: seq<string>, query: seq<string>)
    ensures MatchScore(recipe, query) == MatchScore(query, recipe)
  {
    var r, q := ElemSet(recipe), ElemSet(query);
    assert r * q == q * r;
    assert r + q == q + r;
  }

  /** The score depends only on the two ingredient sets: neither the order
      of the lists nor repeated ingredients change it. */
  lemma MatchScoreIgnoresRepeats(r1: seq<string>, q1: seq<string>, r2: seq<string>, q2: seq<string>)
    requires ElemSet(r1) == ElemSet(r2) && ElemSet(q1) == ElemSet(q2)
    ensures MatchScore(r1, q1) == MatchScore(r2, q2)
  {
  }

  /** For instance, a duplicate appended to either list changes nothing. */
  lemma MatchScoreIgnoresAppendedRepeat(recipe: seq<string>, query: seq<string>, i: nat)
    requires i < |recipe|
    ensures MatchScore(recipe + [recipe[i]], query) == MatchScore(recipe, query)
  {
    assert ElemSet(recipe + [recipe[i]]) == ElemSet(recipe);
    MatchScoreIgnoresRepeats(recipe + [recipe[i]], query, recipe, query);
  }

  /** The doc-comment's "intersection over query" would give 1 here, where
      every query ingredient is in the recipe; the score is 2/3. */
  lemma MatchScoreIsNotIntersectionOverQuery()
    ensures MatchScore(["gà", "gừng", "nước mắm"], ["gà", "gừng"]) == 2.0 / 3.0
  {
    var r, q := ElemSet(["gà", "gừng", "nước mắm"]), ElemSet(["gà", "gừng"]);
    assert r == {"gà", "gừng", "nước mắm"};
    assert q == {"gà", "gừng"};
    assert r * q == {"gà", "gừng"};
    assert r + q == r;
  }

  /** Nor is it coverage of the recipe (intersection over the recipe's
      ingredients), which would give 1 for a recipe all of whose ingredients
      are in the query; extra query ingredients lower the score. */
  lemma MatchScoreIsNotRecipeCoverage()
    ensures MatchScore(["gà"], ["gà", "gừng"]) == 1.0 / 2.0
  {
    var r, q := ElemSet(["gà"]), ElemSet(["gà", "gừng"]);
    assert r == {"gà"};
    assert q == {"gà", "gừng"};
    assert r * q == {"gà"};
    assert r + q == q;
  }

  // ---------------------------------------------------------------------
  // Parsing a payload
  // ---------------------------------------------------------------------

  /** `i.strip().lower()` */
  function Normalize(x: string): string
  {
    Lower(Strip(x))
  }

  /** `[i.strip().lower() for i in csv.split(",")]` */
  function Tokens(csv: string): (tokens: seq<string>)
    ensures |tokens| == |Split(csv, ',')|
  {
    var parts := Split(csv, ',');
    seq(|parts|, k requires 0 <= k < |parts| => Normalize(parts[k]))
  }

  /** A string without a comma yields one token, so an empty string yields
      the token set {""}, which is not empty. */
  lemma TokensOfCommaFree(x: string)
    requires ',' !in x
    ensures Tokens(x) == [Normalize(x)]
    ensures Tokens("") == [""]
  {
    SplitWithoutSeparator(x, ',');
    var t := Tokens(x);
    assert |t| == 1 && t[0] == Normalize(x);
    var e := Tokens("");
    assert Split("", ',') == [""];
    assert Strip("") == "";
    assert |e| == 1 && e[0] == Lower("");
  }

  /** The tokens of a hit: the payload's `nguyen_lieu_search` (`""` when the
      key is absent) split and normalised; `AttributeError` when that value is
      not a string. */
  function HitTokens(hit: Hit): Result<seq<string>, Fault>
  {
    var csv := Get(hit.payload, CsvKey, Str(""));
    if csv.Str? then Ok(Tokens(csv.s)) else Err(AttributeError(CsvKey))
  }

  /** One turn of the loop in `retrieve`: parse, score and, when the score
      reaches the threshold, read the id under `idKey` and the name. `None`
      when the hit is dropped. */
  function ScoreHit(hit: Hit, query: seq<string>, idKey: string): Result<Option<Ranked>, Fault>
  {
    match HitTokens(hit)
    case Err(e) => Err(e)
    case Ok(tokens) =>
      var m := MatchScore(tokens, query);
      if m < Threshold then Ok(None)
      else if idKey !in hit.payload then Err(KeyError(idKey))
      else if NameKey !in hit.payload then Err(KeyError(NameKey))
      else Ok(Some(Ranked(hit.payload[idKey], hit.payload[NameKey], m, hit.score)))
  }

  /** The list the loop of `retrieve` builds, in hit order; the first hit that
      raises decides the error. */
  function Scan(hits: seq<Hit>, query: seq<string>, idKey: string): Result<seq<Ranked>, Fault>
    decreases |hits|
  {
    if hits == [] then Ok([])
    else
      match Scan(hits[..|hits| - 1], query, idKey)
      case Err(e) => Err(e)
      case Ok(kept) =>
        match ScoreHit(hits[|hits| - 1], query, idKey)
        case Err(e) => Err(e)
        case Ok(None) => Ok(kept)
        case Ok(Some(r)) => Ok(kept + [r])
  }

  // ---------------------------------------------------------------------
  // Ordering: `results.sort(key=(match_score, semantic_score), reverse=True)`
  // ---------------------------------------------------------------------

  /** `a`'s sort key is greater than `b`'s in the lexicographic order of
      (match score, semantic score). */
  predicate Outranks(a: Ranked, b: Ranked)
  {
    a.matchScore > b.matchScore
    || (a.matchScore == b.matchScore && a.semanticScore > b.semanticScore)
  }

  /** Non-increasing by the sort key. */
  predicate Ordered(s: seq<Ranked>)
  {
    forall i, j :: 0 <= i < j < |s| ==> !Outranks(s[j], s[i])
  }

  /** The entries whose sort key is (m, sem), in their order in `s`. */
  function Tied(s: seq<Ranked>, m: real, sem: real): seq<Ranked>
  {
    if s == [] then []
    else if s[0].matchScore == m && s[0].semanticScore == sem then [s[0]] + Tied(s[1..], m, sem)
    else Tied(s[1..], m, sem)
  }

  /** Puts `x` in front of the first entry it does not rank below. */
  function Insert(x: Ranked, t: seq<Ranked>): seq<Ranked>
  {
    if t == [] then [x]
    else if Outranks(t[0], x) then [t[0]] + Insert(x, t[1..])
    else [x] + t
  }

  /** Python's stable sort in descending key order, as an insertion sort
      from the back: among equal keys the earlier entry stays first. */
  function SortDesc(s: seq<Ranked>): seq<Ranked>
  {
    if s == [] then [] else Insert(s[0], SortDesc(s[1..]))
  }

  lemma {:induction false} InsertPermutes(x: Ranked, t: seq<Ranked>)
    ensures multiset(Insert(x, t)) == multiset(t) + multiset{x}
    decreases |t|
  {
    if t != [] && Outranks(t[0], x) {
      InsertPermutes(x, t[1..]);
      assert t == [t[0]] + t[1..];
    }
  }

  lemma {:induction false} InsertOrdered(x: Ranked, t: seq<Ranked>)
    requires Ordered(t)
    ensures Ordered(Insert(x, t))
    decreases |t|
  {
    if t != [] {
      if Outranks(t[0], x) {
        var rest := Insert(x, t[1..]);
        InsertOrdered(x, t[1..]);
        InsertPermutes(x, t[1..]);
        forall j | 0 <= j < |rest| ensures !Outranks(rest[j], t[0]) {
          assert rest[j] in multiset(rest);
          if rest[j] != x {
            assert rest[j] in multiset(t[1..]);
            var k :| 0 <= k < |t[1..]| && t[1..][k] == rest[j];
            assert t[k + 1] == rest[j];
          }
        }
      } else {
        assert forall j :: 0 <= j < |t| ==> !Outranks(t[j], t[0]);
      }
    }
  }

  /** The insertion sort returns the entries it was given. */
  lemma {:induction false} SortDescPermutes(s: seq<Ranked>)
    ensures multiset(SortDesc(s)) == multiset(s)
    decreases |s|
  {
    if s != [] {
      SortDescPermutes(s[1..]);
      InsertPermutes(s[0], SortDesc(s[1..]));
      assert s == [s[0]] + s[1..];
    }
  }

  /** The insertion sort returns them in non-increasing key order. */
  lemma {:induction false} SortDescOrdered(s: seq<Ranked>)
    ensures Ordered(SortDesc(s))
    decreases |s|
  {
    if s != [] {
      SortDescOrdered(s[1..]);
      InsertOrdered(s[0], SortDesc(s[1..]));
    }
  }

  lemma {:induction false} InsertTied(x: Ranked, t: seq<Ranked>, m: real, sem: real)
    ensures Tied(Insert(x, t), m, sem)
            == if x.matchScore == m && x.semanticScore == sem then [x] + Tied(t, m, sem) else Tied(t, m, sem)
    decreases |t|
  {
    if t != [] && Outranks(t[0], x) {
      InsertTied(x, t[1..], m, sem);
      var ins := Insert(x, t);
      assert ins[1..] == Insert(x, t[1..]);
    } else if t != [] {
      assert ([x] + t)[1..] == t;
    }
  }

  /** The sort is stable: entries with equal keys keep their relative order. */
  lemma {:induction false} SortDescStable(s: seq<Ranked>, m: real, sem: real)
    ensures Tied(SortDesc(s), m, sem) == Tied(s, m, sem)
    decreases |s|
  {
    if s != [] {
      SortDescStable(s[1..], m, sem);
      InsertTied(s[0], SortDesc(s[1..]), m, sem);
    }
  }

  // ---------------------------------------------------------------------
  // retrieve
  // ---------------------------------------------------------------------

  function Min(a: nat, b: nat): nat
  {
    if a <= b then a else b
  }

  /** What `retrieve` returns for the hits of the vector search: the kept
      entries, sorted, cut to `top_k`; or the first exception raised. */
  function Rank(hits: seq<Hit>, query: seq<string>, topK: nat, idKey: string): Result<seq<Ranked>, Fault>
  {
    match Scan(hits, query, idKey)
    case Err(e) => Err(e)
    case Ok(kept) =>
      var sorted := SortDesc(kept);
      Ok(sorted[..Min(topK, |sorted|)])
  }

  /** `retrieve(ingredients, top_k)`, reading the recipe id under `idKey`
      (the source reads `ReadIdKey`): embeds the query text, asks the search
      for `2 * top_k` neighbours, keeps and orders them as `Rank` says. */
  method Retrieve<V>(embed: string -> V, search: (V, nat) -> seq<Hit>,
                     ingredients: seq<string>, topK: nat, idKey: string)
    returns (result: Result<seq<Ranked>, Fault>)
    requires topK > 0
    ensures result == Rank(search(Embedding.EmbedIngredients(embed, ingredients), 2 * topK),
                           ingredients, topK, idKey)
  {
    var queryVector := Embedding.EmbedIngredients(embed, ingredients);
    var hits := search(queryVector, 2 * topK);
    var results: seq<Ranked> := [];
    var i := 0;
    while i < |hits|
      invariant 0 <= i <= |hits|
      invariant Scan(hits[..i], ingredients, idKey) == Ok(results)
    {
      var step := ScoreHit(hits[i], ingredients, idKey);
      ScanNext(hits, i, ingredients, idKey);
      if step.Err? {
        ScanStopsAtError(hits, i + 1, ingredients, idKey);
        return Err(step.error);
      }
      if step.value.Some? {
        results := results + [step.value.value];
      }
      i := i + 1;
    }
    assert hits[..i] == hits;
    results := SortDesc(results);
    result := Ok(results[..Min(topK, |results|)]);
  }

  /** One more turn of the loop of `retrieve` over a prefix that raised
      nothing. */
  lemma ScanNext(hits: seq<Hit>, i: nat, query: seq<string>, idKey: string)
    requires i < |hits| && Scan(hits[..i], query, idKey).Ok?
    ensures var kept := Scan(hits[..i], query, idKey).value;
            Scan(hits[..i + 1], query, idKey) ==
              match ScoreHit(hits[i], query, idKey)
              case Err(e) => Err(e)
              case Ok(None) => Ok(kept)
              case Ok(Some(r)) => Ok(kept + [r])
  {
    assert hits[..i + 1][..i] == hits[..i];
  }

  /** Once a prefix of the hits raises, so do all the hits. */
  lemma {:induction false} ScanStopsAtError(hits: seq<Hit>, n: nat, query: seq<string>, idKey: string)
    requires n <= |hits|
    requires Scan(hits[..n], query, idKey).Err?
    ensures Scan(hits, query, idKey) == Scan(hits[..n], query, idKey)
    decreases |hits| - n
  {
    if n < |hits| {
      assert hits[..n + 1][..n] == hits[..n];
      ScanStopsAtError(hits, n + 1, query, idKey);
    } else {
      assert hits[..n] == hits;
    }
  }

  // ---------------------------------------------------------------------
  // Properties of the ranking
  // ---------------------------------------------------------------------

  /** Every kept entry was produced by a hit whose score reached the
      threshold, with that hit's similarity as its semantic score. */
  lemma {:induction false} ScanProvenance(hits: seq<Hit>, query: seq<string>, idKey: string)
    requires Scan(hits, query, idKey).Ok?
    ensures forall r :: r in Scan(hits, query, idKey).value ==>
              exists i :: 0 <= i < |hits| && ScoreHit(hits[i], query, idKey) == Ok(Some(r))
    decreases |hits|
  {
    if hits != [] {
      var init := hits[..|hits| - 1];
      ScanProvenance(init, query, idKey);
      forall r | r in Scan(hits, query, idKey).value
        ensures exists i :: 0 <= i < |hits| && ScoreHit(hits[i], query, idKey) == Ok(Some(r))
      {
        if r in Scan(init, query, idKey).value {
          var i :| 0 <= i < |init| && ScoreHit(init[i], query, idKey) == Ok(Some(r));
          assert hits[i] == init[i];
        } else {
          assert ScoreHit(hits[|hits| - 1], query, idKey) == Ok(Some(r));
        }
      }
    }
  }

  /** A hit that yields an entry contributes it to the scan. */
  lemma {:induction false} ScanComplete(hits: seq<Hit>, query: seq<string>, idKey: string, i: nat)
    requires Scan(hits, query, idKey).Ok?
    requires i < |hits| && ScoreHit(hits[i], query, idKey).Ok?
    requires ScoreHit(hits[i], query, idKey).value.Some?
    ensures ScoreHit(hits[i], query, idKey).value.value in Scan(hits, query, idKey).value
    decreases |hits|
  {
    var init := hits[..|hits| - 1];
    ScanKeepsPrefix(hits, query, idKey);
    if i < |hits| - 1 {
      assert init[i] == hits[i];
      ScanComplete(init, query, idKey, i);
    }
  }

  /** The entries of all but the last hit come first in the scan. */
  lemma ScanKeepsPrefix(hits: seq<Hit>, query: seq<string>, idKey: string)
    requires hits != [] && Scan(hits, query, idKey).Ok?
    ensures var init := Scan(hits[..|hits| - 1], query, idKey);
            init.Ok? && init.value <= Scan(hits, query, idKey).value
  {
  }

  /** The error of a failing scan is the error some hit raises. */
  lemma {:induction false} ScanErrorFromHit(hits: seq<Hit>, query: seq<string>, idKey: string)
    requires Scan(hits, query, idKey).Err?
    ensures exists i :: 0 <= i < |hits| && ScoreHit(hits[i], query, idKey) == Err(Scan(hits, query, idKey).error)
    decreases |hits|
  {
    var init := hits[..|hits| - 1];
    if Scan(init, query, idKey).Err? {
      ScanErrorFromHit(init, query, idKey);
      var i :| 0 <= i < |init| && ScoreHit(init[i], query, idKey) == Err(Scan(init, query, idKey).error);
      assert hits[i] == init[i];
    }
  }

  /** A scan that raised nothing did not raise at its last hit. */
  lemma ScanLastOk(hits: seq<Hit>, query: seq<string>, idKey: string)
    requires hits != [] && Scan(hits, query, idKey).Ok?
    ensures ScoreHit(hits[|hits| - 1], query, idKey).Ok?
  {
  }

  /** A scan that raised nothing met no hit that raises. */
  lemma {:induction false} ScanOkNoRaise(hits: seq<Hit>, query: seq<string>, idKey: string)
    requires Scan(hits, query, idKey).Ok?
    ensures forall i :: 0 <= i < |hits| ==> ScoreHit(hits[i], query, idKey).Ok?
    decreases |hits|
  {
    if hits != [] {
      var init := hits[..|hits| - 1];
      ScanKeepsPrefix(hits, query, idKey);
      ScanOkNoRaise(init, query, idKey);
      forall i | 0 <= i < |hits| ensures ScoreHit(hits[i], query, idKey).Ok? {
        if i < |init| {
          assert init[i] == hits[i];
        } else {
          assert i == |hits| - 1;
          ScanLastOk(hits, query, idKey);
        }
      }
    }
  }

  /** A scan fails exactly when some hit raises. */
  lemma ScanFailsIff(hits: seq<Hit>, query: seq<string>, idKey: string)
    ensures Scan(hits, query, idKey).Err?
            <==> exists i :: 0 <= i < |hits| && ScoreHit(hits[i], query, idKey).Err?
  {
    if Scan(hits, query, idKey).Err? {
      ScanErrorFromHit(hits, query, idKey);
    } else {
      ScanOkNoRaise(hits, query, idKey);
    }
  }

  /** At most `top_k` entries are returned. */
  lemma RankWithinTopK(hits: seq<Hit>, query: seq<string>, topK: nat, idKey: string)
    requires Rank(hits, query, topK, idKey).Ok?
    ensures |Rank(hits, query, topK, idKey).value| <= topK
  {
  }

  /** Every returned entry comes from a hit: it is what that hit yields, so
      its match score is at least 0.2 and at most 1 and its semantic score is
      the hit's similarity. */
  lemma RankFromHits(hits: seq<Hit>, query: seq<string>, topK: nat, idKey: string)
    requires Rank(hits, query, topK, idKey).Ok?
    ensures forall r :: r in Rank(hits, query, topK, idKey).value ==>
              Threshold <= r.matchScore <= 1.0
              && exists i :: 0 <= i < |hits| && ScoreHit(hits[i], query, idKey) == Ok(Some(r))
                             && r.semanticScore == hits[i].score
  {
    var kept := Scan(hits, query, idKey).value;
    var sorted := SortDesc(kept);
    ScanProvenance(hits, query, idKey);
    SortDescPermutes(kept);
    forall r | r in Rank(hits, query, topK, idKey).value
      ensures Threshold <= r.matchScore <= 1.0
      ensures exists i :: 0 <= i < |hits| && ScoreHit(hits[i], query, idKey) == Ok(Some(r))
                          && r.semanticScore == hits[i].score
    {
      assert r in sorted;
      assert r in multiset(sorted);
      assert r in kept;
    }
  }

  /** The entries are in non-increasing order of (match score, semantic
      score). */
  lemma RankOrdered(hits: seq<Hit>, query: seq<string>, topK: nat, idKey: string)
    requires Rank(hits, query, topK, idKey).Ok?
    ensures Ordered(Rank(hits, query, topK, idKey).value)
  {
    SortDescOrdered(Scan(hits, query, idKey).value);
  }

  /** The result is a prefix of the kept entries sorted stably: among entries
      with equal keys, hit order is kept. */
  lemma RankStable(hits: seq<Hit>, query: seq<string>, topK: nat, idKey: string, m: real, sem: real)
    requires Rank(hits, query, topK, idKey).Ok?
    ensures exists sorted :: multiset(sorted) == multiset(Scan(hits, query, idKey).value)
                             && Tied(sorted, m, sem) == Tied(Scan(hits, query, idKey).value, m, sem)
                             && Rank(hits, query, topK, idKey).value <= sorted
  {
    var kept := Scan(hits, query, idKey).value;
    SortDescPermutes(kept);
    SortDescStable(kept, m, sem);
  }

  /** Nothing better is left out: an entry that a hit yields but that is not
      returned ranks no higher than every returned entry, and the result is
      full. */
  lemma RankKeepsTheBest(hits: seq<Hit>, query: seq<string>, topK: nat, idKey: string, i: nat)
    requires Rank(hits, query, topK, idKey).Ok?
    requires i < |hits| && ScoreHit(hits[i], query, idKey).Ok?
    requires ScoreHit(hits[i], query, idKey).value.Some?
    requires ScoreHit(hits[i], query, idKey).value.value !in Rank(hits, query, topK, idKey).value
    ensures |Rank(hits, query, topK, idKey).value| == topK
    ensures forall r :: r in Rank(hits, query, topK, idKey).value ==>
              !Outranks(ScoreHit(hits[i], query, idKey).value.value, r)
  {
    var e := ScoreHit(hits[i], query, idKey).value.value;
    var kept := Scan(hits, query, idKey).value;
    var sorted := SortDesc(kept);
    var top := sorted[..Min(topK, |sorted|)];
    ScanComplete(hits, query, idKey, i);
    SortDescPermutes(kept);
    SortDescOrdered(kept);
    assert e in multiset(sorted);
    var p :| 0 <= p < |sorted| && sorted[p] == e;
    assert p >= |top|;
    forall r | r in top ensures !Outranks(e, r) {
      var q :| 0 <= q < |top| && top[q] == r;
      assert sorted[q] == r;
    }
  }

  /** An empty ingredient list scores 0 against every hit, so nothing is
      returned (unless a payload raises first). */
  lemma {:induction false} RankOfNoIngredients(hits: seq<Hit>, topK: nat, idKey: string)
    ensures Rank(hits, [], topK, idKey).Ok? ==> Rank(hits, [], topK, idKey).value == []
  {
    ScanOfNoIngredients(hits, idKey);
  }

  lemma {:induction false} ScanOfNoIngredients(hits: seq<Hit>, idKey: string)
    ensures Scan(hits, [], idKey).Ok? ==> Scan(hits, [], idKey).value == []
    decreases |hits|
  {
    if hits != [] {
      ScanOfNoIngredients(hits[..|hits| - 1], idKey);
    }
  }

  /** No hits, no entries. */
  lemma RankOfNoHits(query: seq<string>, topK: nat, idKey: string)
    ensures Rank([], query, topK, idKey) == Ok([])
  {
  }
}
