/** What the ingestion script writes into the vector index and what the
    ranking engine reads back from it: the comma-separated ingredient string,
    and the payload key of the recipe id. */
module IndexContract {
  import opened Wrappers
  import opened Text
  import opened Json
  import opened Ranking
  import Ingestion

  /** The payload key ingestion stores the recipe id under. */
  const IngestedIdKey := "recipe_id"

  /** A space in front of a name does not survive normalisation. */
  lemma NormalizeDropsLeadingSpace(x: string)
    ensures Normalize(" " + x) == Normalize(x)
  {
    assert IsSpace(' ');
    assert (" " + x)[1..] == x;
    assert TrimLeft(" " + x) == TrimLeft(x);
  }

  /** The pieces `split(",")` sees in a `", "`-join have no comma. */
  lemma CommaSpacePiecesCommaFree(names: seq<string>)
    requires |names| >= 1
    requires forall k :: 0 <= k < |names| ==> ',' !in names[k]
    ensures forall k :: 0 <= k < |names| ==> ',' !in CommaSpacePieces(names)[k]
  {
    var pieces := CommaSpacePieces(names);
    forall k | 0 <= k < |names| ensures ',' !in pieces[k] {
      if k > 0 { assert pieces[k] == " " + names[k]; }
    }
  }

  /** Every piece but the first is its name behind one space. */
  lemma CommaSpacePieceAt(names: seq<string>, k: nat)
    requires 0 < k < |names|
    ensures CommaSpacePieces(names)[k] == " " + names[k]
  {
  }

  /** A comma-space piece of a normalised name normalises back to that
      name. */
  lemma PieceNormalizesToName(names: seq<string>, k: nat)
    requires k < |names|
    requires Normalize(names[k]) == names[k]
    ensures Normalize(CommaSpacePieces(names)[k]) == names[k]
  {
    var x := names[k];
    var p := CommaSpacePieces(names)[k];
    if k > 0 {
      CommaSpacePieceAt(names, k);
      NormalizeDropsLeadingSpace(x);
      assert Normalize(p) == Normalize(" " + x);
    } else {
      assert p == x;
    }
  }

  /** `split(",")` of a `", "`-join of comma-free names gives the comma-space
      pieces. */
  lemma SplitCommaSpace(names: seq<string>)
    requires |names| >= 1
    requires forall k :: 0 <= k < |names| ==> ',' !in names[k]
    ensures Split(Join(", ", names), ',') == CommaSpacePieces(names)
  {
    JoinCommaSpace(names);
    CommaSpacePiecesCommaFree(names);
    SplitJoin(CommaSpacePieces(names), ',');
  }

  /** Normalised, comma-free ingredient names written as a `", "`-separated
      string are read back by `retrieve` as exactly those names. */
  lemma CsvRoundTrip(names: seq<string>)
    requires |names| >= 1
    requires forall k :: 0 <= k < |names| ==> ',' !in names[k] && Normalize(names[k]) == names[k]
    ensures Tokens(Join(", ", names)) == names
  {
    var csv := Join(", ", names);
    SplitCommaSpace(names);
    var pieces := Split(csv, ',');
    var tokens := Tokens(csv);
    forall k | 0 <= k < |names| ensures tokens[k] == names[k] {
      PieceNormalizesToName(names, k);
    }
  }

  /** Normalising a normalised name changes nothing: `strip().lower()` is
      idempotent. */
  lemma NormalizeIdempotent(x: string)
    ensures Normalize(Normalize(x)) == Normalize(x)
  {
    var t := Strip(x);
    var l := Lower(t);
    LowerCases(t);
    if l != [] {
      assert !IsSpace(t[0]) && !IsSpace(t[|t| - 1]);
      assert !IsSpace(l[0]) && !IsSpace(l[|l| - 1]);
    }
    StripUnpadded(l);
    LowerIdempotent(t);
  }

  /** Normalisation keeps a name free of commas. */
  lemma NormalizeCommaFree(x: string)
    requires ',' !in x
    ensures ',' !in Normalize(x)
  {
    var t := Strip(x);
    var i :| SpaceAround(x, t, i);
    assert forall k :: 0 <= k < |t| ==> t[k] == x[i + k];
    assert ',' !in t;
    LowerCases(t);
  }

  /** The normalised forms of a list of names. */
  function NormalizedNames(names: seq<string>): (ns: seq<string>)
    ensures |ns| == |names|
    ensures forall k :: 0 <= k < |names| ==> ns[k] == Normalize(names[k])
  {
    seq(|names|, k requires 0 <= k < |names| => Normalize(names[k]))
  }

  /** Any comma-free names, normalised and written as a `", "`-separated
      string, are read back by `retrieve` as their normalised forms. */
  lemma CsvRoundTripOfNormalized(names: seq<string>)
    requires |names| >= 1
    requires forall k :: 0 <= k < |names| ==> ',' !in names[k]
    ensures Tokens(Join(", ", NormalizedNames(names))) == NormalizedNames(names)
  {
    var ns := NormalizedNames(names);
    forall k | 0 <= k < |ns| ensures ',' !in ns[k] && Normalize(ns[k]) == ns[k] {
      NormalizeCommaFree(names[k]);
      NormalizeIdempotent(names[k]);
    }
    CsvRoundTrip(ns);
  }

  /** A hit whose payload ingestion wrote. */
  predicate Ingested(hit: Hit, recipe: Dict)
  {
    hit.payload == Ingestion.PointPayload(recipe)
  }

  /** As written, `retrieve` reads `payload["id"]`, which ingestion never
      writes: every ingested hit that reaches the threshold raises
      `KeyError('id')`. */
  lemma IdKeyMismatchFailsHit(hit: Hit, recipe: Dict, query: seq<string>)
    requires Ingested(hit, recipe)
    requires HitTokens(hit).Ok? && MatchScore(HitTokens(hit).value, query) >= Threshold
    ensures ScoreHit(hit, query, ReadIdKey) == Err(KeyError("id"))
  {
  }

  /** So, over an index built by ingestion from recipes that all have a
      search-ingredient string, `retrieve` as written fails with
      `KeyError('id')` as soon as one hit reaches the threshold, and can never
      return a recipe. */
  lemma IdKeyMismatchFailsRetrieval(hits: seq<Hit>, recipes: seq<Dict>, query: seq<string>, topK: nat, i: nat)
    requires |recipes| == |hits|
    requires forall k :: 0 <= k < |hits| ==> Ingested(hits[k], recipes[k]) && HitTokens(hits[k]).Ok?
    requires i < |hits| && MatchScore(HitTokens(hits[i]).value, query) >= Threshold
    ensures Rank(hits, query, topK, ReadIdKey) == Err(KeyError("id"))
  {
    IdKeyMismatchFailsHit(hits[i], recipes[i], query);
    ScanFailsIff(hits, query, ReadIdKey);
    ScanErrorFromHit(hits, query, ReadIdKey);
    var j :| 0 <= j < |hits| && ScoreHit(hits[j], query, ReadIdKey) == Err(Scan(hits, query, ReadIdKey).error);
    assert MatchScore(HitTokens(hits[j]).value, query) >= Threshold;
    IdKeyMismatchFailsHit(hits[j], recipes[j], query);
  }

  /** Reading the key ingestion writes, an ingested hit with a
      search-ingredient string never raises: it is dropped below the
      threshold and otherwise yields the recipe's id and name with its
      scores. */
  lemma IngestedIdKeyReadsHit(hit: Hit, recipe: Dict, query: seq<string>)
    requires Ingested(hit, recipe) && HitTokens(hit).Ok?
    ensures var m := MatchScore(HitTokens(hit).value, query);
            ScoreHit(hit, query, IngestedIdKey)
            == if m < Threshold then Ok(None)
               else Ok(Some(Ranked(Get(recipe, "id", Null), Get(recipe, "ten_mon", Null), m, hit.score)))
  {
  }

  /** And so `retrieve` reading `recipe_id` succeeds over such an index, and
      each qualifying hit's recipe is returned or outranked by all `top_k`
      returned entries. */
  lemma IngestedIdKeyRetrieves(hits: seq<Hit>, recipes: seq<Dict>, query: seq<string>, topK: nat)
    requires |recipes| == |hits|
    requires forall k :: 0 <= k < |hits| ==> Ingested(hits[k], recipes[k]) && HitTokens(hits[k]).Ok?
    ensures Rank(hits, query, topK, IngestedIdKey).Ok?
    ensures forall k :: 0 <= k < |hits| && MatchScore(HitTokens(hits[k]).value, query) >= Threshold ==>
              var e := Ranked(Get(recipes[k], "id", Null), Get(recipes[k], "ten_mon", Null),
                              MatchScore(HitTokens(hits[k]).value, query), hits[k].score);
              e in Rank(hits, query, topK, IngestedIdKey).value
              || (|Rank(hits, query, topK, IngestedIdKey).value| == topK
                  && forall r :: r in Rank(hits, query, topK, IngestedIdKey).value ==> !Outranks(e, r))
  {
    forall k | 0 <= k < |hits| ensures ScoreHit(hits[k], query, IngestedIdKey).Ok? {
      IngestedIdKeyReadsHit(hits[k], recipes[k], query);
    }
    ScanFailsIff(hits, query, IngestedIdKey);
    forall k | 0 <= k < |hits| && MatchScore(HitTokens(hits[k]).value, query) >= Threshold
      ensures var e := Ranked(Get(recipes[k], "id", Null), Get(recipes[k], "ten_mon", Null),
                              MatchScore(HitTokens(hits[k]).value, query), hits[k].score);
              e in Rank(hits, query, topK, IngestedIdKey).value
              || (|Rank(hits, query, topK, IngestedIdKey).value| == topK
                  && forall r :: r in Rank(hits, query, topK, IngestedIdKey).value ==> !Outranks(e, r))
    {
      IngestedIdKeyReadsHit(hits[k], recipes[k], query);
      var e := Ranked(Get(recipes[k], "id", Null), Get(recipes[k], "ten_mon", Null),
                      MatchScore(HitTokens(hits[k]).value, query), hits[k].score);
      if e !in Rank(hits, query, topK, IngestedIdKey).value {
        RankKeepsTheBest(hits, query, topK, IngestedIdKey, k);
      }
    }
  }
}
