/** The query side of the embedding service: the text handed to the encoder
    for a list of ingredient names. The encoder itself is a parameter. */
module Embedding {
  import opened Text

  /** The retrieval-mode marker of the asymmetric encoder for queries. */
  const QueryPrefix := "query: "

  /** `"query: " + ", ".join(ingredients)` */
  function QueryText(ingredients: seq<string>): (text: string)
    ensures |text| >= |QueryPrefix| && text[..|QueryPrefix|] == QueryPrefix
  {
    QueryPrefix + Join(", ", ingredients)
  }

  /** The encoder is applied exactly once, to the query text. */
  function EmbedIngredients<V>(encode: string -> V, ingredients: seq<string>): V
  {
    encode(QueryText(ingredients))
  }

  /** No ingredients: the bare prefix. */
  lemma QueryTextOfNone()
    ensures QueryText([]) == "query: "
  {
  }

  /** One ingredient: the prefix and the name, with no separator. */
  lemma QueryTextOfOne(x: string)
    ensures QueryText([x]) == "query: " + x
  {
  }

  /** A further ingredient goes last, behind exactly `", "`. */
  lemma QueryTextAppend(xs: seq<string>, y: string)
    requires |xs| >= 1
    ensures QueryText(xs + [y]) == QueryText(xs) + ", " + y
  {
    JoinAppend(", ", xs, y);
  }

  /** Comma-free ingredient lists are told apart by their query text: the
      names, in order, can be read back from it. */
  lemma QueryTextInjective(xs: seq<string>, ys: seq<string>)
    requires |xs| >= 1 && |ys| >= 1
    requires forall k :: 0 <= k < |xs| ==> ',' !in xs[k]
    requires forall k :: 0 <= k < |ys| ==> ',' !in ys[k]
    requires QueryText(xs) == QueryText(ys)
    ensures xs == ys
  {
    var p := |QueryPrefix|;
    assert Join(", ", xs) == QueryText(xs)[p..] == QueryText(ys)[p..] == Join(", ", ys);
    var px, py := CommaSpacePieces(xs), CommaSpacePieces(ys);
    JoinCommaSpace(xs);
    JoinCommaSpace(ys);
    assert forall k :: 0 <= k < |px| ==> ',' !in px[k] by {
      forall k | 0 <= k < |px| ensures ',' !in px[k] {
        if k > 0 { assert px[k] == " " + xs[k]; }
      }
    }
    assert forall k :: 0 <= k < |py| ==> ',' !in py[k] by {
      forall k | 0 <= k < |py| ensures ',' !in py[k] {
        if k > 0 { assert py[k] == " " + ys[k]; }
      }
    }
    SplitJoin(px, ',');
    SplitJoin(py, ',');
    assert px == py;
    assert |xs| == |ys|;
    forall k | 0 <= k < |xs| ensures xs[k] == ys[k] {
      if k > 0 {
        assert " " + xs[k] == px[k] == py[k] == " " + ys[k];
        assert xs[k] == (" " + xs[k])[1..];
        assert ys[k] == (" " + ys[k])[1..];
      }
    }
  }

  /** The exception to that: no ingredient and one empty name give the same
      text. */
  lemma QueryTextEmptyNameCollides()
    ensures QueryText([]) == QueryText([""])
  {
  }
}
