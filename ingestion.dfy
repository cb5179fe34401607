/** The ingestion script: for every recipe of the JSON corpus, the document
    text is encoded and appended to the vector index as a new point, then the
    recipe is upserted into the `recipes` table. The encoder is a parameter
    and the random point ids (uuid4) are supplied by the caller, fresh. */
module Ingestion {
  import opened Wrappers
  import opened Text
  import opened Json
  import opened RecipeStore
  import Embedding

  /** The retrieval-mode marker of the asymmetric encoder for documents. */
  const PassagePrefix := "passage: "

  /** The exceptions an insert can raise. */
  datatype IngestError =
    | GiaViNotIterable          // `", ".join(None)` in build_embedding_text
    | IdNull                    // NULL for the TEXT PRIMARY KEY

  /** A point of the vector index. */
  datatype Point<V> = Point(id: string, vector: V, payload: Dict)

  /** `recipe.get(key, '')` as the f-string prints it. */
  function Field(recipe: Dict, key: string): string
  {
    Display(Get(recipe, key, Str("")))
  }

  /** `build_embedding_text(recipe)`: name, description, search ingredients
      and the seasonings joined by `", "`, behind fixed labels in that order;
      absent keys print as the empty string and an absent `gia_vi` as an
      empty join. `None` exactly when `gia_vi` is present but null, where the
      join raises. */
  function EmbeddingText(recipe: Dict): (r: Option<string>)
    ensures r.None? <==> "gia_vi" in recipe && recipe["gia_vi"] == Null
    ensures r.Some? ==>
              r.value == "Món ăn: " + Field(recipe, "ten_mon")
                         + ". Mô tả: " + Field(recipe, "mo_ta")
                         + ". Nguyên liệu: " + Field(recipe, "nguyen_lieu_search")
                         + ". Gia vị: " + JoinValue(", ", Get(recipe, "gia_vi", Strs([]))).value
  {
    match JoinValue(", ", Get(recipe, "gia_vi", Strs([])))
    case None => None
    case Some(giaVi) =>
      Some("Món ăn: " + Field(recipe, "ten_mon")
           + ". Mô tả: " + Field(recipe, "mo_ta")
           + ". Nguyên liệu: " + Field(recipe, "nguyen_lieu_search")
           + ". Gia vị: " + giaVi)
  }

  /** A recipe with none of the four keys still has a text: the bare labels. */
  lemma EmbeddingTextOfBareRecipe()
    ensures EmbeddingText(map[]) == Some("Món ăn: . Mô tả: . Nguyên liệu: . Gia vị: ")
  {
    var none: Dict := map[];
    assert JoinValue(", ", Get(none, "gia_vi", Strs([]))) == Some("");
    assert Field(none, "ten_mon") == Field(none, "mo_ta") == Field(none, "nguyen_lieu_search") == "";
    assert EmbeddingText(none).value == "Món ăn: " + ". Mô tả: " + ". Nguyên liệu: " + ". Gia vị: ";
    assert "Món ăn: " + ". Mô tả: " == "Món ăn: . Mô tả: ";
    assert "Món ăn: . Mô tả: " + ". Nguyên liệu: " == "Món ăn: . Mô tả: . Nguyên liệu: ";
    assert "Món ăn: . Mô tả: . Nguyên liệu: " + ". Gia vị: " == "Món ăn: . Mô tả: . Nguyên liệu: . Gia vị: ";
  }

  /** The encoder input for a document. */
  function PassageText(text: string): string
  {
    PassagePrefix + text
  }

  /** Document and query inputs of the encoder never coincide: their
      retrieval-mode markers differ in the first character. */
  lemma PassageIsNeverQuery(text: string, ingredients: seq<string>)
    ensures PassageText(text) != Embedding.QueryText(ingredients)
  {
    assert PassageText(text)[0] == 'p';
    assert Embedding.QueryText(ingredients)[0] == 'q';
  }

  /** The payload of the point: the recipe id under `recipe_id`, the name, the
      search ingredients (null when absent) and the seasonings (`[]` when
      absent). There is no `id` key. */
  function PointPayload(recipe: Dict): (p: Dict)
    ensures p.Keys == {"recipe_id", "ten_mon", "nguyen_lieu_search", "gia_vi"}
    ensures "id" !in p
    ensures p["recipe_id"] == Get(recipe, "id", Null)
    ensures p["ten_mon"] == Get(recipe, "ten_mon", Null)
    ensures p["nguyen_lieu_search"] == Get(recipe, "nguyen_lieu_search", Null)
    ensures p["gia_vi"] == Get(recipe, "gia_vi", Strs([]))
  {
    map["recipe_id" := Get(recipe, "id", Null),
        "ten_mon" := Get(recipe, "ten_mon", Null),
        "nguyen_lieu_search" := Get(recipe, "nguyen_lieu_search", Null),
        "gia_vi" := Get(recipe, "gia_vi", Strs([]))]
  }

  /** A character for which Postgres's array output quotes an element: a
      brace, the comma delimiter, a double quote, a backslash, or array
      whitespace (space, tab, newline, carriage return, vertical tab, form
      feed). */
  predicate ArraySpecial(c: char)
  {
    c in {'{', '}', ',', '"', '\\', ' ', '\t', '\n', '\r', '\U{B}', '\U{C}'}
  }

  /** `NULL` in any mix of ASCII case. */
  predicate SpellsNull(e: string)
  {
    |e| == 4 && e[0] in {'n', 'N'} && e[1] in {'u', 'U'} && e[2] in {'l', 'L'} && e[3] in {'l', 'L'}
  }

  /** An element that array output writes between double quotes. */
  predicate NeedsQuotes(e: string)
  {
    e == "" || SpellsNull(e) || exists k :: 0 <= k < |e| && ArraySpecial(e[k])
  }

  /** The element with a backslash in front of each double quote and each
      backslash. */
  function Escaped(e: string): (r: string)
    ensures |r| >= |e|
    decreases |e|
  {
    if e == [] then ""
    else (if e[0] == '"' || e[0] == '\\' then ['\\', e[0]] else [e[0]]) + Escaped(e[1..])
  }

  /** Reads an escaped element back: a backslash takes the next character
      literally. */
  function Unescaped(r: string): string
    decreases |r|
  {
    if r == [] then ""
    else if r[0] == '\\' && |r| >= 2 then [r[1]] + Unescaped(r[2..])
    else [r[0]] + Unescaped(r[1..])
  }

  /** Escaping loses nothing. */
  lemma {:induction false} UnescapedEscaped(e: string)
    ensures Unescaped(Escaped(e)) == e
    decreases |e|
  {
    if e != [] {
      UnescapedEscaped(e[1..]);
      var r := Escaped(e);
      if e[0] == '"' || e[0] == '\\' {
        assert r == ['\\', e[0]] + Escaped(e[1..]);
        assert r[2..] == Escaped(e[1..]);
      } else {
        assert r == [e[0]] + Escaped(e[1..]);
        assert r[1..] == Escaped(e[1..]);
      }
      assert e == [e[0]] + e[1..];
    }
  }

  /** One element as array output writes it. */
  function ArrayElement(e: string): (r: string)
    ensures r != []
  {
    if NeedsQuotes(e) then "\"" + Escaped(e) + "\"" else e
  }

  /** Distinct elements are written differently: a quoted element starts
      with a double quote, which an unquoted one cannot hold, and the quotes
      enclose an escaping that reads back. */
  lemma ArrayElementInjective(e1: string, e2: string)
    requires ArrayElement(e1) == ArrayElement(e2)
    ensures e1 == e2
  {
    var r := ArrayElement(e1);
    if NeedsQuotes(e1) && NeedsQuotes(e2) {
      assert r[1..|r| - 1] == Escaped(e1);
      assert r[1..|r| - 1] == Escaped(e2);
      UnescapedEscaped(e1);
      UnescapedEscaped(e2);
    } else if NeedsQuotes(e1) {
      assert e2 != "" && r == e2 && r[0] == '"' && ArraySpecial(e2[0]);
    } else if NeedsQuotes(e2) {
      assert e1 != "" && r == e1 && r[0] == '"' && ArraySpecial(e1[0]);
    }
  }

  function ArrayElements(xs: seq<string>): (r: seq<string>)
    ensures |r| == |xs|
  {
    seq(|xs|, k requires 0 <= k < |xs| => ArrayElement(xs[k]))
  }

  /** The text Postgres stores for a `text[]` assigned to a TEXT column (the
      assignment cast through array output): the elements between braces,
      separated by commas. */
  function ArrayText(xs: seq<string>): (r: string)
    ensures |r| >= 2 && r[0] == '{' && r[|r| - 1] == '}'
  {
    "{" + Join(",", ArrayElements(xs)) + "}"
  }

  /** An element is plain when array output writes it as it is. */
  predicate Plain(e: string)
  {
    !NeedsQuotes(e)
  }

  /** A list of plain elements is written as their comma join in braces, and
      splitting the inside at commas reads the list back. */
  lemma ArrayTextOfPlain(xs: seq<string>)
    requires xs != []
    requires forall k :: 0 <= k < |xs| ==> Plain(xs[k])
    ensures ArrayText(xs) == "{" + Join(",", xs) + "}"
    ensures var r := ArrayText(xs); Split(r[1..|r| - 1], ',') == xs
  {
    assert ArrayElements(xs) == xs;
    forall k | 0 <= k < |xs| ensures ',' !in xs[k] {
      assert forall m :: 0 <= m < |xs[k]| ==> !ArraySpecial(xs[k][m]);
    }
    var r := ArrayText(xs);
    assert r[1..|r| - 1] == Join([','], xs);
    SplitJoin(xs, ',');
  }

  /** The empty list is stored as `{}`, and a list holding the empty string
      as `{""}`: the two stay apart. */
  lemma ArrayTextOfEmpty()
    ensures ArrayText([]) == "{}"
    ensures ArrayText([""]) == "{\"\"}"
  {
    assert Escaped("") == "";
    assert ArrayElement("") == "\"\"";
    assert ArrayElements([""]) == ["\"\""];
  }

  /** How psycopg2 and Postgres store a value in a TEXT column: a string as
      it is, `None` as NULL, and a list, which psycopg2 sends as
      `ARRAY[...]` (or `'{}'` when empty), as the array's text. Nothing here
      raises. */
  function TextColumn(v: Value): (r: Option<string>)
    ensures r.None? <==> v.Null?
    ensures v.Str? ==> r == Some(v.s)
    ensures v.Strs? ==> r == Some(ArrayText(v.items))
  {
    match v
    case Null => None
    case Str(s) => Some(s)
    case Strs(xs) => Some(ArrayText(xs))
  }

  /** The row the insert writes, or the error Postgres raises: only a NULL
      id fails, on the primary key. The TEXT columns take their values as
      `TextColumn` stores them, the JSONB columns the value as it is, with
      `[]` for an absent key. */
  function RowOf(recipe: Dict): (r: Result<Row, IngestError>)
    ensures r.Ok? <==> Get(recipe, "id", Null) != Null
    ensures r.Err? ==> r.error == IdNull
    ensures r.Ok? ==> Some(r.value.id) == TextColumn(recipe["id"])
    ensures r.Ok? ==> r.value.tenMon == TextColumn(Get(recipe, "ten_mon", Null))
    ensures r.Ok? ==> r.value.moTa == TextColumn(Get(recipe, "mo_ta", Null))
    ensures r.Ok? ==> r.value.nguyenLieuSearch == TextColumn(Get(recipe, "nguyen_lieu_search", Null))
    ensures r.Ok? ==> r.value.thoiGianNau == TextColumn(Get(recipe, "thoi_gian_nau", Null))
    ensures r.Ok? && "nguyen_lieu_chi_tiet" !in recipe ==> r.value.nguyenLieuChiTiet == Strs([])
    ensures r.Ok? && "cach_lam" !in recipe ==> r.value.cachLam == Strs([])
    ensures r.Ok? && "gia_vi" !in recipe ==> r.value.giaVi == Strs([])
  {
    match TextColumn(Get(recipe, "id", Null))
    case None => Err(IdNull)
    case Some(id) =>
      Ok(Row(id,
             TextColumn(Get(recipe, "ten_mon", Null)),
             TextColumn(Get(recipe, "mo_ta", Null)),
             TextColumn(Get(recipe, "nguyen_lieu_search", Null)),
             Get(recipe, "nguyen_lieu_chi_tiet", Strs([])),
             Get(recipe, "cach_lam", Strs([])),
             TextColumn(Get(recipe, "thoi_gian_nau", Null)),
             Get(recipe, "gia_vi", Strs([]))))
  }

  /** A list in a TEXT column is stored as its array text, not refused. */
  lemma ListColumnIsStored()
    ensures var r := RowOf(map["id" := Str("r1"), "ten_mon" := Strs(["a", "b"])]);
            r.Ok? && r.value.id == "r1" && r.value.tenMon == Some("{a,b}")
  {
    assert !NeedsQuotes("a") && !NeedsQuotes("b");
    assert ArrayElements(["a", "b"]) == ["a", "b"];
    assert Join(",", ["a", "b"]) == "a,b";
    assert ArrayText(["a", "b"]) == "{" + "a,b" + "}" == "{a,b}";
    var recipe: Dict := map["id" := Str("r1"), "ten_mon" := Strs(["a", "b"])];
    assert TextColumn(Get(recipe, "ten_mon", Null)) == Some(ArrayText(["a", "b"]));
  }

  /** The index and the table together: `table` is the table as the
      script's connection sees it, `committed` the table Postgres keeps should
      the script end now. */
  datatype Stores<V> = Stores(points: seq<Point<V>>, table: Table, committed: Table)

  /** `insert_recipe(recipe)` on values: the text fails before anything is
      written; otherwise the point is appended, the connection commits what
      it holds (the row of the previous call included), and then the row is
      upserted or Postgres raises, leaving the point in place. */
  function AfterInsert<V>(s: Stores<V>, recipe: Dict, encode: string -> V, pointId: string)
    : (Stores<V>, Option<IngestError>)
  {
    match EmbeddingText(recipe)
    case None => (s, Some(GiaViNotIterable))
    case Some(text) =>
      var points := s.points + [Point(pointId, encode(PassageText(text)), PointPayload(recipe))];
      match RowOf(recipe)
      case Err(e) => (Stores(points, s.table, s.table), Some(e))
      case Ok(row) => (Stores(points, Upsert(s.table, row), s.table), None)
  }

  /** The script's loop: insert each recipe in turn; the first error ends the
      script. */
  function AfterIngest<V>(s: Stores<V>, recipes: seq<Dict>, encode: string -> V, pointIds: seq<string>)
    : (Stores<V>, Option<IngestError>)
    requires |pointIds| == |recipes|
    decreases |recipes|
  {
    if recipes == [] then (s, None)
    else
      var (next, err) := AfterInsert(s, recipes[0], encode, pointIds[0]);
      if err.Some? then (next, err) else AfterIngest(next, recipes[1..], encode, pointIds[1..])
  }

  /** What the script leaves behind. A run that completes commits after the
      loop. When an insert raises, the script ends and Postgres keeps only
      what was committed: every row up to the one before the failing call's
      commit, or up to the one before that when the failing call never
      reached its commit. The points already sent to the index stay. */
  function AfterRun<V>(s: Stores<V>, recipes: seq<Dict>, encode: string -> V, pointIds: seq<string>)
    : (Stores<V>, Option<IngestError>)
    requires |pointIds| == |recipes|
  {
    var (t, err) := AfterIngest(s, recipes, encode, pointIds);
    if err.Some? then (Stores(t.points, t.committed, t.committed), err)
    else (Stores(t.points, t.table, t.table), err)
  }

  /** The index only grows during a run: the earlier points are kept. */
  lemma {:induction false} AfterIngestKeepsPoints<V>(s: Stores<V>, recipes: seq<Dict>, encode: string -> V, pointIds: seq<string>)
    requires |pointIds| == |recipes|
    ensures s.points <= AfterIngest(s, recipes, encode, pointIds).0.points
    decreases |recipes|
  {
    if recipes != [] {
      var (next, err) := AfterInsert(s, recipes[0], encode, pointIds[0]);
      if err.None? {
        AfterIngestKeepsPoints(next, recipes[1..], encode, pointIds[1..]);
      }
    }
  }

  /** A run that fails on its first recipe, after the point was written,
      leaves a point in the index and the table as it was. */
  lemma FailedRunKeepsTable<V>(s: Stores<V>, recipe: Dict, encode: string -> V, pointId: string)
    requires EmbeddingText(recipe).Some? && RowOf(recipe).Err?
    ensures var (t, err) := AfterRun(s, [recipe], encode, [pointId]);
            err.Some? && t.table == s.table && |t.points| == |s.points| + 1 && t.points[|s.points|].id == pointId
  {
  }

  /** When the second row of a run fails, the first row survives: the
      second call committed it before its own insert. */
  lemma FailedRunKeepsEarlierRow<V>(s: Stores<V>, r1: Dict, r2: Dict, encode: string -> V, id1: string, id2: string)
    requires EmbeddingText(r1).Some? && RowOf(r1).Ok?
    requires EmbeddingText(r2).Some? && RowOf(r2).Err?
    ensures var (t, err) := AfterRun(s, [r1, r2], encode, [id1, id2]);
            && err == Some(RowOf(r2).error)
            && t.table == Upsert(s.table, RowOf(r1).value)
            && |t.points| == |s.points| + 2
  {
    var (t1, e1) := AfterInsert(s, r1, encode, id1);
    assert e1.None? && t1.table == Upsert(s.table, RowOf(r1).value);
    var (t2, e2) := AfterInsert(t1, r2, encode, id2);
    assert [r1, r2][1..] == [r2] && [id1, id2][1..] == [id2];
    assert AfterIngest(t1, [r2], encode, [id2]) == (t2, e2);
    assert AfterIngest(s, [r1, r2], encode, [id1, id2]) == (t2, e2);
  }

  /** When the second recipe's text cannot be built, its call never reaches
      the commit, and the first row is lost with the script. */
  lemma FailedTextDropsPendingRow<V>(s: Stores<V>, r1: Dict, r2: Dict, encode: string -> V, id1: string, id2: string)
    requires EmbeddingText(r1).Some? && RowOf(r1).Ok?
    requires EmbeddingText(r2).None?
    ensures var (t, err) := AfterRun(s, [r1, r2], encode, [id1, id2]);
            && err == Some(GiaViNotIterable)
            && t.table == s.table
            && |t.points| == |s.points| + 1
  {
    var (t1, e1) := AfterInsert(s, r1, encode, id1);
    assert e1.None? && t1.table == Upsert(s.table, RowOf(r1).value);
    var (t2, e2) := AfterInsert(t1, r2, encode, id2);
    assert [r1, r2][1..] == [r2] && [id1, id2][1..] == [id2];
    assert AfterIngest(t1, [r2], encode, [id2]) == (t2, e2);
    assert AfterIngest(s, [r1, r2], encode, [id1, id2]) == (t2, e2);
  }

  function PointIds<V>(points: seq<Point<V>>): set<string>
  {
    set i | 0 <= i < |points| :: points[i].id
  }

  /** Every insert adds exactly one point under its fresh id when the text
      can be built, even for a recipe id already in the table: inserting
      the same recipe twice leaves two points carrying its id and one row. */
  lemma ReinsertAddsAPoint<V>(s: Stores<V>, recipe: Dict, encode: string -> V, id1: string, id2: string)
    requires EmbeddingText(recipe).Some? && RowOf(recipe).Ok?
    requires id1 != id2 && id1 !in PointIds(s.points) && id2 !in PointIds(s.points)
    ensures var (s1, e1) := AfterInsert(s, recipe, encode, id1);
            var (s2, e2) := AfterInsert(s1, recipe, encode, id2);
            e1.None? && e2.None?
            && |s2.points| == |s.points| + 2
            && s2.points[|s.points|].id == id1 && s2.points[|s.points| + 1].id == id2
            && s2.points[|s.points|].payload["recipe_id"] == s2.points[|s.points| + 1].payload["recipe_id"]
            && s2.table == s.table[RowOf(recipe).value.id := RowOf(recipe).value]
            && PointIds(s2.points) == PointIds(s.points) + {id1, id2}
            && |PointIds(s2.points)| == |PointIds(s.points)| + 2
  {
    var (s1, e1) := AfterInsert(s, recipe, encode, id1);
    var (s2, e2) := AfterInsert(s1, recipe, encode, id2);
    PointIdsAppend(s.points, s1.points[|s.points|]);
    PointIdsAppend(s1.points, s2.points[|s1.points|]);
    assert s1.points == s.points + [s1.points[|s.points|]];
    assert s2.points == s1.points + [s2.points[|s1.points|]];
    assert id2 !in PointIds(s1.points);
  }

  /** Appending a point adds exactly its id. */
  lemma PointIdsAppend<V>(points: seq<Point<V>>, p: Point<V>)
    ensures PointIds(points + [p]) == PointIds(points) + {p.id}
  {
    var ps := points + [p];
    assert ps[|points|] == p;
    forall x | x in PointIds(points) ensures x in PointIds(ps) {
      var i :| 0 <= i < |points| && points[i].id == x;
      assert ps[i] == points[i];
    }
  }

  /** A failing row insert leaves the new point in the index with no row for
      it: the index can hold recipes the table does not. */
  lemma FailedRowKeepsPoint<V>(s: Stores<V>, encode: string -> V, pointId: string)
    ensures var recipe := map["ten_mon" := Str("x")];
            var (s1, e) := AfterInsert(s, recipe, encode, pointId);
            e == Some(IdNull) && |s1.points| == |s.points| + 1 && s1.table == s.table
  {
    var recipe: Dict := map["ten_mon" := Str("x")];
    assert EmbeddingText(recipe).Some?;
  }

  /** The loop keeps every row, seen or committed, under its primary key. */
  lemma {:induction false} AfterIngestKeepsKeys<V>(s: Stores<V>, recipes: seq<Dict>, encode: string -> V, pointIds: seq<string>)
    requires |pointIds| == |recipes|
    requires KeyedById(s.table) && KeyedById(s.committed)
    ensures var t := AfterIngest(s, recipes, encode, pointIds).0;
            KeyedById(t.table) && KeyedById(t.committed)
    decreases |recipes|
  {
    if recipes != [] {
      var (next, err) := AfterInsert(s, recipes[0], encode, pointIds[0]);
      if err.None? {
        AfterIngestKeepsKeys(next, recipes[1..], encode, pointIds[1..]);
      }
    }
  }

  /** The vector index and the recipe table the script writes to, with
      the table as the connection sees it and as Postgres has committed it. */
  class Corpus<V> {
    var points: seq<Point<V>>
    var table: Table
    var committed: Table

    ghost predicate Valid()
      reads this
    {
      KeyedById(table) && KeyedById(committed)
    }

    /** A fresh connection: nothing pending. */
    constructor (points0: seq<Point<V>>, table0: Table)
      requires KeyedById(table0)
      ensures Valid() && points == points0 && table == table0 && committed == table0
    {
      points := points0;
      table := table0;
      committed := table0;
    }

    /** `insert_recipe(recipe)` with `pointId` as the fresh uuid. */
    method InsertRecipe(recipe: Dict, encode: string -> V, pointId: string) returns (err: Option<IngestError>)
      requires Valid()
      requires pointId !in PointIds(points)
      modifies this
      ensures Valid()
      ensures (Stores(points, table, committed), err)
              == AfterInsert(old(Stores(points, table, committed)), recipe, encode, pointId)
    {
      var text := EmbeddingText(recipe);
      if text.None? {
        return Some(GiaViNotIterable);
      }
      var vector := encode(PassageText(text.value));
      points := points + [Point(pointId, vector, PointPayload(recipe))];
      committed := table;
      var row := RowOf(recipe);
      if row.Err? {
        return Some(row.error);
      }
      table := Upsert(table, row.value);
      err := None;
    }

    /** `for recipe in recipes_data: insert_recipe(recipe)` followed by
        `conn.commit()`: the first error ends the script, and Postgres keeps
        only what was committed. */
    method IngestAll(recipes: seq<Dict>, encode: string -> V, pointIds: seq<string>)
      returns (err: Option<IngestError>)
      requires Valid()
      requires |pointIds| == |recipes|
      requires forall i, j :: 0 <= i < j < |pointIds| ==> pointIds[i] != pointIds[j]
      requires forall i :: 0 <= i < |pointIds| ==> pointIds[i] !in PointIds(points)
      modifies this
      ensures Valid()
      ensures (Stores(points, table, committed), err)
              == AfterRun(old(Stores(points, table, committed)), recipes, encode, pointIds)
    {
      var i := 0;
      while i < |recipes|
        invariant 0 <= i <= |recipes|
        invariant Valid()
        invariant forall j :: i <= j < |pointIds| ==> pointIds[j] !in PointIds(points)
        invariant AfterIngest(old(Stores(points, table, committed)), recipes, encode, pointIds)
                  == AfterIngest(Stores(points, table, committed), recipes[i..], encode, pointIds[i..])
      {
        ghost var before := Stores(points, table, committed);
        err := InsertRecipe(recipes[i], encode, pointIds[i]);
        assert recipes[i..][1..] == recipes[i + 1..];
        assert pointIds[i..][1..] == pointIds[i + 1..];
        if err.Some? {
          table := committed;
          return;
        }
        forall j | i + 1 <= j < |pointIds| ensures pointIds[j] !in PointIds(points) {
          assert pointIds[j] !in PointIds(before.points);
          assert pointIds[j] != pointIds[i];
        }
        i := i + 1;
      }
      committed := table;
      err := None;
    }
  }
}
