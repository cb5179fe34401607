/** The recipe store: the Postgres `recipes` table, keyed by recipe id, and
    the batched lookup `get_recipes_by_ids`. The connection is modelled by
    whether it opens and whether the query succeeds. */
module RecipeStore {
  import opened Wrappers
  import opened Json

  /** A row of `recipes`: TEXT columns may be NULL, JSONB columns hold any
      JSON value. */
  datatype Row = Row(
    id: string,
    tenMon: Option<string>,
    moTa: Option<string>,
    nguyenLieuSearch: Option<string>,
    nguyenLieuChiTiet: Value,
    cachLam: Value,
    thoiGianNau: Option<string>,
    giaVi: Value)

  type Table = map<string, Row>

  /** The primary key: every row is stored under its own id. */
  ghost predicate KeyedById(t: Table)
  {
    forall id :: id in t ==> t[id].id == id
  }

  /** `psycopg2.connect` raising: outside the `try`, so it propagates. */
  datatype StoreError = ConnectionFailed

  /** `get_recipes_by_ids(ids)`: no connection for an empty id list; the rows
      whose id was requested, each under its id; ids without a row are simply
      absent; a failing query gives the empty mapping. */
  function GetRecipesByIds(table: Table, ids: seq<string>, connects: bool, queryOk: bool)
    : (r: Result<map<string, Row>, StoreError>)
    requires KeyedById(table)
    ensures ids == [] ==> r == Ok(map[])
    ensures r.Err? <==> ids != [] && !connects
    ensures ids != [] && connects && !queryOk ==> r == Ok(map[])
    ensures r.Ok? ==> forall k :: k in r.value ==> k in ids && k in table && r.value[k] == table[k]
    ensures r.Ok? ==> forall k :: k in r.value ==> r.value[k].id == k
    ensures ids != [] && connects && queryOk ==>
              r.Ok? && forall k :: k in ids ==> (k in r.value <==> k in table)
  {
    if ids == [] then Ok(map[])
    else if !connects then Err(ConnectionFailed)
    else if !queryOk then Ok(map[])
    else Ok(map k | k in table && k in ids :: table[k])
  }

  /** `INSERT ... ON CONFLICT (id) DO UPDATE SET` every column: the row for
      `row.id` becomes exactly `row` (a replacement, not a merge) and every
      other row is left as it was. */
  function Upsert(table: Table, row: Row): (t: Table)
    ensures row.id in t && t[row.id] == row
    ensures forall k :: k != row.id ==> (k in t <==> k in table) && (k in table ==> t[k] == table[k])
    ensures KeyedById(table) ==> KeyedById(t)
  {
    table[row.id := row]
  }
}
