/** The JSON values held by recipe records, index payloads and the LLM
    context, and the Python operations the modelled code applies to them. */
module Json {
  import opened Wrappers
  import opened Text

  /** A field value: JSON null (Python `None`), a string, or a list of
      strings. */
  datatype Value = Null | Str(s: string) | Strs(items: seq<string>)

  /** A JSON object (Python `dict`) with string keys. */
  type Dict = map<string, Value>

  /** `d.get(key, default)` */
  function Get(d: Dict, key: string, default: Value): Value
  {
    if key in d then d[key] else default
  }

  /** Python truthiness: `None`, `""` and `[]` are false. */
  predicate Truthy(v: Value)
  {
    match v
    case Null => false
    case Str(s) => s != ""
    case Strs(xs) => xs != []
  }

  /** `'x'`, the repr of a string without quotes or backslashes in it. */
  function Quote(x: string): string
  {
    "'" + x + "'"
  }

  function QuoteAll(xs: seq<string>): (r: seq<string>)
    ensures |r| == |xs|
  {
    seq(|xs|, k requires 0 <= k < |xs| => Quote(xs[k]))
  }

  /** What an f-string prints for a value: `None`, the string itself, or the
      list's repr. */
  function Display(v: Value): string
  {
    match v
    case Null => "None"
    case Str(s) => s
    case Strs(xs) => "[" + Join(", ", QuoteAll(xs)) + "]"
  }

  /** `for x in v`: a string yields its characters, a list its items; `None`
      is not iterable (a `TypeError`). */
  function Items(v: Value): Option<seq<string>>
  {
    match v
    case Null => None
    case Str(s) => Some(Chars(s))
    case Strs(xs) => Some(xs)
  }

  /** `sep.join(v)`; `None` when Python raises `TypeError`. */
  function JoinValue(sep: string, v: Value): Option<string>
  {
    match Items(v)
    case None => None
    case Some(xs) => Some(Join(sep, xs))
  }
}
