/** The LLM layer `llm_service.py`: the module-level session store that hands
    out one chat history per session id, the text of the recipe context that
    `generate_suggestion` gives the language model, and the guard returns of
    `generate_suggestion` and `chat`. The LangChain chains are parameters:
    given their inputs they answer or raise. */
module Llm {
  import opened Wrappers
  import opened Text
  import opened Json
  import Embedding

  /* ---------------- get_session_history ---------------- */

  /** A `ChatMessageHistory`: the messages of one conversation. */
  class ChatHistory {
    var messages: seq<string>

    constructor ()
      ensures messages == []
    {
      messages := [];
    }
  }

  /** The module-level `store`, from session id to history. */
  class SessionStore {
    var store: map<string, ChatHistory>

    constructor ()
      ensures store == map[] && Valid()
    {
      store := map[];
    }

    /** No two sessions share a history object. */
    ghost predicate Valid()
      reads this
    {
      forall a, b :: a in store && b in store && a != b ==> store[a] != store[b]
    }

    /** `get_session_history(session_id)`: the session's history, created
        empty on first use; the other sessions are untouched. */
    method GetSessionHistory(sessionId: string) returns (h: ChatHistory)
      requires Valid()
      modifies this
      ensures Valid()
      ensures sessionId in store && store[sessionId] == h
      ensures sessionId in old(store) ==> store == old(store) && h == old(store[sessionId])
      ensures sessionId !in old(store) ==> fresh(h) && h.messages == [] && store == old(store)[sessionId := h]
    {
      if sessionId !in store {
        var created := new ChatHistory();
        store := store[sessionId := created];
      }
      h := store[sessionId];
    }
  }

  /* ---------------- guards ---------------- */

  const NotConfigured := "LLM not configured."

  /** `self.api_key` as `os.getenv` gives it; unset or empty disables the
      service. */
  predicate Configured(apiKey: Option<string>)
  {
    apiKey.Some? && apiKey.value != ""
  }

  /* ---------------- recipe_context ---------------- */

  /** A recipe as `generate_suggestion` receives it: its fields, and its
      `match_score` (`None` when the key is missing). */
  datatype RecipeView = RecipeView(fields: Dict, matchScore: Option<real>)

  /** The exceptions building the context can raise: a missing key, or
      `", ".join(None)`. */
  datatype LlmFault = KeyError(key: string) | TypeError(key: string)

  const NoInfo := "Không có thông tin"
  const StepPrefix := "     + "

  /** `", ".join(r.get(key, [])) or "Không có thông tin"` */
  function JoinedOrNoInfo(fields: Dict, key: string): (r: Result<string, LlmFault>)
    ensures r.Err? <==> key in fields && fields[key] == Null
    ensures r.Ok? ==> r.value != ""
    ensures key !in fields || fields[key] == Strs([]) || fields[key] == Str("") ==> r == Ok(NoInfo)
  {
    match JoinValue(", ", Get(fields, key, Strs([])))
    case None => Err(TypeError(key))
    case Some(s) => Ok(if s == "" then NoInfo else s)
  }

  /** One line per step, each behind the step marker. */
  function StepLines(steps: seq<string>): (lines: seq<string>)
    ensures |lines| == |steps|
    ensures forall k :: 0 <= k < |steps| ==> lines[k] == StepPrefix + steps[k]
  {
    seq(|steps|, k requires 0 <= k < |steps| => StepPrefix + steps[k])
  }

  /** `cach_lam_str`: the steps one per line, or the single placeholder step
      when there are none. */
  function StepsText(v: Value): string
  {
    if !Truthy(v) then StepPrefix + NoInfo
    else match Items(v)
      case None => StepPrefix + NoInfo
      case Some(steps) => Join("\n", StepLines(steps))
  }

  /** The block for the `n`-th recipe (numbered from 1): its header, then
      its details. `fmt` is the `:.2f` rendering of the score. */
  function Block(n: nat, r: RecipeView, fmt: real -> string): Result<string, LlmFault>
  {
    if NameKey !in r.fields then Err(KeyError(NameKey))
    else if r.matchScore.None? then Err(KeyError("match_score"))
    else
      match Details(r.fields)
      case Err(e) => Err(e)
      case Ok(details) => Ok(Header(n, r, fmt) + details)
  }

  const NameKey := "ten_mon"

  /** The block header: its number, the recipe's name and its score. */
  function Header(n: nat, r: RecipeView, fmt: real -> string): string
    requires NameKey in r.fields && r.matchScore.Some?
  {
    NatToString(n) + ". Tên món: " + Display(r.fields[NameKey]) + " (Độ khớp: " + fmt(r.matchScore.value) + ")\n"
  }

  /** The lines of a block after its header: description, detailed
      ingredients, spices and steps. */
  function Details(fields: Dict): Result<string, LlmFault>
  {
    var description := "   - Mô tả: " + Display(Get(fields, "mo_ta", Str(""))) + "\n";
    match JoinedOrNoInfo(fields, "nguyen_lieu_chi_tiet")
    case Err(e) => Err(e)
    case Ok(ingredients) =>
      match JoinedOrNoInfo(fields, "gia_vi")
      case Err(e) => Err(e)
      case Ok(spices) =>
        Ok(description
           + "   - Nguyên liệu chi tiết: " + ingredients + "\n"
           + "   - Gia vị: " + spices + "\n"
           + "   - Cách làm:\n" + StepsText(Get(fields, "cach_lam", Strs([]))) + "\n\n")
  }

  /** A block opens with its header; it fails exactly on a missing name or
      score or a null detail or spice list. */
  lemma BlockShape(n: nat, r: RecipeView, fmt: real -> string)
    ensures Block(n, r, fmt).Err? <==>
              || NameKey !in r.fields || r.matchScore.None?
              || Get(r.fields, "nguyen_lieu_chi_tiet", Strs([])) == Null
              || Get(r.fields, "gia_vi", Strs([])) == Null
    ensures Block(n, r, fmt).Ok? ==> Header(n, r, fmt) <= Block(n, r, fmt).value
  {
    if NameKey in r.fields && r.matchScore.Some? && Details(r.fields).Ok? {
      var h, d := Header(n, r, fmt), Details(r.fields).value;
      assert (h + d)[..|h|] == h;
    }
  }

  /** A recipe with a name and a score and no details renders every
      placeholder: an empty description, no ingredient or spice information
      and the single placeholder step. */
  lemma BareRecipeBlock(n: nat, name: string, score: real, fmt: real -> string)
    ensures var r := RecipeView(map[NameKey := Str(name)], Some(score));
            Block(n, r, fmt)
            == Ok(Header(n, r, fmt)
                  + (("   - Mô tả: " + "\n")
                     + "   - Nguyên liệu chi tiết: " + NoInfo + "\n"
                     + "   - Gia vị: " + NoInfo + "\n"
                     + "   - Cách làm:\n" + (StepPrefix + NoInfo) + "\n\n"))
  {
    var fields := map[NameKey := Str(name)];
    assert "nguyen_lieu_chi_tiet" !in fields && "gia_vi" !in fields && "mo_ta" !in fields && "cach_lam" !in fields;
    assert JoinedOrNoInfo(fields, "nguyen_lieu_chi_tiet") == Ok(NoInfo);
    assert JoinedOrNoInfo(fields, "gia_vi") == Ok(NoInfo);
    assert StepsText(Get(fields, "cach_lam", Strs([]))) == StepPrefix + NoInfo;
    assert Display(Get(fields, "mo_ta", Str(""))) == "";
    assert "   - Mô tả: " + "" + "\n" == "   - Mô tả: " + "\n";
  }

  /** Steps without line breaks come back one per line, each behind the step
      marker. */
  lemma StepsTextLines(steps: seq<string>)
    requires steps != []
    requires forall k :: 0 <= k < |steps| ==> '\n' !in steps[k]
    ensures Split(StepsText(Strs(steps)), '\n') == StepLines(steps)
  {
    var lines := StepLines(steps);
    forall k | 0 <= k < |lines| ensures '\n' !in lines[k] {
      assert lines[k] == StepPrefix + steps[k];
      assert '\n' !in StepPrefix;
    }
    SplitJoin(lines, '\n');
  }

  /** `recipe_context` after the first `|recipes|` turns of the loop: the
      blocks in input order, or the first exception. */
  function RecipeContext(recipes: seq<RecipeView>, fmt: real -> string): Result<string, LlmFault>
    decreases |recipes|
  {
    if recipes == [] then Ok("")
    else
      match RecipeContext(recipes[..|recipes| - 1], fmt)
      case Err(e) => Err(e)
      case Ok(ctx) =>
        match Block(|recipes|, recipes[|recipes| - 1], fmt)
        case Err(e) => Err(e)
        case Ok(b) => Ok(ctx + b)
  }

  /** The context is built from the blocks in order: the context of the first
      `k` recipes is a prefix of it, followed by the block numbered `k + 1`;
      and it fails exactly when some block does. */
  lemma {:induction false} RecipeContextBlocks(recipes: seq<RecipeView>, fmt: real -> string, k: nat)
    requires k < |recipes|
    ensures RecipeContext(recipes, fmt).Ok? ==>
              && RecipeContext(recipes[..k], fmt).Ok? && Block(k + 1, recipes[k], fmt).Ok?
              && RecipeContext(recipes[..k], fmt).value + Block(k + 1, recipes[k], fmt).value
                 <= RecipeContext(recipes, fmt).value
    decreases |recipes|
  {
    var n := |recipes|;
    var init := recipes[..n - 1];
    if RecipeContext(recipes, fmt).Ok? {
      RecipeContextLast(recipes, fmt);
      if k == n - 1 {
        assert recipes[..k] == init;
      } else {
        RecipeContextBlocks(init, fmt, k);
        assert init[..k] == recipes[..k];
        assert init[k] == recipes[k];
      }
    }
  }

  /** A context that was built ends with the block of its last recipe. */
  lemma RecipeContextLast(recipes: seq<RecipeView>, fmt: real -> string)
    requires recipes != [] && RecipeContext(recipes, fmt).Ok?
    ensures var n := |recipes|;
            var init := RecipeContext(recipes[..n - 1], fmt);
            var last := Block(n, recipes[n - 1], fmt);
            && init.Ok? && last.Ok?
            && RecipeContext(recipes, fmt).value == init.value + last.value
  {
  }

  /** A recipe without a name makes the context fail (unless an earlier one
      already did). */
  lemma {:induction false} RecipeContextNeedsNames(recipes: seq<RecipeView>, fmt: real -> string, k: nat)
    requires k < |recipes| && NameKey !in recipes[k].fields
    ensures RecipeContext(recipes, fmt).Err?
    decreases |recipes|
  {
    var n := |recipes|;
    var init := recipes[..n - 1];
    if k < n - 1 {
      assert init[k] == recipes[k];
      RecipeContextNeedsNames(init, fmt, k);
    } else {
      assert Block(n, recipes[n - 1], fmt).Err?;
    }
    RecipeContextFails(recipes, fmt);
  }

  /** The context fails when the context before the last recipe does, or the
      last block does. */
  lemma RecipeContextFails(recipes: seq<RecipeView>, fmt: real -> string)
    requires recipes != []
    ensures var n := |recipes|;
            (RecipeContext(recipes[..n - 1], fmt).Err? || Block(n, recipes[n - 1], fmt).Err?)
              ==> RecipeContext(recipes, fmt).Err?
  {
  }

  /** The loop of `generate_suggestion` that accumulates `recipe_context`. */
  method BuildRecipeContext(recipes: seq<RecipeView>, fmt: real -> string) returns (r: Result<string, LlmFault>)
    ensures r == RecipeContext(recipes, fmt)
  {
    var context := "";
    var i := 0;
    while i < |recipes|
      invariant 0 <= i <= |recipes|
      invariant RecipeContext(recipes[..i], fmt) == Ok(context)
    {
      assert recipes[..i + 1][..i] == recipes[..i];
      var block := Block(i + 1, recipes[i], fmt);
      if block.Err? {
        RecipeContextPropagates(recipes, fmt, i + 1);
        return Err(block.error);
      }
      context := context + block.value;
      i := i + 1;
    }
    assert recipes[..|recipes|] == recipes;
    return Ok(context);
  }

  /** Once the context of a prefix fails, the context of the whole list fails
      with the same exception. */
  lemma {:induction false} RecipeContextPropagates(recipes: seq<RecipeView>, fmt: real -> string, i: nat)
    requires i <= |recipes|
    requires RecipeContext(recipes[..i], fmt).Err?
    ensures RecipeContext(recipes, fmt) == RecipeContext(recipes[..i], fmt)
    decreases |recipes| - i
  {
    if i < |recipes| {
      assert recipes[..i + 1][..i] == recipes[..i];
      RecipeContextPropagates(recipes, fmt, i + 1);
    } else {
      assert recipes[..i] == recipes;
    }
  }

  /* ---------------- generate_suggestion and chat ---------------- */

  /** `ingredient_str` */
  function IngredientText(ingredients: seq<string>): string
  {
    Join(", ", ingredients)
  }

  /** The language model reads the ingredients exactly as the query encoder
      does, without the encoder's prefix. */
  lemma IngredientTextIsQueryBody(ingredients: seq<string>)
    ensures Embedding.QueryText(ingredients) == Embedding.QueryPrefix + IngredientText(ingredients)
  {
  }

  /** `generate_suggestion`: `invoke` is the suggestion chain called with the
      ingredient text and the context (its answer, or the message of what it
      raised). An exception while building the context is outside the `try`
      and escapes. */
  function GenerateSuggestion(apiKey: Option<string>, ingredients: seq<string>, recipes: seq<RecipeView>,
                              fmt: real -> string, invoke: (string, string) -> Result<string, string>)
    : (r: Result<string, LlmFault>)
    ensures !Configured(apiKey) ==> r == Ok(NotConfigured)
    ensures Configured(apiKey) ==> (r.Err? <==> RecipeContext(recipes, fmt).Err?)
    ensures Configured(apiKey) && r.Ok? ==>
              var answer := invoke(IngredientText(ingredients), RecipeContext(recipes, fmt).value);
              r.value == if answer.Ok? then answer.value else "Error generating suggestion: " + answer.error
  {
    if !Configured(apiKey) then Ok(NotConfigured)
    else
      match RecipeContext(recipes, fmt)
      case Err(e) => Err(e)
      case Ok(context) =>
        match invoke(IngredientText(ingredients), context)
        case Ok(answer) => Ok(answer)
        case Err(message) => Ok("Error generating suggestion: " + message)
  }

  /** `chat`: `invoke` is the chat chain called with the message. */
  function Chat(apiKey: Option<string>, message: string, invoke: string -> Result<string, string>): (r: string)
    ensures !Configured(apiKey) ==> r == NotConfigured
    ensures Configured(apiKey) && invoke(message).Ok? ==> r == invoke(message).value
    ensures Configured(apiKey) && invoke(message).Err? ==> r == "Error replying to chat: " + invoke(message).error
  {
    if !Configured(apiKey) then NotConfigured
    else
      match invoke(message)
      case Ok(answer) => answer
      case Err(e) => "Error replying to chat: " + e
  }

  /** Without an API key both entry points answer the same fixed message and
      raise nothing, whatever the recipes hold. */
  lemma UnconfiguredAnswersAlike(apiKey: Option<string>, ingredients: seq<string>, recipes: seq<RecipeView>,
                                 fmt: real -> string, suggest: (string, string) -> Result<string, string>,
                                 message: string, reply: string -> Result<string, string>)
    requires apiKey.None? || apiKey == Some("")
    ensures GenerateSuggestion(apiKey, ingredients, recipes, fmt, suggest) == Ok(Chat(apiKey, message, reply))
  {
  }
}
