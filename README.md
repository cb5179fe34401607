# SmartChef recipe retrieval, in Dafny

SmartChef suggests dishes for the ingredients a user has. The user's ingredient
list is embedded as `"query: a, b, c"`. The vector index (Qdrant) is asked for
twice `top_k` nearest recipes. Each candidate's comma-separated
`nguyen_lieu_search` is split, stripped and lower-cased, then scored against
the query by set overlap. Candidates scoring at least 0.2 are kept, sorted by
(match score, semantic score) from high to low, and cut to `top_k`.

Around this ranking engine sit:
- the ingestion script, which writes one vector point per recipe and upserts
  the recipe into the Postgres `recipes` table;
- the batched Postgres lookup `get_recipes_by_ids`;
- the corpus builder, which searches DuckDuckGo for a DienMayXanh page,
  scrapes it, asks Gemini for a JSON recipe and appends it to a JSON file;
- the LLM layer: a per-session chat-history store, and the recipe context
  text given to the model;
- the YOLO label normalisation, which maps detector labels to Vietnamese
  ingredient names.

The model has one module per source file:

| module | file | source |
|---|---|---|
| `Wrappers` | `wrappers.dfy` | `Option` and `Result` |
| `Text` | `text.dfy` | Python's `join`, `split`, `strip`, `lower`, `in`, `replace` and `str(n)` |
| `Json` | `json.dfy` | JSON values, `dict.get`, truthiness, f-string display |
| `Embedding` | `embedding.dfy` | `RAG/embedding.py` |
| `Ranking` | `ranking.dfy` | `RAG/rag_service.py` |
| `RecipeStore` | `recipe_store.dfy` | `db.py` |
| `Ingestion` | `ingestion.dfy` | `RAG/prepareDataForRag/scripts/fromJsonToVectordb.py` |
| `IndexContract` | `index_contract.dfy` | what ingestion writes and `retrieve` reads |
| `CorpusBuilder` | `corpus_builder.dfy` | `RAG/prepareDataForRag/scripts/data_generator.py` |
| `Llm` | `llm_service.dfy` | `llm_service.py` |
| `Vision` | `vision.dfy` | `Vison/yolo_service.py` |

Code that computes a value is modelled as functions and lemmas. Code that
updates state step by step is modelled imperatively:
- `retrieve`'s loop is `Ranking.Retrieve`;
- the ingestion loop over the vector index and table is the class
  `Ingestion.Corpus`;
- the JSON file and `save_append` are the class `CorpusBuilder.RecipeFile`;
- the crawl loop is `CorpusBuilder.Crawl`;
- the session `store` is the class `Llm.SessionStore`;
- the `recipe_context` accumulation is `Llm.BuildRecipeContext`;
- the label set is built in `Vision.NormalizeIngredients`.

Each method is proved against a specification function, or states its result
outright.

External services are parameters: the sentence encoder, the vector search,
DuckDuckGo, `requests`/BeautifulSoup, Gemini/LangChain, `json.loads`, the YOLO
detector and the `:.2f` formatter. A service that can raise returns an
`Option` or `Result`, except the encoder and the vector search, which are
total (see "Left out"). Scores are real numbers.

The model follows what the code does:
- `ingredient_match_score` computes Jaccard, |R∩Q|/|R∪Q|
  (`rag_service.py:23-27`), although its docstring (`rag_service.py:15`)
  says "Intersection over Query". The model computes Jaccard, and lemmas
  separate it from intersection over the query and from coverage of the
  recipe (|R∩Q|/|R|).
- `retrieve` never calls the recipe store (`rag_service.py:29-61`); its
  results carry only id, name and the two scores. The lookup is modelled on
  its own, as `RecipeStore.GetRecipesByIds`.
- `retrieve` catches no exception: encoder and search failures propagate.
  Here the encoder and search are total parameters.

## Model

| member | source | states |
|---|---|---|
| Text.Split | ai_services/app/RAG/rag_service.py:41 | `s.split(c)` never gives an empty list and no piece contains the separator |
| Text.JoinSplit | ai_services/app/RAG/rag_service.py:41 | joining the pieces of a split with the separator gives back the string |
| Text.SplitJoin | ai_services/app/RAG/rag_service.py:41 | splitting a join of separator-free pieces gives back the pieces |
| Text.JoinCommaSpace | ai_services/app/RAG/embedding.py:17 | a `", "`-join is the `","`-join of the names, each later name preceded by one space |
| Text.Strip | ai_services/app/RAG/rag_service.py:41 | `strip()` yields the slice left after removing whitespace at both ends; the result has no whitespace at either end |
| Text.LowerCases | ai_services/app/RAG/rag_service.py:41 | after `lower()` no ASCII capital is left, ASCII capitals become their small letters, digits and punctuation are kept and nothing else becomes one, and whitespace stays whitespace |
| Text.LowerIdempotent | ai_services/app/RAG/rag_service.py:41 | lower-casing twice is lower-casing once |
| Text.StripUnpadded | ai_services/app/RAG/rag_service.py:41 | `strip()` leaves a string alone that neither starts nor ends with whitespace |
| Text.JoinChars | ai_services/app/RAG/prepareDataForRag/scripts/fromJsonToVectordb.py:45 | iterating over a string (a string `gia_vi` in the join) yields its characters, which `"".join` puts back together |
| Text.NatToString | ai_services/app/llm_service.py:116 | the block number prints as decimal digits that read back as the number, with no leading zero |
| Text.NatToStringInjective | ai_services/app/llm_service.py:116 | different block numbers print differently |
| Embedding.QueryText | ai_services/app/RAG/embedding.py:17 | the encoder input always starts with `"query: "` |
| Embedding.QueryTextOfNone | ai_services/app/RAG/embedding.py:17 | no ingredients give exactly `"query: "` |
| Embedding.QueryTextOfOne | ai_services/app/RAG/embedding.py:17 | one ingredient `x` gives `"query: " + x`, with no separator |
| Embedding.QueryTextAppend | ai_services/app/RAG/embedding.py:17 | ingredients follow the prefix in order, separated by exactly `", "` |
| Embedding.QueryTextInjective | ai_services/app/RAG/embedding.py:17 | for non-empty lists of comma-free names, equal query texts mean equal ingredient lists |
| Embedding.QueryTextEmptyNameCollides | ai_services/app/RAG/embedding.py:17 | the empty list and the list holding one empty name give the same text |
| Ranking.MatchScore | ai_services/app/RAG/rag_service.py:13-27 | the score is in [0,1]; it is 0 exactly when the sets are disjoint, which includes either set being empty; it is 1 exactly when the sets are equal and non-empty |
| Ranking.MatchScoreSymmetric | ai_services/app/RAG/rag_service.py:23-27 | the score does not depend on argument order (Jaccard) |
| Ranking.MatchScoreIgnoresRepeats | ai_services/app/RAG/rag_service.py:17-18 | any two pairs of lists with the same ingredient sets get the same score: order and repeats do not matter |
| Ranking.MatchScoreIgnoresAppendedRepeat | ai_services/app/RAG/rag_service.py:17 | a duplicate appended to the recipe's list leaves the score unchanged |
| Ranking.MatchScoreIsNotIntersectionOverQuery | ai_services/app/RAG/rag_service.py:13-27 | {gà, gừng, nước mắm} against {gà, gừng} scores 2/3, where the doc-comment's intersection over query gives 1 |
| Ranking.MatchScoreIsNotRecipeCoverage | ai_services/app/RAG/rag_service.py:23-27 | {gà} against {gà, gừng} scores 1/2, where coverage of the recipe gives 1 |
| Ranking.Tokens | ai_services/app/RAG/rag_service.py:40-41 | one token per comma-separated piece |
| Ranking.TokensOfCommaFree | ai_services/app/RAG/rag_service.py:40-41 | a comma-free string is one normalised token; a missing or empty string gives the token list `[""]` |
| Ranking.InsertPermutes | ai_services/app/RAG/rag_service.py:56-59 | one insertion step of the sort adds exactly the inserted entry |
| Ranking.InsertOrdered | ai_services/app/RAG/rag_service.py:56-59 | inserting into an ordered list keeps it ordered |
| Ranking.InsertTied | ai_services/app/RAG/rag_service.py:56-59 | inserting keeps the relative order of entries with equal keys |
| Ranking.SortDescPermutes | ai_services/app/RAG/rag_service.py:56-59 | the sort is a permutation |
| Ranking.SortDescOrdered | ai_services/app/RAG/rag_service.py:56-59 | the sort orders by (match score, semantic score) from high to low |
| Ranking.SortDescStable | ai_services/app/RAG/rag_service.py:56-59 | entries with equal keys keep their hit order, as Python's stable sort does even with `reverse=True` |
| Ranking.Retrieve | ai_services/app/RAG/rag_service.py:29-61 | `retrieve` embeds `"query: …"` once, asks the search for `2*top_k` hits, and returns exactly the ranking of those hits, or the first exception a payload raises |
| Ranking.ScanStopsAtError | ai_services/app/RAG/rag_service.py:38-54 | an exception in the loop ends `retrieve` with that exception |
| Ranking.ScanProvenance | ai_services/app/RAG/rag_service.py:38-54 | every kept entry is what some hit yields |
| Ranking.ScanComplete | ai_services/app/RAG/rag_service.py:48-54 | every hit that reaches the threshold has its entry kept |
| Ranking.ScanErrorFromHit | ai_services/app/RAG/rag_service.py:38-54 | the exception `retrieve` raises is the one some hit raises |
| Ranking.ScanOkNoRaise | ai_services/app/RAG/rag_service.py:38-54 | a loop that raised nothing met no hit that raises |
| Ranking.ScanFailsIff | ai_services/app/RAG/rag_service.py:38-54 | the loop raises exactly when some hit raises |
| Ranking.RankWithinTopK | ai_services/app/RAG/rag_service.py:61 | at most `top_k` entries are returned |
| Ranking.RankFromHits | ai_services/app/RAG/rag_service.py:48-54 | every returned entry has match score between 0.2 and 1 and comes from a hit whose similarity is its semantic score |
| Ranking.RankOrdered | ai_services/app/RAG/rag_service.py:56-61 | the result is ordered non-increasingly by (match score, semantic score) |
| Ranking.RankStable | ai_services/app/RAG/rag_service.py:56-61 | the result is a prefix of a stable sort of the kept entries |
| Ranking.RankKeepsTheBest | ai_services/app/RAG/rag_service.py:56-61 | a qualifying entry left out means the result holds `top_k` entries, none ranked below it |
| Ranking.RankOfNoIngredients | ai_services/app/RAG/rag_service.py:17-54 | an empty ingredient list returns nothing, because every score is 0 |
| Ranking.ScanOfNoIngredients | ai_services/app/RAG/rag_service.py:17-54 | with no query ingredients no hit is kept |
| Ranking.RankOfNoHits | ai_services/app/RAG/rag_service.py:37-61 | no hits, no results |
| RecipeStore.GetRecipesByIds | ai_services/app/db.py:22-48 | an empty id list gives `{}` without connecting; the keys are requested ids, each holding its own row; requested ids present in the table are returned and absent ones omitted; a failing query gives `{}`; only a failing connection raises |
| RecipeStore.Upsert | ai_services/app/RAG/prepareDataForRag/scripts/fromJsonToVectordb.py:90-116 | the row for the id becomes exactly the new row (replacement, not merge); other rows are unchanged; the primary key is kept |
| Ingestion.EmbeddingText | ai_services/app/RAG/prepareDataForRag/scripts/fromJsonToVectordb.py:44-51 | the document text is name, description, search ingredients and joined seasonings behind fixed labels, in that order; it fails exactly when `gia_vi` is null |
| Ingestion.EmbeddingTextOfBareRecipe | ai_services/app/RAG/prepareDataForRag/scripts/fromJsonToVectordb.py:44-51 | absent keys print as empty strings and an absent `gia_vi` as an empty join |
| Ingestion.PassageIsNeverQuery | ai_services/app/RAG/prepareDataForRag/scripts/fromJsonToVectordb.py:56 | a document's encoder input (`"passage: "…`) never equals a query's |
| Ingestion.PointPayload | ai_services/app/RAG/prepareDataForRag/scripts/fromJsonToVectordb.py:65-70 | the payload has exactly `recipe_id`, `ten_mon`, `nguyen_lieu_search` and `gia_vi`, each the recipe's value (null when absent, `[]` for `gia_vi`), and no `id` |
| Ingestion.TextColumn | ai_services/app/RAG/prepareDataForRag/scripts/fromJsonToVectordb.py:107-113 | a TEXT column stores a string as it is, `None` as NULL and a list as its `text[]` text; it is NULL exactly for `None` and never raises |
| Ingestion.ArrayTextOfPlain | ai_services/app/RAG/prepareDataForRag/scripts/fromJsonToVectordb.py:108-113 | a non-empty list of elements that need no quoting is stored as their comma join in braces, and splitting the inside at commas gives the list back |
| Ingestion.ArrayTextOfEmpty | ai_services/app/RAG/prepareDataForRag/scripts/fromJsonToVectordb.py:108-113 | `[]` is stored as `{}` and `[""]` as `{""}`, so the two stay apart |
| Ingestion.ArrayElementInjective | ai_services/app/RAG/prepareDataForRag/scripts/fromJsonToVectordb.py:108-113 | distinct list elements are written as distinct array elements, quoted or not |
| Ingestion.RowOf | ai_services/app/RAG/prepareDataForRag/scripts/fromJsonToVectordb.py:90-116 | the insert raises exactly when the id is missing or null (the NOT NULL primary key); otherwise the row holds each TEXT column as `TextColumn` stores it, lists included, and `[]` for a missing JSONB column |
| Ingestion.ListColumnIsStored | ai_services/app/RAG/prepareDataForRag/scripts/fromJsonToVectordb.py:90-116 | `{"id":"r1","ten_mon":["a","b"]}` is written, with `ten_mon` stored as `{a,b}` |
| Ingestion.ReinsertAddsAPoint | ai_services/app/RAG/prepareDataForRag/scripts/fromJsonToVectordb.py:53-116 | inserting a recipe twice under two fresh point ids adds two points with the same `recipe_id`, both ids in the index, and leaves one row |
| Ingestion.FailedRowKeepsPoint | ai_services/app/RAG/prepareDataForRag/scripts/fromJsonToVectordb.py:53-116 | an insert whose row fails has already added its point |
| Ingestion.AfterIngestKeepsKeys | ai_services/app/RAG/prepareDataForRag/scripts/fromJsonToVectordb.py:88-124 | every row, of the table the connection sees and of the committed table, stays stored under its own id |
| Ingestion.AfterIngestKeepsPoints | ai_services/app/RAG/prepareDataForRag/scripts/fromJsonToVectordb.py:59-124 | the index only grows during a run |
| Ingestion.FailedRunKeepsTable | ai_services/app/RAG/prepareDataForRag/scripts/fromJsonToVectordb.py:53-126 | a run whose only recipe fails at its row keeps the new point in the index and leaves the table as it was |
| Ingestion.FailedRunKeepsEarlierRow | ai_services/app/RAG/prepareDataForRag/scripts/fromJsonToVectordb.py:88-126 | when the second row of a run fails, the first row survives, committed by the second call before its insert; both points stay |
| Ingestion.FailedTextDropsPendingRow | ai_services/app/RAG/prepareDataForRag/scripts/fromJsonToVectordb.py:53-126 | when the second recipe's text cannot be built, that call never reaches its commit, and the first row is lost with the script |
| Ingestion.Corpus.InsertRecipe | ai_services/app/RAG/prepareDataForRag/scripts/fromJsonToVectordb.py:53-116 | `insert_recipe` appends one point under the fresh id, commits what the connection holds, and then upserts the row, as `AfterInsert` says |
| Ingestion.Corpus.IngestAll | ai_services/app/RAG/prepareDataForRag/scripts/fromJsonToVectordb.py:118-126 | the script's loop and final commit leave the index and the committed table that `AfterRun` gives: everything on success, only what the last commit kept on an error |
| IndexContract.NormalizeDropsLeadingSpace | ai_services/app/RAG/rag_service.py:41 | the space that follows a comma does not survive `strip().lower()` |
| IndexContract.CsvRoundTrip | ai_services/app/RAG/rag_service.py:40-41 | normalised comma-free names written `", "`-separated are read back as exactly those names |
| IndexContract.NormalizeIdempotent | ai_services/app/RAG/rag_service.py:41 | `strip().lower()` of a normalised name changes nothing |
| IndexContract.NormalizeCommaFree | ai_services/app/RAG/rag_service.py:41 | normalising a comma-free name gives a comma-free name |
| IndexContract.CsvRoundTripOfNormalized | ai_services/app/RAG/rag_service.py:40-41 | any comma-free names, normalised and written `", "`-separated, are read back as their normalised forms |
| IndexContract.IdKeyMismatchFailsHit | ai_services/app/RAG/rag_service.py:50 | as written, an ingested hit that reaches the threshold raises `KeyError('id')` |
| IndexContract.IdKeyMismatchFailsRetrieval | ai_services/app/RAG/rag_service.py:38-61 | as written, `retrieve` over an ingested index raises `KeyError('id')` as soon as one hit qualifies |
| IndexContract.IngestedIdKeyReadsHit | ai_services/app/RAG/prepareDataForRag/scripts/fromJsonToVectordb.py:65-70 | reading `recipe_id`, an ingested hit is dropped below 0.2, and otherwise yields the recipe's id, name and scores |
| IndexContract.IngestedIdKeyRetrieves | ai_services/app/RAG/rag_service.py:29-61 | reading `recipe_id`, `retrieve` over an ingested index succeeds, and every qualifying recipe is returned or outranked by a full result |
| CorpusBuilder.Appended | ai_services/app/RAG/prepareDataForRag/scripts/data_generator.py:243-261 | `save_append` appends the record exactly when no loaded record has an equal `.get('id')` (None matches None), and otherwise writes nothing |
| CorpusBuilder.AppendedKeepsRecords | ai_services/app/RAG/prepareDataForRag/scripts/data_generator.py:254-258 | loaded records are kept in order and the list grows by at most one |
| CorpusBuilder.AppendedIdempotent | ai_services/app/RAG/prepareDataForRag/scripts/data_generator.py:254-261 | saving the same record twice is saving it once |
| CorpusBuilder.AppendedHasId | ai_services/app/RAG/prepareDataForRag/scripts/data_generator.py:254-258 | after a save some record carries the saved id |
| CorpusBuilder.AppendedOverwritesUnreadable | ai_services/app/RAG/prepareDataForRag/scripts/data_generator.py:244-258 | an unreadable file is replaced by a list holding only the new record |
| CorpusBuilder.AppendedKeepsIdsDistinct | ai_services/app/RAG/prepareDataForRag/scripts/data_generator.py:254-256 | the dedupe keeps ids distinct |
| CorpusBuilder.ContainsId | ai_services/app/RAG/prepareDataForRag/scripts/data_generator.py:254 | the `any(...)` scan answers whether some item has the id |
| CorpusBuilder.RecipeFile.SaveAppend | ai_services/app/RAG/prepareDataForRag/scripts/data_generator.py:243-261 | the file becomes `Appended(old file, data)` |
| CorpusBuilder.FirstDmx | ai_services/app/RAG/prepareDataForRag/scripts/data_generator.py:147-151 | the chosen result is the first whose `href` contains `dienmayxanh.com`; there is none exactly when no result matches |
| CorpusBuilder.FirstDmxLink | ai_services/app/RAG/prepareDataForRag/scripts/data_generator.py:147-159 | a returned link contains `dienmayxanh.com` |
| CorpusBuilder.DmxLinkNonEmpty | ai_services/app/RAG/prepareDataForRag/scripts/data_generator.py:147-151 | a returned link is never empty |
| CorpusBuilder.FindDmxLink | ai_services/app/RAG/prepareDataForRag/scripts/data_generator.py:130-159 | the loop returns the first DienMayXanh link, otherwise None, and None when the search raises |
| CorpusBuilder.PageText | ai_services/app/RAG/prepareDataForRag/scripts/data_generator.py:161-201 | the page text is at most 30000 characters and a prefix of the chosen text, all of it when short enough; the comment block is used only with at least 200 characters |
| CorpusBuilder.ShortCommentFallsBack | ai_services/app/RAG/prepareDataForRag/scripts/data_generator.py:187-195 | an empty or short comment block falls back to the article or body text |
| CorpusBuilder.JsonCandidate | ai_services/app/RAG/prepareDataForRag/scripts/data_generator.py:231-236 | when a `}` follows the first `{`, the text handed to `json.loads` runs from the first `{` to the last `}` inclusive |
| CorpusBuilder.JsonCandidateBetween | ai_services/app/RAG/prepareDataForRag/scripts/data_generator.py:231-233 | with a first `{` before a last `}`, the candidate is exactly the text from one to the other |
| CorpusBuilder.JsonCandidateIgnoresChatter | ai_services/app/RAG/prepareDataForRag/scripts/data_generator.py:231-233 | prose before the object and after it is dropped |
| CorpusBuilder.JsonCandidateWithoutBraces | ai_services/app/RAG/prepareDataForRag/scripts/data_generator.py:235-236 | without braces only the code fences are removed |
| CorpusBuilder.ProcessToJson | ai_services/app/RAG/prepareDataForRag/scripts/data_generator.py:227-240 | the stripped reply's candidate is parsed; a failed model call gives None |
| CorpusBuilder.ShouldSaveIsNameTest | ai_services/app/RAG/prepareDataForRag/scripts/data_generator.py:286 | a record is saved exactly when it has a truthy `ten_mon` |
| CorpusBuilder.HarvestDish | ai_services/app/RAG/prepareDataForRag/scripts/data_generator.py:274-284 | one turn of `main` gives the record `Harvest` specifies |
| CorpusBuilder.Crawl | ai_services/app/RAG/prepareDataForRag/scripts/data_generator.py:264-292 | `main` leaves the file `Crawled` gives |
| CorpusBuilder.SaveIfNamed | ai_services/app/RAG/prepareDataForRag/scripts/data_generator.py:286-289 | a record is saved exactly when there is one and its `ten_mon` is truthy; otherwise the file is unchanged |
| CorpusBuilder.CrawledKeepsRecords | ai_services/app/RAG/prepareDataForRag/scripts/data_generator.py:271-292 | a crawl never drops or reorders loaded records |
| CorpusBuilder.CrawledKeepsIdsDistinct | ai_services/app/RAG/prepareDataForRag/scripts/data_generator.py:271-292 | a crawl keeps ids distinct |
| CorpusBuilder.CrawledAddsOnlyNamedRecords | ai_services/app/RAG/prepareDataForRag/scripts/data_generator.py:286-287 | every record a crawl adds has a truthy `ten_mon` |
| Llm.SessionStore.constructor | ai_services/app/llm_service.py:23 | the store starts empty |
| Llm.SessionStore.GetSessionHistory | ai_services/app/llm_service.py:25-28 | afterwards the session is a key; a known session gets its history back with the store unchanged; a new one gets a fresh empty history and the other entries are untouched; no two sessions share a history |
| Llm.JoinedOrNoInfo | ai_services/app/llm_service.py:119-123 | a missing or empty list renders "Không có thông tin"; a null raises; the text is never empty |
| Llm.BlockShape | ai_services/app/llm_service.py:115-123 | a block starts with its number, name and score, and fails exactly on a missing name or score or a null list |
| Llm.BareRecipeBlock | ai_services/app/llm_service.py:115-130 | a recipe without details renders an empty description, both placeholders and the placeholder step line |
| Llm.StepsTextLines | ai_services/app/llm_service.py:125-130 | the steps text splits back into one prefixed line per step |
| Llm.RecipeContextBlocks | ai_services/app/llm_service.py:114-130 | the context is the blocks numbered 1..n in input order |
| Llm.RecipeContextNeedsNames | ai_services/app/llm_service.py:116 | a recipe without `ten_mon` makes the context raise |
| Llm.RecipeContextPropagates | ai_services/app/llm_service.py:114-130 | an exception in one turn ends the loop with it |
| Llm.BuildRecipeContext | ai_services/app/llm_service.py:114-130 | the loop builds exactly `RecipeContext` |
| Llm.IngredientTextIsQueryBody | ai_services/app/llm_service.py:113 | the model sees the same ingredient text the query encoder sees after its prefix |
| Llm.GenerateSuggestion | ai_services/app/llm_service.py:99-145 | without a key the answer is "LLM not configured."; otherwise context errors escape and chain errors become "Error generating suggestion: …" |
| Llm.Chat | ai_services/app/llm_service.py:147-160 | without a key the answer is "LLM not configured."; with one, the chain's answer is returned as it is, and a chain failure becomes "Error replying to chat: " and its message |
| Llm.UnconfiguredAnswersAlike | ai_services/app/llm_service.py:111-151 | without a key both entry points give the same message and raise nothing |
| Vision.NormalizeIngredients | ai_services/app/Vison/yolo_service.py:124-138 | no name twice; every name is the mapping of some detection; every detection with a truthy mapping contributes its name |
| Vision.CollectNames | ai_services/app/Vison/yolo_service.py:129-136 | the set holds exactly the truthy mappings of the detections' labels |
| Vision.ListOf | ai_services/app/Vison/yolo_service.py:138 | `list(set)` holds each element of the set once and nothing else |
| Vision.NormalizedUpToOrder | ai_services/app/Vison/yolo_service.py:129-138 | two normalisations of the same detections differ only in order |
| Vision.NormalizedFromNothing | ai_services/app/Vison/yolo_service.py:129-138 | when no detection's label has a truthy mapping (missing from the dictionary or mapped to `""`), there is no ingredient |
| Vision.DetectIngredients | ai_services/app/Vison/yolo_service.py:56-63 | `detect_ingredients` normalises what the detector returns and passes its error on |

## Left out

- I/O: file reads and writes, Postgres connections, the Qdrant client, HTTP, `print`, `time.sleep`. The script-level setup (collection creation, `CREATE TABLE`) is also left out.
- The sentence encoder, DuckDuckGo, BeautifulSoup scraping, Gemini/LangChain and `json.loads` are parameters. Their behaviour is not modelled.
- LangChain's use of the session store (history read and append inside `RunnableWithMessageHistory`) is internal to LangChain. `GenerateSuggestion` and `Chat` take the chains' answers as parameters.
- `MENU_LIST`, the API-key set-up of `data_generator.py` and the prompt text are left out: they are constants and configuration.
- YOLO `detect_objects` and `_preprocess` (numpy, ONNX, NMS) are floating-point numerics. The detector is a parameter.
- Floating point: scores are reals, not IEEE doubles, and `:.2f` is an abstract formatter.
- JSON values are null, strings or lists of strings. Numbers, booleans and nested objects in records are not modelled. A top-level JSON value that is not an object is not modelled either.
- Text.Lower: covers ASCII, Latin-1 and the Vietnamese capitals only. It does not cover the rest of Unicode case mapping.
- Json.Display: a list prints with single quotes and no escaping, as `repr` prints strings without quotes or backslashes.
- Vision.NormalizeIngredients: the order of `list(set)` is left unspecified, as in Python.
- Ranking.Retrieve: requires `top_k > 0`. The source does not guard it, and a negative slice bound would drop entries from the end.
- The uuid4 point id is a caller-supplied id not already in the index.
- Ranking.Retrieve: the encoder and the vector search are total parameters. Their exceptions, which `retrieve` lets propagate (`rag_service.py:29-61`), are not modelled.

## Findings

| source | as written | input that shows it | evidently intended | confidence | as-written member | corrected member |
|---|---|---|---|---|---|---|
| ai_services/app/RAG/rag_service.py:50 | `retrieve` reads `payload["id"]`, but ingestion stores the recipe id under `recipe_id` (fromJsonToVectordb.py:66) and writes no `id` key | an index built by the ingestion script, with one recipe whose `nguyen_lieu_search` is `"gà, gừng"`, queried with `["gà", "gừng"]`: the score is 1 ≥ 0.2 and `payload["id"]` raises `KeyError('id')` | read the key ingestion writes, `recipe_id`, so qualifying recipes are returned | high (not executed) | IndexContract.IdKeyMismatchFailsRetrieval | IndexContract.IngestedIdKeyRetrieves |

`Ranking.Retrieve` and `Ranking.Rank` take the payload key as a parameter.
- `Ranking.ReadIdKey` (`"id"`) is the code as written.
- `IndexContract.IngestedIdKey` (`"recipe_id"`) is the correction, and the end-to-end lemmas use it.
