# Music recommendation pipeline: a Dafny model

This project models the recommendation core of a small music-recommendation
service (`get_recommendations.py`). Given a song title and an artist name, the
service asks a music-metadata provider for "similar tracks". When that fails
it falls back through a cascade:

1. a fuzzy track search, then a similarity lookup for each match in turn;
2. a fuzzy search over five spellings of the title, ranked remix-first,
   then a similarity lookup for the matches.

The final list is filtered so that no (title, artist) pair, stripped and
lower-cased, appears twice, and it is cut to the requested limit. A second
entry point, `retry_with_first_result`, takes the head off a caller-owned
queue of tracks and looks up tracks similar to it.

The provider sits outside the model. It is a value `Env` holding three
functions:

- `similar(track, artist)`: the provider's "similar tracks" answer;
- `search(text, count)`: the provider's fuzzy search answer;
- `setOrder(xs)`: the order in which `list(set(xs))` enumerates a list of
  strings in one process.

Every operation is a function of that value and of its arguments.

Modules:

- `Text`: ASCII versions of `strip`, `lower`, `upper`, `split(sep)[0]` and
  substring search.
- `Tracks`: the track record, its normalised key, `[:n]` slicing and the
  provider value.
- `Queries`: artist-name variants.
- `PostProcess`: duplicate filtering and remix-first ranking.
- `Fetch`: the two provider-facing fetchers.
- `Fallback`: the two first-success fallback searches.
- `Recommend`: the cascade and the retry queue.

Each source function that works by a loop is a method with loop invariants.
Each such method is proved equal to a specification function, and the
properties are proved about those functions as lemmas.

The retry queue, which the source mutates in place with `pop(0)`, is a class
`RetryQueue` with a `seq` field.

Behaviours of the code worth noting, all of which the model keeps:

- An artist variant can be the empty string. For example, "& Queen" yields
  "" as the text before '&' (`SymbolFirstGivesEmptyVariant`).
- The direct path (similar tracks found at once) is filtered for duplicates
  and truncated, but not ranked remix-first. Only the spelling fallback
  ranks.
- After the expansion loop breaks at `limit` tracks, duplicate filtering can
  leave fewer than `limit` tracks even if the provider had more distinct
  ones. The same holds on the direct path, which is cut to `limit` before
  filtering.
- In `try_alternative_spellings`, the second emptiness test after ranking can
  never fail (`RankedSpec`). The model keeps it.
- `retry_with_first_result` returns the answer of `get_similar_tracks`
  unfiltered on success (`get_recommendations.py:141-143`). Unlike the answer
  of `get_recommendations`, it can repeat a normalised key
  (`RetryAnswerMayRepeatKeys`).

## Model

| member | source | states |
|---|---|---|
| Text.Strip | get_recommendations.py:108 | `strip()`; its properties are stated by `Text.StripSpec`. |
| Text.ToLower | get_recommendations.py:108 | `lower()`: the result has the length of the input; position by position it is stated by `Text.ToLowerAt`. |
| Text.ToUpper | get_recommendations.py:158 | `upper()`: the result has the length of the input; position by position it is stated by `Text.ToUpperAt`. |
| Text.StripSpec | get_recommendations.py:108 | `strip()` yields a contiguous part of the input. Everything cut off before or after it is whitespace. The result neither starts nor ends with whitespace. |
| Text.ToLowerAt | get_recommendations.py:108 | `lower()` maps each character to its lower-case form, position by position. |
| Text.ToUpperAt | get_recommendations.py:158 | `upper()` maps each character to its upper-case form, position by position. |
| Text.Contains | get_recommendations.py:89 | `keyword in title`; its meaning is stated by `Text.ContainsSpec`. |
| Text.ContainsSpec | get_recommendations.py:89 | `needle in s` holds exactly when `needle` occurs as a contiguous part of `s` at some position. |
| Text.Before | get_recommendations.py:23 | `split(sep)[0]` is a prefix of the input that does not contain `sep`. When it is shorter than the input, the next character is `sep`. |
| Tracks.Key | get_recommendations.py:108 | The (title, artist) identifier, each stripped and lower-cased; how it is used is stated by `PostProcess.Dedup`, `PostProcess.DedupKeepsFirstSeen` and `PostProcess.DedupInFirstSeenOrder`. |
| Tracks.Take | get_recommendations.py:174 | `[:n]` is a prefix of length `min(n, len)`. |
| Queries.ListOfSet | get_recommendations.py:25 | `list(set(xs))` holds exactly the elements of `xs`, each once. |
| Queries.ListOfSetAnyOrder | get_recommendations.py:25 | Any duplicate-free enumeration of `xs` is a possible order of `list(set(xs))`, so the model fixes no order. |
| Queries.ArtistQueries | get_recommendations.py:16-25 | The artist variants; their content is stated by `Queries.ArtistQueriesContent`. |
| Queries.ArtistQueriesContent | get_recommendations.py:16-25 | An empty name has no variants. Otherwise the variants have no repeats and contain the stripped name. They also contain, for each of '&', ',', ';' in the name, the stripped text before its first occurrence. Nothing else is a variant. |
| Queries.SymbolFirstGivesEmptyVariant | get_recommendations.py:21-24 | A name that starts with a split symbol produces the empty string as a variant. |
| Queries.GenerateArtistQueries | get_recommendations.py:16-25 | The loop over the three symbols followed by `list(set(...))` computes exactly the variants above. |
| PostProcess.Dedup | get_recommendations.py:103-112 | The filtered list repeats no normalised (title, artist) key. It has exactly the keys of the input and is no longer than the input. |
| PostProcess.FilterDuplicates | get_recommendations.py:103-112 | The `seen`-set loop computes exactly the filtered list. |
| PostProcess.DedupKeepsFirstSeen | get_recommendations.py:103-112 | The output is the input with tracks removed and the order kept. Each kept track sits in the input at the first position that carries its key. |
| PostProcess.DedupInFirstSeenOrder | get_recommendations.py:105-112 | The kept tracks come in the order of their keys' first positions in the input, so for `[(A,1),(B,2),(A,1)]` the result is `[(A,1),(B,2)]` and never `[(B,2),(A,1)]`. |
| PostProcess.DedupOfUnique | get_recommendations.py:103-112 | A list with no repeated key passes through unchanged. |
| PostProcess.DedupIdempotent | get_recommendations.py:103-112 | Filtering twice gives the same result as filtering once. |
| PostProcess.AnyIn | get_recommendations.py:89 | `any(keyword in title for keyword in ...)`; stated by `PostProcess.AnyInSpec`. |
| PostProcess.AnyInSpec | get_recommendations.py:89 | `any(...)` holds exactly when one of the needles occurs in the text. |
| PostProcess.SortByPriority | get_recommendations.py:101 | `sorted(tracks, key=...)` as a stable insertion sort; stated by `PostProcess.SortIsStablePartition` and `PostProcess.SortIsOrdered`. |
| PostProcess.ContainsRemixKeywords | get_recommendations.py:86-89 | The keyword test; its meaning is stated by `PostProcess.ContainsRemixKeywordsSpec`. |
| PostProcess.RemixPriority | get_recommendations.py:95-99 | 0 for a title holding a remix keyword, else 1; the order it induces is stated by `PostProcess.PrioritizeRemixesSpec`. |
| PostProcess.PrioritizeRemixes | get_recommendations.py:91-101 | Stable sort by `remix_priority`; see `PostProcess.PrioritizeIsStablePartition` and `PostProcess.PrioritizeRemixesSpec`. |
| PostProcess.ContainsRemixKeywordsSpec | get_recommendations.py:86-89 | A title is tagged exactly when one of the six keywords occurs in its lower-cased form. |
| PostProcess.SortIsStablePartition | get_recommendations.py:101 | With 0/1 priorities, Python's stable `sorted(key=...)` yields the priority-0 tracks in input order, followed by the priority-1 tracks in input order. |
| PostProcess.SortIsOrdered | get_recommendations.py:101 | With 0/1 priorities, the sorted list has ascending priorities. |
| PostProcess.PrioritizeIsStablePartition | get_recommendations.py:91-101 | The ranking equals the tracks whose lower-cased title holds a remix keyword, in input order, followed by the other tracks, in input order. |
| PostProcess.PrioritizeRemixesSpec | get_recommendations.py:91-101 | Ranking permutes its input (same multiset). It is ordered by `remix_priority`, so every tagged track precedes every untagged one. Within each group the input order is kept. |
| PostProcess.PrioritizeKeepsUnique | get_recommendations.py:91-101 | Ranking a list with no repeated key keeps its length and repeats no key. |
| Fetch.SimilarTracks | get_recommendations.py:27-55 | The similar-tracks lookup; what it returns is stated by `Fetch.GetSimilarTracks`, `Fetch.Consumed` and `Fetch.TakeAfterStop`. |
| Fetch.AlternativeTracks | get_recommendations.py:57-84 | The fuzzy search over artist variants; stated by `Fetch.SearchAlternativeTracks`. |
| Fetch.Consumed | get_recommendations.py:47-54 | The accumulate-and-check loop stops at the first non-empty answer after which `limit` tracks are held. Otherwise it consumes every answer. |
| Fetch.TakeAfterStop | get_recommendations.py:53-55 | Returning early with `[:limit]` gives the same as cutting the concatenation of all answers. |
| Fetch.GetSimilarTracks | get_recommendations.py:27-55 | The result is the first `limit` tracks of the answers for all artist variants, in order, and never more than `limit`. The number of provider requests is exactly the point at which the loop stops. |
| Fetch.SearchAlternativeTracks | get_recommendations.py:57-84 | The result is the concatenation of the fuzzy-search answers for "song variant", for every variant, with no cut. |
| Fetch.EmptyArtistAsksNothing | get_recommendations.py:18-19 | With an empty or absent artist there are no variants. Neither fetcher makes a request, and both return nothing. |
| Fallback.FirstNonEmptySpec | get_recommendations.py:116-120 | A first-success loop gives nothing exactly when every element's answer is empty. Otherwise it gives the answer for an element all of whose predecessors got none. |
| Fallback.FirstSimilar | get_recommendations.py:114-120 | First successful lookup among the candidates; stated by `Fallback.FirstSimilarIsFirstSuccess`. |
| Fallback.FirstSimilarIsFirstSuccess | get_recommendations.py:114-120 | The result is empty exactly when every candidate's lookup is empty. Otherwise it is the lookup of a candidate all of whose predecessors failed. It never holds more than `limit` tracks. |
| Fallback.SearchRecursiveAlternatives | get_recommendations.py:114-120 | The loop with early return computes that first success. |
| Fallback.Ranked | get_recommendations.py:127-128 | Duplicate filtering followed by remix-first ranking; stated by `Fallback.RankedSpec`. |
| Fallback.RankedSpec | get_recommendations.py:127-129 | Filtering then ranking a search answer is empty exactly when the answer is empty. The result repeats no key, keeps every key and is ordered by `remix_priority`. |
| Fallback.FirstSpelling | get_recommendations.py:122-131 | First spelling whose search succeeds, ranked; stated by `Fallback.FirstSpellingIsFirstSuccess`. |
| Fallback.FirstSpellingIsFirstSuccess | get_recommendations.py:122-131 | The result is empty exactly when every spelling's search is empty. Otherwise it is the ranked answer of a spelling all of whose predecessors found nothing. It repeats no key. |
| Fallback.TryAlternativeSpellings | get_recommendations.py:122-131 | The loop with early return computes that first ranked success. |
| Recommend.SpellingVariants | get_recommendations.py:156-162 | The five spellings, in the source's order; they feed `Fallback.FirstSpelling`, see `Recommend.SearchOnlyProvider`. |
| Recommend.Expand | get_recommendations.py:165-170 | The expansion of the spelling matches by similarity lookups; stated by `Recommend.ExpandSpec`. |
| Recommend.ExpandSpec | get_recommendations.py:165-170 | The expansion is a prefix of all lookups of the spelling matches together. It stops short of them only when it already holds at least `limit` tracks. |
| Recommend.ExpandBySimilar | get_recommendations.py:165-170 | The loop with its `break` at `limit` computes that expansion, without truncating it. |
| Recommend.Recommendations | get_recommendations.py:147-175 | The whole cascade; stated by `Recommend.RecommendationsBounded` and the scenario lemmas below. |
| Recommend.GetRecommendations | get_recommendations.py:147-175 | The cascade of direct lookup, recursive alternatives and spelling variants (expanded, or used as they are) gives a result of at most `limit` tracks with no repeated key. |
| Recommend.RecommendationsBounded | get_recommendations.py:174 | On every path of the cascade, the answer holds at most `limit` tracks and repeats no key. |
| Recommend.DirectAnswerPassesThrough | get_recommendations.py:149-151 | A direct answer with no repeated key is returned exactly as `get_similar_tracks` returned it. |
| Recommend.DirectAnswerIgnoresSearch | get_recommendations.py:149-151 | Once the direct lookup answers, no fallback is consulted. Two providers that agree only on the similarity answers for this song (and on set order) give the same result, whatever else they answer. |
| Recommend.SearchOnlyProvider | get_recommendations.py:151-172 | If no similarity lookup ever answers, the result is the first successful spelling search, ranked, cut to `limit`. |
| Recommend.SilentProvider | get_recommendations.py:147-175 | A provider that answers nothing gives no recommendations. |
| Recommend.EmptyArtist | get_recommendations.py:147-175 | An empty or absent artist gives no recommendations. |
| Recommend.RetryAnswerMayRepeatKeys | get_recommendations.py:141-143 | The retry step's successful answer is not filtered: a provider that answers one track twice makes it repeat a key. |
| Recommend.RetryQueue.RetryWithFirstResult | get_recommendations.py:133-145 | An empty queue gives an error, no tracks and no change. Otherwise the head is always removed. On success the result is the head's similar tracks, at most `limit` and non-empty, with no error. On failure the result is the shrunken queue itself, with the "Queue updated" error. |

## Left out

- HTTP requests, JSON decoding and the API key are left out. The provider is the `Env` value. A response that cannot be parsed is modelled as an empty answer. So is a similar-tracks response without tracks.
- The `KeyError` raised when a search response has `trackmatches` but no `track` key is not modelled.
- The normalisation of a single-match search answer (a dict) into a list is not modelled. `search` already returns a sequence.
- The provider is assumed to answer the same request the same way within one call.
- `str.strip`, `lower` and `upper` are modelled on ASCII only, with no Unicode case mapping or Unicode whitespace.
- Negative limits are not modelled. `limit` is a natural number, and Python's negative slicing is not represented.
- Default argument values (`limit=50`, `limit=20`) are not modelled. Every call passes `limit` explicitly.
- An absent (`None`) artist is modelled as the empty string. The source takes the same branch for both.
- Fetch.GetSimilarTracks: the number of requests it reports is ghost. The requests themselves are not observable in the model.
- Recommend.RetryQueue.RetryWithFirstResult: on failure the source returns the very list object it popped from. The model returns the queue's new value and does not model aliasing between the two.
- `contains_remix_keywords` is never called in the source. The model uses the same predicate inside `remix_priority`, which tests the same keywords the same way.
- The web front end (`app.py`) is not part of this model. This includes its session state and its use of the retry queue. So is `init_db.py`.
