/**
 * The recommendation orchestrator: the primary cascade of `get_recommendations`
 * (direct lookup, then recursive alternatives, then spelling variants, ending
 * in duplicate filtering and truncation) and the retry step of
 * `retry_with_first_result` over a caller-owned queue.
 */
module Recommend {
  import opened Text
  import opened Tracks
  import opened Queries
  import opened PostProcess
  import opened Fetch
  import opened Fallback

  /** The lexical variants of the title the third fallback searches for, in order. */
  function SpellingVariants(song: string): seq<string> {
    [ToLower(song), ToUpper(song), song + " (feat. [Artist])", song + " - Remix", song + " (Extended Version)"]
  }

  /** The similar-track lookups of each ranked spelling match, in order. */
  function SimilarOfEach(env: Env, tracks: seq<Track>, limit: nat): (r: seq<seq<Track>>)
    ensures |r| == |tracks|
  {
    seq(|tracks|, i requires 0 <= i < |tracks| => CandidateRecs(env, tracks[i], limit))
  }

  /**
   * The loop over the spelling matches in `get_recommendations`: each
   * match's non-empty lookup is appended, and the loop breaks as soon as the
   * accumulator holds `limit` tracks (without truncating it).
   */
  function Expand(env: Env, tracks: seq<Track>, limit: nat): seq<Track> {
    var chunks := SimilarOfEach(env, tracks, limit);
    Flatten(chunks[..Consumed(chunks, limit)])
  }

  /** The expansion is a prefix of all lookups together; it stops short only once it holds `limit` tracks. */
  lemma ExpandSpec(env: Env, tracks: seq<Track>, limit: nat)
    ensures var all := Flatten(SimilarOfEach(env, tracks, limit));
      |Expand(env, tracks, limit)| <= |all| && Expand(env, tracks, limit) == all[..|Expand(env, tracks, limit)|] &&
      (|Expand(env, tracks, limit)| < |all| ==> |Expand(env, tracks, limit)| >= limit)
  {
    ConsumedPrefix(SimilarOfEach(env, tracks, limit), limit);
  }

  /** The loop of `get_recommendations` over the spelling matches, with its `break` at `limit`. */
  method ExpandBySimilar(env: Env, alternativeRecs: seq<Track>, limit: nat) returns (recs: seq<Track>)
    ensures recs == Expand(env, alternativeRecs, limit)
  {
    ghost var chunks := SimilarOfEach(env, alternativeRecs, limit);
    ghost var consumed := |alternativeRecs|;
    recs := [];
    for i := 0 to |alternativeRecs|
      invariant recs == Flatten(chunks[..i])
      invariant forall j :: 1 <= j <= i ==> !StopsAfter(chunks, limit, j)
      invariant consumed == |alternativeRecs|
    {
      var altTrack := alternativeRecs[i];
      var similarRecs: seq<Track>;
      ghost var queried: nat;
      similarRecs, queried := GetSimilarTracks(env, altTrack.title, altTrack.artist, limit);
      assert similarRecs == chunks[i];
      FlattenStep(chunks, i);
      if similarRecs != [] {
        recs := recs + similarRecs;
        if |recs| >= limit {
          assert StopsAfter(chunks, limit, i + 1);
          consumed := i + 1;
          break;
        }
      }
      NoStopExtend(chunks, limit, i);
    }
    assert chunks[..|alternativeRecs|] == chunks;
    ConsumedIs(chunks, limit, consumed);
  }

  /** `get_recommendations(song, artist, limit)` as a value. */
  function Recommendations(env: Env, song: string, artist: string, limit: nat): seq<Track> {
    var direct := SimilarTracks(env, song, artist, limit);
    if direct != [] then Take(Dedup(direct), limit)
    else
      var alternatives := AlternativeTracks(env, song, artist);
      var recursive := if alternatives != [] then FirstSimilar(env, alternatives, limit) else [];
      if recursive != [] then Take(Dedup(recursive), limit)
      else
        var alternativeRecs := FirstSpelling(env, artist, SpellingVariants(song));
        var recs :=
          if alternativeRecs == [] then []
          else if Expand(env, alternativeRecs, limit) == [] then alternativeRecs
          else Expand(env, alternativeRecs, limit);
        Take(Dedup(recs), limit)
  }

  /**
   * `get_recommendations`: the cascade direct lookup, recursive alternatives,
   * spelling variants (expanded by lookups, or used as they are), then
   * duplicate filtering and truncation to `limit`. The result never exceeds
   * `limit` and never repeats a normalised (title, artist) key.
   */
  method GetRecommendations(env: Env, song: string, artist: string, limit: nat) returns (result: seq<Track>)
    ensures result == Recommendations(env, song, artist, limit)
    ensures |result| <= limit && NoDupKeys(result)
  {
    var recs: seq<Track>;
    ghost var queried: nat;
    recs, queried := GetSimilarTracks(env, song, artist, limit);
    if recs == [] {
      var alternatives := SearchAlternativeTracks(env, song, artist);
      if alternatives != [] {
        recs := SearchRecursiveAlternatives(env, alternatives, limit);
      }
      if recs == [] {
        var alternativeSpellings := SpellingVariants(song);
        var alternativeRecs := TryAlternativeSpellings(env, song, artist, alternativeSpellings);
        if alternativeRecs != [] {
          recs := ExpandBySimilar(env, alternativeRecs, limit);
          if recs == [] {
            recs := alternativeRecs;
          }
        }
      }
    }
    result := FilterDuplicates(recs);
    result := Take(result, limit);
    RecommendationsBounded(env, song, artist, limit);
  }

  /** Whatever path the cascade takes, its answer holds at most `limit` tracks and no repeated key. */
  lemma RecommendationsBounded(env: Env, song: string, artist: string, limit: nat)
    ensures |Recommendations(env, song, artist, limit)| <= limit
    ensures NoDupKeys(Recommendations(env, song, artist, limit))
  {
    forall recs: seq<Track> ensures NoDupKeys(Take(Dedup(recs), limit)) {
      TakeKeepsUnique(Dedup(recs), limit);
    }
  }

  /**
   * A non-empty direct answer without repeated keys is returned exactly as
   * `get_similar_tracks` returned it: the variants' answers joined and cut to `limit`.
   */
  lemma DirectAnswerPassesThrough(env: Env, song: string, artist: string, limit: nat)
    requires SimilarTracks(env, song, artist, limit) != []
    requires NoDupKeys(SimilarTracks(env, song, artist, limit))
    ensures Recommendations(env, song, artist, limit) == SimilarTracks(env, song, artist, limit)
  {
    DedupOfUnique(SimilarTracks(env, song, artist, limit));
  }

  /**
   * Once the direct lookup answers, no fallback is consulted: two worlds that
   * agree only on the similarity answers for this song (and on set order)
   * give the same recommendations, whatever else they would answer.
   */
  lemma DirectAnswerIgnoresSearch(env1: Env, env2: Env, song: string, artist: string, limit: nat)
    requires forall a :: env1.similar(song, a) == env2.similar(song, a)
    requires forall xs :: env1.setOrder(xs) == env2.setOrder(xs)
    requires SimilarTracks(env1, song, artist, limit) != []
    ensures Recommendations(env1, song, artist, limit) == Recommendations(env2, song, artist, limit)
  {
    var queries := ArtistQueries(env1, artist);
    assert queries == ArtistQueries(env2, artist);
    assert SimilarResponses(env1, song, queries) == SimilarResponses(env2, song, queries);
  }

  lemma {:induction false} FlattenOfEmpties(chunks: seq<seq<Track>>)
    requires forall i :: 0 <= i < |chunks| ==> chunks[i] == []
    ensures Flatten(chunks) == []
  {
    if chunks != [] {
      FlattenOfEmpties(chunks[..|chunks| - 1]);
    }
  }

  /** A provider without similarity answers gives no lookup result for any track. */
  lemma NoSimilarAnswers(env: Env, limit: nat)
    requires forall s, a :: env.similar(s, a) == []
    ensures forall s, a :: SimilarTracks(env, s, a, limit) == []
  {
    forall s, a ensures SimilarTracks(env, s, a, limit) == [] {
      FlattenOfEmpties(SimilarResponses(env, s, ArtistQueries(env, a)));
    }
  }

  /**
   * With a provider that finds no similar tracks at all, the answer is the
   * first successful spelling search, ranked remix-first, cut to `limit`.
   */
  lemma SearchOnlyProvider(env: Env, song: string, artist: string, limit: nat)
    requires forall s, a :: env.similar(s, a) == []
    ensures Recommendations(env, song, artist, limit) == Take(FirstSpelling(env, artist, SpellingVariants(song)), limit)
  {
    NoSimilarAnswers(env, limit);
    assert SimilarTracks(env, song, artist, limit) == [];
    var alternatives := AlternativeTracks(env, song, artist);
    FirstSimilarIsFirstSuccess(env, alternatives, limit);
    assert FirstSimilar(env, alternatives, limit) == [];
    var alternativeRecs := FirstSpelling(env, artist, SpellingVariants(song));
    var chunks := SimilarOfEach(env, alternativeRecs, limit);
    FlattenOfEmpties(chunks[..Consumed(chunks, limit)]);
    assert Expand(env, alternativeRecs, limit) == [];
    FirstSpellingIsFirstSuccess(env, artist, SpellingVariants(song));
    DedupOfUnique(alternativeRecs);
  }

  /** A provider without search answers gives no fuzzy-search result for any text. */
  lemma NoSearchAnswers(env: Env)
    requires forall t, n :: env.search(t, n) == []
    ensures forall song, a :: AlternativeTracks(env, song, a) == []
  {
    forall song, a ensures AlternativeTracks(env, song, a) == [] {
      FlattenOfEmpties(SearchResponses(env, song, ArtistQueries(env, a)));
    }
  }

  /** A provider that answers nothing to any request yields no recommendations. */
  lemma SilentProvider(env: Env, song: string, artist: string, limit: nat)
    requires forall s, a :: env.similar(s, a) == []
    requires forall t, n :: env.search(t, n) == []
    ensures Recommendations(env, song, artist, limit) == []
  {
    SearchOnlyProvider(env, song, artist, limit);
    NoSearchAnswers(env);
    FirstSpellingIsFirstSuccess(env, artist, SpellingVariants(song));
    assert FirstSpelling(env, artist, SpellingVariants(song)) == [];
  }

  /** An empty (or absent) artist name yields no recommendations: no path issues a single request. */
  lemma EmptyArtist(env: Env, song: string, limit: nat)
    ensures Recommendations(env, song, "", limit) == []
  {
    var spellings := SpellingVariants(song);
    EmptyArtistAsksNothing(env, song, limit);
    forall i | 0 <= i < |spellings| ensures AlternativeTracks(env, spellings[i], "") == [] {
      EmptyArtistAsksNothing(env, spellings[i], limit);
    }
    FirstSpellingIsFirstSuccess(env, "", spellings);
  }

  /**
   * Unlike `get_recommendations`, the retry step hands back the lookup of the
   * queue's head without filtering it: a provider that answers the same track
   * twice makes that answer repeat a key.
   */
  lemma RetryAnswerMayRepeatKeys(env: Env, t: Track, limit: nat)
    requires t.artist != [] && limit >= 2
    requires forall a :: env.similar(t.title, a) == [t, t]
    ensures !NoDupKeys(CandidateRecs(env, t, limit))
  {
    var queries := ArtistQueries(env, t.artist);
    ArtistQueriesContent(env, t.artist);
    assert Strip(t.artist) in queries;
    var chunks := SimilarResponses(env, t.title, queries);
    assert chunks[0] == [t, t];
    FlattenAppend(chunks[..1], chunks[1..]);
    assert chunks[..1] + chunks[1..] == chunks;
    assert Flatten(chunks[..1]) == [t, t] by {
      assert chunks[..1][..0] == [];
    }
    var r := CandidateRecs(env, t, limit);
    assert r[0] == t && r[1] == t;
  }

  const NoRecommendationsToRetry: string := "No recommendations to retry."
  const QueueUpdated: string := "No results found for the first recommendation. Queue updated."

  /** The caller-owned queue of tracks that later retries are seeded from. */
  class RetryQueue {
    var items: seq<Track>

    constructor (initial: seq<Track>)
      ensures items == initial
    {
      items := initial;
    }

    /**
     * `retry_with_first_result(recs, limit)`: on an empty queue, an error and
     * no change; otherwise the head is removed (whatever follows) and looked
     * up: its similar tracks on success, else the shrunken queue itself and
     * an error saying the queue was updated.
     */
    method RetryWithFirstResult(env: Env, limit: nat) returns (recs: seq<Track>, error: Option<string>)
      modifies this
      ensures old(items) == [] ==> items == old(items) && recs == [] && error == Some(NoRecommendationsToRetry)
      ensures old(items) != [] ==> items == old(items)[1..] && |items| == |old(items)| - 1
      ensures old(items) != [] ==>
        var similar := CandidateRecs(env, old(items)[0], limit);
        if similar != [] then recs == similar && error == None
        else recs == items && error == Some(QueueUpdated)
      ensures error == None ==> 0 < |recs| <= limit
    {
      if items == [] {
        return [], Some(NoRecommendationsToRetry);
      }
      var firstResult := items[0];
      items := items[1..];
      var similarRecs: seq<Track>;
      ghost var queried: nat;
      similarRecs, queried := GetSimilarTracks(env, firstResult.title, firstResult.artist, limit);
      if similarRecs != [] {
        return similarRecs, None;
      }
      return items, Some(QueueUpdated);
    }
  }
}
