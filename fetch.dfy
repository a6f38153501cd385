/**
 * The two provider-facing fetchers: similar tracks for a song over all artist
 * variants (`get_similar_tracks`) and fuzzy search over all artist variants
 * (`search_alternative_tracks`).
 */
module Fetch {
  import opened Tracks
  import opened Queries

  /** The tracks of a series of provider answers, one answer after another. */
  function Flatten(chunks: seq<seq<Track>>): seq<Track> {
    if chunks == [] then [] else Flatten(chunks[..|chunks| - 1]) + chunks[|chunks| - 1]
  }

  lemma {:induction false} FlattenAppend(a: seq<seq<Track>>, b: seq<seq<Track>>)
    ensures Flatten(a + b) == Flatten(a) + Flatten(b)
  {
    if b == [] {
      assert a + b == a;
    } else {
      FlattenAppend(a, b[..|b| - 1]);
      assert (a + b)[..|a + b| - 1] == a + b[..|b| - 1];
    }
  }

  lemma FlattenStep(chunks: seq<seq<Track>>, i: nat)
    requires i < |chunks|
    ensures Flatten(chunks[..i + 1]) == Flatten(chunks[..i]) + chunks[i]
  {
    assert chunks[..i + 1][..i] == chunks[..i];
  }

  /**
   * An accumulate-and-check loop (extend with each non-empty answer, stop
   * once the accumulator holds `limit` tracks) stops right after answer
   * number `k`, counting from 1.
   */
  predicate StopsAfter(chunks: seq<seq<Track>>, limit: nat, k: nat) {
    1 <= k <= |chunks| && chunks[k - 1] != [] && |Flatten(chunks[..k])| >= limit
  }

  function ConsumedFrom(chunks: seq<seq<Track>>, limit: nat, i: nat): (k: nat)
    requires i <= |chunks|
    requires forall j :: 1 <= j <= i ==> !StopsAfter(chunks, limit, j)
    ensures i <= k <= |chunks|
    ensures k == |chunks| || StopsAfter(chunks, limit, k)
    ensures forall j :: 1 <= j < k ==> !StopsAfter(chunks, limit, j)
    decreases |chunks| - i
  {
    if i == |chunks| then i
    else if StopsAfter(chunks, limit, i + 1) then i + 1
    else ConsumedFrom(chunks, limit, i + 1)
  }

  /**
   * How many answers such a loop asks for: the first point at which it
   * stops, or all of them when it never stops early.
   */
  function Consumed(chunks: seq<seq<Track>>, limit: nat): (k: nat)
    ensures k <= |chunks|
    ensures k == |chunks| || StopsAfter(chunks, limit, k)
    ensures forall j :: 1 <= j < k ==> !StopsAfter(chunks, limit, j)
  {
    ConsumedFrom(chunks, limit, 0)
  }

  lemma NoStopExtend(chunks: seq<seq<Track>>, limit: nat, i: nat)
    requires forall j :: 1 <= j <= i ==> !StopsAfter(chunks, limit, j)
    requires !StopsAfter(chunks, limit, i + 1)
    ensures forall j :: 1 <= j <= i + 1 ==> !StopsAfter(chunks, limit, j)
  {
  }

  /** The loop consumes exactly `k` answers when it stops after `k` and not before, or never stops. */
  lemma ConsumedIs(chunks: seq<seq<Track>>, limit: nat, k: nat)
    requires k <= |chunks|
    requires k == |chunks| || StopsAfter(chunks, limit, k)
    requires forall j :: 1 <= j < k ==> !StopsAfter(chunks, limit, j)
    ensures Consumed(chunks, limit) == k
  {
  }

  /** Cutting to `limit` after an early stop gives what cutting the whole concatenation gives. */
  lemma TakeAfterStop(chunks: seq<seq<Track>>, k: nat, limit: nat)
    requires k <= |chunks| && |Flatten(chunks[..k])| >= limit
    ensures Take(Flatten(chunks[..k]), limit) == Take(Flatten(chunks), limit)
  {
    FlattenAppend(chunks[..k], chunks[k..]);
    assert chunks[..k] + chunks[k..] == chunks;
  }

  /**
   * What such a loop gathers is a prefix of all answers together, and it
   * stops short of them only once it holds at least `limit` tracks.
   */
  lemma ConsumedPrefix(chunks: seq<seq<Track>>, limit: nat)
    ensures var part := Flatten(chunks[..Consumed(chunks, limit)]);
      |part| <= |Flatten(chunks)| && part == Flatten(chunks)[..|part|] &&
      (|part| < |Flatten(chunks)| ==> |part| >= limit)
  {
    var k := Consumed(chunks, limit);
    FlattenAppend(chunks[..k], chunks[k..]);
    assert chunks[..k] + chunks[k..] == chunks;
  }

  /** The provider's "similar tracks" answers for `song`, one per artist variant. */
  function SimilarResponses(env: Env, song: string, queries: seq<string>): (r: seq<seq<Track>>)
    ensures |r| == |queries|
  {
    seq(|queries|, i requires 0 <= i < |queries| => env.similar(song, queries[i]))
  }

  /** `get_similar_tracks(song, artist, limit)`: the answers for all artist variants in order, cut to `limit`. */
  function SimilarTracks(env: Env, song: string, artist: string, limit: nat): seq<Track> {
    Take(Flatten(SimilarResponses(env, song, ArtistQueries(env, artist))), limit)
  }

  /**
   * `get_similar_tracks`: queries the provider once per artist variant,
   * appending every non-empty answer and returning early once `limit` tracks
   * have been gathered. The result is the first `limit` tracks of all
   * answers; `queried` is the number of provider requests it made.
   */
  method GetSimilarTracks(env: Env, song: string, artist: string, limit: nat)
    returns (recs: seq<Track>, ghost queried: nat)
    ensures recs == SimilarTracks(env, song, artist, limit)
    ensures |recs| <= limit
    ensures recs == Flatten(SimilarResponses(env, song, ArtistQueries(env, artist)))[..|recs|]
    ensures queried == Consumed(SimilarResponses(env, song, ArtistQueries(env, artist)), limit)
  {
    var recommendations: seq<Track> := [];
    var queries := GenerateArtistQueries(env, artist);
    ghost var chunks := SimilarResponses(env, song, queries);
    for i := 0 to |queries|
      invariant recommendations == Flatten(chunks[..i])
      invariant forall j :: 1 <= j <= i ==> !StopsAfter(chunks, limit, j)
    {
      var similar := env.similar(song, queries[i]);
      assert similar == chunks[i];
      FlattenStep(chunks, i);
      if similar != [] {
        recommendations := recommendations + similar;
        if |recommendations| >= limit {
          assert StopsAfter(chunks, limit, i + 1);
          TakeAfterStop(chunks, i + 1, limit);
          ConsumedIs(chunks, limit, i + 1);
          recs, queried := Take(recommendations, limit), i + 1;
          return;
        }
      }
      NoStopExtend(chunks, limit, i);
    }
    assert chunks[..|queries|] == chunks;
    ConsumedIs(chunks, limit, |queries|);
    recs, queried := Take(recommendations, limit), |queries|;
  }

  /** The provider's fuzzy-search answers for "`song` `variant`", one per artist variant. */
  function SearchResponses(env: Env, song: string, queries: seq<string>): (r: seq<seq<Track>>)
    ensures |r| == |queries|
  {
    seq(|queries|, i requires 0 <= i < |queries| => env.search(song + " " + queries[i], SearchLimit))
  }

  /** `search_alternative_tracks(song, artist)`: all matches for all artist variants, in order, uncut. */
  function AlternativeTracks(env: Env, song: string, artist: string): seq<Track> {
    Flatten(SearchResponses(env, song, ArtistQueries(env, artist)))
  }

  /** `search_alternative_tracks`: one fuzzy search per artist variant, all matches accumulated. */
  method SearchAlternativeTracks(env: Env, song: string, artist: string) returns (alternatives: seq<Track>)
    ensures alternatives == AlternativeTracks(env, song, artist)
  {
    var queries := GenerateArtistQueries(env, artist);
    ghost var chunks := SearchResponses(env, song, queries);
    alternatives := [];
    for i := 0 to |queries|
      invariant alternatives == Flatten(chunks[..i])
    {
      var matches := env.search(song + " " + queries[i], SearchLimit);
      FlattenStep(chunks, i);
      alternatives := alternatives + matches;
    }
    assert chunks[..|queries|] == chunks;
  }

  /** With an empty (or absent) artist name no variant exists, so neither fetcher asks the provider anything. */
  lemma EmptyArtistAsksNothing(env: Env, song: string, limit: nat)
    ensures ArtistQueries(env, "") == []
    ensures SimilarTracks(env, song, "", limit) == []
    ensures Consumed(SimilarResponses(env, song, ArtistQueries(env, "")), limit) == 0
    ensures AlternativeTracks(env, song, "") == []
  {
  }
}
