/**
 * The two first-success fallback searches: similarity lookup over fuzzy
 * candidates (`search_recursive_alternatives`) and fuzzy search over
 * spelling variants of the title (`try_alternative_spellings`).
 */
module Fallback {
  import opened Tracks
  import opened PostProcess
  import opened Fetch

  /** `get_similar_tracks(t['title'], t['artist'], limit)` for one candidate track. */
  function CandidateRecs(env: Env, t: Track, limit: nat): seq<Track> {
    SimilarTracks(env, t.title, t.artist, limit)
  }

  /** The answer of `f` for the first element of `xs` it answers anything for, or nothing. */
  function FirstNonEmpty<T>(f: T -> seq<Track>, xs: seq<T>): seq<Track> {
    if xs == [] then []
    else if f(xs[0]) != [] then f(xs[0])
    else FirstNonEmpty(f, xs[1..])
  }

  /**
   * A first-success search is empty exactly when every element's answer is
   * empty, and otherwise it is the answer for an element all of whose
   * predecessors got none.
   */
  lemma {:induction false} FirstNonEmptySpec<T>(f: T -> seq<Track>, xs: seq<T>)
    ensures FirstNonEmpty(f, xs) == [] <==> forall i :: 0 <= i < |xs| ==> f(xs[i]) == []
    ensures FirstNonEmpty(f, xs) != [] ==>
              exists i :: 0 <= i < |xs| && FirstNonEmpty(f, xs) == f(xs[i]) && forall j :: 0 <= j < i ==> f(xs[j]) == []
  {
    if xs != [] {
      var rest := xs[1..];
      FirstNonEmptySpec(f, rest);
      assert forall i :: 0 < i < |xs| ==> xs[i] == rest[i - 1];
      if f(xs[0]) == [] && FirstNonEmpty(f, rest) != [] {
        var i :| 0 <= i < |rest| && FirstNonEmpty(f, rest) == f(rest[i]) && forall j :: 0 <= j < i ==> f(rest[j]) == [];
        assert xs[i + 1] == rest[i];
      }
    }
  }

  /** `search_recursive_alternatives`: the similar tracks of the first candidate that has any. */
  function FirstSimilar(env: Env, alternatives: seq<Track>, limit: nat): seq<Track> {
    FirstNonEmpty((t: Track) => CandidateRecs(env, t, limit), alternatives)
  }

  /**
   * The recursive resolver short-circuits on the first success: it is empty
   * exactly when every candidate's lookup is empty, and otherwise it is the
   * lookup of a candidate all of whose predecessors failed. It never holds
   * more than `limit` tracks.
   */
  lemma FirstSimilarIsFirstSuccess(env: Env, alternatives: seq<Track>, limit: nat)
    ensures FirstSimilar(env, alternatives, limit) == [] <==>
              forall i :: 0 <= i < |alternatives| ==> CandidateRecs(env, alternatives[i], limit) == []
    ensures FirstSimilar(env, alternatives, limit) != [] ==>
              exists i :: 0 <= i < |alternatives| && FirstSimilar(env, alternatives, limit) == CandidateRecs(env, alternatives[i], limit) &&
                forall j :: 0 <= j < i ==> CandidateRecs(env, alternatives[j], limit) == []
    ensures |FirstSimilar(env, alternatives, limit)| <= limit
  {
    var f := (t: Track) => CandidateRecs(env, t, limit);
    FirstNonEmptySpec(f, alternatives);
    if FirstSimilar(env, alternatives, limit) != [] {
      var i :| 0 <= i < |alternatives| && FirstNonEmpty(f, alternatives) == f(alternatives[i]);
      assert |CandidateRecs(env, alternatives[i], limit)| <= limit;
    }
  }

  /** `search_recursive_alternatives`: tries the candidates in order, returning the first non-empty lookup. */
  method SearchRecursiveAlternatives(env: Env, alternatives: seq<Track>, limit: nat) returns (recs: seq<Track>)
    ensures recs == FirstSimilar(env, alternatives, limit)
  {
    for i := 0 to |alternatives|
      invariant FirstSimilar(env, alternatives[i..], limit) == FirstSimilar(env, alternatives, limit)
    {
      var alternative := alternatives[i];
      ghost var queried: nat;
      recs, queried := GetSimilarTracks(env, alternative.title, alternative.artist, limit);
      assert alternatives[i..][0] == alternative && alternatives[i..][1..] == alternatives[i + 1..];
      if recs != [] {
        return;
      }
    }
    recs := [];
  }

  /** The ranked, duplicate-free form of a fuzzy-search answer. */
  function Ranked(found: seq<Track>): seq<Track> {
    PrioritizeRemixes(Dedup(found))
  }

  /** One spelling's contribution: its search answer filtered and ranked, when the search finds anything. */
  function SpellingRecs(env: Env, artist: string, spelling: string): seq<Track> {
    var found := AlternativeTracks(env, spelling, artist);
    if found != [] then Ranked(found) else []
  }

  /** `try_alternative_spellings`: the ranked matches of the first spelling whose search finds anything. */
  function FirstSpelling(env: Env, artist: string, spellings: seq<string>): seq<Track> {
    FirstNonEmpty((spelling: string) => SpellingRecs(env, artist, spelling), spellings)
  }

  /** Ranking a non-empty answer leaves it non-empty, duplicate-free and remix-first. */
  lemma RankedSpec(found: seq<Track>)
    ensures Ranked(found) == [] <==> found == []
    ensures NoDupKeys(Ranked(found))
    ensures Keys(Ranked(found)) == Keys(found)
    ensures forall i, j :: 0 <= i < j < |Ranked(found)| ==> RemixPriority(Ranked(found)[i]) <= RemixPriority(Ranked(found)[j])
  {
    var d := Dedup(found);
    PrioritizeKeepsUnique(d);
    PrioritizeRemixesSpec(d);
    if found != [] {
      assert Key(found[0]) in Keys(found);
    }
    assert Keys(Ranked(found)) == Keys(d) by {
      forall t ensures t in Ranked(found) <==> t in d {
        assert t in multiset(Ranked(found)) <==> t in multiset(d);
      }
    }
  }

  /**
   * The spelling resolver short-circuits on the first spelling whose search
   * finds anything and returns that answer ranked; it is empty exactly when
   * every spelling's search is empty, and its result never repeats a key.
   */
  lemma FirstSpellingIsFirstSuccess(env: Env, artist: string, spellings: seq<string>)
    ensures FirstSpelling(env, artist, spellings) == [] <==>
              forall i :: 0 <= i < |spellings| ==> AlternativeTracks(env, spellings[i], artist) == []
    ensures FirstSpelling(env, artist, spellings) != [] ==>
              exists i :: 0 <= i < |spellings| &&
                FirstSpelling(env, artist, spellings) == Ranked(AlternativeTracks(env, spellings[i], artist)) &&
                forall j :: 0 <= j < i ==> AlternativeTracks(env, spellings[j], artist) == []
    ensures NoDupKeys(FirstSpelling(env, artist, spellings))
  {
    var f := (spelling: string) => SpellingRecs(env, artist, spelling);
    FirstNonEmptySpec(f, spellings);
    forall spelling ensures SpellingRecs(env, artist, spelling) == [] <==> AlternativeTracks(env, spelling, artist) == [] {
      RankedSpec(AlternativeTracks(env, spelling, artist));
    }
    if FirstSpelling(env, artist, spellings) != [] {
      var i :| 0 <= i < |spellings| && FirstNonEmpty(f, spellings) == f(spellings[i]) &&
               forall j :: 0 <= j < i ==> f(spellings[j]) == [];
      RankedSpec(AlternativeTracks(env, spellings[i], artist));
    }
  }

  /**
   * `try_alternative_spellings`: searches each spelling in order; the first
   * non-empty answer is filtered for duplicates, ranked and returned.
   * The song name is a parameter of the source function that it never reads.
   */
  method TryAlternativeSpellings(env: Env, song: string, artist: string, spellings: seq<string>)
    returns (recs: seq<Track>)
    ensures recs == FirstSpelling(env, artist, spellings)
  {
    for i := 0 to |spellings|
      invariant FirstSpelling(env, artist, spellings[i..]) == FirstSpelling(env, artist, spellings)
    {
      var alternative := spellings[i];
      assert spellings[i..][0] == alternative && spellings[i..][1..] == spellings[i + 1..];
      recs := SearchAlternativeTracks(env, alternative, artist);
      if recs != [] {
        recs := FilterDuplicates(recs);
        recs := PrioritizeRemixes(recs);
        if recs != [] {
          return;
        }
      }
    }
    recs := [];
  }
}
