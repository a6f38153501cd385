/**
 * Tracks, their normalised identity, and the two provider operations the
 * pipeline consumes, modelled as function values.
 */
module Tracks {
  import opened Text

  datatype Option<T> = None | Some(value: T)

  /** A song as the provider reports it: `{'title': ..., 'artist': ...}`. */
  datatype Track = Track(title: string, artist: string)

  /** The deduplication identity: both fields stripped and lower-cased. */
  function Key(t: Track): (string, string) {
    (ToLower(Strip(t.title)), ToLower(Strip(t.artist)))
  }

  /** No two positions of `s` hold tracks with the same normalised key. */
  predicate NoDupKeys(s: seq<Track>) {
    forall i, j :: 0 <= i < j < |s| ==> Key(s[i]) != Key(s[j])
  }

  function Keys(s: seq<Track>): set<(string, string)> {
    set t | t in s :: Key(t)
  }

  lemma KeysCons(t: Track, s: seq<Track>)
    ensures Keys([t] + s) == {Key(t)} + Keys(s)
  {
  }

  lemma KeysSnoc(s: seq<Track>, t: Track)
    ensures Keys(s + [t]) == Keys(s) + {Key(t)}
  {
  }

  lemma NoDupKeysCons(t: Track, s: seq<Track>)
    ensures NoDupKeys([t] + s) <==> Key(t) !in Keys(s) && NoDupKeys(s)
  {
    var ts := [t] + s;
    assert forall i :: 0 <= i < |s| ==> ts[i + 1] == s[i];
    if Key(t) in Keys(s) {
      var u :| u in s && Key(u) == Key(t);
      var i :| 0 <= i < |s| && s[i] == u;
      assert Key(ts[0]) == Key(ts[i + 1]);
    }
  }

  lemma NoDupKeysSnoc(s: seq<Track>, t: Track)
    ensures NoDupKeys(s + [t]) <==> Key(t) !in Keys(s) && NoDupKeys(s)
  {
    var st := s + [t];
    assert forall i :: 0 <= i < |s| ==> st[i] == s[i];
    if Key(t) in Keys(s) {
      var u :| u in s && Key(u) == Key(t);
      var i :| 0 <= i < |s| && s[i] == u;
      assert Key(st[i]) == Key(st[|s|]);
    }
  }

  lemma NoDupKeysAppend(a: seq<Track>, b: seq<Track>)
    requires NoDupKeys(a) && NoDupKeys(b)
    requires Keys(a) !! Keys(b)
    ensures NoDupKeys(a + b)
  {
    var ab := a + b;
    forall i, j | 0 <= i < j < |ab| ensures Key(ab[i]) != Key(ab[j]) {
      if i < |a| && |a| <= j {
        assert ab[i] in a && ab[j] in b;
        assert Key(ab[i]) in Keys(a) && Key(ab[j]) in Keys(b);
      }
    }
  }

  /** Python's `s[:n]` for a non-negative `n`. */
  function Take<T>(s: seq<T>, n: nat): (r: seq<T>)
    ensures |r| <= n && |r| <= |s|
    ensures |r| == if n <= |s| then n else |s|
    ensures r == s[..|r|]
  {
    if n <= |s| then s[..n] else s
  }

  lemma TakeKeepsUnique(s: seq<Track>, n: nat)
    requires NoDupKeys(s)
    ensures NoDupKeys(Take(s, n))
  {
    var r := Take(s, n);
    assert forall i :: 0 <= i < |r| ==> r[i] == s[i];
  }

  /** Number of matches requested from the fuzzy search per artist variant. */
  const SearchLimit: nat := 5

  /**
   * The outside world of one process:
   *  - `similar(track, artist)` is the provider's "similar tracks" answer;
   *    the empty sequence stands for "no match" and for "response not parseable";
   *  - `search(text, count)` is the provider's fuzzy "track search" answer,
   *    single-match and list-of-matches responses already normalised to a sequence;
   *  - `setOrder(xs)` is the order in which `list(set(xs))` lists the strings
   *    of `xs` in this process (it depends on string hashing, so the model
   *    does not fix it).
   */
  datatype Env = Env(
    similar: (string, string) -> seq<Track>,
    search: (string, nat) -> seq<Track>,
    setOrder: seq<string> -> seq<string>)
}
