/**
 * Result post-processing: duplicate filtering on the normalised
 * (title, artist) key (`filter_duplicates`) and remix-first ranking
 * (`contains_remix_keywords`, `prioritize_remixes`).
 */
module PostProcess {
  import opened Text
  import opened Tracks

  // ---------------------------------------------------------------------
  // Duplicate filtering
  // ---------------------------------------------------------------------

  /** `a` is `b` with some elements left out, the rest kept in order. */
  predicate IsSubsequence(a: seq<Track>, b: seq<Track>) {
    a == [] || (b != [] && ((a[0] == b[0] && IsSubsequence(a[1..], b[1..])) || IsSubsequence(a, b[1..])))
  }

  lemma {:induction false} SubsequenceExtend(a: seq<Track>, b: seq<Track>, t: Track)
    requires IsSubsequence(a, b)
    ensures IsSubsequence(a, b + [t])
    ensures IsSubsequence(a + [t], b + [t])
  {
    if a == [] {
      assert IsSubsequence([t], [t]) by { assert IsSubsequence([t][1..], [t][1..]); }
      SubsequenceSkipFront(a + [t], [t], b);
      assert b + [t] != [];
    } else if a[0] == b[0] && IsSubsequence(a[1..], b[1..]) {
      SubsequenceExtend(a[1..], b[1..], t);
      assert (a + [t])[1..] == a[1..] + [t] && (b + [t])[1..] == b[1..] + [t];
    } else {
      SubsequenceExtend(a, b[1..], t);
      assert (b + [t])[1..] == b[1..] + [t];
    }
  }

  lemma {:induction false} SubsequenceSkipFront(a: seq<Track>, b: seq<Track>, front: seq<Track>)
    requires IsSubsequence(a, b)
    ensures IsSubsequence(a, front + b)
  {
    if front != [] {
      SubsequenceSkipFront(a, b, front[1..]);
      assert (front + b)[1..] == front[1..] + b;
      assert IsSubsequence(a, (front + b)[1..]);
    } else {
      assert front + b == b;
    }
  }

  /**
   * `filter_duplicates`: walking the input in order, a track is kept when no
   * track kept before it has the same normalised key.
   */
  function Dedup(s: seq<Track>): (r: seq<Track>)
    ensures NoDupKeys(r)
    ensures Keys(r) == Keys(s)
    ensures |r| <= |s|
  {
    if s == [] then []
    else
      var d := Dedup(s[..|s| - 1]);
      var t := s[|s| - 1];
      assert s == s[..|s| - 1] + [t];
      KeysSnoc(s[..|s| - 1], t);
      KeysSnoc(d, t);
      if Key(t) in Keys(d) then d else d + [t]
  }

  /** The loop of `filter_duplicates`, with its `seen` set of keys. */
  method FilterDuplicates(tracks: seq<Track>) returns (unique: seq<Track>)
    ensures unique == Dedup(tracks)
  {
    var seen: set<(string, string)> := {};
    unique := [];
    for i := 0 to |tracks|
      invariant unique == Dedup(tracks[..i])
      invariant seen == Keys(unique)
    {
      var id := Key(tracks[i]);
      assert tracks[..i + 1][..i] == tracks[..i];
      if id !in seen {
        KeysSnoc(unique, tracks[i]);
        seen := seen + {id};
        unique := unique + [tracks[i]];
      }
    }
    assert tracks[..|tracks|] == tracks;
  }

  /** The position of the first track of `s` whose normalised key is `k`; `|s|` when there is none. */
  function FirstIndex(s: seq<Track>, k: (string, string)): nat {
    if s == [] || Key(s[0]) == k then 0 else 1 + FirstIndex(s[1..], k)
  }

  /** A key has a first position in `s` exactly when some track of `s` carries it. */
  lemma {:induction false} FirstIndexFound(a: seq<Track>, k: (string, string))
    ensures FirstIndex(a, k) <= |a|
    ensures FirstIndex(a, k) < |a| <==> k in Keys(a)
  {
    if a != [] {
      FirstIndexFound(a[1..], k);
      KeysCons(a[0], a[1..]);
      assert a == [a[0]] + a[1..];
    }
  }

  lemma {:induction false} FirstIndexAppend(a: seq<Track>, t: Track, k: (string, string))
    requires FirstIndex(a, k) <= |a|
    ensures FirstIndex(a + [t], k) ==
      if FirstIndex(a, k) < |a| then FirstIndex(a, k) else |a| + (if Key(t) == k then 0 else 1)
  {
    if a != [] {
      assert (a + [t])[1..] == a[1..] + [t];
      if Key(a[0]) != k {
        FirstIndexAppend(a[1..], t, k);
      }
    } else {
      assert [t][1..] == [];
    }
  }

  /**
   * The output of duplicate filtering is the input with tracks left out and
   * the rest kept in order, and each track it keeps sits in the input at the
   * first position carrying its key.
   */
  lemma {:induction false} DedupKeepsFirstSeen(s: seq<Track>)
    ensures IsSubsequence(Dedup(s), s)
    ensures forall i :: 0 <= i < |Dedup(s)| ==>
      FirstIndex(s, Key(Dedup(s)[i])) < |s| && s[FirstIndex(s, Key(Dedup(s)[i]))] == Dedup(s)[i]
  {
    if s != [] {
      var init, t := s[..|s| - 1], s[|s| - 1];
      assert s == init + [t];
      DedupKeepsFirstSeen(init);
      var d, r := Dedup(init), Dedup(s);
      SubsequenceExtend(d, init, t);
      forall i | 0 <= i < |r|
        ensures FirstIndex(s, Key(r[i])) < |s| && s[FirstIndex(s, Key(r[i]))] == r[i]
      {
        if i < |d| {
          assert r[i] == d[i] && d[i] in d;
          FirstIndexFound(init, Key(d[i]));
          FirstIndexAppend(init, t, Key(d[i]));
        } else {
          assert r[i] == t;
          FirstIndexFound(init, Key(t));
          FirstIndexAppend(init, t, Key(t));
        }
      }
    }
  }

  /**
   * The kept tracks come in the order in which their keys are first seen:
   * a track whose key occurs earlier in the input comes earlier in the output.
   */
  lemma {:induction false} DedupInFirstSeenOrder(s: seq<Track>)
    ensures forall i, j :: 0 <= i < j < |Dedup(s)| ==>
      FirstIndex(s, Key(Dedup(s)[i])) < FirstIndex(s, Key(Dedup(s)[j]))
  {
    if s != [] {
      var init, t := s[..|s| - 1], s[|s| - 1];
      assert s == init + [t];
      DedupInFirstSeenOrder(init);
      DedupKeepsFirstSeen(init);
      var d, r := Dedup(init), Dedup(s);
      forall i | 0 <= i < |d|
        ensures FirstIndex(s, Key(d[i])) == FirstIndex(init, Key(d[i])) < |init|
      {
        assert d[i] in d;
        FirstIndexFound(init, Key(d[i]));
        FirstIndexAppend(init, t, Key(d[i]));
      }
      FirstIndexFound(init, Key(t));
      FirstIndexAppend(init, t, Key(t));
      forall i, j | 0 <= i < j < |r|
        ensures FirstIndex(s, Key(r[i])) < FirstIndex(s, Key(r[j]))
      {
        assert r[i] == d[i];
        if j < |d| {
          assert r[j] == d[j];
        } else {
          assert r[j] == t;
        }
      }
    }
  }

  /** A list with no two tracks sharing a key passes through unchanged. */
  lemma {:induction false} DedupOfUnique(s: seq<Track>)
    requires NoDupKeys(s)
    ensures Dedup(s) == s
  {
    if s != [] {
      var init, t := s[..|s| - 1], s[|s| - 1];
      assert s == init + [t];
      NoDupKeysSnoc(init, t);
      DedupOfUnique(init);
    }
  }

  /** Filtering duplicates twice is the same as filtering them once. */
  lemma {:induction false} DedupIdempotent(s: seq<Track>)
    ensures Dedup(Dedup(s)) == Dedup(s)
  {
    DedupOfUnique(Dedup(s));
  }

  // ---------------------------------------------------------------------
  // Remix prioritisation
  // ---------------------------------------------------------------------

  const RemixKeywords: seq<string> := ["remix", "version", "extended", "radio edit", "club mix", "reprise"]

  /** `any(needle in haystack for needle in needles)`. */
  predicate AnyIn(haystack: string, needles: seq<string>) {
    needles != [] && (Contains(haystack, needles[0]) || AnyIn(haystack, needles[1..]))
  }

  lemma {:induction false} AnyInSpec(haystack: string, needles: seq<string>)
    ensures AnyIn(haystack, needles) <==> exists i :: 0 <= i < |needles| && Contains(haystack, needles[i])
  {
    if needles != [] {
      AnyInSpec(haystack, needles[1..]);
      assert forall i :: 0 < i < |needles| ==> needles[i] == needles[1..][i - 1];
      if !Contains(haystack, needles[0]) && AnyIn(haystack, needles[1..]) {
        var i :| 0 <= i < |needles[1..]| && Contains(haystack, needles[1..][i]);
        assert needles[i + 1] == needles[1..][i];
      }
    }
  }

  /** `contains_remix_keywords(title)`: the lower-cased title contains one of the keywords. */
  predicate ContainsRemixKeywords(title: string) {
    AnyIn(ToLower(title), RemixKeywords)
  }

  /** A title is tagged exactly when one of the six keywords occurs in its lower-cased form. */
  lemma ContainsRemixKeywordsSpec(title: string)
    ensures ContainsRemixKeywords(title) <==>
              exists i :: 0 <= i < |RemixKeywords| && Contains(ToLower(title), RemixKeywords[i])
  {
    AnyInSpec(ToLower(title), RemixKeywords);
  }

  /** `remix_priority(track)` inside `prioritize_remixes`: 0 for a tagged title, 1 otherwise. */
  function RemixPriority(t: Track): nat {
    if ContainsRemixKeywords(t.title) then 0 else 1
  }

  // Python's stable `sorted(tracks, key=priority)`, for any priority function.

  /** Places `t` before the first track of `sorted` whose priority is not smaller than its own. */
  function InsertByPriority(priority: Track -> nat, t: Track, sorted: seq<Track>): seq<Track> {
    if sorted == [] || priority(t) <= priority(sorted[0]) then [t] + sorted
    else [sorted[0]] + InsertByPriority(priority, t, sorted[1..])
  }

  /** `sorted(tracks, key=priority)`: a stable insertion sort. */
  function SortByPriority(priority: Track -> nat, tracks: seq<Track>): seq<Track> {
    if tracks == [] then [] else InsertByPriority(priority, tracks[0], SortByPriority(priority, tracks[1..]))
  }

  /** The tracks of `s` whose priority is `p`, in order. */
  function WithPriority(priority: Track -> nat, s: seq<Track>, p: nat): seq<Track> {
    if s == [] then []
    else (if priority(s[0]) == p then [s[0]] else []) + WithPriority(priority, s[1..], p)
  }

  /** Every track of `s` has priority 0 or 1. */
  predicate ZeroOne(priority: Track -> nat, s: seq<Track>) {
    forall i :: 0 <= i < |s| ==> priority(s[i]) <= 1
  }

  lemma ZeroOneTail(priority: Track -> nat, s: seq<Track>)
    requires s != [] && ZeroOne(priority, s)
    ensures priority(s[0]) <= 1 && ZeroOne(priority, s[1..])
  {
    assert forall i :: 0 <= i < |s[1..]| ==> s[1..][i] == s[i + 1];
  }

  lemma {:induction false} WithPrioritySpec(priority: Track -> nat, s: seq<Track>, p: nat)
    ensures forall t :: t in WithPriority(priority, s, p) ==> t in s && priority(t) == p
  {
    if s != [] {
      WithPrioritySpec(priority, s[1..], p);
    }
  }

  /** A priority-1 track inserted into priority-0 tracks followed by priority-1 tracks lands between the two groups. */
  lemma {:induction false} InsertAfterZeros(priority: Track -> nat, t: Track, zs: seq<Track>, os: seq<Track>)
    requires priority(t) == 1
    requires forall i :: 0 <= i < |zs| ==> priority(zs[i]) == 0
    requires os == [] || priority(os[0]) == 1
    ensures InsertByPriority(priority, t, zs + os) == zs + [t] + os
  {
    if zs == [] {
      assert zs + os == os;
      assert zs + [t] + os == [t] + os;
    } else {
      InsertAfterZeros(priority, t, zs[1..], os);
      assert (zs + os)[1..] == zs[1..] + os;
      assert zs + [t] + os == [zs[0]] + (zs[1..] + [t] + os);
    }
  }

  /** With 0/1 priorities the stable sort is the priority-0 tracks, then the priority-1 tracks, each in input order. */
  lemma {:induction false} SortIsStablePartition(priority: Track -> nat, s: seq<Track>)
    requires ZeroOne(priority, s)
    ensures SortByPriority(priority, s) == WithPriority(priority, s, 0) + WithPriority(priority, s, 1)
  {
    if s != [] {
      var t, rest := s[0], s[1..];
      ZeroOneTail(priority, s);
      SortIsStablePartition(priority, rest);
      var zs, os := WithPriority(priority, rest, 0), WithPriority(priority, rest, 1);
      if priority(t) == 1 {
        PartsByIndex(priority, rest);
        InsertAfterZeros(priority, t, zs, os);
      }
    }
  }

  lemma ZerosThenOnes(priority: Track -> nat, zs: seq<Track>, os: seq<Track>)
    requires forall i :: 0 <= i < |zs| ==> priority(zs[i]) == 0
    requires forall i :: 0 <= i < |os| ==> priority(os[i]) == 1
    ensures forall i, j :: 0 <= i < j < |zs + os| ==> priority((zs + os)[i]) <= priority((zs + os)[j])
  {
    forall i, j | 0 <= i < j < |zs + os| ensures priority((zs + os)[i]) <= priority((zs + os)[j]) {
      if i < |zs| {
        assert (zs + os)[i] == zs[i];
      } else {
        assert (zs + os)[i] == os[i - |zs|] && (zs + os)[j] == os[j - |zs|];
      }
    }
  }

  /** The priority-0 part holds only priority-0 tracks, the priority-1 part only priority-1 tracks. */
  lemma PartsByIndex(priority: Track -> nat, s: seq<Track>)
    ensures forall i :: 0 <= i < |WithPriority(priority, s, 0)| ==> priority(WithPriority(priority, s, 0)[i]) == 0
    ensures forall i :: 0 <= i < |WithPriority(priority, s, 1)| ==> priority(WithPriority(priority, s, 1)[i]) == 1
  {
    WithPrioritySpec(priority, s, 0);
    WithPrioritySpec(priority, s, 1);
    var zs, os := WithPriority(priority, s, 0), WithPriority(priority, s, 1);
    assert forall i :: 0 <= i < |zs| ==> zs[i] in zs;
    assert forall i :: 0 <= i < |os| ==> os[i] in os;
  }

  /** With 0/1 priorities the sort leaves the priorities in ascending order. */
  lemma SortIsOrdered(priority: Track -> nat, s: seq<Track>)
    requires ZeroOne(priority, s)
    ensures forall i, j :: 0 <= i < j < |SortByPriority(priority, s)| ==>
              priority(SortByPriority(priority, s)[i]) <= priority(SortByPriority(priority, s)[j])
  {
    SortIsStablePartition(priority, s);
    PartsByIndex(priority, s);
    ZerosThenOnes(priority, WithPriority(priority, s, 0), WithPriority(priority, s, 1));
  }

  lemma {:induction false} PartitionPermutes(priority: Track -> nat, s: seq<Track>)
    requires ZeroOne(priority, s)
    ensures multiset(WithPriority(priority, s, 0)) + multiset(WithPriority(priority, s, 1)) == multiset(s)
  {
    if s != [] {
      var t, rest := s[0], s[1..];
      ZeroOneTail(priority, s);
      PartitionPermutes(priority, rest);
      assert s == [t] + rest;
    }
  }

  lemma {:induction false} OnlyOnes(priority: Track -> nat, os: seq<Track>)
    requires forall i :: 0 <= i < |os| ==> priority(os[i]) == 1
    ensures WithPriority(priority, os, 0) == [] && WithPriority(priority, os, 1) == os
  {
    if os != [] {
      assert forall i :: 0 <= i < |os[1..]| ==> os[1..][i] == os[i + 1];
      OnlyOnes(priority, os[1..]);
    }
  }

  lemma {:induction false} PartitionOfPartition(priority: Track -> nat, zs: seq<Track>, os: seq<Track>)
    requires forall i :: 0 <= i < |zs| ==> priority(zs[i]) == 0
    requires forall i :: 0 <= i < |os| ==> priority(os[i]) == 1
    ensures WithPriority(priority, zs + os, 0) == zs && WithPriority(priority, zs + os, 1) == os
  {
    if zs == [] {
      assert zs + os == os;
      OnlyOnes(priority, os);
    } else {
      assert forall i :: 0 <= i < |zs[1..]| ==> zs[1..][i] == zs[i + 1];
      PartitionOfPartition(priority, zs[1..], os);
      assert (zs + os)[1..] == zs[1..] + os;
    }
  }

  lemma PartsKeys(priority: Track -> nat, s: seq<Track>)
    ensures Keys(WithPriority(priority, s, 0)) <= Keys(s) && Keys(WithPriority(priority, s, 1)) <= Keys(s)
  {
    WithPrioritySpec(priority, s, 0);
    WithPrioritySpec(priority, s, 1);
  }

  /** Splitting a list with no repeated key by 0/1 priority gives two such lists with no key in common. */
  lemma {:induction false} PartitionKeepsUnique(priority: Track -> nat, s: seq<Track>)
    requires ZeroOne(priority, s)
    requires NoDupKeys(s)
    ensures NoDupKeys(WithPriority(priority, s, 0)) && NoDupKeys(WithPriority(priority, s, 1))
    ensures Keys(WithPriority(priority, s, 0)) !! Keys(WithPriority(priority, s, 1))
  {
    if s != [] {
      var t, rest := s[0], s[1..];
      assert s == [t] + rest;
      NoDupKeysCons(t, rest);
      ZeroOneTail(priority, s);
      PartitionKeepsUnique(priority, rest);
      PartsKeys(priority, rest);
      var zs, os := WithPriority(priority, rest, 0), WithPriority(priority, rest, 1);
      if priority(t) == 0 {
        assert WithPriority(priority, s, 0) == [t] + zs && WithPriority(priority, s, 1) == os;
        NoDupKeysCons(t, zs);
        KeysCons(t, zs);
      } else {
        assert WithPriority(priority, s, 0) == zs && WithPriority(priority, s, 1) == [t] + os;
        NoDupKeysCons(t, os);
        KeysCons(t, os);
      }
    }
  }

  // The remix-first ranking of `prioritize_remixes`.

  /** `prioritize_remixes`: Python's stable `sorted` by `remix_priority`. */
  function PrioritizeRemixes(tracks: seq<Track>): seq<Track> {
    SortByPriority(RemixPriority, tracks)
  }

  /** The tagged tracks of `s`, in order. */
  function Remixes(s: seq<Track>): seq<Track> {
    WithPriority(RemixPriority, s, 0)
  }

  /** The untagged tracks of `s`, in order. */
  function Others(s: seq<Track>): seq<Track> {
    WithPriority(RemixPriority, s, 1)
  }

  /**
   * `prioritize_remixes` is a stable partition: the tagged tracks in their
   * input order, followed by the untagged tracks in their input order.
   */
  lemma PrioritizeIsStablePartition(s: seq<Track>)
    ensures PrioritizeRemixes(s) == Remixes(s) + Others(s)
    ensures forall t :: t in Remixes(s) ==> t in s && ContainsRemixKeywords(t.title)
    ensures forall t :: t in Others(s) ==> t in s && !ContainsRemixKeywords(t.title)
  {
    SortIsStablePartition(RemixPriority, s);
    WithPrioritySpec(RemixPriority, s, 0);
    WithPrioritySpec(RemixPriority, s, 1);
  }

  /**
   * The ranked list is a permutation of the input, ordered by
   * `remix_priority` (so every tagged track comes before every untagged one),
   * and within each group the input order is kept.
   */
  lemma PrioritizeRemixesSpec(s: seq<Track>)
    ensures multiset(PrioritizeRemixes(s)) == multiset(s)
    ensures forall i, j :: 0 <= i < j < |PrioritizeRemixes(s)| ==>
              RemixPriority(PrioritizeRemixes(s)[i]) <= RemixPriority(PrioritizeRemixes(s)[j])
    ensures Remixes(PrioritizeRemixes(s)) == Remixes(s)
    ensures Others(PrioritizeRemixes(s)) == Others(s)
  {
    PrioritizeIsStablePartition(s);
    PartitionPermutes(RemixPriority, s);
    SortIsOrdered(RemixPriority, s);
    PartsByIndex(RemixPriority, s);
    PartitionOfPartition(RemixPriority, Remixes(s), Others(s));
  }

  /** Ranking never brings two tracks with the same key together. */
  lemma PrioritizeKeepsUnique(s: seq<Track>)
    requires NoDupKeys(s)
    ensures NoDupKeys(PrioritizeRemixes(s))
    ensures |PrioritizeRemixes(s)| == |s|
  {
    PrioritizeIsStablePartition(s);
    PartitionPermutes(RemixPriority, s);
    assert |multiset(PrioritizeRemixes(s))| == |multiset(s)|;
    PartitionKeepsUnique(RemixPriority, s);
    NoDupKeysAppend(Remixes(s), Others(s));
  }
}
