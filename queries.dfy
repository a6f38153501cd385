/**
 * Query variation: the artist-name variants the pipeline queries the
 * provider with (`generate_artist_queries`).
 */
module Queries {
  import opened Text
  import opened Tracks

  /** The split symbols, in the order the source tries them. */
  const Symbols: seq<char> := ['&', ',', ';']

  predicate NoDuplicates<T(==)>(s: seq<T>) {
    forall i, j :: 0 <= i < j < |s| ==> s[i] != s[j]
  }

  /** `s` with every later repetition of an element dropped. */
  function Distinct(s: seq<string>): (r: seq<string>)
    ensures NoDuplicates(r)
    ensures forall x :: x in r <==> x in s
  {
    if s == [] then []
    else
      var d := Distinct(s[..|s| - 1]);
      assert s == s[..|s| - 1] + [s[|s| - 1]];
      if s[|s| - 1] in d then d else d + [s[|s| - 1]]
  }

  /** The elements of `xs` that occur in `universe`, in the order of `xs`. */
  function Members(xs: seq<string>, universe: seq<string>): (r: seq<string>)
    ensures forall x :: x in r ==> x in xs && x in universe
    ensures (forall x :: x in xs ==> x in universe) ==> r == xs
  {
    if xs == [] then [] else (if xs[0] in universe then [xs[0]] else []) + Members(xs[1..], universe)
  }

  /**
   * `list(set(xs))`: every string of `xs` exactly once, in the order the
   * process's set iteration gives. Whatever the oracle answers, the result
   * enumerates `xs` without repetition.
   */
  function ListOfSet(env: Env, xs: seq<string>): (r: seq<string>)
    ensures NoDuplicates(r)
    ensures forall x :: x in r <==> x in xs
  {
    Distinct(Members(env.setOrder(xs), xs) + xs)
  }

  lemma {:induction false} DistinctOfDistinct(a: seq<string>)
    requires NoDuplicates(a)
    ensures Distinct(a) == a
  {
    if a != [] {
      DistinctOfDistinct(a[..|a| - 1]);
    }
  }

  lemma {:induction false} DistinctAbsorbs(a: seq<string>, b: seq<string>)
    requires NoDuplicates(a)
    requires forall x :: x in b ==> x in a
    ensures Distinct(a + b) == a
  {
    if b == [] {
      assert a + b == a;
      DistinctOfDistinct(a);
    } else {
      DistinctAbsorbs(a, b[..|b| - 1]);
      assert (a + b)[..|a + b| - 1] == a + b[..|b| - 1];
    }
  }

  /**
   * The model does not fix the order of the variants: every duplicate-free
   * enumeration of `xs` is what `ListOfSet` answers for some process.
   */
  lemma ListOfSetAnyOrder(env: Env, xs: seq<string>)
    requires NoDuplicates(env.setOrder(xs))
    requires forall x :: x in env.setOrder(xs) <==> x in xs
    ensures ListOfSet(env, xs) == env.setOrder(xs)
  {
    DistinctAbsorbs(env.setOrder(xs), xs);
  }

  /** For each symbol of `symbols` that occurs in `name`, the stripped text before its first occurrence. */
  function SplitVariants(name: string, symbols: seq<char>): seq<string> {
    if symbols == [] then []
    else
      var c := symbols[|symbols| - 1];
      SplitVariants(name, symbols[..|symbols| - 1]) + (if c in name then [Strip(Before(name, c))] else [])
  }

  lemma SplitVariantsStep(name: string, symbols: seq<char>, i: nat)
    requires i < |symbols|
    ensures SplitVariants(name, symbols[..i + 1]) ==
            SplitVariants(name, symbols[..i]) + (if symbols[i] in name then [Strip(Before(name, symbols[i]))] else [])
  {
    assert symbols[..i + 1][..i] == symbols[..i];
  }

  lemma {:induction false} SplitVariantsMembers(name: string, symbols: seq<char>)
    ensures forall c :: c in symbols && c in name ==> Strip(Before(name, c)) in SplitVariants(name, symbols)
    ensures forall q :: q in SplitVariants(name, symbols) ==>
              exists c :: c in symbols && c in name && q == Strip(Before(name, c))
  {
    if symbols != [] {
      var init := symbols[..|symbols| - 1];
      SplitVariantsMembers(name, init);
      assert symbols == init + [symbols[|symbols| - 1]];
    }
  }

  /** A query the source may send for `name`: its stripped whole, or the stripped text before a split symbol it contains. */
  predicate IsArtistQuery(name: string, q: string) {
    q == Strip(name) || exists c :: c in Symbols && c in name && q == Strip(Before(name, c))
  }

  /** `generate_artist_queries(name)`: `list(set(...))` of the stripped name and its split variants. */
  function ArtistQueries(env: Env, name: string): seq<string> {
    if name == [] then [] else ListOfSet(env, [Strip(name)] + SplitVariants(name, Symbols))
  }

  /**
   * The variants of a name: none for an empty name; otherwise, without
   * repetition and in unspecified order, the stripped name and, for each split
   * symbol present, the stripped text before its first occurrence, and nothing else.
   */
  lemma ArtistQueriesContent(env: Env, name: string)
    ensures name == [] ==> ArtistQueries(env, name) == []
    ensures NoDuplicates(ArtistQueries(env, name))
    ensures name != [] ==> Strip(name) in ArtistQueries(env, name)
    ensures forall c :: c in Symbols && c in name ==> Strip(Before(name, c)) in ArtistQueries(env, name)
    ensures forall q :: q in ArtistQueries(env, name) ==> IsArtistQuery(name, q)
  {
    SplitVariantsMembers(name, Symbols);
  }

  /**
   * A name that begins with a split symbol yields the empty string as one of
   * its variants (for "& Queen", the text before '&' is empty).
   */
  lemma SymbolFirstGivesEmptyVariant(env: Env, name: string)
    requires name != [] && name[0] in Symbols
    ensures "" in ArtistQueries(env, name)
  {
    assert Before(name, name[0]) == [];
    ArtistQueriesContent(env, name);
  }

  /** `generate_artist_queries`: collects the variants in a loop, then `list(set(...))`. */
  method GenerateArtistQueries(env: Env, name: string) returns (qs: seq<string>)
    ensures qs == ArtistQueries(env, name)
  {
    if name == [] {
      return [];
    }
    var queries := [Strip(name)];
    for i := 0 to |Symbols|
      invariant queries == [Strip(name)] + SplitVariants(name, Symbols[..i])
    {
      var c := Symbols[i];
      SplitVariantsStep(name, Symbols, i);
      if c in name {
        queries := queries + [Strip(Before(name, c))];
      }
    }
    assert Symbols[..|Symbols|] == Symbols;
    qs := ListOfSet(env, queries);
  }
}
