/**
 * How a spin chooses its two animals (`random.sample(ANIMALS, 2)`) and how
 * it names their offspring (`mash_name`).
 */
module Selector {
  import opened Wrappers
  import opened Strings
  import opened Rng
  import Catalog

  /** The two positions `random.sample` picks from a population of `n`, by
      partial Fisher-Yates on a copy of the population: the first draw
      picks any position, which is then overwritten by the last one, and the
      second draw picks among the first `n - 1` slots of that pool. */
  function SamplePositions(src: Source, st: State, n: nat): (r: (nat, nat, State))
    requires n >= 2
    ensures r.0 < n && r.1 < n && r.0 != r.1
    ensures r.2 == State(st.seed, st.draws + [n, n - 1])
  {
    var (i, st1) := Below(src, st, n);
    var (j, st2) := Below(src, st1, n - 1);
    (i, if j == i then n - 1 else j, st2)
  }

  /** A generator that answers `p` to the first draw and, to the second,
      whatever slot of the pool then holds position `q`. */
  function PairSource(n: nat, p: nat, q: nat): Source {
    (s: State, m: nat) => PairDraw(n, p, q, m)
  }

  function PairDraw(n: nat, p: nat, q: nat, m: nat): nat {
    if m == n then p else if q == n - 1 then p else q
  }

  lemma PairSourceGivesPair(st: State, n: nat, p: nat, q: nat)
    requires n >= 2 && p < n && q < n && p != q
    ensures SamplePositions(PairSource(n, p, q), st, n).0 == p
    ensures SamplePositions(PairSource(n, p, q), st, n).1 == q
  {
    var src := PairSource(n, p, q);
    var st1 := State(st.seed, st.draws + [n]);
    assert src(st, n) == p;
    BelowSmall(src, st, n);
    assert src(st1, n - 1) == PairDraw(n, p, q, n - 1);
    BelowSmall(src, st1, n - 1);
  }

  /** Every ordered pair of distinct positions is the outcome for some
      behaviour of the generator: the sampling leaves no pair out. */
  lemma SampleCoversAllPairs(st: State, n: nat, p: nat, q: nat)
    requires n >= 2 && p < n && q < n && p != q
    ensures exists src: Source :: SamplePositions(src, st, n).0 == p && SamplePositions(src, st, n).1 == q
  {
    PairSourceGivesPair(st, n, p, q);
  }

  /** `random.sample(population, 2)`: two elements taken from two different
      positions, or the `ValueError` raised before any draw when the
      population has fewer than two elements. */
  function Sample2<T>(src: Source, st: State, population: seq<T>): (r: Result<(T, T, State), string>)
    ensures r.Failure? <==> |population| < 2
    ensures r.Failure? ==> r.error == "Sample larger than population or is negative"
    ensures r.Success? ==> exists i, j :: 0 <= i < |population| && 0 <= j < |population| && i != j
                              && r.value.0 == population[i] && r.value.1 == population[j]
    ensures r.Success? ==> r.value.2 == State(st.seed, st.draws + [|population|, |population| - 1])
  {
    if |population| < 2 then Failure("Sample larger than population or is negative")
    else
      var (i, j, st') := SamplePositions(src, st, |population|);
      Success((population[i], population[j], st'))
  }

  /** When no element of the population is repeated, the two sampled
      elements differ. */
  lemma SampleIsTwoDifferentAnimals(src: Source, st: State)
    ensures Sample2(src, st, Catalog.Animals).Success?
    ensures var (a, b, st') := Sample2(src, st, Catalog.Animals).value;
            a in Catalog.Animals && b in Catalog.Animals && a != b &&
            st'.seed == st.seed && st.draws <= st'.draws
  {
    Catalog.AnimalsAreDistinct();
  }

  /** The front of the name: `animal_a[:3].rstrip().capitalize()`, which is
      a capitalized prefix of `a` of at most three characters whose end is
      not whitespace, and that leaves out only whitespace of the first three. */
  function NameStart(a: string): (r: string)
    ensures |r| <= 3 && |r| <= |a| && r == Capitalize(a[..|r|])
    ensures |r| > 0 ==> !IsSpace(r[|r| - 1])
    ensures forall i :: |r| <= i < |a| && i < 3 ==> IsSpace(a[i])
  {
    var t := RStrip(Head(a, 3), IsSpace);
    assert t == a[..|t|];
    CapitalizeKeepsSpace(t);
    Capitalize(t)
  }

  /** The back of the name: `animal_b[-3:].lstrip().capitalize()`, which is
      a capitalized suffix of `b` of at most three characters whose start is
      not whitespace, and that leaves out only whitespace of the last three. */
  function NameEnd(b: string): (r: string)
    ensures |r| <= 3 && |r| <= |b| && r == Capitalize(b[|b| - |r|..])
    ensures |r| > 0 ==> !IsSpace(r[0])
    ensures forall i :: 0 <= i < |b| - |r| && |b| - 3 <= i ==> IsSpace(b[i])
  {
    var l := Last(b, 3);
    var t := LStrip(l, IsSpace);
    assert t == b[|b| - |t|..];
    assert forall i :: 0 <= i < |l| - |t| ==> l[i] == b[|b| - |l| + i];
    CapitalizeKeepsSpace(t);
    Capitalize(t)
  }

  /** The name `mash_name` builds around a given adjective: the adjective,
      one space, then the front of `a` and the back of `b`, so at most six
      characters after the space. */
  function SpeciesName(adjective: string, a: string, b: string): (r: string)
    ensures |adjective| < |r| <= |adjective| + 7
    ensures r[..|adjective|] == adjective && r[|adjective|] == ' '
    ensures r[|adjective| + 1..] == NameStart(a) + NameEnd(b)
  {
    adjective + " " + (NameStart(a) + NameEnd(b))
  }

  /** `mash_name(a, b)`: a random adjective of the catalog, a space, then
      the front of `a` joined to the back of `b`. */
  function MashName(src: Source, st: State, a: string, b: string): (r: (string, State))
    ensures r.0 == SpeciesName(Catalog.Adjectives[Below(src, st, |Catalog.Adjectives|).0], a, b)
    ensures r.1 == State(st.seed, st.draws + [|Catalog.Adjectives|])
  {
    var (adjective, st') := Choice(src, st, Catalog.Adjectives);
    (SpeciesName(adjective, a, b), st')
  }

  lemma AdjectivesHaveNoSpace()
    ensures forall k :: 0 <= k < |Catalog.Adjectives| ==> ' ' !in Catalog.Adjectives[k]
  {
  }

  /** A name built around an adjective without spaces splits back, at its
      first space, into that adjective and the two animal fragments. */
  lemma SplitAtSpace(adj: string, rest: string)
    requires ' ' !in adj
    ensures Find(adj + " " + rest, ' ') == Some(|adj|)
    ensures (adj + " " + rest)[..|adj|] == adj && (adj + " " + rest)[|adj| + 1..] == rest
  {
    var s := adj + " " + rest;
    assert s[..|adj|] == adj;
    assert s[|adj|] == ' ';
    assert s[|adj| + 1..] == rest;
  }

  /** A species name splits back, at its first space, into an adjective of
      the catalog and the two animal fragments. */
  lemma MashNameSplits(src: Source, st: State, a: string, b: string)
    ensures var name := MashName(src, st, a, b).0;
            Find(name, ' ').Some? &&
            name[..Find(name, ' ').value] in Catalog.Adjectives &&
            name[Find(name, ' ').value + 1..] == NameStart(a) + NameEnd(b)
  {
    var name := MashName(src, st, a, b).0;
    var k := Below(src, st, |Catalog.Adjectives|).0;
    AdjectivesHaveNoSpace();
    SplitAtSpace(Catalog.Adjectives[k], NameStart(a) + NameEnd(b));
  }
}
