/**
 * Python's shared `random` generator, seen from outside. Its state is the
 * seed it was last given together with the bounds of the draws made since;
 * what the Mersenne Twister yields in a given state is left abstract as a
 * `Source`, and every property of the model holds for every source.
 */
module Rng {

  /** The generator's state: the last seed, and the bound of every
      `_randbelow` draw since, in order. */
  datatype State = State(seed: nat, draws: seq<nat>)

  /** The raw value the generator yields for a draw below `n` in a state. */
  type Source = (State, nat) -> nat

  /** `random.seed(s)`: the state depends on the seed alone, with no draws
      made from it yet. */
  function Seed(s: nat): (r: State)
    ensures r.seed == s && r.draws == []
  {
    State(s, [])
  }

  /** `_randbelow(n)`: a value in `[0, n)`, and one more draw in the state. */
  function Below(src: Source, st: State, n: nat): (r: (nat, State))
    requires n > 0
    ensures r.0 < n
    ensures r.1 == State(st.seed, st.draws + [n])
  {
    (src(st, n) % n, State(st.seed, st.draws + [n]))
  }

  /** A raw value already below the bound is the value drawn. */
  lemma BelowSmall(src: Source, st: State, n: nat)
    requires 0 < n && src(st, n) < n
    ensures Below(src, st, n).0 == src(st, n)
  {
  }

  /** `random.randint(lo, hi)`: a value in `[lo, hi]`, both ends included. */
  function RandInt(src: Source, st: State, lo: int, hi: int): (r: (int, State))
    requires lo <= hi
    ensures lo <= r.0 <= hi
    ensures r.1 == State(st.seed, st.draws + [hi - lo + 1])
  {
    var (d, st') := Below(src, st, hi - lo + 1);
    (lo + d, st')
  }

  /** `random.choice(xs)`: an element of `xs`. */
  function Choice<T>(src: Source, st: State, xs: seq<T>): (r: (T, State))
    requires |xs| > 0
    ensures r.0 == xs[Below(src, st, |xs|).0]
    ensures r.1 == State(st.seed, st.draws + [|xs|])
  {
    var (i, st') := Below(src, st, |xs|);
    (xs[i], st')
  }
}
