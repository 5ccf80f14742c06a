/** Tours: visiting orders of the cities, and the random swap passes that
    build and perturb them.

    The C library's rand() is modelled as a sequence of draws (natural
    numbers) that the caller supplies and that the passes consume in order;
    each draw is reduced by the same modulus as in the code. */
module Tours {

  /** The fixed number of cities (the program's `numOfLocations`). */
  const NumOfLocations: nat := 50

  /** The starting order 0, 1, ..., n-1. */
  function Identity(n: nat): (r: seq<nat>)
    ensures |r| == n
    ensures forall i :: 0 <= i < n ==> r[i] == i
  {
    seq(n, i requires 0 <= i => i as nat)
  }

  /** A tour of n cities: n entries, each a city index below n, no two
      alike (so each index occurs exactly once, see TourIffPermutation). */
  predicate IsTour(s: seq<nat>, n: nat)
  {
    |s| == n &&
    (forall i :: 0 <= i < |s| ==> s[i] < n) &&
    (forall i, j :: 0 <= i < j < |s| ==> s[i] != s[j])
  }

  /** The city indices 0..n-1 as a set: exactly the values below n, n of them. */
  function Below(n: nat): (r: set<nat>)
    ensures forall v: nat :: v in r <==> v < n
    ensures |r| == n
  {
    if n == 0 then {} else Below(n - 1) + {n - 1}
  }

  /** The entries of a sequence without repeats are as many as its length. */
  lemma {:induction false} DistinctCard(s: seq<nat>)
    requires forall i, j :: 0 <= i < j < |s| ==> s[i] != s[j]
    ensures |set i | 0 <= i < |s| :: s[i]| == |s|
  {
    if |s| > 0 {
      var init := s[..|s| - 1];
      DistinctCard(init);
      var last := s[|s| - 1];
      assert (set i | 0 <= i < |s| :: s[i]) == (set i | 0 <= i < |init| :: init[i]) + {last};
      assert last !in (set i | 0 <= i < |init| :: init[i]);
    }
  }

  /** A subset as large as the finite set that holds it is that set. */
  lemma SubsetOfSameSize(a: set<nat>, b: set<nat>)
    requires a <= b && |a| == |b|
    ensures a == b
  {
    assert a * b == a;
    assert a + b == b;
    assert |b - a| == 0;
  }

  /** Pigeonhole: a tour of n cities visits every city index below n. */
  lemma TourCoversAll(s: seq<nat>, n: nat)
    requires IsTour(s, n)
    ensures forall v :: 0 <= v < n ==> v in s
  {
    var entries := set i | 0 <= i < |s| :: s[i];
    DistinctCard(s);
    SubsetOfSameSize(entries, Below(n));
    forall v | 0 <= v < n
      ensures v in s
    {
      assert v in entries;
    }
  }

  /** A sequence without repeats holds each value at most once. */
  lemma {:induction false} DistinctCountsAtMostOne(s: seq<nat>, v: nat)
    requires forall i, j :: 0 <= i < j < |s| ==> s[i] != s[j]
    ensures multiset(s)[v] <= 1
  {
    if |s| > 0 {
      var init := s[..|s| - 1];
      DistinctCountsAtMostOne(init, v);
      assert s == init + [s[|s| - 1]];
      if v == s[|s| - 1] {
        assert v !in init;
      }
    }
  }

  /** A value that occurs at two positions occurs at least twice. */
  lemma RepeatedEntry(s: seq<nat>, i: nat, j: nat)
    requires i < j < |s| && s[i] == s[j]
    ensures multiset(s)[s[i]] >= 2
  {
    assert s == s[..j] + [s[j]] + s[j + 1..];
    assert s[..j][i] == s[i];
    assert s[i] in multiset(s[..j]);
  }

  /** In a tour of n cities each index below n occurs exactly once and
      no other value occurs. */
  lemma TourCounts(s: seq<nat>, n: nat)
    requires IsTour(s, n)
    ensures forall v: nat :: multiset(s)[v] == if v < n then 1 else 0
  {
    TourCoversAll(s, n);
    forall v: nat
      ensures multiset(s)[v] == if v < n then 1 else 0
    {
      DistinctCountsAtMostOne(s, v);
      if v < n {
        assert v in s;
      } else {
        assert v !in s;
      }
    }
  }

  /** A tour of n cities has the entries of 0..n-1. */
  lemma TourIsPermutation(s: seq<nat>, n: nat)
    requires IsTour(s, n)
    ensures multiset(s) == multiset(Identity(n))
  {
    TourCounts(s, n);
    TourCounts(Identity(n), n);
    assert forall v: nat :: multiset(s)[v] == multiset(Identity(n))[v];
  }

  /** A rearrangement of 0..n-1 is a tour of n cities. */
  lemma PermutationIsTour(s: seq<nat>, n: nat)
    requires multiset(s) == multiset(Identity(n))
    ensures IsTour(s, n)
  {
    var ident := Identity(n);
    assert |s| == |multiset(s)| == |multiset(ident)| == n;
    forall i | 0 <= i < |s|
      ensures s[i] < n
    {
      assert s[i] in multiset(ident);
    }
    forall i, j | 0 <= i < j < |s|
      ensures s[i] != s[j]
    {
      if s[i] == s[j] {
        RepeatedEntry(s, i, j);
        DistinctCountsAtMostOne(ident, s[i]);
      }
    }
  }

  /** Being a tour of n cities is being a rearrangement of 0..n-1. */
  lemma TourIffPermutation(s: seq<nat>, n: nat)
    ensures IsTour(s, n) <==> multiset(s) == multiset(Identity(n))
  {
    if IsTour(s, n) {
      TourIsPermutation(s, n);
    }
    if multiset(s) == multiset(Identity(n)) {
      PermutationIsTour(s, n);
    }
  }

  /** std::swap of the entries at positions i and j: the two entries trade
      places and every other position keeps its entry. */
  function Swap(s: seq<nat>, i: nat, j: nat): (r: seq<nat>)
    requires i < |s| && j < |s|
    ensures |r| == |s| && r[i] == s[j] && r[j] == s[i]
  {
    s[i := s[j]][j := s[i]]
  }

  /** A swap moves entries around and neither adds nor drops one. */
  lemma SwapPermutes(s: seq<nat>, i: nat, j: nat)
    requires i < |s| && j < |s|
    ensures multiset(Swap(s, i, j)) == multiset(s)
  {
  }

  /** A swap keeps a tour a tour. */
  lemma SwapKeepsTour(s: seq<nat>, i: nat, j: nat, n: nat)
    requires IsTour(s, n) && i < n && j < n
    ensures IsTour(Swap(s, i, j), n)
  {
    var r := Swap(s, i, j);
    forall a, b | 0 <= a < b < n
      ensures r[a] != r[b]
    {
      var a' := if a == i then j else if a == j then i else a;
      var b' := if b == i then j else if b == j then i else b;
      assert r[a] == s[a'] && r[b] == s[b'] && a' != b';
    }
  }

  /** The first k steps of the initial shuffle: step i swaps position i
      with position `draws[i] % |s|`. */
  function Shuffled(s: seq<nat>, draws: seq<nat>, k: nat): (r: seq<nat>)
    requires k <= |s| && k <= |draws|
    ensures |r| == |s|
    decreases k
  {
    if k == 0 then s
    else Swap(Shuffled(s, draws, k - 1), k - 1, draws[k - 1] % |s|)
  }

  /** The shuffle is a permutation of what it starts from. */
  lemma {:induction false} ShuffledPermutes(s: seq<nat>, draws: seq<nat>, k: nat)
    requires k <= |s| && k <= |draws|
    ensures multiset(Shuffled(s, draws, k)) == multiset(s)
  {
    if k > 0 {
      var prev := Shuffled(s, draws, k - 1);
      var j := draws[k - 1] % |s|;
      calc {
        multiset(Shuffled(s, draws, k));
        multiset(Swap(prev, k - 1, j));
        { SwapPermutes(prev, k - 1, j); }
        multiset(prev);
        { ShuffledPermutes(s, draws, k - 1); }
        multiset(s);
      }
    }
  }

  /** The perturbation test `rand() % 100 < probability`: an integer draw
      in 0..99 compared with a floating-point probability. */
  function Fires(draw: nat, probability: real): (r: bool)
  {
    ((draw % 100) as real) < probability
  }

  /** The test never fires for a probability that is not positive and
      always fires for one above 99; for probabilities between, whether
      it fires depends on the draw. */
  lemma FiresBounds(draw: nat, probability: real)
    ensures probability <= 0.0 ==> !Fires(draw, probability)
    ensures probability > 99.0 ==> Fires(draw, probability)
    ensures 0.0 < probability <= 99.0 ==> Fires(0, probability) && !Fires(99, probability)
  {
  }

  /** A probability meant as a fraction, such as the 0.5 the annealing
      step passes, makes the test fire only for a draw that is a multiple
      of 100: the draw is compared unscaled. */
  lemma FractionFiresOnlyOnZero(draw: nat, probability: real)
    requires 0.0 < probability <= 1.0
    ensures Fires(draw, probability) <==> draw % 100 == 0
  {
  }

  /** The first k steps of the shuffle keep a tour a tour. */
  lemma {:induction false} ShuffledTour(s: seq<nat>, draws: seq<nat>, k: nat, n: nat)
    requires IsTour(s, n) && k <= n && k <= |draws|
    ensures IsTour(Shuffled(s, draws, k), n)
  {
    if k > 0 {
      ShuffledTour(s, draws, k - 1, n);
      SwapKeepsTour(Shuffled(s, draws, k - 1), k - 1, draws[k - 1] % n, n);
    }
  }

  /** The tour after the perturbation pass, and how many draws it used. */
  datatype Perturbation = Perturbation(tour: seq<nat>, used: nat)

  /** Step i of the candidate pass, from the tour and draw count after
      the steps before it: one draw for the test and, when it fires, one
      more draw that picks the position `% |tour|` to swap with i. */
  function PerturbStep(prev: Perturbation, i: nat, probability: real, draws: seq<nat>): (r: Perturbation)
    requires i < |prev.tour| && prev.used + 2 <= |draws|
    ensures prev.used < r.used <= prev.used + 2
  {
    if Fires(draws[prev.used], probability) then
      Perturbation(Swap(prev.tour, i, draws[prev.used + 1] % |prev.tour|), prev.used + 2)
    else
      Perturbation(prev.tour, prev.used + 1)
  }

  /** The first k steps of the candidate pass. */
  function Perturbed(s: seq<nat>, probability: real, draws: seq<nat>, k: nat): (r: Perturbation)
    requires k <= |s| && 2 * k <= |draws|
    ensures |r.tour| == |s|
    ensures k <= r.used <= 2 * k
    decreases k
  {
    if k == 0 then Perturbation(s, 0)
    else PerturbStep(Perturbed(s, probability, draws, k - 1), k - 1, probability, draws)
  }

  /** One step of the candidate pass keeps the entries of the tour. */
  lemma PerturbStepPermutes(prev: Perturbation, i: nat, probability: real, draws: seq<nat>)
    requires i < |prev.tour| && prev.used + 2 <= |draws|
    ensures multiset(PerturbStep(prev, i, probability, draws).tour) == multiset(prev.tour)
  {
    if Fires(draws[prev.used], probability) {
      SwapPermutes(prev.tour, i, draws[prev.used + 1] % |prev.tour|);
    }
  }

  /** The candidate is a permutation of the tour it starts from. */
  lemma {:induction false} PerturbedPermutes(s: seq<nat>, probability: real, draws: seq<nat>, k: nat)
    requires k <= |s| && 2 * k <= |draws|
    ensures multiset(Perturbed(s, probability, draws, k).tour) == multiset(s)
  {
    if k > 0 {
      calc {
        multiset(Perturbed(s, probability, draws, k).tour);
        { PerturbStepPermutes(Perturbed(s, probability, draws, k - 1), k - 1, probability, draws); }
        multiset(Perturbed(s, probability, draws, k - 1).tour);
        { PerturbedPermutes(s, probability, draws, k - 1); }
        multiset(s);
      }
    }
  }

  /** The first k steps of the candidate pass keep a tour a tour. */
  lemma {:induction false} PerturbedTour(s: seq<nat>, probability: real, draws: seq<nat>, k: nat, n: nat)
    requires IsTour(s, n) && k <= n && 2 * k <= |draws|
    ensures IsTour(Perturbed(s, probability, draws, k).tour, n)
  {
    if k > 0 {
      PerturbedTour(s, probability, draws, k - 1, n);
      var prev := Perturbed(s, probability, draws, k - 1);
      if Fires(draws[prev.used], probability) {
        SwapKeepsTour(prev.tour, k - 1, draws[prev.used + 1] % n, n);
      }
    }
  }

  /** With a probability that is not positive no test fires: the pass
      leaves the tour as it was and uses exactly one draw per position. */
  lemma {:induction false} NoSwapIsIdentity(s: seq<nat>, probability: real, draws: seq<nat>, k: nat)
    requires k <= |s| && 2 * k <= |draws|
    requires probability <= 0.0
    ensures Perturbed(s, probability, draws, k) == Perturbation(s, k)
  {
    if k > 0 {
      NoSwapIsIdentity(s, probability, draws, k - 1);
      FiresBounds(draws[k - 1], probability);
    }
  }
}
