/** The three operations on tour buffers: building the initial tour,
    building a candidate from the current tour, and copying one buffer over
    another. Buffers are arrays of city indices, as the program's
    `unsigned int` arrays are. */
module Paths {
  import opened Tours

  /** std::swap on two entries of a buffer. */
  method SwapEntries(a: array<nat>, i: nat, j: nat)
    requires i < a.Length && j < a.Length
    modifies a
    ensures a[..] == Swap(old(a[..]), i, j)
  {
    var t := a[i];
    a[i] := a[j];
    a[j] := t;
  }

  /** Fills a fresh buffer with 0..n-1, then swaps each position i with
      position `draws[i] % n`. One draw is used per position. */
  method GenerateRandomPath(n: nat, draws: seq<nat>) returns (path: array<nat>)
    requires n <= |draws|
    ensures fresh(path) && path.Length == n
    ensures path[..] == Shuffled(Identity(n), draws, n)
    ensures IsTour(path[..], n)
    ensures forall v: nat :: multiset(path[..])[v] == if v < n then 1 else 0
  {
    ghost var start := Identity(n);
    path := new nat[n];
    var i := 0;
    while i < n
      invariant 0 <= i <= n
      invariant path[..i] == start[..i]
    {
      path[i] := i;
      i := i + 1;
    }
    assert path[..] == start;
    i := 0;
    while i < n
      invariant 0 <= i <= n
      invariant path[..] == Shuffled(start, draws, i)
    {
      var j := draws[i] % n;
      SwapEntries(path, i, j);
      i := i + 1;
    }
    assert IsTour(path[..], n) by {
      ShuffledTour(start, draws, n, n);
    }
    TourCounts(path[..], n);
  }

  /** Copies the first n entries of `currentPath` into a fresh buffer,
      then, for each position i, takes a draw for the perturbation test
      and, when it fires, one more draw that picks the position `% n` to
      swap with. Returns the candidate and the number of draws used;
      `currentPath` is only read. */
  method GenerateCandidatePath(n: nat, currentPath: array<nat>, probability: real, draws: seq<nat>)
    returns (path: array<nat>, used: nat)
    requires n <= currentPath.Length && 2 * n <= |draws|
    ensures fresh(path) && path.Length == n
    ensures currentPath[..] == old(currentPath[..])
    ensures Perturbed(currentPath[..n], probability, draws, n) == Perturbation(path[..], used)
    ensures multiset(path[..]) == multiset(currentPath[..n])
    ensures IsTour(currentPath[..n], n) ==> IsTour(path[..], n)
    ensures probability <= 0.0 ==> path[..] == currentPath[..n] && used == n
  {
    ghost var current := currentPath[..n];
    path := new nat[n];
    var i := 0;
    while i < n
      invariant 0 <= i <= n
      invariant path[..i] == current[..i]
    {
      path[i] := currentPath[i];
      i := i + 1;
    }
    assert path[..] == current;
    i, used := 0, 0;
    while i < n
      invariant 0 <= i <= n
      invariant Perturbed(current, probability, draws, i) == Perturbation(path[..], used)
    {
      ghost var before := Perturbation(path[..], used);
      var draw := draws[used];
      used := used + 1;
      if Fires(draw, probability) {
        var j := draws[used] % n;
        used := used + 1;
        SwapEntries(path, i, j);
        assert PerturbStep(before, i, probability, draws) == Perturbation(Swap(before.tour, i, j), used);
      } else {
        assert PerturbStep(before, i, probability, draws) == Perturbation(before.tour, used);
      }
      i := i + 1;
    }
    PerturbedPermutes(current, probability, draws, n);
    if IsTour(current, n) {
      assert IsTour(path[..], n) by {
        PerturbedTour(current, probability, draws, n, n);
      }
    }
    if probability <= 0.0 {
      NoSwapIsIdentity(current, probability, draws, n);
    }
  }

  /** Overwrites the first NumOfLocations entries of `dest` with those of
      `source`; nothing else changes. */
  method CopyPath(dest: array<nat>, source: array<nat>)
    requires NumOfLocations <= dest.Length && NumOfLocations <= source.Length
    modifies dest
    ensures dest[..NumOfLocations] == old(source[..NumOfLocations])
    ensures forall k :: NumOfLocations <= k < dest.Length ==> dest[k] == old(dest[k])
    ensures dest != source ==> source[..] == old(source[..])
  {
    var i := 0;
    while i < NumOfLocations
      invariant 0 <= i <= NumOfLocations
      invariant dest[..i] == old(source[..i])
      invariant forall k :: i <= k < dest.Length ==> dest[k] == old(dest[k])
      invariant dest != source ==> source[..] == old(source[..])
      invariant source[i..NumOfLocations] == old(source[i..NumOfLocations])
    {
      dest[i] := source[i];
      i := i + 1;
    }
  }
}
