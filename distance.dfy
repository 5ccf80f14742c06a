/** The cost of a visiting order: the length of the open path through the
    cities in that order.

    The city coordinates and the Euclidean metric are abstracted into one
    function `edge(a, b)`, the length of the edge from city a to city b. */
module Distance {
  import opened Tours

  /** The sum of `edge(s[i-1], s[i])` for i in 1..|s|-1: no edge closes
      the tour back to s[0]. With non-negative edge lengths it is
      non-negative. */
  function Cost(edge: (nat, nat) -> real, s: seq<nat>): (r: real)
    ensures (forall a, b :: edge(a, b) >= 0.0) ==> r >= 0.0
  {
    if |s| <= 1 then 0.0
    else Cost(edge, s[..|s| - 1]) + edge(s[|s| - 2], s[|s| - 1])
  }

  /** The cost measures exactly |s| - 1 edges: with every edge of length
      one, the cost of a non-empty path is its length minus one. */
  lemma {:induction false} CostCountsEdges(edge: (nat, nat) -> real, s: seq<nat>)
    requires forall a, b :: edge(a, b) == 1.0
    ensures Cost(edge, s) == if |s| == 0 then 0.0 else (|s| - 1) as real
  {
    if |s| > 1 {
      CostCountsEdges(edge, s[..|s| - 1]);
    }
  }

  /** Prepending a city adds the edge from it to the old first city. */
  lemma {:induction false} CostCons(edge: (nat, nat) -> real, x: nat, s: seq<nat>)
    requires |s| >= 1
    ensures Cost(edge, [x] + s) == edge(x, s[0]) + Cost(edge, s)
  {
    if |s| > 1 {
      var init := s[..|s| - 1];
      assert ([x] + s)[..|s|] == [x] + init;
      CostCons(edge, x, init);
    }
  }

  /** The visiting order read backwards. */
  function Reverse(s: seq<nat>): (r: seq<nat>)
    ensures |r| == |s|
    ensures forall i :: 0 <= i < |s| ==> r[i] == s[|s| - 1 - i]
  {
    if s == [] then [] else [s[|s| - 1]] + Reverse(s[..|s| - 1])
  }

  /** When edge lengths are symmetric, walking the path backwards costs
      the same. */
  lemma {:induction false} CostReversed(edge: (nat, nat) -> real, s: seq<nat>)
    requires forall a, b :: edge(a, b) == edge(b, a)
    ensures Cost(edge, Reverse(s)) == Cost(edge, s)
  {
    if |s| > 1 {
      var init := s[..|s| - 1];
      CostReversed(edge, init);
      CostCons(edge, s[|s| - 1], Reverse(init));
    }
  }

  /** Sums the NumOfLocations - 1 edges of the path, front to back. */
  method CalculateTotalDistance(edge: (nat, nat) -> real, path: array<nat>) returns (dist: real)
    requires NumOfLocations <= path.Length
    ensures dist == Cost(edge, path[..NumOfLocations])
    ensures (forall a, b :: edge(a, b) >= 0.0) ==> dist >= 0.0
  {
    dist := 0.0;
    var i := 1;
    while i < NumOfLocations
      invariant 1 <= i <= NumOfLocations
      invariant dist == Cost(edge, path[..i])
    {
      assert path[..i + 1][..i] == path[..i];
      dist := dist + edge(path[i - 1], path[i]);
      i := i + 1;
    }
  }
}
