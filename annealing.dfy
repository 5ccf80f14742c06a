/** The annealing state and the step the program runs once per frame.

    The program keeps the current tour, the temperature and the total
    distance in globals; here they are the fields of one object. The
    floating-point formulas of the step are inputs, applied to the values
    the program feeds them: `boltzmann(candidateCost, currentCost,
    temperature)` stands for the acceptance probability
    exp(-(candidateCost - currentCost) / temperature), and
    `cooling(temperature, candidateCost, currentCost)` for the new
    temperature (temperature - (candidateCost - currentCost)) / log(r). */
module Annealing {
  import opened Tours
  import opened Distance
  import opened Paths

  /** The perturbation probability the step passes to the candidate pass. */
  const CandidateProbability: real := 0.5

  /** The starting temperature. */
  const InitialTemperature: real := 50.0

  /** The value `r` the acceptance test compares: the draw reduced modulo
      1000 and then divided by 1000 in integer arithmetic, before it is
      converted to floating point. The quotient is always zero. */
  function AcceptanceValue(draw: nat): (r: int)
    ensures r == 0
  {
    (draw % 1000) / 1000
  }

  /** The acceptance test `r < p` for a candidate costing `worse` against a
      tour costing `better`. Since r is always zero, the test passes
      exactly when the acceptance probability is positive, whatever the
      draw. */
  function Accepts(boltzmann: (real, real, real) -> real, draw: nat, temperature: real,
                   worse: real, better: real): (r: bool)
    ensures r <==> 0.0 < boltzmann(worse, better, temperature)
  {
    (AcceptanceValue(draw) as real) < boltzmann(worse, better, temperature)
  }

  class Annealer {
    /** Length of the edge between two cities (stands for the city
        locations and the Euclidean metric); fixed for the run. */
    const edge: (nat, nat) -> real
    var path: array<nat>
    var temperature: real
    var totalDistance: real

    /** The current tour is a tour of all cities and `totalDistance` is
        its cost. */
    ghost predicate Valid()
      reads this, path
    {
      path.Length == NumOfLocations &&
      IsTour(path[..], NumOfLocations) &&
      totalDistance == Cost(edge, path[..])
    }

    /** Builds the initial tour from `draws` and measures it. */
    constructor Init(edge: (nat, nat) -> real, draws: seq<nat>)
      requires NumOfLocations <= |draws|
      ensures Valid() && fresh(path)
      ensures this.edge == edge
      ensures path[..] == Shuffled(Identity(NumOfLocations), draws, NumOfLocations)
      ensures temperature == InitialTemperature
    {
      var p := GenerateRandomPath(NumOfLocations, draws);
      var d := CalculateTotalDistance(edge, p);
      assert p[..NumOfLocations] == p[..];
      this.edge := edge;
      path := p;
      temperature := InitialTemperature;
      totalDistance := d;
    }

    /** The acceptance decision of a step and the new total distance,
        given the candidate and its cost. A candidate that is not worse
        than `totalDistance` replaces the tour. A worse one costs one draw
        (reported in `drew`), and replaces the tour only when the
        acceptance test passes on that draw; the temperature is then
        cooled by the cost increase. Afterwards `totalDistance` is the cost
        of the resulting tour. */
    method Decide(candidate: array<nat>, candidateTotalDistance: real, draw: nat,
                  boltzmann: (real, real, real) -> real, cooling: (real, real, real) -> real)
      returns (drew: bool)
      requires Valid()
      requires candidate.Length == NumOfLocations && candidate != path
      requires IsTour(candidate[..], NumOfLocations)
      requires candidateTotalDistance == Cost(edge, candidate[..])
      modifies this`temperature, this`totalDistance, path
      ensures Valid()
      ensures drew <==> old(totalDistance) < candidateTotalDistance
      ensures
        if !drew then
          path[..] == candidate[..] && temperature == old(temperature)
        else if Accepts(boltzmann, draw, old(temperature), candidateTotalDistance, old(totalDistance)) then
          path[..] == candidate[..] &&
          temperature == cooling(old(temperature), candidateTotalDistance, old(totalDistance))
        else
          path[..] == old(path[..]) && temperature == old(temperature)
    {
      drew := totalDistance < candidateTotalDistance;
      if drew {
        var currentTotalDistance := CalculateTotalDistance(edge, path);
        assert path[..NumOfLocations] == path[..];
        if Accepts(boltzmann, draw, temperature, candidateTotalDistance, currentTotalDistance) {
          temperature := cooling(temperature, candidateTotalDistance, currentTotalDistance);
          CopyPath(path, candidate);
          assert path[..] == path[..NumOfLocations];
          assert candidate[..] == candidate[..NumOfLocations];
        }
      } else {
        CopyPath(path, candidate);
        assert path[..] == path[..NumOfLocations];
        assert candidate[..] == candidate[..NumOfLocations];
      }
      totalDistance := CalculateTotalDistance(edge, path);
      assert path[..NumOfLocations] == path[..];
    }

    /** One annealing step. The candidate pass consumes the first draws;
        a worse candidate consumes one more for the acceptance test, and
        `used` is the count. A candidate that is not worse always replaces
        the tour and leaves the temperature alone; a worse one replaces it
        only when the acceptance test passes, and then the temperature is
        cooled by the cost increase. The step keeps the tour a tour and
        `totalDistance` its cost. */
    method Step(draws: seq<nat>, boltzmann: (real, real, real) -> real, cooling: (real, real, real) -> real)
      returns (used: nat)
      requires Valid()
      requires 2 * NumOfLocations + 1 <= |draws|
      modifies this, path
      ensures Valid() && path == old(path)
      ensures var c := Perturbed(old(path[..]), CandidateProbability, draws, NumOfLocations);
        if Cost(edge, c.tour) <= old(totalDistance) then
          used == c.used && path[..] == c.tour && temperature == old(temperature)
        else if Accepts(boltzmann, draws[c.used], old(temperature), Cost(edge, c.tour), old(totalDistance)) then
          used == c.used + 1 && path[..] == c.tour &&
          temperature == cooling(old(temperature), Cost(edge, c.tour), old(totalDistance))
        else
          used == c.used + 1 && path[..] == old(path[..]) && temperature == old(temperature)
    {
      ghost var current := path[..];
      ghost var t0, d0 := temperature, totalDistance;
      ghost var c := Perturbed(current, CandidateProbability, draws, NumOfLocations);
      assert path[..NumOfLocations] == current;
      var candidate, u := GenerateCandidatePath(NumOfLocations, path, CandidateProbability, draws);
      assert candidate[..] == c.tour && IsTour(c.tour, NumOfLocations);
      var candidateTotalDistance := CalculateTotalDistance(edge, candidate);
      assert candidate[..NumOfLocations] == c.tour;
      assert temperature == t0 && totalDistance == d0 && candidateTotalDistance == Cost(edge, c.tour);
      var drew := Decide(candidate, candidateTotalDistance, draws[u], boltzmann, cooling);
      used := if drew then u + 1 else u;
    }
  }
}
