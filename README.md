# Simulated annealing for the travelling salesman: tour model

This project models the tour manipulation of the Simulated-Annealing demo,
a single C++ program that anneals a visiting order over 50 random cities
and draws it every frame. The modelled part is:

- building the initial tour: the identity order, then one swap per position
  with a randomly drawn position;
- building a candidate from the current tour: a copy, then a swap at each
  position whose perturbation test fires;
- copying one tour buffer over another;
- the open-path cost, which sums `numOfLocations - 1` edges and has no
  closing edge;
- the per-frame annealing step. It keeps a candidate that is not worse.
  It keeps a worse candidate only when the acceptance test passes, and only
  then changes the temperature. In every case it recomputes the total
  distance.

Four modules:

- `Tours` (tours.dfy) defines what a tour is. It gives the two swap passes
  as specification functions over sequences (`Shuffled`, `Perturbed`) and
  proves their properties: every result is a tour, and every result is a
  permutation of its input. The draws of `rand()` are a sequence of natural
  numbers that the passes consume in order, reduced by the same modulus as
  in the code.
- `Distance` (distance.dfy) holds the cost of a visiting order over an
  abstract edge length `edge(a, b)`, together with the loop that sums it.
- `Paths` (paths.dfy) holds four methods over arrays: `SwapEntries`,
  `GenerateRandomPath`, `GenerateCandidatePath` and `CopyPath`.
  `SwapEntries` and the two path builders are proved against the functions
  of `Tours`. `CopyPath` is specified directly by the entries of its two
  buffers before and after the copy.
- `Annealing` (annealing.dfy) holds the class `Annealer`. Its fields are
  the program's globals `path`, `temperature` and `totalDistance`. Its
  invariant `Valid()` states that the tour is a tour of all cities and
  `totalDistance` is its cost. The constructor and `Step` keep it.

Two tests in the step read differently from what they compute, and the
model keeps what they compute:

- The name `probability` and the call-site value 0.5 read as a fraction.
  Line 229 compares it with an unscaled draw in 0..99, so any probability
  in (0, 1] fires only when the draw is a multiple of 100
  (`Tours.FractionFiresOnlyOnZero`).
- `r` at line 101 reads as a uniform draw in [0, 1). It is
  `(rand() % 1000) / 1000` divided as integers, so it is always 0
  (`Annealing.AcceptanceValue`). The test `r < p` then passes exactly when
  the acceptance probability is positive (`Annealing.Accepts`). The draw is
  still consumed, and the model counts it.

## Model

| member | source | states |
|---|---|---|
| Tours.Identity | SimulatedAnnealing/SimulatedAnnealing.cpp:212-213 | the fill loop's result: length n, and entry i is i |
| Tours.TourCoversAll | SimulatedAnnealing/SimulatedAnnealing.cpp:208-219 | pigeonhole: a tour of n cities visits every city index below n |
| Tours.TourCounts | SimulatedAnnealing/SimulatedAnnealing.cpp:208-219 | in a tour of n cities each index below n occurs exactly once and no other value occurs |
| Tours.TourIsPermutation | SimulatedAnnealing/SimulatedAnnealing.cpp:208-219 | a tour of n cities holds each index below n exactly once (same multiset as 0..n-1) |
| Tours.PermutationIsTour | SimulatedAnnealing/SimulatedAnnealing.cpp:208-219 | a rearrangement of 0..n-1 is a tour: n entries, all below n, no repeats |
| Tours.TourIffPermutation | SimulatedAnnealing/SimulatedAnnealing.cpp:208-219 | both directions: being a tour of n cities is being a permutation of 0..n-1 |
| Tours.Swap | SimulatedAnnealing/SimulatedAnnealing.cpp:216 | std::swap: the length is kept and the entries at i and j trade places |
| Tours.SwapPermutes | SimulatedAnnealing/SimulatedAnnealing.cpp:216 | std::swap of two entries neither adds nor drops an entry |
| Tours.SwapKeepsTour | SimulatedAnnealing/SimulatedAnnealing.cpp:216 | swapping two in-range positions of a tour leaves a tour |
| Tours.Shuffled | SimulatedAnnealing/SimulatedAnnealing.cpp:215-216 | the shuffle pass, one swap with position draw % n per step, keeps the length |
| Tours.ShuffledPermutes | SimulatedAnnealing/SimulatedAnnealing.cpp:215-216 | the shuffle pass is a permutation of the order it starts from |
| Tours.ShuffledTour | SimulatedAnnealing/SimulatedAnnealing.cpp:215-218 | every prefix of the shuffle pass turns a tour into a tour |
| Tours.FiresBounds | SimulatedAnnealing/SimulatedAnnealing.cpp:229 | the test draw % 100 < probability never fires for probability <= 0, always fires above 99, and between these depends on the draw |
| Tours.FractionFiresOnlyOnZero | SimulatedAnnealing/SimulatedAnnealing.cpp:229 | for a probability in (0, 1], such as the step's 0.5, the test fires exactly for draws that are multiples of 100 |
| Tours.Perturbed | SimulatedAnnealing/SimulatedAnnealing.cpp:228-230 | the candidate pass keeps the length and uses one or two draws per position |
| Tours.PerturbStep | SimulatedAnnealing/SimulatedAnnealing.cpp:229-230 | one position of the candidate pass uses one draw, or two when the test fires |
| Tours.PerturbStepPermutes | SimulatedAnnealing/SimulatedAnnealing.cpp:229-230 | one position of the candidate pass keeps the entries of the tour |
| Tours.PerturbedPermutes | SimulatedAnnealing/SimulatedAnnealing.cpp:223-232 | the candidate holds the same multiset of entries as the current tour |
| Tours.PerturbedTour | SimulatedAnnealing/SimulatedAnnealing.cpp:223-232 | a candidate built from a tour is a tour |
| Tours.NoSwapIsIdentity | SimulatedAnnealing/SimulatedAnnealing.cpp:228-230 | with probability <= 0 nothing is swapped: the candidate equals the input and exactly one draw is used per position |
| Distance.Cost | SimulatedAnnealing/SimulatedAnnealing.cpp:127-136 | the open-path cost; with non-negative edge lengths it is non-negative |
| Distance.CostCountsEdges | SimulatedAnnealing/SimulatedAnnealing.cpp:130-133 | the cost counts exactly length - 1 edges: with unit edges it equals length - 1, so no closing edge is added |
| Distance.CostReversed | SimulatedAnnealing/SimulatedAnnealing.cpp:127-136 | with symmetric edge lengths, as the Euclidean distance is, the path read backwards costs the same |
| Distance.CalculateTotalDistance | SimulatedAnnealing/SimulatedAnnealing.cpp:127-136 | the loop returns the cost of the first numOfLocations entries, and a non-negative value for non-negative edges |
| Paths.SwapEntries | SimulatedAnnealing/SimulatedAnnealing.cpp:216 | the buffer afterwards is the old one with entries i and j exchanged |
| Paths.GenerateRandomPath | SimulatedAnnealing/SimulatedAnnealing.cpp:208-219 | a fresh buffer of n entries equal to the shuffle pass applied to 0..n-1; it is a tour, and holds each index below n exactly once |
| Paths.GenerateCandidatePath | SimulatedAnnealing/SimulatedAnnealing.cpp:221-233 | a fresh buffer equal to the candidate pass on the current tour, with the count of draws used; the current tour is not written; the candidate has the same multiset of entries as the current tour; a tour gives a tour; probability <= 0 gives an exact copy |
| Paths.CopyPath | SimulatedAnnealing/SimulatedAnnealing.cpp:121-125 | the first numOfLocations entries of dest become those of source, the rest of dest is untouched, and a distinct source is unchanged |
| Annealing.AcceptanceValue | SimulatedAnnealing/SimulatedAnnealing.cpp:101 | the acceptance value (draw % 1000) / 1000, divided as integers, is always 0 |
| Annealing.Accepts | SimulatedAnnealing/SimulatedAnnealing.cpp:100-103 | the acceptance test r < p passes exactly when the acceptance probability p is positive, for every draw |
| Annealing.Annealer.Init | SimulatedAnnealing/SimulatedAnnealing.cpp:85-91 | the initial tour is the shuffle of 0..49, the invariant holds (a tour, totalDistance its cost), and the temperature is 50 |
| Annealing.Annealer.Decide | SimulatedAnnealing/SimulatedAnnealing.cpp:97-116 | given a candidate tour and its cost, a not-worse candidate replaces the tour with the temperature unchanged; a worse one uses one draw, and replaces the tour and cools the temperature only when the test passes, else nothing changes; the invariant is kept (a tour, totalDistance its cost) |
| Annealing.Annealer.Step | SimulatedAnnealing/SimulatedAnnealing.cpp:93-119 | the step keeps the invariant (still a tour, totalDistance its cost) and the buffer; the new tour, temperature and draw count are those of the candidate pass and the acceptance branch taken |

## Left out

- Rendering and the window loop (`main`'s GLFW calls, `Render`, `DrawCities`, `DrawPaths`, `DrawLines`, `DrawPoint`) and `WorldToOpenGL`: these are display glue with no logic to state.
- `GenerateRandomLocations`: it only produces random coordinates, and the coordinates feed only the floating-point edge length. The model takes the edge length `edge` as given. The draws that `Init` spends on locations come before the draws passed to `Annealing.Annealer.Init`.
- `Distance.CalculateTotalDistance`: the Euclidean length via `sqrt` and `pow`, and float rounding of the sum, are not modelled. The sum is exact over the abstract `edge`.
- `Annealing.Annealer.Step`: the acceptance probability `exp(-(candidateCost - currentCost) / temperature)` is the input `boltzmann`, applied to the two costs and the temperature. The temperature formula `(temperature - (candidateCost - currentCost)) / log(r)` is the input `cooling`, applied to the temperature and the two costs. NaN, infinities and signed zeros, which the formula produces because `r` is 0, are not modelled.
- `rand()` and `srand(time(NULL))`: draws are a caller-supplied sequence. The requires clauses ask for enough draws: n for the shuffle, 2n for the candidate pass, and one more for the acceptance test. The source's draw values are below `RAND_MAX`; the model admits any natural number.
- Console output (the "switch" and total-distance lines) and memory management, including the candidate buffer that each step allocates and never frees. In the model, each call allocates a fresh array.
- Integer widths: city indices are `unsigned int` in the source and `nat` here. With 50 cities no value comes near a bound.
