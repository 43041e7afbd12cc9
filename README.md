# MUPOL-MPC dispatch core in Dafny

This project models the oblivious greedy dispatch algorithm of the MUPOL
multi-party-computation solver. Freighters pool their trucks. Every truck
position, capacity and order is a secret-shared integer, and every decision
is closed-form arithmetic on those integers. The model states that arithmetic
on the cleartext integers the secrets reveal to.

- `secure.dfy` (module `Secure`): the substrate operations the algorithm
  uses. These are 0/1 comparisons `Eq` and `Ge`, the arithmetic select
  `IfElse`, the inner product `Dot`, the matrix product `MatVec`, and a
  reference `ArgMin`.
- `vector_functions.dfy` (module `VectorFunctions`): the three vector
  primitives of `mupol/mpc/utils/mpyc_vector_functions.py`.
  - `RealOr` is a function.
  - `ComputeIndicatorVector` and `FindFirstNonZero` are methods with loops over
    an array. They are proved against the one-hot predicate `IsIndicator` and
    the reference mask `FirstNonZeroMask`.
- `assignment.dfy` (module `Assignment`): the `Truck` and `Order` records
  and the reference semantics of a fill round.
  - `Fill` is one truck against one order.
  - `Pass` is one truck against every order.
  - `FillFrom` is the whole round with each truck reset after its pass.
  - Lemmas cover what a round does: orders are kept or taken, the round
    count equals the growth of the processed count, and progress holds.
- `solver.dfy` (module `Solver`): the `EmptyDrive` record and the
  `MPCSolver` class.
  - The class fields are `trucks`, `orders`, `emptyDrives` and
    `numProcessedOrders`.
  - Most methods follow one source method each and are proved against the
    functions above. Five methods are pieces of a source method, split out
    so that each has its own contract:
    - `FillTruckWithOrders` is the inner loop of `_fill_trucks`
      (`mupol/mpc/solver.py:118-119`);
    - `FillAndCount` is the fill and the revealed count of a round
      (`mupol/mpc/solver.py:322-325`);
    - `FinishRound` is the rest of a round (`mupol/mpc/solver.py:328-336`);
    - `ClearRoundFlags` is the flag-reset loop
      (`mupol/mpc/solver.py:333-334`);
    - `SolveRound` is one iteration of the round loop
      (`mupol/mpc/solver.py:317-336`).
  - The predicate `BetweenRounds` is the state every round keeps:
    - trucks uncommitted with non-negative capacity;
    - 0/1 order flags;
    - the processed counter equal to the number of processed orders;
    - every processed order assigned to a freighter of the fleet.
  - `SolveProblem` is the round loop. It runs each round through `RunRound`,
    which is `SolveRound` with only the facts the loop carries between
    rounds.

Main results:
- Each fill round assigns at least one order whenever a truck stands at the
  origin of the first open order with room for it (`RoundProgress`).
- A round that assigns nothing repositions a truck to that origin
  (`SolveRound`, `Repositioned`).
- So when every order fits into an empty truck, the loop ends with every order
  processed within 2 · (number of open orders) rounds (`SolveProblem`).

Two behaviours of the code worth knowing, which the model keeps:
- Repositioning picks the truck with the lowest route cost to the first
  unprocessed order's origin (lowest index on ties); capacity plays no part.
  Repositioning runs right after a fill round, which resets every truck to
  the configured truck capacity (`mupol/mpc/solver.py:120`), so the trucks
  do not differ in capacity then: the moved truck cannot carry the order
  only when no truck can. `CreateEmptyTruckDrive` does the same.
- The round loop at `mupol/mpc/solver.py:317` has no round limit. After the
  first round every truck is reset to the configured truck capacity, so an
  order still open after the first round whose volume exceeds that capacity
  is never taken, and the loop never ends. `SolveProblem` therefore takes a
  round bound, and its termination guarantee assumes every volume fits.

## Model

| member | source | states |
|---|---|---|
| Secure.Eq | mupol/mpc/solver.py:85 | the secure equality test is 0/1, and 1 exactly when the operands are equal |
| Secure.Ge | mupol/mpc/solver.py:92 | the secure greater-or-equal test is 0/1, and 1 exactly when a >= b |
| Secure.IfElse | mupol/mpc/solver.py:103-105 | the arithmetic select yields the first branch when the condition is 1 and the second when it is 0 |
| Secure.IfElseIsArithmetic | mupol/mpc/solver.py:103-105 | the select equals c * (a - b) + b for every integer condition |
| Secure.MatVec | mupol/mpc/solver.py:207 | the route matrix times the transposed target vector is the column of row-by-vector inner products |
| Secure.ArgMin | mupol/mpc/solver.py:277-279 | the closest-truck index is a valid index of a minimal distance, and the lowest such index |
| VectorFunctions.RealOr | mupol/mpc/utils/mpyc_vector_functions.py:11-25 | on 0/1 inputs the OR stays 0/1 and is 0 exactly when both inputs are 0; OR with 0 is the identity and OR with 1 is 1 |
| VectorFunctions.RealOrIsNand | mupol/mpc/utils/mpyc_vector_functions.py:25 | the OR equals 1 - (1 - a)(1 - b) on all integers |
| VectorFunctions.ComputeIndicatorVector | mupol/mpc/utils/mpyc_vector_functions.py:28-49 | the result has length entries, with 1 at index and 0 elsewhere, and is all zeros when index is out of range |
| VectorFunctions.FindFirstNonZero | mupol/mpc/utils/mpyc_vector_functions.py:52-69 | on a non-empty input the result has the same length, entry j is s[j] times (1 - OR of s[..j]), and on a 0/1 input it is the first-non-zero mask |
| VectorFunctions.OrPrefixOfBits | mupol/mpc/utils/mpyc_vector_functions.py:65-68 | the running flag of the scan is 0 while all entries read so far are 0, and 1 from the first 1 on |
| VectorFunctions.ScanIsFirstNonZeroMask | mupol/mpc/utils/mpyc_vector_functions.py:66-69 | the scan's arithmetic on a 0/1 input equals the first-non-zero mask entry by entry |
| VectorFunctions.LowestNonZero | mupol/mpc/utils/mpyc_vector_functions.py:52-60 | a vector that is not all zero has a lowest non-zero entry |
| VectorFunctions.FirstNonZeroMaskAt | mupol/mpc/utils/mpyc_vector_functions.py:52-60 | when k is the lowest non-zero index, the mask is the one-hot vector of k |
| VectorFunctions.FirstNonZeroMaskAtMostOne | mupol/mpc/utils/mpyc_vector_functions.py:66-69 | the mask is 0/1 and holds at most one 1 |
| VectorFunctions.FirstNonZeroMaskZeroIff | mupol/mpc/utils/mpyc_vector_functions.py:66-69 | the mask is all zeros exactly when the input is |
| VectorFunctions.DotIndicator | mupol/mpc/solver.py:151-153 | the inner product `Dot` (the substrate's in_prod) with a one-hot vector of k reads entry k, or 0 when k is out of range |
| VectorFunctions.LookupByIndicators | mupol/mpc/solver.py:199-208 | position vector · (route matrix · target vector) is the route cost from position to target, or 0 when either is not a map node |
| Assignment.CompatibleFlag | mupol/mpc/solver.py:85-100 | with a 0/1 processed flag the compatibility product is 0/1, and 1 exactly when the truck stands at the origin, is uncommitted or committed to the order's destination, has room, and the order is open |
| Assignment.BitProduct | mupol/mpc/solver.py:95-100 | a product of 0/1 values is 0/1 and is 1 exactly when both factors are 1 |
| Assignment.Fill | mupol/mpc/solver.py:79-112 | the order changes exactly when the pair is compatible: then it is processed, counted this round and assigned to the truck's freighter, and the truck commits to its destination and loses its volume; otherwise neither changes; capacity stays non-negative and a processed order is never refilled |
| Assignment.FillIdempotent | mupol/mpc/solver.py:92-93 | filling the resulting pair again changes nothing |
| Assignment.Pass | mupol/mpc/solver.py:118-119 | one truck's pass keeps its position, owner and non-negative capacity, and leaves each order as it was or taken by that truck |
| Assignment.PassCommitsOneDestination | mupol/mpc/solver.py:86-105 | in one pass a truck commits to a single destination, keeps an existing commitment, and stays uncommitted exactly when it takes nothing |
| Assignment.ResetTruck | mupol/mpc/solver.py:120-133 | after a pass the truck has full capacity, stands at its committed destination when it has one (else where it stood), and is uncommitted again |
| Assignment.TruckEndsAtDestinationOfItsOrders | mupol/mpc/solver.py:117-125 | an uncommitted truck ends its pass where it stood if it took nothing, and at the destination of every order it took otherwise |
| Assignment.FillFrom | mupol/mpc/solver.py:117-133 | the round from truck i on leaves earlier trucks alone and resets every later truck to full capacity and no commitment, keeping its owner |
| Assignment.FillFromTakesOrKeeps | mupol/mpc/solver.py:117-133 | in a round every order is kept, or taken where one of the trucks stood and for that truck's freighter |
| Assignment.PassOverProcessed | mupol/mpc/solver.py:93 | a pass over orders that are all processed changes nothing |
| Assignment.PassTakesFirstOpen | mupol/mpc/solver.py:118-119 | an uncommitted truck at the origin of the first open order, with room for it, takes that order |
| Assignment.FillFromTakesFirstOpen | mupol/mpc/solver.py:117-133 | a round in which such a truck is still to come ends with the first open order processed |
| Assignment.CountBounds | mupol/mpc/solver.py:324 | with 0/1 flags the processed count lies in 0 .. number of orders, equals that number exactly when all are processed, and the round count is non-negative and 0 when no round flag is set |
| Assignment.CountsDifferenceKept | mupol/mpc/solver.py:324 | when every order keeps processed minus round flag, the processed count minus the round count is kept |
| Assignment.ProcessedCountGrows | mupol/mpc/solver.py:336 | flags that only grow give a count that does not shrink, and one flag that grows makes it strictly larger |
| Assignment.ProcessedCountOfSameFlags | mupol/mpc/solver.py:333-334 | the processed count reads only the processed flags |
| Assignment.FillRound | mupol/mpc/solver.py:322-324 | a round keeps flags valid and processed orders untouched; the revealed round count (`RoundCount`, the sum of the round flags) is exactly the number of newly processed orders, each taken by a truck of the fleet |
| Solver.FirstUnprocessed | mupol/mpc/solver.py:149-150 | the index of the first order with processed 0, with every earlier order processed, or the number of orders when there is none |
| Solver.FirstUnprocessedOfSameFlags | mupol/mpc/solver.py:333-334 | the first unprocessed index reads only the processed flags |
| Solver.OpenOrderExists | mupol/mpc/solver.py:317 | while the counter is below the number of orders, some order is open |
| Solver.RoundProgress | mupol/mpc/solver.py:322-325 | a round from a state where an uncommitted truck stands at the first open order's origin with room assigns at least one order |
| Solver.RoundSettles | mupol/mpc/solver.py:317-336 | a fill, a reset of the trucks and the clearing of the round flags lead from one settled state to the next, with the counter grown by the round's count |
| Solver.RoundTakes | mupol/mpc/solver.py:317-336 | a round keeps processed orders, keeps every route and volume, and assigns each new order to a truck that stood at its origin |
| Solver.SameJobsTransitive | mupol/mpc/solver.py:317-336 | routes and volumes kept over two rounds are kept over both |
| Solver.RepositionedOfSameFlags | mupol/mpc/solver.py:332-334 | clearing the round flags keeps the repositioning facts |
| Solver.StallMakesReachable | mupol/mpc/solver.py:328-330 | after a repositioning drive, with every truck reset, the first open order is reachable when its volume fits the truck capacity |
| Solver.MPCSolver.constructor | mupol/mpc/solver.py:49-77 | a solver over uploaded trucks and orders (unprocessed, unassigned, uncommitted) starts between rounds with no empty drives and a zero counter |
| Solver.MPCSolver.FillTruckWithOrder | mupol/mpc/solver.py:79-112 | the arithmetic selects update truck ti and order oi exactly as the reference Fill |
| Solver.MPCSolver.FillTruckWithOrders | mupol/mpc/solver.py:118-119 | the inner loop updates truck ti and the orders exactly as the reference Pass |
| Solver.MPCSolver.FillTrucks | mupol/mpc/solver.py:114-133 | the nested loop with per-truck reset yields exactly the reference round FillFrom |
| Solver.MPCSolver.LocateFirstUnprocessedOrigin | mupol/mpc/solver.py:140-157 | returns the origin of the first unprocessed order (0 when none is open) and its one-hot vector over the map positions |
| Solver.MPCSolver.FindTruckDistToOrder | mupol/mpc/solver.py:185-208 | only truck ti changes, and its distance becomes the route cost from its position to the target |
| Solver.MPCSolver.FindDistancesToOrder | mupol/mpc/solver.py:159-183 | every truck gets its route cost to the target, and nothing else changes |
| Solver.MPCSolver.FindTruckPosition | mupol/mpc/solver.py:210-224 | returns the position of the truck at the index, or the dummy node when the index matches no truck |
| Solver.MPCSolver.FindFreighterId | mupol/mpc/solver.py:242-256 | returns the freighter of the truck at the index, or the dummy freighter when the index matches no truck |
| Solver.MPCSolver.MoveTruck | mupol/mpc/solver.py:226-240 | only the truck at the index changes, and only its position, to the given node |
| Solver.MPCSolver.CreateEmptyTruckDrive | mupol/mpc/solver.py:258-306 | (DroveClosest) appends one `EmptyDrive` record (freighter, old position, target node) for the closest truck to the first open order's origin (lowest index on ties), moves that truck there, records every truck's distance, and changes no capacity, commitment or owner |
| Solver.MPCSolver.ClearRoundFlags | mupol/mpc/solver.py:332-334 | every order's round flag becomes 0 and nothing else changes |
| Solver.MPCSolver.FillAndCount | mupol/mpc/solver.py:322-325 | trucks and orders become exactly the fill round FillFrom of the old ones; returns the round count, which equals the growth of the processed count and is positive when the first open order was reachable; orders are kept or taken by a truck of the fleet |
| Solver.MPCSolver.FinishRound | mupol/mpc/solver.py:328-336 | with a non-zero count only the round flags are cleared and the counter grows; with a zero count exactly the repositioning drive follows: one drive recorded with the closest truck's freighter and old position, only that truck moved to the first open order's origin, every distance recorded (DroveClosest) |
| Solver.MPCSolver.SolveRound | mupol/mpc/solver.py:317-336 | the exact outcome: the orders are the fill round's result with round flags cleared; with a non-zero count the trucks are the fill round's result and the drives are unchanged; with a zero count the trucks and drives are the closest-truck drive applied to the fill round's result (DroveClosest); the round keeps the between-rounds state, adds its count to the counter, assigns only orders at trucks' positions to those trucks' freighters, and appends a drive exactly when the count is 0, after which a truck stands at the first open order's origin |
| Solver.MPCSolver.SolveProblem | mupol/mpc/solver.py:308-336 | returns the revealed count of every round it ran; the loop keeps the between-rounds state, the counter grows by the sum of the counts, and one drive is appended per round whose count is 0; on exit every order is processed and assigned to a freighter of the fleet, or the bound is reached; if every volume fits and the bound is at least twice the number of open orders, every order ends processed |

## Left out

- The secure-computation substrate: secret sharing, input and output of
  shares, and the modular arithmetic of bounded secret integers. Values are
  unbounded integers, so overflow past the configured bit length is not
  modelled. Obliviousness and confidentiality are not functional properties
  and are not stated.
- Secure.ArgMin: the substrate's argmin is not available here. It is a
  reference definition, the lowest index of a minimal entry, and nothing is
  claimed about the substrate's tie-breaking beyond that.
- Secure.MatVec: the two matrix products of the distance lookup are modelled
  as a matrix-vector product followed by an inner product.
- The route matrix is a constant square integer matrix of the solver.
  Computing it from the map is not part of this model. Its conversion to
  secret values is dropped.
- The plaintext Problem, Truck, Order and Freighter classes are not part of
  this model. Trucks and orders are records in the solver's lists, and
  methods take truck and order indices instead of object references, so
  aliasing of these objects outside the solver is not modelled.
- The initial upload of trucks and orders is not modelled as code. Its
  result is the constructor's precondition: unprocessed and unassigned
  orders, and uncommitted trucks. The precondition also assumes that no
  truck starts with a negative capacity, that the truck capacity is
  non-negative, and that the route matrix is square.
- Solver.MPCSolver.SolveProblem: takes a bound on the number of rounds. The
  source loop has none and does not end when some order never fits into a
  truck. The bound is large enough whenever every order fits.
- Solver.MPCSolver.constructor: requires at least one order. With no
  orders the source fails when it reads the first order's type
  (`mupol/mpc/solver.py:76`); that error path is not modelled.
- Solver.MPCSolver.CreateEmptyTruckDrive: requires at least one truck. With
  no trucks the source calls the argmin of an empty list
  (`mupol/mpc/solver.py:277-279`); that error path is not modelled.
- Solver.MPCSolver.FinishRound: requires at least one truck, for the same
  reason as CreateEmptyTruckDrive.
- Solver.MPCSolver.SolveRound: requires at least one truck, for the same
  reason as CreateEmptyTruckDrive.
- Solver.MPCSolver.SolveProblem: requires at least one truck, for the same
  reason as CreateEmptyTruckDrive; with no trucks the first round assigns
  nothing and the source then fails in the argmin.
- The final loops that reveal the orders and the empty drives, the logger
  calls and the timing are output plumbing and are left out.
- The distance-lookup methods take the target node as a ghost parameter
  next to its indicator vector. Only the vector is used to compute.
- The set of freighters is not used by the algorithm beyond a log message
  and is not modelled.
