# Tabu search for vehicle routing, modelled in Dafny

The repository solves a vehicle-routing problem with a tabu search, copied with
small differences into five Python files (vrp_solver.py, stats.py, space.py,
vrp.py, test.py), plus a time-window simulator in two more (test2.py,
charge.py).

A solution is a list of `k` tours, one per vehicle. Each tour lists city
indices, and city 0 is the depot. The French copies work like this:

- **Initial solution.** Deal a shuffled customer list round-robin into the
  tours, put the depot at both ends of every tour, then "repair" any tour
  without a customer.
- **One iteration.**
  - For every tour pair (i, j), i < j, build one neighbour. It swaps one
    interior customer of tour i with one of tour j.
  - Keep the neighbours whose tours all pass the validity check and that
    are not in the tabu list.
  - Move to the first neighbour of least cost.
  - Replace the incumbent only on a strict improvement.
  - Record the current solution in a bounded FIFO tabu list.
  - Some copies also record the incumbent's cost.

The simulator files build routes round-robin too, but wrap only the non-empty
ones with the depot. They drive each route with a clock that waits for a
city to open and flags any arrival after the city has closed.

The Dafny modules follow that structure:

- `Routes`: tours, solutions, the partition of the customers, hop sums.
- `Costs`: both `calculer_cout_total` formulas.
- `RoundRobin`: the deal into tours.
- `Initialisation`: `initialiser_solution` and its repair loop.
- `Moves`: `echanger_clients`.
- `TabuMemory`: the bounded tabu list and `taille_tabou`.
- `TabuSearch`: one iteration of the shared search. `Knobs` records where
  the copies differ: the cost formula, the length guard of
  `est_tournee_valide`, and stats.py's rule that a swap must have happened.
- `SearchLoop`: the shared main loop, iteration after iteration.
- One module per copy: `VrpSolver`, `Stats`, `Space`, `Vrp`, `Test`.
- `Makespan`: the window check run after the search.
- For the simulator files: `TimeWindows`; `Test2Moves` (the move of
  test2.py), `Test2Progress` (what its search keeps between iterations) and
  `Test2` (its search); `Charge`.

Some inputs are parameters rather than modelled:

- The shuffled customer list (`clients`).
- The raw draws behind every `randint` and `random.sample` (`Draws`,
  `Sample`). Lemmas `Moves.PickCovers` and `Test2Moves.PickPairCovers` show that
  every value the Python generator can return is reachable from some draw.
- The integer distance table (`tempo`, `dist`).

Two behaviours of the code shape the model:

- **Where the repair takes a customer from.** The repair loop moves a
  customer out of the first tour with at least one customer, that is, with
  more than two cities (vrp_solver.py:102-107).
- **Too many vehicles.** With more vehicles than customers the repair loop
  never ends (see Findings).

The search never re-deals customers between tours after the initial
solution: every later move swaps customers between two tours.

## Model

| member | source | states |
|---|---|---|
| Routes.ValidityChecksAgree | vrp_solver.py:74 | The guarded check (`len >= 2`, first and last are 0) and the unguarded check of vrp.py:47 agree on every tour of two or more cities. The guarded one is exactly "at least two cities and anchored". They differ on `[0]`. |
| Routes.Customers | vrp_solver.py:88 | `list(range(1, nbr))` has `nbr - 1` entries (none for `nbr <= 1`), and entry i is i + 1. |
| Routes.ShuffledFacts | vrp_solver.py:88-89 | A shuffle of the customer list has `nbr - 1` entries, all in 1 .. nbr-1. |
| Routes.PartitionExactlyOnce | vrp_solver.py:85-86 | In a partitioned solution every customer 1 .. nbr-1 occurs exactly once among the tour interiors, and no other city occurs there. |
| Costs.TourCostIsHopSum | vrp_solver.py:51-61 | On a tour that starts and ends at the depot (or is empty), either cost formula equals the sum of `tempo` over consecutive pairs. Tours shorter than two contribute 0. |
| Costs.SolCostIsHopSum | vrp_solver.py:51-61 | For depot-anchored tours, a solution's cost is the sum of its tours' hop sums. |
| Costs.FormulasAgree | vrp.py:25-36 | The open formula of vrp.py/test.py and the anchored formula of vrp_solver.py give the same cost on every depot-anchored solution. |
| Costs.FormulasDifferOffDepot | vrp.py:25-36 | The two formulas differ off the depot: on `[[1, 0]]` the anchored one costs 0 and the open one costs `tempo[0][1] + tempo[1][0]`. |
| Costs.AnchoredTotalCost | vrp_solver.py:41-61 | The accumulator loop returns the anchored cost: `tempo[0][tour[1]]`, the hops from position 1 on and `tempo[tour[-1]][0]` for each tour of two or more cities. |
| Costs.OpenTotalCost | vrp.py:25-36 | The accumulator loop returns the open cost: depot leg, every hop and return leg for each non-empty route. |
| RoundRobin.BucketMembers | vrp_solver.py:92-93 | A customer is in tour r exactly when its position idx in the shuffled list has `idx % k == r`. |
| RoundRobin.CustomerLandsInTour | vrp_solver.py:92-93 | The customer at position idx lands in tour `idx % k`, in both the anchored and the wrapped routes. |
| RoundRobin.BucketsFilled | vrp_solver.py:92-99 | With at least k customers every tour receives one. With fewer, the last tour receives none. |
| RoundRobin.BucketsBag | vrp_solver.py:90-96 | The anchored tours hold exactly the customers of the list, with multiplicity. |
| RoundRobin.AnchoredToursWellFormed | vrp_solver.py:88-96 | With a shuffle of 1 .. nbr-1 and `nbr - 1 >= k`, the deal gives k depot-anchored tours, each with a customer, that partition the customers. |
| RoundRobin.WrappedBag | test2.py:53-59 | The wrapped routes hold exactly the customers of the list. |
| RoundRobin.WrappedTourShape | test2.py:56-59 | A wrapped route is empty, or starts and ends at the depot with at least one customer. |
| RoundRobin.WrappedToursPartition | test2.py:50-60 | The wrapped routes of a shuffle of 1 .. n partition the customers. Each route is empty or depot-anchored. |
| Initialisation.FirstLong | vrp_solver.py:102-103 | The `j` the inner loop breaks at: the first tour from a position on with more than two cities, and none when no such tour exists. |
| Initialisation.MoveFirstCustomer | vrp_solver.py:105-106 | `pop(1)` then `insert(1, ...)` shortens tour j by one and lengthens tour i by one. No other tour changes. |
| Initialisation.MoveKeepsShape | vrp_solver.py:105-106 | A move keeps at least the two depot markers in every tour, and keeps the depot at both ends. |
| Initialisation.MoveKeepsCustomers | vrp_solver.py:105-106 | A move keeps the customer multiset. |
| Initialisation.RepairKeepsShape | vrp_solver.py:100-107 | One pass of the repair loop keeps the number of tours, the depot markers and the customer multiset. |
| Initialisation.RepairPass | vrp_solver.py:100-107 | The nested for-loops, run as written, compute one pass of the repair. |
| Initialisation.Passes | vrp_solver.py:99-107 | Any number of passes keeps every tour at least two cities long. |
| Initialisation.RepairLoopNeverEnds | vrp_solver.py:99-107 | With fewer customers than tours, some tour is still `[0, 0]` after any number of passes, so the `while` guard never becomes false. |
| Initialisation.RepairGuard | vrp_solver.py:99 | The round-robin tours contain a `[0, 0]` tour exactly when `nbr - 1 < k`. So the repair loop never runs when there are enough customers. |
| Initialisation.InitialiserLoopsForever | vrp_solver.py:99-107 | When `nbr - 1 < k` the guard holds after every number of passes: `initialiser_solution` does not return. |
| Initialisation.RepairCycles | vrp_solver.py:99-107 | Concrete run with k = 2 and one customer: `[[0,1,0],[0,0]]` becomes `[[0,0],[0,1,0]]`, which is a fixed point of the pass and still has an empty tour. |
| Initialisation.InitialiserSolution | vrp_solver.py:76-108 | Fails exactly when `nbr - 1 < k`. Otherwise it returns the round-robin tours with the depot at both ends, which are k well-formed tours partitioning 1 .. nbr-1. |
| Moves.Pick | vrp_solver.py:120-121 | The drawn position lies in 1 .. len-2. |
| Moves.PickCovers | vrp_solver.py:120-121 | Every position `randint(1, len - 2)` can return is the pick of some draw. |
| Moves.ExchangeShape | vrp_solver.py:119-122 | Lengths and end points are kept. When both tours are longer than 2, exactly one interior position of each tour is exchanged; otherwise both tours are unchanged. |
| Moves.ExchangeKeepsCustomers | vrp_solver.py:119-122 | The two tours together keep their multiset of customers and of cities. |
| Moves.EchangerClients | vrp_solver.py:110-122 | Swapping cells in place on two arrays leaves them holding the exchanged tours. |
| Moves.SwapKeepsCustomers | vrp_solver.py:153-154 | Swapping between tours i and j of a solution keeps its customer multiset. |
| Moves.SwapKeepsTours | vrp_solver.py:153-154 | The swap keeps the number of tours, every tour's length and its end points. |
| Moves.SwapKeepsRange | vrp_solver.py:153-154 | The swap introduces no city outside the instance. |
| Moves.SwapKeepsWellFormed | vrp_solver.py:153-154 | The swap keeps a well-formed solution well-formed. |
| TabuMemory.Window | vrp_solver.py:174-176 | The most recent `size` entries of a history; the whole history when it is short enough. |
| TabuMemory.RecordBounded | vrp_solver.py:174-176 | Append-then-`pop(0)` keeps the list within `max(size, 0)` entries. The entry just recorded is the newest. |
| TabuMemory.RecordSlides | vrp_solver.py:174-176 | Recording into the window of a history gives the window of the longer history: the list holds the latest entries, oldest first, and the oldest leaves first. |
| TabuMemory.RecordEvictsOldest | vrp_solver.py:175-176 | Recording into a full list removes exactly its first entry. |
| TabuMemory.DigitsBounds | vrp_solver.py:139 | `Digits(m)` is the length of m in base ten: `10^(d-1) <= m < 10^d`. |
| TabuMemory.TabuSize | vrp_solver.py:139 | `taille_tabou` is at least 30 and at least `10 * len(str(n)) - 1 + k`. |
| TabuSearch.CandidateShape | vrp_solver.py:153-154 | The neighbour of a pair has the tour count, tour lengths and cities of the current solution. |
| TabuSearch.RowNeighboursIff | vrp_solver.py:151-156 | A row of the double loop lists exactly the admitted neighbours of its pairs. |
| TabuSearch.NeighboursIff | vrp_solver.py:151-156 | A solution is in `voisinage` exactly when it is the neighbour of some pair i < j whose tours all pass the validity check and which is not in the tabu list. |
| TabuSearch.NeighboursWellFormed | vrp_solver.py:151-156 | Every neighbour of a well-formed solution is well-formed. |
| TabuSearch.ValidityNeverRejects | vrp_solver.py:155 | On a well-formed solution the validity check admits every neighbour, so admission depends only on the tabu list. |
| TabuSearch.SelectIndex | vrp_solver.py:159-165 | The strict `<` selection picks the first index of minimum cost, and nothing when the list is empty. |
| TabuSearch.SelectIsFirstMinimum | vrp_solver.py:159-165 | Any index that is a minimum and strictly cheaper than every earlier entry is the one selected. |
| TabuSearch.Selected | vrp_solver.py:159-165 | The kept neighbour comes from the list, and there is one exactly when the list is non-empty. |
| TabuSearch.SelectedSnoc | vrp_solver.py:161-165 | Appending a neighbour to the list is one more turn of the selection loop. |
| TabuSearch.BestBeforeIsSelected | vrp_solver.py:151-165 | Selecting pair by pair, as the neighbours are generated, keeps what the selection loop keeps from the full list. |
| TabuSearch.BestAllIsSelected | vrp_solver.py:151-165 | Once the last pair has had its turn, what was kept pair by pair is what the selection loop keeps from the whole of `voisinage`. |
| TabuSearch.ChosenIsSelected | vrp_solver.py:151-165 | The neighbour the iteration moves to is the first cheapest entry of `voisinage`. |
| TabuSearch.StartInv | vrp_solver.py:143-146 | The initial state satisfies the invariant: the incumbent's recorded cost is its cost, and the tabu list is empty. |
| TabuSearch.Step | vrp_solver.py:148-176 | One iteration keeps the invariant, adds one history entry and never raises the incumbent's cost. |
| TabuSearch.StepMoves | vrp_solver.py:167-168 | The current solution becomes the first cheapest admitted neighbour. It stays put when no neighbour was admitted. |
| TabuSearch.StepIncumbent | vrp_solver.py:169-171 | The incumbent changes only on a strict improvement, becoming the new current solution. It improves exactly when some admitted neighbour is cheaper than it. |
| TabuSearch.StepWellFormed | vrp_solver.py:148-176 | An iteration never loses, duplicates or invents a customer: well-formed solutions stay well-formed. |
| TabuSearch.StepCosted | vrp_solver.py:167-171 | The incumbent's cost stays its recorded cost and stays no worse than the current solution's. |
| TabuSearch.StepHistory | stats.py:124 | The history gains the new incumbent cost and stays non-increasing. |
| TabuSearch.StepTracked | vrp_solver.py:167-176 | After an iteration the tabu list is the last `taille_tabou` current solutions. Every visited solution costs at least the incumbent, and the incumbent is either unchanged or the new current solution. |
| TabuSearch.BuildNeighbour | vrp_solver.py:153-154 | `deepcopy` then the in-place swap of tours i and j produces the pair's neighbour. |
| TabuSearch.GenerateNeighbours | vrp_solver.py:149-156 | The double loop builds exactly the specified `voisinage`, in order. |
| TabuSearch.SelectBest | vrp_solver.py:159-165 | The selection loop returns the first cheapest index and its cost. |
| TabuSearch.Iterate | vrp_solver.py:149-176 | One pass of the main loop's body computes one `Step`. |
| SearchLoop.Search | vrp_solver.py:143-178 | The loop ends in the state `Run` reaches after `iters` iterations, and the ghost `visited` lists, in order, the current solution after each iteration (`Visits`); its last entry is the final current solution. The history has `iters + 1` entries: it starts with the initial cost, never increases and ends with `meilleur_cout`, the cost of `meilleure_solution`. The tabu list is the last `taille_tabou` of the visited solutions and, when it may hold any entry, ends with the current solution. Solutions stay well-formed. The incumbent is the initial solution or a visited one, and no visited solution is cheaper. |
| SearchLoop.Run | vrp_solver.py:143-176 | The state after n iterations of `Step` from the initial state satisfies the invariant. |
| SearchLoop.RunStep | vrp_solver.py:148-176 | One more iteration of the loop is one more `Step`. |
| SearchLoop.Advance | vrp_solver.py:148-176 | One pass of the loop body moves the state from `it` iterations to `it + 1`. The new state is the next `Run` state and keeps the invariant and the tracked facts, with its current solution added to the visited ones. The history gains one entry. The incumbent stays the initial solution or a visited one. |
| SearchLoop.Visits | vrp_solver.py:167-171 | The current solutions of the first n iterations, one per iteration. |
| SearchLoop.TrackedNewest | vrp_solver.py:173-176 | Once an iteration has run and the tabu list may hold any entry, its newest entry is the current solution. |
| TabuMemory.WindowNewest | vrp_solver.py:173-176 | The newest entry of a non-empty history is the newest entry of its window, when the window holds any entry. |
| VrpSolver.RechercheTabouVrp | vrp_solver.py:126-178 | Fails exactly when there are fewer customers than vehicles. Otherwise it returns a well-formed solution whose returned cost is its cost and its hop sum, no worse than the initial solution. |
| Stats.RechercheTabouVrpParam | stats.py:36-126 | Same failure condition. `hist_costs` has `max(nb_iterations, 0) + 1` entries. It starts with the initial cost, never increases and ends with the returned cost, which is the cost of the returned well-formed solution. |
| Space.RechercheTabouVrp | space.py:65-112 | `couts_par_iteration` has `nb_iterations + 1` entries, starts with the initial cost, never increases and ends with the returned cost. The returned count `iteration + 1` is `nb_iterations`. |
| Vrp.RechercheTabouVrp | vrp.py:73-116 | The returned cost is the open-formula cost of the returned well-formed solution. On it, that equals the anchored cost and the hop sum, and it is no more than the initial solution's cost. |
| Test.RechercheTabouVrp | test.py:61-103 | The search on `len(tempo)` cities returns a well-formed solution with its open cost and hop sum, no more than the initial solution's cost. It fails exactly when there are fewer customers than vehicles. |
| Test.FiltersSplit | test.py:201-203 | The edges leaving `parent` and the other edges together are exactly the edge list, with multiplicity. |
| Test.FiltersBySource | test.py:201 | The selected edges all leave `parent`; the remaining edges all leave another city. |
| Test.RemoveNext | test.py:202-203 | `aretes.remove(e)` for the next selected edge removes exactly that edge, because every edge before it leaves another city. |
| Test.DropAll | test.py:202-203 | Once all selected edges are removed, exactly the other edges remain, in order. |
| Test.EdgeList.Suivant | test.py:200-204 | `suivant` returns the edges leaving `parent` in their order, and leaves the list holding the other edges in their order. |
| Makespan.MaxDurationIsMax | stats.py:169-175 | `max_duration` is at least 0 and at least every tour's hop sum, and it is 0 or some tour's hop sum. |
| Makespan.WithinWindow | stats.py:176 | The makespan fits the window exactly when the window is not negative and every tour fits in it. |
| Makespan.ComputeMaxDuration | vrp.py:140-146 | The nested loop computes the makespan. |
| Makespan.IsFeasible | stats.py:169-176 | `is_feasible` holds exactly when the window is not negative and every tour's hop sum fits in it. |
| Makespan.CheckWindow | vrp.py:140-153 | The window is reported respected exactly when every tour fits. The minutes left, or the minutes over (always positive), are the gap between the makespan and the window. |
| TimeWindows.Arrive | test2.py:42-44 | The clock after a hop is the later of the arrival time and the city's opening time. |
| TimeWindows.ClockCoversTravel | test2.py:36-44 | Waiting never puts the clock behind the travel: on arrival at each position it shows at least the hop sum so far. |
| TimeWindows.ClockMonotone | test2.py:42-44 | The clock never runs backwards along a route. After the depot it never shows a time before the city opened. |
| TimeWindows.ClockWithoutWaiting | test2.py:42-44 | When no city opens after the vehicle reaches it, the clock is the hop sum. |
| TimeWindows.InitialRoutes | test2.py:50-60 | The customer at shuffled position i goes to route `i % k`. Non-empty routes get the depot at both ends, and empty ones stay empty. |
| TimeWindows.DriveRoute | test2.py:36-46 | One route's pass: its hop sum, and the flag falls exactly when it was down already or some arrival is after the city's `late`. |
| TimeWindows.CalculateTotalCost | test2.py:31-47 | The distance is the hop sum of all routes, with empty routes adding nothing. The flag is true exactly when no arrival on any route is late, with each route's clock starting at 0. |
| Charge.HeuristicVrptw | charge.py:79-103 | Exactly k round-robin routes that partition the customers, each empty or depot-anchored. The cost is infinity exactly when some arrival is late anywhere, and otherwise the total hop sum. |
| Test2Moves.PickPair | test2.py:65 | `random.sample(range(k), 2)` picks two distinct routes. |
| Test2Moves.PickPairCovers | test2.py:65 | Every ordered pair of distinct routes is the pick of some draw. |
| Test2Moves.SwapClientsKeepsShape | test2.py:63-70 | `swap_clients` changes only the two drawn routes. It keeps the partition of the customers, and each route stays empty or depot-anchored. |
| Test2Progress.AcceptCheaper | test2.py:84-88 | Accepting a strictly cheaper solution keeps the accepted solutions strictly decreasing in cost. |
| Test2Progress.TabuNeverBlocks | test2.py:84-90 | A neighbour strictly cheaper than the best cost is never in the tabu list, since every tabu entry was accepted earlier at a cost no lower. |
| Test2Progress.AcceptKeepsProgress | test2.py:84-90 | Accepting an on-time neighbour of the search's shape that is strictly cheaper than the best keeps the search's state: the neighbour becomes the best, the accepted costs keep strictly decreasing, and the tabu list stays the last `tabu_size` accepted solutions. |
| Test2.Iteration | test2.py:81-90 | The neighbour is accepted exactly when it is on time everywhere, strictly cheaper than the best cost and not tabu. An accepted neighbour becomes the current and best solution and is recorded in the tabu list, whose oldest entry goes when it is too long; otherwise nothing changes. |
| Test2.SearchFrom | test2.py:76-92 | The loop keeps the shape of its start. The result is the start, or a solution on time everywhere and strictly shorter than the start. |
| Test2.TabuSearch | test2.py:73-92 | The result has the shape of the initial routes. It is either the initial routes, or a solution on time everywhere and strictly shorter than they are. |

## Left out

- Building the distance table from coordinates (`createcity`, `create_cities`, `distance`) is left out: it uses floats, `math.hypot`/`sqrt` and rounding. The model takes an integer table with a zero diagonal and no negative entry. test.py stores the same values as floats; the model stores them as integers. The float distances of test2.py and charge.py are also given as an integer table.
- Time windows (`early`, `late`) are integers, or infinity for a city that never closes; the Python floats are not modelled.
- Randomness (`random.shuffle`, `randint`, `sample`, `seed`) is not modelled as a generator. The shuffled list and the raw draws are parameters.
- The PuLP paths (`plne`, `plneprint`, `solve_vrptw_pulp`) call a foreign MILP library and are not part of this model.
- Plotting, printing, interactive input and the `HhMM` prompt are not part of this model, nor are timing, `sys.getsizeof` memory estimates and numpy statistics.
- `run_experiments` is modelled only for its makespan check. `best_soluce` in test.py is not part of this model: it restarts on module globals and random runs.
- File I/O is not part of this model: `read_instance`, instance_solver.py and instances.py.
- vrp_study.py is not part of this model: it is a notebook duplicating vrp_solver.py.
- Initialisation.InitialiserSolution: every `initialiser_solution` requires `k >= 1`. With customers, Python raises at vrp_solver.py:93: `idx % k` divides by zero for `k = 0`, and for a negative k it indexes the empty list of tours. Without customers any `k <= 0` returns no tours. Neither corner is modelled. Where Python loops forever (fewer customers than tours), the model returns `Failure(InstanceUnsolvable)` instead (see Findings).
- Charge.HeuristicVrptw: requires `k >= 1`. Python raises on `k = 0` with customers, and returns empty routes for `k <= 0` without customers; that corner is not modelled.
- Test2.TabuSearch: requires at least two routes when an iteration runs, because `random.sample` raises otherwise.
- Test2.SearchFrom: requires at least two routes when an iteration runs, for the same reason. The tabu list and the strictly decreasing accepted costs are stated by `Test2Progress.Progress`, its loop invariant, not by its postcondition, because the function returns only the best solution.
- Space.RechercheTabouVrp: requires `nb_iterations >= 1`, because `iteration + 1` is unbound otherwise. `if meilleur_voisin:` is modelled as `is not None`; the two agree because every neighbour is a non-empty list of `k >= 1` tours.
- VrpSolver.RechercheTabouVrp, Vrp.RechercheTabouVrp, Test.RechercheTabouVrp: the shared search also keeps a cost history. These copies do not return it.
- The tabu-list bound after every iteration is stated on `SearchLoop.Search` and `TabuSearch.Inv`, not on the copies' results, because no copy returns its tabu list.
- Python list aliasing is not modelled: `meilleure_solution = solution_actuelle` shares a list that is never mutated afterwards, and `deepcopy` and value semantics coincide here.

## Findings

| source | as written | input that shows it | evidently intended | confidence | as-written member | corrected member |
|---|---|---|---|---|---|---|
| vrp_solver.py:99-107 | With fewer customers than vehicles, the repair loop only moves the lone customers from tour to tour. Some tour always stays `[0, 0]`, so `while any(len(t) == 2 ...)` never ends. stats.py:64-71, space.py:45-52, vrp.py:61-69 and test.py:50-57 repeat the loop. | `k = 2`, `nbr = 2` (one customer): `[[0,1,0],[0,0]]` becomes `[[0,0],[0,1,0]]` and stays there. | Report the instance as unsolvable when `nbr - 1 < k`, and otherwise return the round-robin tours, which then need no repair. | not executed | Initialisation.RepairCycles | Initialisation.InitialiserSolution |
