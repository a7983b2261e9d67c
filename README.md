# Chiller-plant sequencing model

This project is a Dafny model of the sequencing logic in the Smart Chiller Plant Analyzer. The analyzer is a one-page engineering calculator for HVAC chiller plants. For every hour of a simulated cooling-load profile, it spreads the demand over the chiller fleet greedily, in list order:

- each chiller takes its full rated capacity while that fits in the remaining load;
- the first chiller that does not fit takes the whole remainder;
- sequencing stops as soon as nothing remains.

Demand above the total fleet capacity is silently dropped. The analyzer also prints one advice line per chiller: a warning when its COP is below 3.5, and otherwise a note that it operates efficiently.

Modules:

- `Plant` (plant.dfy): the `Chiller` record (name, rated capacity, COP) and the fleet's total capacity.
- `Sequencing` (sequencing.dfy): the allocation of one demand value and of a whole profile. It has three parts:
  - `Allocate`, the loop as the program runs it;
  - `Greedy`, a reference definition of the same allocation by recursion, which `Allocate` is proved to compute;
  - the lemmas that state the allocation's properties.
- `Advisor` (advisor.dfy): the per-chiller COP recommendation.

Loads and capacities are modelled as exact `real` numbers. The program uses floating point, but the sequencing logic only compares and subtracts these values. The COP is carried through as an opaque number: it is the value the program has already rounded to two decimals. None of the allocator members requires anything of its inputs. The properties that need every capacity to be strictly positive assume it through `PositiveCapacities`, because the input form does not enforce it.

## Model

| member | source | states |
|---|---|---|
| Plant.TotalCapacity | chiller_analyzer_pro.py:103 | fleet capacity summed left to right; with positive capacities it is non-negative, and positive for a non-empty fleet |
| Plant.TotalCapacityCons | chiller_analyzer_pro.py:103 | the total is the first chiller's capacity plus the total of the rest |
| Plant.CapacityWithinTotal | chiller_analyzer_pro.py:103 | with positive capacities no single chiller exceeds the fleet total |
| Sequencing.Allocate | chiller_analyzer_pro.py:107-119 | the loop computes exactly the greedy allocation; a load of zero or less gives an empty list; a non-negative load is never over-assigned; its loop invariants state that the remainder equals the load minus what was assigned so far, never goes negative for a non-negative load, and strictly decreases from pass to pass when capacities are positive |
| Sequencing.SequenceProfile | chiller_analyzer_pro.py:106-119 | one record per profile hour, in order, holding that hour's demand and its greedy allocation |
| Sequencing.GreedyFollowsFleetOrder | chiller_analyzer_pro.py:109-118 | the allocation is a prefix of the fleet: entry i is chiller i with its name and COP unchanged, and it is no longer than the fleet |
| Sequencing.GreedyWithinCapacity | chiller_analyzer_pro.py:110-119 | with positive capacities every assigned load is positive and at most that chiller's capacity |
| Sequencing.GreedyFullExceptLast | chiller_analyzer_pro.py:114-119 | every entry but the last is loaded at exactly full capacity, so at most one chiller is partially loaded |
| Sequencing.GreedyConservesLoad | chiller_analyzer_pro.py:103-119 | for a non-negative load the assigned loads sum to the minimum of the load and the total capacity |
| Sequencing.GreedyMeetsCoveredDemand | chiller_analyzer_pro.py:103-119 | when the total capacity covers a non-negative load, the assigned loads sum to the load exactly |
| Sequencing.GreedyDropsShortfall | chiller_analyzer_pro.py:103-119 | when the load exceeds the total capacity, every chiller runs at full capacity, the assigned total is the fleet capacity, and the positive shortfall (load minus capacity) is dropped |
| Sequencing.GreedyIdleOnlyWhenMet | chiller_analyzer_pro.py:110-111 | if some chiller is left out of the allocation, the non-negative load has been met in full |
| Advisor.Recommend | chiller_analyzer_pro.py:70-74 | one advice per chiller in fleet order, naming that chiller, and it is a warning exactly when its COP is below 3.5 |
| Advisor.Message | chiller_analyzer_pro.py:72-74 | the advisory text opens with the chiller's name |
| Advisor.WarningsAreLowCop | chiller_analyzer_pro.py:70-74 | the chillers warned about are exactly those whose COP is below 3.5, each once and in fleet order |
| Advisor.ThresholdBoundary | chiller_analyzer_pro.py:71 | COP 3.4 draws a warning and COP 3.5 does not |

## Left out

- Unit systems and the COP, EER and kW/ton formulas (chiller_analyzer_pro.py:27-42) are not modelled. They are one-line floating-point divisions with rounding. The model takes each chiller's rounded COP as given. It also omits the power, EER and kW/ton fields of a chiller record, because the sequencing logic never reads them.
- The pump-efficiency and cooling-tower formulas (chiller_analyzer_pro.py:51-54, 63-65) are not modelled. They are closed-form floating-point numerics.
- The pump and tower threshold warnings (chiller_analyzer_pro.py:75-78) are not modelled. They depend only on those floating-point metrics.
- The load-profile generator (chiller_analyzer_pro.py:86-91) is not modelled. It uses an exponential, rounding and clock-based hour labels. `SequenceProfile` takes an arbitrary sequence of load values instead, and labels each record with its hour index rather than an "HH:MM" string.
- Widgets, headers and the text written for each allocation line (chiller_analyzer_pro.py:12-26, 104, 120-122) are left out as presentation. So are the charts (chiller_analyzer_pro.py:93-99, 124-135).
- PDF export (chiller_analyzer_pro.py:137-150) is left out. It is file I/O plus a foreign library call.
- Floating-point effects are not modelled: rounding in the subtraction of the remainder, and comparisons of values that are only nearly equal. All arithmetic is exact.
