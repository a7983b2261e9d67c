/** Greedy chiller sequencing: an hourly cooling demand is spread over the
    fleet in list order, each chiller loaded up to its rated capacity. */
module Sequencing {
  import opened Plant

  /** One line of an hour's allocation: which chiller runs, the load it is
      given, and its COP carried over from the fleet list. */
  datatype Assignment = Assignment(name: string, load: real, cop: real)

  /** The allocation of one hour of the simulated load profile. */
  datatype HourRecord = HourRecord(hour: nat, demand: real, active: seq<Assignment>)

  function Min(a: real, b: real): real
  {
    if a <= b then a else b
  }

  /** The load assigned in total, summed in the order the entries were added. */
  function SumAssigned(active: seq<Assignment>): real
  {
    if active == [] then 0.0
    else SumAssigned(active[..|active| - 1]) + active[|active| - 1].load
  }

  /** The assigned total splits off the first entry. */
  lemma {:induction false} SumAssignedCons(a: Assignment, rest: seq<Assignment>)
    ensures SumAssigned([a] + rest) == a.load + SumAssigned(rest)
  {
    var all := [a] + rest;
    if rest == [] {
      assert all[..|all| - 1] == [];
    } else {
      assert all[..|all| - 1] == [a] + rest[..|rest| - 1];
      assert all[|all| - 1] == rest[|rest| - 1];
      SumAssignedCons(a, rest[..|rest| - 1]);
    }
  }

  /** Reference definition of the allocation, one chiller at a time:
      nothing more is assigned once the remainder is at most zero; a chiller
      that fits inside the remainder runs at full capacity; otherwise it
      takes the whole remainder, which drops to zero. */
  function Greedy(remaining: real, chillers: seq<Chiller>): seq<Assignment>
    decreases |chillers|
  {
    if chillers == [] || remaining <= 0.0 then []
    else
      var c := chillers[0];
      if remaining >= c.capacity then
        [Assignment(c.name, c.capacity, c.cop)] + Greedy(remaining - c.capacity, chillers[1..])
      else
        [Assignment(c.name, remaining, c.cop)] + Greedy(0.0, chillers[1..])
  }

  /** The allocation follows the fleet list: entry i is chiller i, with its
      name and COP unchanged, so it is never longer than the fleet. */
  lemma {:induction false} GreedyFollowsFleetOrder(load: real, chillers: seq<Chiller>)
    ensures |Greedy(load, chillers)| <= |chillers|
    ensures forall i :: 0 <= i < |Greedy(load, chillers)| ==>
              Greedy(load, chillers)[i].name == chillers[i].name &&
              Greedy(load, chillers)[i].cop == chillers[i].cop
    decreases |chillers|
  {
    if chillers != [] && load > 0.0 {
      var c := chillers[0];
      var next := if load >= c.capacity then load - c.capacity else 0.0;
      GreedyFollowsFleetOrder(next, chillers[1..]);
    }
  }

  /** With positive capacities, every chiller that runs gets a positive load
      no larger than its rated capacity. */
  lemma {:induction false} GreedyWithinCapacity(load: real, chillers: seq<Chiller>)
    requires PositiveCapacities(chillers)
    ensures |Greedy(load, chillers)| <= |chillers|
    ensures forall i :: 0 <= i < |Greedy(load, chillers)| ==>
              0.0 < Greedy(load, chillers)[i].load <= chillers[i].capacity
    decreases |chillers|
  {
    if chillers != [] && load > 0.0 {
      var c := chillers[0];
      var next := if load >= c.capacity then load - c.capacity else 0.0;
      assert PositiveCapacities(chillers[1..]) by {
        forall j | 0 <= j < |chillers[1..]| ensures chillers[1..][j].capacity > 0.0 {
          assert chillers[1..][j] == chillers[j + 1];
        }
      }
      GreedyWithinCapacity(next, chillers[1..]);
    }
  }

  /** Every entry but the last runs its chiller at full capacity, so at most
      one chiller (the last one listed) is partially loaded. */
  lemma {:induction false} GreedyFullExceptLast(load: real, chillers: seq<Chiller>)
    ensures |Greedy(load, chillers)| <= |chillers|
    ensures forall i :: 0 <= i < |Greedy(load, chillers)| - 1 ==>
              Greedy(load, chillers)[i].load == chillers[i].capacity
    decreases |chillers|
  {
    if chillers != [] && load > 0.0 {
      var c := chillers[0];
      if load >= c.capacity {
        GreedyFullExceptLast(load - c.capacity, chillers[1..]);
      } else {
        assert Greedy(0.0, chillers[1..]) == [];
      }
    }
  }

  /** Conservation: for a non-negative demand the assigned loads add up to
      the demand or to the fleet capacity, whichever is smaller. */
  lemma {:induction false} GreedyConservesLoad(load: real, chillers: seq<Chiller>)
    requires load >= 0.0
    requires PositiveCapacities(chillers)
    ensures SumAssigned(Greedy(load, chillers)) == Min(load, TotalCapacity(chillers))
    decreases |chillers|
  {
    if chillers != [] && load > 0.0 {
      var c, rest := chillers[0], chillers[1..];
      assert chillers == [c] + rest;
      TotalCapacityCons(c, rest);
      assert PositiveCapacities(rest) by {
        forall j | 0 <= j < |rest| ensures rest[j].capacity > 0.0 {
          assert rest[j] == chillers[j + 1];
        }
      }
      if load >= c.capacity {
        GreedyConservesLoad(load - c.capacity, rest);
        SumAssignedCons(Assignment(c.name, c.capacity, c.cop), Greedy(load - c.capacity, rest));
      } else {
        assert Greedy(0.0, rest) == [];
        SumAssignedCons(Assignment(c.name, load, c.cop), []);
      }
    }
  }

  /** When the fleet can carry the demand, the demand is met exactly. */
  lemma GreedyMeetsCoveredDemand(load: real, chillers: seq<Chiller>)
    requires load >= 0.0
    requires PositiveCapacities(chillers)
    requires load <= TotalCapacity(chillers)
    ensures SumAssigned(Greedy(load, chillers)) == load
  {
    GreedyConservesLoad(load, chillers);
  }

  /** When the demand exceeds the fleet capacity, every chiller runs at full
      capacity and the shortfall, demand minus total capacity, is dropped:
      it appears nowhere in the allocation. */
  lemma {:induction false} GreedyDropsShortfall(load: real, chillers: seq<Chiller>)
    requires PositiveCapacities(chillers)
    requires TotalCapacity(chillers) < load
    ensures |Greedy(load, chillers)| == |chillers|
    ensures forall i :: 0 <= i < |chillers| ==> Greedy(load, chillers)[i].load == chillers[i].capacity
    ensures SumAssigned(Greedy(load, chillers)) == TotalCapacity(chillers)
    ensures load - SumAssigned(Greedy(load, chillers)) == load - TotalCapacity(chillers) > 0.0
    decreases |chillers|
  {
    if chillers != [] {
      var c, rest := chillers[0], chillers[1..];
      assert chillers == [c] + rest;
      TotalCapacityCons(c, rest);
      assert PositiveCapacities(rest) by {
        forall j | 0 <= j < |rest| ensures rest[j].capacity > 0.0 {
          assert rest[j] == chillers[j + 1];
        }
      }
      assert load >= c.capacity;
      GreedyDropsShortfall(load - c.capacity, rest);
      SumAssignedCons(Assignment(c.name, c.capacity, c.cop), Greedy(load - c.capacity, rest));
    }
  }

  /** A chiller is left idle only once the demand has been met in full. */
  lemma {:induction false} GreedyIdleOnlyWhenMet(load: real, chillers: seq<Chiller>)
    requires load >= 0.0
    requires PositiveCapacities(chillers)
    requires |Greedy(load, chillers)| < |chillers|
    ensures SumAssigned(Greedy(load, chillers)) == load
    decreases |chillers|
  {
    var c, rest := chillers[0], chillers[1..];
    if load > 0.0 {
      assert PositiveCapacities(rest) by {
        forall j | 0 <= j < |rest| ensures rest[j].capacity > 0.0 {
          assert rest[j] == chillers[j + 1];
        }
      }
      if load >= c.capacity {
        GreedyIdleOnlyWhenMet(load - c.capacity, rest);
        SumAssignedCons(Assignment(c.name, c.capacity, c.cop), Greedy(load - c.capacity, rest));
      } else {
        assert Greedy(0.0, rest) == [];
        SumAssignedCons(Assignment(c.name, load, c.cop), []);
      }
    }
  }

  /** The sequencing loop for one demand value. */
  method Allocate(load: real, chillers: seq<Chiller>) returns (active: seq<Assignment>)
    ensures active == Greedy(load, chillers)
    ensures load <= 0.0 ==> active == []
    ensures load >= 0.0 ==> SumAssigned(active) <= load
  {
    active := [];
    var remaining := load;
    // the remainder at the start of every pass, for the invariants below
    ghost var seen: seq<real> := [load];
    var i := 0;
    while i < |chillers|
      invariant 0 <= i <= |chillers|
      invariant active + Greedy(remaining, chillers[i..]) == Greedy(load, chillers)
      invariant remaining == load - SumAssigned(active)
      invariant load >= 0.0 ==> remaining >= 0.0
      invariant load <= 0.0 ==> active == []
      invariant |seen| > 0 && seen[|seen| - 1] == remaining
      invariant PositiveCapacities(chillers) ==>
                  forall k :: 0 < k < |seen| ==> seen[k] < seen[k - 1]
    {
      if remaining <= 0.0 {
        break;
      }
      var c := chillers[i];
      assert chillers[i..][0] == c && chillers[i..][1..] == chillers[i + 1..];
      var entry: Assignment;
      if remaining >= c.capacity {
        entry := Assignment(c.name, c.capacity, c.cop);
        remaining := remaining - c.capacity;
      } else {
        entry := Assignment(c.name, remaining, c.cop);
        remaining := 0.0;
      }
      assert (active + [entry])[..|active|] == active;
      active := active + [entry];
      seen := seen + [remaining];
      i := i + 1;
    }
  }

  /** The outer loop: one allocation per hour of the load profile. */
  method SequenceProfile(profile: seq<real>, chillers: seq<Chiller>) returns (records: seq<HourRecord>)
    ensures |records| == |profile|
    ensures forall h :: 0 <= h < |profile| ==>
              records[h] == HourRecord(h, profile[h], Greedy(profile[h], chillers))
  {
    records := [];
    for h := 0 to |profile|
      invariant |records| == h
      invariant forall k :: 0 <= k < h ==>
                  records[k] == HourRecord(k, profile[k], Greedy(profile[k], chillers))
    {
      var active := Allocate(profile[h], chillers);
      records := records + [HourRecord(h, profile[h], active)];
    }
  }
}
