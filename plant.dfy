/** The chiller fleet as the sequencing logic sees it.

    Cooling loads and capacities are in kW and are modelled as exact `real`
    numbers; the program computes with binary floating point, but the
    sequencing logic only compares and subtracts them. */
module Plant {

  /** One chiller of the fleet. `cop` is the coefficient of performance as
      the program stores it (already rounded to two decimals); the sequencing
      logic only carries it along. List order is sequencing priority. */
  datatype Chiller = Chiller(name: string, capacity: real, cop: real)

  /** Every chiller has a strictly positive rated capacity. The input form
      does not enforce this; the properties that need it assume it. */
  predicate PositiveCapacities(chillers: seq<Chiller>)
  {
    forall i :: 0 <= i < |chillers| ==> chillers[i].capacity > 0.0
  }

  /** The total rated capacity of the fleet, summed left to right. */
  function TotalCapacity(chillers: seq<Chiller>): (total: real)
    ensures PositiveCapacities(chillers) ==> total >= 0.0
    ensures PositiveCapacities(chillers) && chillers != [] ==> total > 0.0
  {
    if chillers == [] then 0.0
    else TotalCapacity(chillers[..|chillers| - 1]) + chillers[|chillers| - 1].capacity
  }

  /** The total splits off the first chiller of the fleet. */
  lemma {:induction false} TotalCapacityCons(c: Chiller, rest: seq<Chiller>)
    ensures TotalCapacity([c] + rest) == c.capacity + TotalCapacity(rest)
  {
    var fleet := [c] + rest;
    if rest == [] {
      assert fleet[..|fleet| - 1] == [];
    } else {
      assert fleet[..|fleet| - 1] == [c] + rest[..|rest| - 1];
      assert fleet[|fleet| - 1] == rest[|rest| - 1];
      TotalCapacityCons(c, rest[..|rest| - 1]);
    }
  }

  /** Every single chiller's capacity is at most the fleet total. */
  lemma {:induction false} CapacityWithinTotal(chillers: seq<Chiller>, i: nat)
    requires PositiveCapacities(chillers)
    requires i < |chillers|
    ensures chillers[i].capacity <= TotalCapacity(chillers)
  {
    var n := |chillers|;
    var prefix := chillers[..n - 1];
    assert PositiveCapacities(prefix) by {
      forall j | 0 <= j < |prefix| ensures prefix[j].capacity > 0.0 {
        assert prefix[j] == chillers[j];
      }
    }
    if i < n - 1 {
      assert prefix[i] == chillers[i];
      CapacityWithinTotal(prefix, i);
    }
  }
}
