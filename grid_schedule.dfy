/** The power distribution screen: the demand typed by the operator, less the
    renewable contribution, is shared among a fixed registry of grids in
    proportion to their capacities, or, when it exceeds their combined
    capacity, every grid is run at capacity and a shortfall is reported with
    a fixed list of suggestions. Amounts are exact reals. */
module GridScheduling {
  import opened Js

  /** A power source and its rated capacity, in MW. */
  datatype Grid = Grid(name: string, capacity: int)

  /** The registry, in display order. */
  const Grids: seq<Grid> := [
    Grid("Northern Grid", 12000),
    Grid("Delhi Transco Limited (DTL)", 3000),
    Grid("Bawana Power Plant", 1500),
    Grid("Rajghat Power House", 135),
    Grid("Okhla Power Plant", 150)
  ]

  /** Renewable power taken as available before any grid is used, in MW. */
  const RenewableEnergyAvailable: int := 500

  predicate NonNegativeCapacities(grids: seq<Grid>)
  {
    forall i :: 0 <= i < |grids| ==> grids[i].capacity >= 0
  }

  predicate PositiveCapacities(grids: seq<Grid>)
  {
    forall i :: 0 <= i < |grids| ==> grids[i].capacity > 0
  }

  /** `grids.reduce((total, grid) => total + grid.capacity, 0)`: a left fold. */
  function TotalGridCapacity(grids: seq<Grid>): int
  {
    if grids == [] then 0
    else TotalGridCapacity(grids[..|grids| - 1]) + grids[|grids| - 1].capacity
  }

  /** With no negative capacity, each grid's capacity is at most the total,
      and with positive capacities a non-empty registry has a positive
      total. */
  lemma {:induction false} EachCapacityWithinTotal(grids: seq<Grid>)
    requires NonNegativeCapacities(grids)
    ensures forall i :: 0 <= i < |grids| ==> grids[i].capacity <= TotalGridCapacity(grids)
    ensures PositiveCapacities(grids) && grids != [] ==> TotalGridCapacity(grids) > 0
  {
    if grids != [] {
      var n := |grids| - 1;
      assert NonNegativeCapacities(grids[..n]);
      EachCapacityWithinTotal(grids[..n]);
      assert TotalGridCapacity(grids[..n]) >= 0 by {
        if n > 0 {
          assert grids[..n][0].capacity <= TotalGridCapacity(grids[..n]);
        }
      }
      forall i | 0 <= i < n
        ensures grids[i].capacity <= TotalGridCapacity(grids)
      {
        assert grids[..n][i] == grids[i];
      }
    }
  }

  /** The registry's capacities add up to 16785 MW. */
  lemma RegistryTotal()
    ensures TotalGridCapacity(Grids) == 16785
    ensures PositiveCapacities(Grids)
  {
    assert |Grids| == 5;
    assert Grids[..5] == Grids;
    assert Grids[..5][..4] == Grids[..4];
    assert Grids[..4][..3] == Grids[..3];
    assert Grids[..3][..2] == Grids[..2];
    assert Grids[..2][..1] == Grids[..1];
    assert Grids[..1][..0] == [];
    assert TotalGridCapacity(Grids[..1]) == 12000;
    assert TotalGridCapacity(Grids[..2]) == 15000;
    assert TotalGridCapacity(Grids[..3]) == 16500;
    assert TotalGridCapacity(Grids[..4]) == 16635;
  }

  /** `Math.min`. */
  function Min(a: real, b: real): (m: real)
    ensures m <= a && m <= b
    ensures m == a || m == b
  {
    if a <= b then a else b
  }

  /** One grid's row of the allocation table. */
  datatype Allocation = Allocation(grid: string, allocation: real)

  /** The grid's proportional share of the remaining demand, capped by
      `Math.min` at its capacity. Under exact arithmetic the cap never binds
      while the demand fits: the share is then exactly proportional. */
  function GridShare(capacity: int, total: int, remaining: int): (share: real)
    requires total != 0
    ensures share <= capacity as real
  {
    Min((capacity as real / total as real) * remaining as real, capacity as real)
  }

  /** While the remaining demand does not exceed the total, the cap does not
      bind: a grid's share is exactly its capacity times remaining / total. */
  lemma ShareIsProportional(capacity: int, total: int, remaining: int)
    requires 0 <= capacity && 0 < total && remaining <= total
    ensures GridShare(capacity, total, remaining)
            == capacity as real * (remaining as real / total as real)
  {
    var c := capacity as real;
    var t := total as real;
    var r := remaining as real;
    assert (c / t) * r == c * (r / t);
    assert c * (r / t) <= c by {
      assert r / t <= 1.0;
    }
  }

  /** The table built when the demand fits: one capped share per grid. */
  function ProportionalAllocation(grids: seq<Grid>, total: int, remaining: int): seq<Allocation>
    requires total != 0
  {
    seq(|grids|, i requires 0 <= i < |grids| =>
      Allocation(grids[i].name, GridShare(grids[i].capacity, total, remaining)))
  }

  /** The table built in a shortfall: every grid at its capacity. */
  function FullCapacityAllocation(grids: seq<Grid>): seq<Allocation>
  {
    seq(|grids|, i requires 0 <= i < |grids| =>
      Allocation(grids[i].name, grids[i].capacity as real))
  }

  /** The power a table hands out. */
  function SumAllocated(table: seq<Allocation>): real
  {
    if table == [] then 0.0
    else SumAllocated(table[..|table| - 1]) + table[|table| - 1].allocation
  }

  /** Appending a row adds its allocation to the sum. */
  lemma SumAllocatedAppend(table: seq<Allocation>, row: Allocation)
    ensures SumAllocated(table + [row]) == SumAllocated(table) + row.allocation
  {
    assert (table + [row])[..|table|] == table;
  }

  /** The shortfall warning, carrying the excess demand it reports. */
  datatype Warning = DemandExceeds(excessDemand: int)

  /** The suggestions shown in a shortfall, in display order. */
  const ShortageSuggestions: seq<string> := [
    "Purchase electricity from neighboring states or regions.",
    "Increase the use of renewable energy sources such as wind or solar.",
    "Implement demand-side management techniques to reduce peak demand.",
    "Use energy storage systems to mitigate demand spikes.",
    "Encourage users to shift usage to off-peak times."
  ]

  /** What one press of "Distribute Power" shows. */
  datatype Distribution = Distribution(allocation: seq<Allocation>, warning: Option<Warning>,
                                       suggestions: seq<string>)

  /** The distribution for a demand, as `distributePower` computes it. */
  function Distribute(powerDemand: int): Distribution
  {
    var remainingPower := powerDemand - RenewableEnergyAvailable;
    var totalGridCapacity := TotalGridCapacity(Grids);
    RegistryTotal();
    if remainingPower > totalGridCapacity then
      Distribution(FullCapacityAllocation(Grids),
                   Some(DemandExceeds(remainingPower - totalGridCapacity)),
                   ShortageSuggestions)
    else
      Distribution(ProportionalAllocation(Grids, totalGridCapacity, remainingPower), None, [])
  }

  /** `parseInt(value) || 0`: the demand the input field yields; NaN (and
      -0) become 0. */
  function DemandFromInput(value: string): int
  {
    match ParseInt(value)
    case NaN => 0
    case Num(n) => n
  }

  /** A number typed into the field is the demand, with anything after its
      digits (a fraction, an exponent) dropped; text with no number is 0. */
  lemma DemandFromInputReadsInteger(n: int, tail: string, other: string)
    requires tail == [] || !IsDigit(tail[0])
    requires ParseInt(other) == NaN
    ensures DemandFromInput(IntToDecimal(n) + tail) == n
    ensures DemandFromInput(other) == 0
  {
    ParseIntOfDecimal(n, tail);
  }

  /** Both branches list every grid once, by name, in registry order. */
  lemma DistributionFollowsRegistry(powerDemand: int)
    ensures |Distribute(powerDemand).allocation| == |Grids|
    ensures forall i :: 0 <= i < |Grids| ==> Distribute(powerDemand).allocation[i].grid == Grids[i].name
  {
    RegistryTotal();
  }

  /** The shortfall branch is taken exactly when the demand left after
      renewables strictly exceeds 16785 MW; the warning and the suggestions
      appear together, and the suggestions are the fixed five. */
  lemma ShortfallIffDemandExceedsCapacity(powerDemand: int)
    ensures Distribute(powerDemand).warning.Some?
        <==> powerDemand - RenewableEnergyAvailable > 16785
    ensures Distribute(powerDemand).suggestions != [] <==> Distribute(powerDemand).warning.Some?
    ensures Distribute(powerDemand).warning.Some? ==>
              Distribute(powerDemand).suggestions == ShortageSuggestions && |ShortageSuggestions| == 5
  {
    RegistryTotal();
  }

  /** In a shortfall every grid is allocated exactly its capacity, and the
      warning reports the positive excess of the remaining demand over the
      total capacity. */
  lemma ShortfallAllocatesFullCapacity(powerDemand: int)
    requires powerDemand - RenewableEnergyAvailable > 16785
    ensures forall i :: 0 <= i < |Grids| ==>
              Distribute(powerDemand).allocation[i].allocation == Grids[i].capacity as real
    ensures Distribute(powerDemand).warning
              == Some(DemandExceeds(powerDemand - RenewableEnergyAvailable - 16785))
    ensures Distribute(powerDemand).warning.value.excessDemand > 0
  {
    RegistryTotal();
  }

  /** `table` gives every grid of `grids`, in order, the fraction `u` of its
      capacity. */
  predicate UniformShares(grids: seq<Grid>, table: seq<Allocation>, u: real)
  {
    |table| == |grids|
    && forall i :: 0 <= i < |grids| ==> table[i].allocation == grids[i].capacity as real * u
  }

  /** A table that gives every grid the same fraction `u` of its capacity
      hands out the total capacity times `u`. */
  lemma {:induction false} SumOfUniformShares(grids: seq<Grid>, table: seq<Allocation>, u: real)
    requires UniformShares(grids, table, u)
    ensures SumAllocated(table) == TotalGridCapacity(grids) as real * u
  {
    if grids != [] {
      SumOfUniformShares(grids[..|grids| - 1], table[..|grids| - 1], u);
      var before := TotalGridCapacity(grids[..|grids| - 1]) as real;
      var last := grids[|grids| - 1].capacity as real;
      ScaledSum(before, last, u);
      ScaledEqual(before + last, TotalGridCapacity(grids) as real, u);
    } else {
      ScaledEqual(TotalGridCapacity(grids) as real, 0.0, u);
    }
  }

  /** Scaling distributes over a sum. */
  lemma ScaledSum(a: real, b: real, u: real)
    ensures a * u + b * u == (a + b) * u
  {
  }

  /** Equal amounts scale to equal amounts. */
  lemma ScaledEqual(a: real, b: real, u: real)
    requires a == b
    ensures a * u == b * u
  {
  }

  /** The fraction of its capacity every grid runs at when the demand fits:
      the demand left after renewables over the registry's 16785 MW. */
  function Utilisation(powerDemand: int): real
  {
    (powerDemand - RenewableEnergyAvailable) as real / 16785.0
  }

  /** A grid's capped share, when the demand fits, is its capacity times the
      common utilisation. */
  lemma ShareAtUtilisation(capacity: int, powerDemand: int)
    requires 0 <= capacity
    requires powerDemand - RenewableEnergyAvailable <= 16785
    ensures GridShare(capacity, 16785, powerDemand - RenewableEnergyAvailable)
            == capacity as real * Utilisation(powerDemand)
  {
  }

  /** When the demand fits there is no warning, and each grid gets exactly
      its capacity times the common utilisation. */
  lemma SharesAtUtilisation(powerDemand: int)
    requires powerDemand - RenewableEnergyAvailable <= 16785
    ensures Distribute(powerDemand).warning == None
    ensures |Distribute(powerDemand).allocation| == |Grids|
    ensures forall i :: 0 <= i < |Grids| ==>
              Distribute(powerDemand).allocation[i].allocation
              == Grids[i].capacity as real * Utilisation(powerDemand)
  {
    RegistryTotal();
    var remaining := powerDemand - RenewableEnergyAvailable;
    var table := Distribute(powerDemand).allocation;
    assert table == ProportionalAllocation(Grids, 16785, remaining);
    forall i | 0 <= i < |Grids|
      ensures table[i].allocation == Grids[i].capacity as real * Utilisation(powerDemand)
    {
      assert table[i].allocation == GridShare(Grids[i].capacity, 16785, remaining);
      ShareAtUtilisation(Grids[i].capacity, powerDemand);
    }
  }

  /** A positive capacity scaled by a utilisation of at most one stays
      within the capacity, and dividing by the capacity recovers the
      utilisation. */
  lemma ScaledCapacity(c: real, u: real)
    requires 0.0 < c && u <= 1.0
    ensures c * u <= c
    ensures (c * u) / c == u
  {
  }

  /** When the demand fits, each grid gets exactly its proportional share,
      which is within its capacity, and all grids run at the same
      utilisation remaining / 16785. */
  lemma ProportionalSharesWhenDemandFits(powerDemand: int)
    requires powerDemand - RenewableEnergyAvailable <= 16785
    ensures Distribute(powerDemand).warning == None
    ensures forall i :: 0 <= i < |Grids| ==>
              Distribute(powerDemand).allocation[i].allocation
              == Grids[i].capacity as real * Utilisation(powerDemand)
    ensures forall i :: 0 <= i < |Grids| ==>
              Distribute(powerDemand).allocation[i].allocation <= Grids[i].capacity as real
    ensures forall i :: 0 <= i < |Grids| ==>
              Distribute(powerDemand).allocation[i].allocation / Grids[i].capacity as real
              == Utilisation(powerDemand)
  {
    SharesAtUtilisation(powerDemand);
    var u := Utilisation(powerDemand);
    var table := Distribute(powerDemand).allocation;
    forall i | 0 <= i < |Grids|
      ensures table[i].allocation <= Grids[i].capacity as real
      ensures table[i].allocation / Grids[i].capacity as real == u
    {
      RegistryTotal();
      ScaledCapacity(Grids[i].capacity as real, u);
    }
  }

  /** A total times the fraction of it that `remaining` is gives back
      `remaining`. */
  lemma ScaledFraction(total: real, remaining: real)
    requires total != 0.0
    ensures total * (remaining / total) == remaining
  {
  }

  /** Below its total, a registry's proportional table gives every grid the
      same fraction `remaining / total` of its capacity. */
  lemma ProportionalTableIsUniform(grids: seq<Grid>, total: int, remaining: int)
    requires NonNegativeCapacities(grids)
    requires 0 < total && remaining <= total
    ensures UniformShares(grids, ProportionalAllocation(grids, total, remaining),
                          remaining as real / total as real)
  {
    forall i | 0 <= i < |grids|
      ensures ProportionalAllocation(grids, total, remaining)[i].allocation
              == grids[i].capacity as real * (remaining as real / total as real)
    {
      ShareIsProportional(grids[i].capacity, total, remaining);
    }
  }

  /** Shared out in proportion to the capacities of a registry whose total
      it does not exceed, the remaining demand is handed out exactly. */
  lemma ProportionalTableSum(grids: seq<Grid>, total: int, remaining: int)
    requires NonNegativeCapacities(grids) && total == TotalGridCapacity(grids)
    requires 0 < total && remaining <= total
    ensures SumAllocated(ProportionalAllocation(grids, total, remaining)) == remaining as real
  {
    assert SumAllocated(ProportionalAllocation(grids, total, remaining))
           == total as real * (remaining as real / total as real) by {
      ProportionalTableIsUniform(grids, total, remaining);
      SumOfUniformShares(grids, ProportionalAllocation(grids, total, remaining),
                         remaining as real / total as real);
    }
    ScaledFraction(total as real, remaining as real);
  }

  /** When the demand fits, the shares add up to exactly the demand left
      after renewables: nothing is lost to the cap. */
  lemma ProportionalSharesAddUp(powerDemand: int)
    requires powerDemand - RenewableEnergyAvailable <= 16785
    ensures SumAllocated(Distribute(powerDemand).allocation)
            == (powerDemand - RenewableEnergyAvailable) as real
  {
    RegistryTotal();
    ProportionalTableSum(Grids, TotalGridCapacity(Grids), powerDemand - RenewableEnergyAvailable);
  }

  /** Every grid is allocated at most its capacity, in both branches. */
  lemma AllocationWithinCapacity(powerDemand: int)
    ensures forall i :: 0 <= i < |Grids| ==>
              Distribute(powerDemand).allocation[i].allocation <= Grids[i].capacity as real
  {
    RegistryTotal();
  }

  /** At exactly 16785 MW beyond renewables the test `>` fails, so the
      proportional branch runs, yet every grid gets exactly its capacity and
      no warning is shown. */
  lemma DemandAtCapacityFillsEveryGrid()
    ensures Distribute(17285).warning == None
    ensures forall i :: 0 <= i < |Grids| ==>
              Distribute(17285).allocation[i].allocation == Grids[i].capacity as real
  {
    ProportionalSharesWhenDemandFits(17285);
  }

  /** Nothing clamps a demand below the renewable contribution: the remaining
      demand is negative and so is every grid's allocation. */
  lemma DemandBelowRenewablesGivesNegativeShares(powerDemand: int)
    requires powerDemand < RenewableEnergyAvailable
    ensures Distribute(powerDemand).warning == None
    ensures forall i :: 0 <= i < |Grids| ==> Distribute(powerDemand).allocation[i].allocation < 0.0
  {
    ProportionalSharesWhenDemandFits(powerDemand);
    RegistryTotal();
  }

  /** Two worked demands. At 4000 MW the 3500 MW left after renewables is
      shared out, the Northern Grid taking 12000 / 16785 of it; at 20000 MW
      the 19500 MW left exceeds the registry by 2715 MW. */
  lemma DistributionExamples()
    ensures Distribute(4000).warning == None
    ensures Distribute(4000).allocation[0].allocation == 12000.0 * 3500.0 / 16785.0
    ensures SumAllocated(Distribute(4000).allocation) == 3500.0
    ensures Distribute(20000).warning == Some(DemandExceeds(2715))
    ensures Distribute(20000).suggestions == ShortageSuggestions
  {
    SharesAtUtilisation(4000);
    ProportionalSharesAddUp(4000);
    ShortfallAllocatesFullCapacity(20000);
    ShortfallIffDemandExceedsCapacity(20000);
  }

  /** The screen's state. */
  class GridSchedule {
    var powerDemand: int
    var allocation: seq<Allocation>
    var warning: Option<Warning>
    var shortageSuggestions: seq<string>

    constructor ()
      ensures powerDemand == 0 && allocation == [] && warning == None && shortageSuggestions == []
    {
      powerDemand := 0;
      allocation := [];
      warning := None;
      shortageSuggestions := [];
    }

    /** `handleInputChange`: the field's text, read as an integer. */
    method HandleInputChange(value: string)
      modifies this`powerDemand
      ensures powerDemand == DemandFromInput(value)
    {
      var parsed := ParseInt(value);
      powerDemand := if parsed.NaN? then 0 else parsed.value;
    }

    /** `distributePower`: replace the table, the warning and the
        suggestions by the distribution for the current demand; nothing of
        the previous distribution survives. */
    method DistributePower()
      modifies this`allocation, this`warning, this`shortageSuggestions
      ensures allocation == Distribute(powerDemand).allocation
      ensures warning == Distribute(powerDemand).warning
      ensures shortageSuggestions == Distribute(powerDemand).suggestions
    {
      var remainingPower := powerDemand - RenewableEnergyAvailable;
      var totalGridCapacity := TotalGridCapacity(Grids);
      var newAllocation: seq<Allocation> := [];
      assert totalGridCapacity == 16785 by { RegistryTotal(); }

      if remainingPower > totalGridCapacity {
        var excessDemand := remainingPower - totalGridCapacity;
        warning := Some(DemandExceeds(excessDemand));
        shortageSuggestions := ShortageSuggestions;

        var i := 0;
        while i < |Grids|
          invariant 0 <= i <= |Grids|
          invariant newAllocation == FullCapacityAllocation(Grids)[..i]
        {
          var grid := Grids[i];
          newAllocation := newAllocation + [Allocation(grid.name, grid.capacity as real)];
          i := i + 1;
        }
      } else {
        // The source keeps this running remainder but never reads it; under
        // exact arithmetic it ends at zero.
        var remainingToAllocate: real := remainingPower as real;
        var i := 0;
        while i < |Grids|
          invariant 0 <= i <= |Grids|
          invariant newAllocation == ProportionalAllocation(Grids, totalGridCapacity, remainingPower)[..i]
          invariant remainingToAllocate == remainingPower as real - SumAllocated(newAllocation)
        {
          var grid := Grids[i];
          var gridAllocation := GridShare(grid.capacity, totalGridCapacity, remainingPower);
          var before := newAllocation;
          newAllocation := newAllocation + [Allocation(grid.name, gridAllocation)];
          assert newAllocation[..|before|] == before;
          SumAllocatedAppend(before, Allocation(grid.name, gridAllocation));
          remainingToAllocate := remainingToAllocate - gridAllocation;
          i := i + 1;
        }
        assert remainingToAllocate == 0.0 by {
          assert newAllocation == Distribute(powerDemand).allocation;
          ProportionalSharesAddUp(powerDemand);
        }
        warning := None;
        shortageSuggestions := [];
      }

      allocation := newAllocation;
    }
  }
}
