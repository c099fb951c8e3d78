/** The demand map: a fixed table of localities with their predicted
    demand, a selector that shows one locality's figures, and a total that
    adds up the whole-megawatt part of every demand when the pointer enters
    the highlighted area. */
module DemandMapScene {
  import opened Js

  /** A locality, its predicted demand as display text, and its map position
      (latitude, longitude). */
  datatype Locality = Locality(id: int, name: string, demand: string, position: (real, real))

  /** The localities, in menu order. */
  const DemandData: seq<Locality> := [
    Locality(1, "Connaught Place", "281.64 MW", (28.6297, 77.2295)),
    Locality(2, "Dwarka", "563.28 MW", (28.5505, 77.0190)),
    Locality(3, "Gurgaon", "751.04 MW", (28.4595, 77.0266)),
    Locality(4, "Noida", "563.28 MW", (28.5355, 77.3910)),
    Locality(5, "North Delhi", "469.40 MW", (28.6880, 77.2240)),
    Locality(6, "South Delhi", "657.16 MW", (28.5245, 77.2023)),
    Locality(7, "East Delhi", "516.34 MW", (28.6018, 77.2787)),
    Locality(8, "West Delhi", "422.46 MW", (28.6165, 77.0800)),
    Locality(9, "Faridabad", "234.70 MW", (28.4082, 77.3175)),
    Locality(10, "Ghaziabad", "234.70 MW", (28.6692, 77.4538))
  ]

  /** The position of the first locality whose name is `name`, searching
      from `k` on. */
  function FindFrom(table: seq<Locality>, name: string, k: nat): (r: Option<nat>)
    requires k <= |table|
    ensures r.Some? ==> k <= r.value < |table| && table[r.value].name == name
    ensures r.Some? ==> forall j :: k <= j < r.value ==> table[j].name != name
    ensures r.None? <==> forall j :: k <= j < |table| ==> table[j].name != name
    decreases |table| - k
  {
    if k == |table| then None
    else if table[k].name == name then Some(k)
    else FindFrom(table, name, k + 1)
  }

  /** `demandData.find((loc) => loc.name === value)`: the first locality so
      named, if any. */
  function FindLocality(table: seq<Locality>, name: string): (r: Option<Locality>)
    ensures r.Some? <==> exists i :: 0 <= i < |table| && table[i].name == name
    ensures r.Some? ==> r.value.name == name && r.value in table
  {
    match FindFrom(table, name, 0)
    case None => None
    case Some(i) => Some(table[i])
  }

  /** `locality.demand || "175 MW"`: the load shown for a locality; the
      fallback stands in for an empty demand text only. */
  function LoadShown(demand: string): (load: string)
    ensures load != ""
    ensures load == demand || load == "175 MW"
    ensures demand != "" ==> load == demand
  {
    if demand == "" then "175 MW" else demand
  }

  /** `acc + n` on Numbers: NaN absorbs. */
  function JsAdd(a: JsInt, b: JsInt): JsInt
  {
    match (a, b)
    case (Num(x), Num(y)) => Num(x + y)
    case _ => NaN
  }

  /** The fold's starting 0 changes nothing, and the order in which the
      demands are added does not matter: NaN absorbs from either side. */
  lemma JsAddLaws(a: JsInt, b: JsInt, c: JsInt)
    ensures JsAdd(Num(0), a) == a && JsAdd(a, Num(0)) == a
    ensures JsAdd(a, b) == JsAdd(b, a)
    ensures JsAdd(JsAdd(a, b), c) == JsAdd(a, JsAdd(b, c))
    ensures JsAdd(a, NaN) == NaN
  {
  }

  /** `table.reduce((acc, loc) => acc + parseInt(loc.demand), 0)`: a left
      fold from 0. */
  function SumParsedDemands(table: seq<Locality>): JsInt
  {
    if table == [] then Num(0)
    else JsAdd(SumParsedDemands(table[..|table| - 1]), ParseInt(table[|table| - 1].demand))
  }

  /** The total as the popup shows it: `${total} MW`. */
  function TotalDemandText(table: seq<Locality>): string
  {
    NumberToString(SumParsedDemands(table)) + " MW"
  }

  function SumInts(xs: seq<int>): int
  {
    if xs == [] then 0 else SumInts(xs[..|xs| - 1]) + xs[|xs| - 1]
  }

  /** A demand text that is a whole number followed by something not
      starting with a digit (a fraction, a unit). */
  predicate ReadsAs(demand: string, whole: int, rest: string)
  {
    demand == IntToDecimal(whole) + rest && (rest == [] || !IsDigit(rest[0]))
  }

  /** The total keeps only the whole part of every demand: fractions are
      dropped entry by entry, never added up. */
  lemma {:induction false} TotalDropsFractions(table: seq<Locality>, wholes: seq<int>, rests: seq<string>)
    requires |wholes| == |table| && |rests| == |table|
    requires forall i :: 0 <= i < |table| ==> ReadsAs(table[i].demand, wholes[i], rests[i])
    ensures SumParsedDemands(table) == Num(SumInts(wholes))
  {
    if table != [] {
      var n := |table| - 1;
      TotalDropsFractions(table[..n], wholes[..n], rests[..n]);
      ParseIntOfDecimal(wholes[n], rests[n]);
    }
  }

  /** Some demand text has no number `parseInt` can read. */
  predicate SomeDemandUnreadable(table: seq<Locality>)
  {
    exists i :: 0 <= i < |table| && ParseInt(table[i].demand).NaN?
  }

  /** One demand text that `parseInt` cannot read makes the total NaN, and
      only then is it NaN. */
  lemma {:induction false} TotalIsNaNIffSomeDemandIsNaN(table: seq<Locality>)
    ensures SumParsedDemands(table).NaN? <==> SomeDemandUnreadable(table)
  {
    if table != [] {
      var n := |table| - 1;
      var prefix := table[..n];
      TotalIsNaNIffSomeDemandIsNaN(prefix);
      assert SumParsedDemands(table) == JsAdd(SumParsedDemands(prefix), ParseInt(table[n].demand));
      if SumParsedDemands(table).NaN? {
        if SumParsedDemands(prefix).NaN? {
          var i :| 0 <= i < n && ParseInt(prefix[i].demand).NaN?;
          assert prefix[i] == table[i];
        } else {
          assert ParseInt(table[n].demand).NaN?;
        }
        assert SomeDemandUnreadable(table);
      }
      if SomeDemandUnreadable(table) {
        var i :| 0 <= i < |table| && ParseInt(table[i].demand).NaN?;
        if i < n {
          assert prefix[i] == table[i];
          assert SomeDemandUnreadable(prefix);
          assert SumParsedDemands(prefix).NaN?;
        } else {
          assert i == n;
        }
      }
    }
  }

  /** The total looks at the demand texts only: tables that agree on them
      have the same total, wherever their localities lie. */
  lemma {:induction false} TotalIgnoresPositions(t1: seq<Locality>, t2: seq<Locality>)
    requires |t1| == |t2|
    requires forall i :: 0 <= i < |t1| ==> t1[i].demand == t2[i].demand
    ensures SumParsedDemands(t1) == SumParsedDemands(t2)
  {
    if t1 != [] {
      var n := |t1| - 1;
      TotalIgnoresPositions(t1[..n], t2[..n]);
    }
  }

  /** The whole parts of the shipped demands, and what follows them. */
  const ShippedWholes: seq<int> := [281, 563, 751, 563, 469, 657, 516, 422, 234, 234]
  const ShippedRests: seq<string> :=
    [".64 MW", ".28 MW", ".04 MW", ".28 MW", ".40 MW", ".16 MW", ".34 MW", ".46 MW", ".70 MW", ".70 MW"]

  /** The hundredths each shipped demand carries after its whole part. */
  const ShippedHundredths: seq<int> := [64, 28, 4, 28, 40, 16, 34, 46, 70, 70]

  /** A two-digit fraction followed by the unit: ".64 MW" for 64. */
  function FractionText(hundredths: int): (s: string)
    requires 0 <= hundredths < 100
    ensures |s| == 6 && s[0] == '.' && s[3..] == " MW"
    ensures IsDigit(s[1]) && IsDigit(s[2]) && DigitValue(s[1]) * 10 + DigitValue(s[2]) == hundredths
  {
    ['.', DigitChar(hundredths / 10), DigitChar(hundredths % 10)] + " MW"
  }

  /** What follows each shipped whole part is its two-digit fraction and the
      unit. */
  lemma ShippedRestsAreFractions()
    ensures |ShippedHundredths| == |ShippedRests|
    ensures forall i :: 0 <= i < |ShippedRests| ==>
              0 <= ShippedHundredths[i] < 100 && ShippedRests[i] == FractionText(ShippedHundredths[i])
  {
  }

  /** The fractions add up to 400 hundredths. */
  lemma ShippedHundredthsSum()
    ensures SumInts(ShippedHundredths) == 400
  {
    var h := ShippedHundredths;
    assert h[..1][..0] == [];
    assert SumInts(h[..1]) == 64;
    assert h[..2][..1] == h[..1];
    assert SumInts(h[..2]) == 92;
    assert h[..3][..2] == h[..2];
    assert SumInts(h[..3]) == 96;
    assert h[..4][..3] == h[..3];
    assert SumInts(h[..4]) == 124;
    assert h[..5][..4] == h[..4];
    assert SumInts(h[..5]) == 164;
    assert h[..6][..5] == h[..5];
    assert SumInts(h[..6]) == 180;
    assert h[..7][..6] == h[..6];
    assert SumInts(h[..7]) == 214;
    assert h[..8][..7] == h[..7];
    assert SumInts(h[..8]) == 260;
    assert h[..9][..8] == h[..8];
    assert SumInts(h[..9]) == 330;
    assert h[..9] == h[..|h| - 1];
  }

  /** The decimal text of a three-digit number. */
  lemma ThreeDigitDecimal(w: nat)
    requires 100 <= w < 1000
    ensures NatToDecimal(w) == [DigitChar(w / 100), DigitChar(w / 10 % 10), DigitChar(w % 10)]
  {
    assert NatToDecimal(w / 10) == NatToDecimal(w / 100) + [DigitChar(w / 10 % 10)];
  }

  /** Each shipped demand is its whole part followed by a fraction and the
      unit. */
  lemma ShippedDemandsRead()
    ensures |ShippedWholes| == |DemandData| && |ShippedRests| == |DemandData|
    ensures forall i :: 0 <= i < |DemandData| ==> ReadsAs(DemandData[i].demand, ShippedWholes[i], ShippedRests[i])
  {
    forall i | 0 <= i < |DemandData|
      ensures ReadsAs(DemandData[i].demand, ShippedWholes[i], ShippedRests[i])
    {
      if i < 4 {
        FirstShippedDemandsRead(i);
      } else if i < 7 {
        MiddleShippedDemandsRead(i);
      } else {
        LastShippedDemandsRead(i);
      }
    }
  }

  lemma FirstShippedDemandsRead(i: nat)
    requires i < 4
    ensures ReadsAs(DemandData[i].demand, ShippedWholes[i], ShippedRests[i])
  {
    ThreeDigitDecimal(ShippedWholes[i]);
  }

  lemma MiddleShippedDemandsRead(i: nat)
    requires 4 <= i < 7
    ensures ReadsAs(DemandData[i].demand, ShippedWholes[i], ShippedRests[i])
  {
    ThreeDigitDecimal(ShippedWholes[i]);
  }

  lemma LastShippedDemandsRead(i: nat)
    requires 7 <= i < 10
    ensures ReadsAs(DemandData[i].demand, ShippedWholes[i], ShippedRests[i])
  {
    ThreeDigitDecimal(ShippedWholes[i]);
  }

  /** The whole parts add up to 4690. */
  lemma ShippedWholesSum()
    ensures SumInts(ShippedWholes) == 4690
  {
    var w := ShippedWholes;
    assert w[..1][..0] == [];
    assert SumInts(w[..1]) == 281;
    assert w[..2][..1] == w[..1];
    assert SumInts(w[..2]) == 844;
    assert w[..3][..2] == w[..2];
    assert SumInts(w[..3]) == 1595;
    assert w[..4][..3] == w[..3];
    assert SumInts(w[..4]) == 2158;
    assert w[..5][..4] == w[..4];
    assert SumInts(w[..5]) == 2627;
    assert w[..6][..5] == w[..5];
    assert SumInts(w[..6]) == 3284;
    assert w[..7][..6] == w[..6];
    assert SumInts(w[..7]) == 3800;
    assert w[..8][..7] == w[..7];
    assert SumInts(w[..8]) == 4222;
    assert w[..9][..8] == w[..8];
    assert SumInts(w[..9]) == 4456;
    assert w[..9] == w[..|w| - 1];
  }

  /** A total of 4690 prints as "4690 MW". */
  lemma TotalText4690()
    ensures NumberToString(Num(4690)) + " MW" == "4690 MW"
  {
    assert NatToDecimal(4) == "4";
    assert NatToDecimal(46) == "46";
    assert NatToDecimal(469) == "469";
  }

  /** With the shipped table the popup reads "4690 MW". */
  lemma ShippedTotal()
    ensures SumParsedDemands(DemandData) == Num(4690)
    ensures TotalDemandText(DemandData) == "4690 MW"
  {
    assert SumParsedDemands(DemandData) == Num(4690) by {
      ShippedDemandsRead();
      TotalDropsFractions(DemandData, ShippedWholes, ShippedRests);
      ShippedWholesSum();
    }
    TotalText4690();
  }

  /** Every shipped demand is a whole number with two decimals. */
  lemma ShippedDemandsAreDecimals()
    ensures forall i :: 0 <= i < |DemandData| ==>
              0 <= ShippedWholes[i] && 0 <= ShippedHundredths[i] < 100
              && DemandData[i].demand == IntToDecimal(ShippedWholes[i]) + FractionText(ShippedHundredths[i])
  {
    ShippedDemandsRead();
    ShippedRestsAreFractions();
    forall i | 0 <= i < |DemandData|
      ensures DemandData[i].demand == IntToDecimal(ShippedWholes[i]) + FractionText(ShippedHundredths[i])
    {
      assert ReadsAs(DemandData[i].demand, ShippedWholes[i], ShippedRests[i]);
    }
  }

  /** Read exactly, whole parts plus hundredths, the shipped demands add up
      to 4694.00 MW: the popup's 4690 MW falls short by the 4 MW of dropped
      fractions. */
  lemma ShippedExactTotal()
    ensures SumInts(ShippedWholes) as real + SumInts(ShippedHundredths) as real / 100.0 == 4694.0
  {
    ShippedWholesSum();
    ShippedHundredthsSum();
  }

  predicate DistinctNames(table: seq<Locality>)
  {
    forall i, j :: 0 <= i < j < |table| ==> table[i].name != table[j].name
  }

  /** In a table with distinct names, looking up an entry's name finds that
      entry. */
  lemma FindDistinctName(table: seq<Locality>, i: nat)
    requires DistinctNames(table)
    requires i < |table|
    ensures FindLocality(table, table[i].name) == Some(table[i])
  {
  }

  lemma DemandNamesDistinct()
    ensures DistinctNames(DemandData)
  {
  }

  /** Menu names are distinct, so selecting a locality's name selects that
      locality. */
  lemma NamesUnique()
    ensures DistinctNames(DemandData)
    ensures forall i :: 0 <= i < |DemandData| ==> FindLocality(DemandData, DemandData[i].name) == Some(DemandData[i])
  {
    DemandNamesDistinct();
    forall i | 0 <= i < |DemandData|
      ensures FindLocality(DemandData, DemandData[i].name) == Some(DemandData[i])
    {
      FindDistinctName(DemandData, i);
    }
  }

  /** Every shipped locality has a demand text, so the "175 MW" fallback is
      never shown for them. */
  lemma FallbackNeverShown()
    ensures forall i :: 0 <= i < |DemandData| ==> LoadShown(DemandData[i].demand) == DemandData[i].demand
  {
  }

  /** The map's state. */
  class DemandMap {
    var selectedLocality: Locality
    var latitude: real
    var longitude: real
    var region: string
    var predictedLoad: string
    var totalDemand: Option<string>

    /** The first locality is selected; no total is shown. */
    constructor ()
      ensures selectedLocality == DemandData[0]
      ensures latitude == DemandData[0].position.0 && longitude == DemandData[0].position.1
      ensures region == DemandData[0].name && predictedLoad == DemandData[0].demand
      ensures totalDemand == None
    {
      var first := DemandData[0];
      selectedLocality := first;
      latitude := first.position.0;
      longitude := first.position.1;
      region := first.name;
      predictedLoad := first.demand;
      totalDemand := None;
    }

    /** `handleSelectChange`: show the locality named `value`; a name not in
        the table changes nothing. */
    method HandleSelectChange(value: string)
      modifies this`selectedLocality, this`latitude, this`longitude, this`region, this`predictedLoad
      ensures FindLocality(DemandData, value).None? ==>
                selectedLocality == old(selectedLocality) && latitude == old(latitude)
                && longitude == old(longitude) && region == old(region)
                && predictedLoad == old(predictedLoad)
      ensures FindLocality(DemandData, value).Some? ==>
                var locality := FindLocality(DemandData, value).value;
                selectedLocality == locality && latitude == locality.position.0
                && longitude == locality.position.1 && region == value
                && predictedLoad == LoadShown(locality.demand)
    {
      var found := FindLocality(DemandData, value);
      if found.Some? {
        var locality := found.value;
        selectedLocality := locality;
        latitude := locality.position.0;
        longitude := locality.position.1;
        region := locality.name;
        predictedLoad := LoadShown(locality.demand);
      }
    }

    /** `calculateTotalDemand`, on mouseover: show the total of the table. */
    method CalculateTotalDemand()
      modifies this`totalDemand
      ensures totalDemand == Some(TotalDemandText(DemandData))
    {
      totalDemand := Some(TotalDemandText(DemandData));
    }

    /** On mouseout, and when the popup is closed: hide the total. */
    method ClearTotalDemand()
      modifies this`totalDemand
      ensures totalDemand == None
    {
      totalDemand := None;
    }
  }
}
