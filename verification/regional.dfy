/** The regional choropleth (`RegionalCx`): the features of the selected county
    are reduced to a sorted list of attribute values, ten decile boundaries are
    read off that list, and each boundary is paired with one colour of a fixed
    palette to form the line-colour stops of the map layer. Beside it sit the
    running maximum of the attribute and the county filter of the map layer.

    Attribute values are integers; a property that is absent reads as
    `undefined` and one that is present may be `null`. */
module Regional {
  import opened Wrappers
  import opened Sorting

  /** The county choice that selects every feature. */
  const AllCounties: string := "DVRPC Region (All Counties)"

  /** The counties the header offers, the all-counties choice first. */
  const Counties: seq<string> := [AllCounties, "Bucks", "Burlington", "Camden", "Chester",
                                  "Delaware", "Gloucester", "Mercer", "Montgomery", "Philadelphia"]

  /** The attributes the header offers. */
  const Attributes: seq<string> := ["total_pop", "disabled", "ethnic_minority", "female", "foreign_born",
                                    "lep", "low_income", "older_adult", "racial_minority", "youth",
                                    "total_jobs"]

  /** The choices the page starts with. */
  const InitialCounty: string := AllCounties
  const InitialAttribute: string := "total_pop"

  /** The page starts on choices the header offers, and the header offers no
      empty county, so the empty choice (the one where the value list and
      the layer filter part ways) never comes from the list. */
  lemma ChoicesOffered()
    ensures InitialCounty in Counties && InitialAttribute in Attributes
    ensures forall c :: c in Counties ==> c != ""
  {
  }

  /** The number of colour bands. */
  const BandCount: nat := 10

  /** The palette, from blue for the lowest band through pink to white. */
  const Palette: seq<string> := ["#0000ff", "#4b00ff", "#8000ff", "#aa00ff", "#d100ff",
                                 "#ff00ff", "#ff66ff", "#ff99ff", "#ffccff", "#ffffff"]

  datatype AttrValue = Number(n: int) | Null

  datatype Feature = Feature(coName: string, properties: map<string, AttrValue>)

  /** `feature.properties[attr]`; `None` is `undefined`. */
  function Property(f: Feature, attr: string): Option<AttrValue>
  {
    if attr in f.properties then Some(f.properties[attr]) else None
  }

  /** The county choices that keep every feature: the empty (falsy) choice and
      the all-counties choice. */
  predicate SelectsAll(county: string)
  {
    county == "" || county == AllCounties
  }

  /** The feature test shared by the value list and the maximum. */
  predicate Kept(county: string, f: Feature)
  {
    SelectsAll(county) || f.coName == county
  }

  // ---------------------------------------------------------------------------
  // Filter, map, filter, sort
  // ---------------------------------------------------------------------------

  /** The features of the selected county, in their original order. */
  function KeepFeatures(fs: seq<Feature>, county: string): (r: seq<Feature>)
    ensures SelectsAll(county) ==> r == fs
    ensures |r| <= |fs|
  {
    if |fs| == 0 then []
    else
      var rest := KeepFeatures(fs[1..], county);
      if Kept(county, fs[0]) then [fs[0]] + rest else rest
  }

  lemma KeepFeaturesUnfold(s: seq<Feature>, county: string)
    requires |s| > 0
    ensures KeepFeatures(s, county)
            == (if Kept(county, s[0]) then [s[0]] else []) + KeepFeatures(s[1..], county)
  {
  }

  /** The filter keeps every feature that passes the county test as often as
      it occurs, and nothing else. */
  lemma {:induction false} KeepFeaturesCount(fs: seq<Feature>, county: string, g: Feature)
    ensures multiset(KeepFeatures(fs, county))[g] == if Kept(county, g) then multiset(fs)[g] else 0
    decreases |fs|
  {
    if |fs| > 0 {
      var head := if Kept(county, fs[0]) then [fs[0]] else [];
      var rest := KeepFeatures(fs[1..], county);
      KeepFeaturesCount(fs[1..], county, g);
      KeepFeaturesUnfold(fs, county);
      assert multiset(head + rest) == multiset(head) + multiset(rest);
      assert fs == [fs[0]] + fs[1..];
      assert multiset(fs) == multiset([fs[0]]) + multiset(fs[1..]);
    }
  }

  /** A feature is in the filtered list exactly when it is in the input and
      passes the county test. */
  lemma KeepFeaturesMembers(fs: seq<Feature>, county: string)
    ensures forall g :: g in KeepFeatures(fs, county) <==> g in fs && Kept(county, g)
  {
    forall g
      ensures g in KeepFeatures(fs, county) <==> g in fs && Kept(county, g)
    {
      KeepFeaturesCount(fs, county, g);
      assert g in KeepFeatures(fs, county) <==> multiset(KeepFeatures(fs, county))[g] > 0;
      assert g in fs <==> multiset(fs)[g] > 0;
    }
  }

  /** Filtering a concatenation filters each part and keeps the parts in
      order; with `KeepFeaturesSingle` this fixes the result's order. */
  lemma {:induction false} KeepFeaturesAppend(a: seq<Feature>, b: seq<Feature>, county: string)
    ensures KeepFeatures(a + b, county) == KeepFeatures(a, county) + KeepFeatures(b, county)
    decreases |a|
  {
    if |a| == 0 {
      assert a + b == b;
    } else {
      var head := if Kept(county, a[0]) then [a[0]] else [];
      var restA := KeepFeatures(a[1..], county);
      var restB := KeepFeatures(b, county);
      assert (a + b)[1..] == a[1..] + b;
      KeepFeaturesAppend(a[1..], b, county);
      KeepFeaturesUnfold(a + b, county);
      KeepFeaturesUnfold(a, county);
      assert head + (restA + restB) == (head + restA) + restB;
    }
  }

  /** A single feature is kept exactly when it passes the county test. */
  lemma KeepFeaturesSingle(f: Feature, county: string)
    ensures KeepFeatures([f], county) == if Kept(county, f) then [f] else []
  {
    assert [f][1..] == [];
  }

  /** What one feature contributes to the value list: its value when that is
      a number, nothing when it is `null` or `undefined`. */
  function FeatureValue(f: Feature, attr: string): seq<int>
  {
    match Property(f, attr)
    case Some(Number(x)) => [x]
    case _ => []
  }

  /** The attribute values of `fs` that are neither `null` nor `undefined`. */
  function DefinedValues(fs: seq<Feature>, attr: string): (r: seq<int>)
    ensures |r| <= |fs|
  {
    if |fs| == 0 then []
    else FeatureValue(fs[0], attr) + DefinedValues(fs[1..], attr)
  }

  /** How many features of `fs` carry the number `x` under `attr`. */
  function Carrying(fs: seq<Feature>, attr: string, x: int): nat
  {
    if |fs| == 0 then 0
    else (if Property(fs[0], attr) == Some(Number(x)) then 1 else 0) + Carrying(fs[1..], attr, x)
  }

  /** The value list holds `x` exactly as often as features carry the number
      `x`; `null` and missing values never appear. */
  lemma {:induction false} DefinedValuesSpec(fs: seq<Feature>, attr: string)
    ensures forall x :: multiset(DefinedValues(fs, attr))[x] == Carrying(fs, attr, x)
    ensures forall x :: x in DefinedValues(fs, attr) <==>
                          exists f :: f in fs && Property(f, attr) == Some(Number(x))
    decreases |fs|
  {
    if |fs| > 0 {
      DefinedValuesSpec(fs[1..], attr);
      forall x
        ensures (exists f :: f in fs && Property(f, attr) == Some(Number(x))) <==>
                Property(fs[0], attr) == Some(Number(x)) ||
                exists f :: f in fs[1..] && Property(f, attr) == Some(Number(x))
      {
        assert fs == [fs[0]] + fs[1..];
      }
    }
    forall x
      ensures x in DefinedValues(fs, attr) <==> multiset(DefinedValues(fs, attr))[x] > 0
    {
    }
  }

  /** Mapping a concatenation maps each part and keeps the parts in order. */
  lemma {:induction false} DefinedValuesAppend(a: seq<Feature>, b: seq<Feature>, attr: string)
    ensures DefinedValues(a + b, attr) == DefinedValues(a, attr) + DefinedValues(b, attr)
    decreases |a|
  {
    if |a| == 0 {
      assert a + b == b;
    } else {
      DefinedValuesAppend(a[1..], b, attr);
      DefinedValuesAppendStep(a, b, attr);
    }
  }

  /** The inductive step of `DefinedValuesAppend`. */
  lemma DefinedValuesAppendStep(a: seq<Feature>, b: seq<Feature>, attr: string)
    requires |a| > 0
    requires DefinedValues(a[1..] + b, attr) == DefinedValues(a[1..], attr) + DefinedValues(b, attr)
    ensures DefinedValues(a + b, attr) == DefinedValues(a, attr) + DefinedValues(b, attr)
  {
    var c := a + b;
    assert c[0] == a[0];
    assert c[1..] == a[1..] + b;
    DefinedValuesUnfold(c, attr);
    DefinedValuesUnfold(a, attr);
    ConcatAssoc(FeatureValue(a[0], attr), DefinedValues(a[1..], attr), DefinedValues(b, attr));
  }

  lemma ConcatAssoc(x: seq<int>, y: seq<int>, z: seq<int>)
    ensures x + (y + z) == (x + y) + z
  {
  }

  lemma DefinedValuesUnfold(s: seq<Feature>, attr: string)
    requires |s| > 0
    ensures DefinedValues(s, attr) == FeatureValue(s[0], attr) + DefinedValues(s[1..], attr)
  {
  }

  /** A single feature contributes its value exactly when it is a number. */
  lemma DefinedValuesSingle(f: Feature, attr: string)
    ensures DefinedValues([f], attr) == match Property(f, attr) case Some(Number(x)) => [x] case _ => []
  {
    assert [f][1..] == [];
  }

  /** The sorted value list the bands are computed from. */
  function BandValues(fs: seq<Feature>, county: string, attr: string): seq<int>
  {
    SortAscending(DefinedValues(KeepFeatures(fs, county), attr))
  }

  /** How many kept features carry the value `x`: an independent account of
      the value list's contents. */
  function Occurrences(fs: seq<Feature>, county: string, attr: string, x: int): nat
  {
    if |fs| == 0 then 0
    else
      (if Kept(county, fs[0]) && Property(fs[0], attr) == Some(Number(x)) then 1 else 0)
      + Occurrences(fs[1..], county, attr, x)
  }

  lemma {:induction false} DefinedValuesOfKeptCount(fs: seq<Feature>, county: string, attr: string, x: int)
    ensures multiset(DefinedValues(KeepFeatures(fs, county), attr))[x] == Occurrences(fs, county, attr, x)
  {
    if |fs| > 0 {
      DefinedValuesOfKeptCount(fs[1..], county, attr, x);
      var rest := KeepFeatures(fs[1..], county);
      if Kept(county, fs[0]) {
        assert KeepFeatures(fs, county) == [fs[0]] + rest;
        assert ([fs[0]] + rest)[1..] == rest;
      }
    }
  }

  /** The value list is ascending and holds each kept feature's defined value
      exactly once: value `x` occurs as often as kept features carry it. */
  lemma BandValuesSpec(fs: seq<Feature>, county: string, attr: string)
    ensures Sorted(BandValues(fs, county, attr))
    ensures forall x :: multiset(BandValues(fs, county, attr))[x] == Occurrences(fs, county, attr, x)
    ensures forall x :: x in BandValues(fs, county, attr) <==>
                          exists f :: f in fs && Kept(county, f) && Property(f, attr) == Some(Number(x))
  {
    forall x
      ensures multiset(BandValues(fs, county, attr))[x] == Occurrences(fs, county, attr, x)
    {
      DefinedValuesOfKeptCount(fs, county, attr, x);
    }
    var kept := KeepFeatures(fs, county);
    KeepFeaturesMembers(fs, county);
    DefinedValuesSpec(kept, attr);
    forall x
      ensures x in BandValues(fs, county, attr) <==>
              exists f :: f in fs && Kept(county, f) && Property(f, attr) == Some(Number(x))
    {
      assert x in BandValues(fs, county, attr) <==> x in multiset(DefinedValues(kept, attr));
    }
  }

  // ---------------------------------------------------------------------------
  // Decile bands
  // ---------------------------------------------------------------------------

  /** The rank band `i` reads, `floor((i + 1) * len / 10) - 1`; it is -1 for
      the leading bands of a list shorter than ten. */
  function BandIndex(i: nat, len: nat): int
  {
    (i + 1) * len / BandCount - 1
  }

  /** Band `i`'s boundary: `values[index]`, which is `undefined` (None) when the
      index falls outside the list. */
  function Quantile(values: seq<int>, i: nat): Option<int>
  {
    var k := BandIndex(i, |values|);
    if 0 <= k < |values| then Some(values[k]) else None
  }

  function Quantiles(values: seq<int>): (q: seq<Option<int>>)
    ensures |q| == BandCount
  {
    seq(BandCount, i requires 0 <= i < BandCount => Quantile(values, i))
  }

  lemma DivMonotone(a: nat, b: nat)
    requires a <= b
    ensures a / BandCount <= b / BandCount
  {
  }

  lemma DivStep(a: nat, len: nat)
    requires len >= BandCount
    ensures (a + len) / BandCount >= a / BandCount + 1
  {
    DivMonotone(a + BandCount, a + len);
  }

  lemma MulMonotone(a: nat, b: nat, len: nat)
    requires a <= b
    ensures a * len <= b * len
  {
  }

  /** Every band index lies in [-1, len - 1]; it is -1 exactly when
      `(i + 1) * len < 10`; the last band reads the last rank. */
  lemma BandIndexRange(i: nat, len: nat)
    requires i < BandCount
    ensures -1 <= BandIndex(i, len) <= len - 1
    ensures BandIndex(i, len) == -1 <==> (i + 1) * len < BandCount
    ensures i == BandCount - 1 ==> BandIndex(i, len) == len - 1
  {
    MulMonotone(i + 1, BandCount, len);
    DivMonotone((i + 1) * len, BandCount * len);
  }

  /** Band indices never decrease with the band number. */
  lemma BandIndexMonotone(i: nat, j: nat, len: nat)
    requires i <= j < BandCount
    ensures BandIndex(i, len) <= BandIndex(j, len)
  {
    MulMonotone(i + 1, j + 1, len);
    DivMonotone((i + 1) * len, (j + 1) * len);
  }

  /** With at least ten values, band indices strictly increase and start at 0
      or above. */
  lemma BandIndexStrict(i: nat, j: nat, len: nat)
    requires len >= BandCount
    requires i < j < BandCount
    ensures 0 <= BandIndex(i, len) < BandIndex(j, len)
  {
    assert (i + 2) * len == (i + 1) * len + len;
    DivStep((i + 1) * len, len);
    BandIndexMonotone(i + 1, j, len);
    DivMonotone(BandCount, (i + 1) * len) by { MulMonotone(1, i + 1, len); }
  }

  /** The shape of the ten boundaries: band `i` is undefined exactly when
      `(i + 1) * L < 10`, every defined boundary is an element of the list, and
      the last band holds the list's last (largest) element. */
  lemma QuantilesShape(values: seq<int>)
    ensures |Quantiles(values)| == BandCount
    ensures forall i :: 0 <= i < BandCount ==>
              (Quantiles(values)[i].None? <==> (i + 1) * |values| < BandCount)
    ensures forall i :: 0 <= i < BandCount && Quantiles(values)[i].Some? ==>
              Quantiles(values)[i].value in values
    ensures |values| > 0 ==> Quantiles(values)[BandCount - 1] == Some(values[|values| - 1])
  {
    forall i | 0 <= i < BandCount
      ensures Quantiles(values)[i].None? <==> (i + 1) * |values| < BandCount
    {
      BandIndexRange(i, |values|);
    }
    BandIndexRange(BandCount - 1, |values|);
  }

  /** Over an ascending list, defined boundaries never decrease and, once one
      band is defined, every later band is. */
  lemma QuantilesMonotone(values: seq<int>)
    requires Sorted(values)
    ensures forall i, j :: 0 <= i < j < BandCount && Quantiles(values)[i].Some? ==>
              Quantiles(values)[j].Some? && Quantiles(values)[i].value <= Quantiles(values)[j].value
  {
    var q := Quantiles(values);
    forall i, j | 0 <= i < j < BandCount && q[i].Some?
      ensures q[j].Some? && q[i].value <= q[j].value
    {
      BandIndexMonotone(i, j, |values|);
      BandIndexRange(j, |values|);
    }
  }

  /** With at least ten strictly increasing values every band is defined and
      the ten boundaries strictly increase, so they are pairwise distinct. */
  lemma QuantilesDistinct(values: seq<int>)
    requires |values| >= BandCount
    requires forall i, j :: 0 <= i < j < |values| ==> values[i] < values[j]
    ensures forall i :: 0 <= i < BandCount ==> Quantiles(values)[i].Some?
    ensures forall i, j :: 0 <= i < j < BandCount ==>
              Quantiles(values)[i].value < Quantiles(values)[j].value
  {
    var q := Quantiles(values);
    forall i | 0 <= i < BandCount
      ensures q[i].Some?
    {
      BandIndexRange(i, |values|);
      if i + 1 < BandCount {
        BandIndexStrict(i, i + 1, |values|);
      } else {
        BandIndexStrict(0, i, |values|);
      }
    }
    forall i, j | 0 <= i < j < BandCount
      ensures q[i].value < q[j].value
    {
      BandIndexStrict(i, j, |values|);
      BandIndexRange(j, |values|);
    }
  }

  /** The defined boundaries take at most L distinct values. */
  lemma DistinctBoundariesAtMostLength(values: seq<int>)
    ensures |set i | 0 <= i < BandCount && Quantiles(values)[i].Some? :: Quantiles(values)[i].value| <= |values|
  {
    var q := Quantiles(values);
    var bounds := set i | 0 <= i < BandCount && q[i].Some? :: q[i].value;
    QuantilesShape(values);
    assert bounds <= set x | x in values;
    SubsetSize(bounds, set x | x in values);
    SetOfSeqSize(values);
  }

  lemma SubsetSize(a: set<int>, b: set<int>)
    requires a <= b
    ensures |a| <= |b|
  {
    assert b == a + (b - a);
    assert a * (b - a) == {};
  }

  lemma {:induction false} SetOfSeqSize(s: seq<int>)
    ensures |set x | x in s| <= |s|
  {
    if |s| > 0 {
      SetOfSeqSize(s[1..]);
      assert (set x | x in s) == (set x | x in s[1..]) + {s[0]};
    }
  }

  /** Ten consecutive values give themselves back as boundaries. */
  lemma QuantilesOfOneToTen()
    ensures Quantiles([1, 2, 3, 4, 5, 6, 7, 8, 9, 10])
            == [Some(1), Some(2), Some(3), Some(4), Some(5), Some(6), Some(7), Some(8), Some(9), Some(10)]
  {
  }

  /** Three equal values leave the first three bands undefined. */
  lemma QuantilesOfThreeFives()
    ensures Quantiles([5, 5, 5])
            == [None, None, None, Some(5), Some(5), Some(5), Some(5), Some(5), Some(5), Some(5)]
  {
  }

  // ---------------------------------------------------------------------------
  // Colour stops
  // ---------------------------------------------------------------------------

  datatype ColorStop = ColorStop(boundary: Option<int>, color: string)

  /** Pairs band `i`'s boundary with palette colour `i`. */
  function ColorStops(q: seq<Option<int>>): (stops: seq<ColorStop>)
    requires |q| == BandCount
    ensures |stops| == |Palette|
    ensures forall i :: 0 <= i < |stops| ==> stops[i].boundary == q[i]
    ensures forall i :: 0 <= i < |stops| ==> stops[i].color == Palette[i]
  {
    seq(BandCount, i requires 0 <= i < BandCount => ColorStop(q[i], Palette[i]))
  }

  /** The stops of the line-colour mapping for a feature set, county and attribute. */
  function BandColorStops(fs: seq<Feature>, county: string, attr: string): seq<ColorStop>
  {
    ColorStops(Quantiles(BandValues(fs, county, attr)))
  }

  /** The colour stops list the palette in order, each paired with the
      boundary of the same band, and their defined boundaries never decrease. */
  lemma BandColorStopsSpec(fs: seq<Feature>, county: string, attr: string)
    ensures var stops := BandColorStops(fs, county, attr);
            && |stops| == BandCount
            && (forall i :: 0 <= i < BandCount ==> stops[i].color == Palette[i])
            && (forall i :: 0 <= i < BandCount ==>
                  stops[i].boundary == Quantile(BandValues(fs, county, attr), i))
            && (forall i, j :: 0 <= i < j < BandCount && stops[i].boundary.Some? ==>
                  stops[j].boundary.Some? && stops[i].boundary.value <= stops[j].boundary.value)
  {
    BandValuesSpec(fs, county, attr);
    QuantilesMonotone(BandValues(fs, county, attr));
  }

  // ---------------------------------------------------------------------------
  // Layer filter
  // ---------------------------------------------------------------------------

  /** The map-layer filter `['==', ['get', 'co_name'], county]`. */
  datatype LayerFilter = CoNameEquals(county: string)

  /** No filter for the all-counties choice, a county-name test otherwise. */
  function RegionFilter(county: string): (r: Option<LayerFilter>)
    ensures r.None? <==> county == AllCounties
    ensures r.Some? ==> r.value.county == county
  {
    if county != AllCounties then Some(CoNameEquals(county)) else None
  }

  predicate ShownBy(filter: Option<LayerFilter>, f: Feature)
  {
    match filter
    case None => true
    case Some(CoNameEquals(c)) => f.coName == c
  }

  /** The layer shows exactly the features the value list is drawn from, for
      every county choice but the empty one (which the value list treats as
      "all" and the layer filter as a county named ""). */
  lemma RegionFilterMatchesKept(county: string, f: Feature)
    requires county != ""
    ensures ShownBy(RegionFilter(county), f) <==> Kept(county, f)
  {
  }

  /** For every county the header offers, the layer shows exactly the
      features the value list is drawn from. */
  lemma OfferedCountiesMatchKept(county: string, f: Feature)
    requires county in Counties
    ensures ShownBy(RegionFilter(county), f) <==> Kept(county, f)
  {
    ChoicesOffered();
    RegionFilterMatchesKept(county, f);
  }

  /** At the empty choice the two disagree: the value list keeps every
      feature, while the layer shows only features whose county is named "". */
  lemma EmptyCountyFiltersDisagree(f: Feature)
    requires f.coName != ""
    ensures Kept("", f)
    ensures !ShownBy(RegionFilter(""), f)
  {
  }

  // ---------------------------------------------------------------------------
  // Running maximum
  // ---------------------------------------------------------------------------

  /** A JavaScript number as `Math.max` sees it. */
  datatype Extreme = NegInfinity | Finite(n: int) | NaN

  /** `ToNumber` of a property value: `null` is 0 and `undefined` is NaN. */
  function AsNumber(v: Option<AttrValue>): Extreme
  {
    match v
    case None => NaN
    case Some(Null) => Finite(0)
    case Some(Number(n)) => Finite(n)
  }

  /** `Math.max(a, b)`: NaN if either is NaN, otherwise the larger. */
  function JsMax(a: Extreme, b: Extreme): Extreme
  {
    match (a, b)
    case (NaN, _) => NaN
    case (_, NaN) => NaN
    case (NegInfinity, _) => b
    case (_, NegInfinity) => a
    case (Finite(x), Finite(y)) => if x >= y then a else b
  }

  /** The numeric value a kept feature contributes when it is defined. */
  function Contribution(f: Feature, attr: string): int
  {
    match Property(f, attr)
    case Some(Number(n)) => n
    case _ => 0
  }

  /** The reduce over all features, starting from -Infinity and folding in the
      attribute of every kept feature with `Math.max`. */
  method MaxOfAttribute(fs: seq<Feature>, county: string, attr: string) returns (m: Extreme)
    ensures m == NaN <==> exists i :: 0 <= i < |fs| && Kept(county, fs[i]) && Property(fs[i], attr).None?
    ensures m == NegInfinity <==> forall i :: 0 <= i < |fs| ==> !Kept(county, fs[i])
    ensures m.Finite? ==> forall i :: 0 <= i < |fs| && Kept(county, fs[i]) ==> Contribution(fs[i], attr) <= m.n
    ensures m.Finite? ==> exists i :: 0 <= i < |fs| && Kept(county, fs[i]) && Contribution(fs[i], attr) == m.n
  {
    m := NegInfinity;
    var k := 0;
    while k < |fs|
      invariant 0 <= k <= |fs|
      invariant m == NaN <==> exists i :: 0 <= i < k && Kept(county, fs[i]) && Property(fs[i], attr).None?
      invariant m == NegInfinity <==> forall i :: 0 <= i < k ==> !Kept(county, fs[i])
      invariant m.Finite? ==> forall i :: 0 <= i < k && Kept(county, fs[i]) ==> Contribution(fs[i], attr) <= m.n
      invariant m.Finite? ==> exists i :: 0 <= i < k && Kept(county, fs[i]) && Contribution(fs[i], attr) == m.n
    {
      if Kept(county, fs[k]) {
        m := JsMax(m, AsNumber(Property(fs[k], attr)));
      }
      k := k + 1;
    }
  }
}
