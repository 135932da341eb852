/** The feature encoder (app.py:46-60): the selected region label and the
    four numeric inputs become the 9-column vector the regression model was
    trained on, `[floor area, building age, walk minutes, bus minutes]`
    followed by the region's one-hot block. */
module Encoder {
  import opened Wrappers
  import opened Dicts
  import opened Regions

  /** `区_dict`: the one-hot row of each region label. */
  const OneHotTable: Dict<string, seq<int>> := [
    ("北部", [1, 0, 0, 0, 0]),
    ("南部", [0, 1, 0, 0, 0]),
    ("東部", [0, 0, 1, 0, 0]),
    ("西部", [0, 0, 0, 1, 0]),
    ("都心部", [0, 0, 0, 0, 1])
  ]

  /** Columns before the one-hot block, and columns in all. */
  const NumericColumns: nat := 4
  const FeatureCount: nat := 9

  /** One form submission: the selectbox label and the four number inputs. */
  datatype RawInput = RawInput(
    region: string,
    floorArea: real,
    buildingAge: int,
    walkMinutes: int,
    busMinutes: int)

  /** The `min_value`/`max_value` bounds of the four number inputs
      (app.py:41-44), both ends included; the widgets enforce them and the
      encoder does not check them again. */
  predicate WithinWidgetBounds(x: RawInput) {
    && 10.0 <= x.floorArea <= 300.0
    && 0 <= x.buildingAge <= 100
    && 0 <= x.walkMinutes <= 60
    && 0 <= x.busMinutes <= 60
  }

  /** The bounds include both ends of each widget's range, and the widgets'
      initial values (70.0, 20, 10, 0) lie within them. */
  lemma WidgetBoundsInclusive(region: string)
    ensures WithinWidgetBounds(RawInput(region, 10.0, 0, 0, 0))
    ensures WithinWidgetBounds(RawInput(region, 300.0, 100, 60, 60))
    ensures WithinWidgetBounds(RawInput(region, 70.0, 20, 10, 0))
    ensures !WithinWidgetBounds(RawInput(region, 9.999, 0, 0, 0))
    ensures !WithinWidgetBounds(RawInput(region, 300.001, 0, 0, 0))
    ensures !WithinWidgetBounds(RawInput(region, 10.0, 101, 0, 0))
    ensures !WithinWidgetBounds(RawInput(region, 10.0, 0, 61, 0))
    ensures !WithinWidgetBounds(RawInput(region, 10.0, 0, 0, -1))
  {
  }

  /** Reference definition of a one-hot row: `n` columns, 1 at column `k`. */
  function Indicator(k: int, n: nat): seq<int> {
    seq(n, i => if i == k then 1 else 0)
  }

  function Sum(s: seq<int>): int {
    if |s| == 0 then 0 else s[0] + Sum(s[1..])
  }

  function SumReals(s: seq<real>): real {
    if |s| == 0 then 0.0 else s[0] + SumReals(s[1..])
  }

  /** numpy's coercion of the mixed int/float list to one float dtype. */
  function ToReals(s: seq<int>): (r: seq<real>)
    ensures |r| == |s|
    ensures forall i | 0 <= i < |s| :: Integral(r[i]) && r[i].Floor == s[i]
  {
    seq(|s|, i requires 0 <= i < |s| => s[i] as real)
  }

  /** A row of the one-hot block: five columns of 0 and 1 summing to 1. */
  predicate IsOneHot(row: seq<int>) {
    && |row| == |SelectOptions|
    && (forall i | 0 <= i < |row| :: row[i] == 0 || row[i] == 1)
    && Sum(row) == 1
  }

  lemma {:induction false} SumIndicator(k: int, n: nat)
    ensures Sum(Indicator(k, n)) == if 0 <= k < n then 1 else 0
    decreases n
  {
    if n > 0 {
      assert Indicator(k, n)[1..] == Indicator(k - 1, n - 1);
      SumIndicator(k - 1, n - 1);
    }
  }

  lemma {:induction false} SumToReals(s: seq<int>)
    ensures SumReals(ToReals(s)) == Sum(s) as real
  {
    if |s| > 0 {
      assert ToReals(s)[1..] == ToReals(s[1..]);
      SumToReals(s[1..]);
    }
  }

  /** `区_dict` has one entry per selectbox option, in the same order, and the
      row of the option at position `k` is the indicator of column `k`: the
      fixed assignment 北部 0, 南部 1, 東部 2, 西部 3, 都心部 4. */
  lemma OneHotTableColumns()
    ensures Keys(OneHotTable) == SelectOptions
    ensures forall k | 0 <= k < |OneHotTable| :: OneHotTable[k].1 == Indicator(k, |SelectOptions|)
  {
  }

  /** Looking a label up in `区_dict` succeeds exactly for the selectbox
      options, and yields a well-formed one-hot row at the option's column;
      any other label is the dictionary's `KeyError`, never a default row. */
  lemma OneHotLookup(name: string)
    ensures Get(OneHotTable, name).Some? <==> name in SelectOptions
    ensures Get(OneHotTable, name).Some? ==>
      exists k | 0 <= k < |SelectOptions| :: SelectOptions[k] == name
        && Get(OneHotTable, name).value == Indicator(k, |SelectOptions|)
        && IsOneHot(Get(OneHotTable, name).value)
  {
    OneHotTableColumns();
    LabelsIdentifyRegions();
    if name in SelectOptions {
      var k :| 0 <= k < |SelectOptions| && SelectOptions[k] == name;
      GetAt(OneHotTable, k);
      SumIndicator(k, |SelectOptions|);
    }
  }

  /** The encoder: `区_dict[区]` appended to the four numeric inputs, as
      floats. `None` is the `KeyError` of a label outside the table. */
  function Encode(x: RawInput): (v: Option<seq<real>>)
    requires WithinWidgetBounds(x)
    ensures v.Some? <==> x.region in SelectOptions
    ensures v.Some? ==> |v.value| == FeatureCount
    ensures v.Some? ==>
      v.value[..NumericColumns]
        == [x.floorArea, x.buildingAge as real, x.walkMinutes as real, x.busMinutes as real]
    ensures v.Some? ==> forall j | NumericColumns <= j < FeatureCount ::
      v.value[j] == if SelectOptions[j - NumericColumns] == x.region then 1.0 else 0.0
  {
    OneHotLookup(x.region);
    LabelsIdentifyRegions();
    match Get(OneHotTable, x.region)
    case None => None
    case Some(row) =>
      Some([x.floorArea, x.buildingAge as real, x.walkMinutes as real, x.busMinutes as real]
        + ToReals(row))
  }

  /** The encoded one-hot block is a well-formed one-hot row sitting at the
      selected region's column, so its columns are 0 and 1 and sum to 1. */
  lemma EncodedBlockIsOneHot(x: RawInput, r: Region)
    requires WithinWidgetBounds(x)
    requires FromLabel(x.region) == Some(r)
    ensures Encode(x).Some?
    ensures Encode(x).value[NumericColumns..] == ToReals(Indicator(Column(r), |SelectOptions|))
    ensures Encode(x).value[NumericColumns + Column(r)] == 1.0
    ensures forall j | NumericColumns <= j < FeatureCount ::
      Encode(x).value[j] == 0.0 || Encode(x).value[j] == 1.0
    ensures SumReals(Encode(x).value[NumericColumns..]) == 1.0
  {
    LabelsIdentifyRegions();
    var v := Encode(x).value;
    var block := ToReals(Indicator(Column(r), |SelectOptions|));
    forall j | 0 <= j < |SelectOptions| ensures v[NumericColumns..][j] == block[j] {
      assert v[NumericColumns..][j] == v[NumericColumns + j];
    }
    SumIndicator(Column(r), |SelectOptions|);
    SumToReals(Indicator(Column(r), |SelectOptions|));
  }

  /** The first column `from` or after whose indicator the block is. */
  function HotColumn(block: seq<real>, from: nat): (k: Option<nat>)
    requires from <= |block|
    ensures k.Some? ==> from <= k.value < |block| && block == ToReals(Indicator(k.value, |block|))
    ensures k.None? ==> forall j | from <= j < |block| :: block != ToReals(Indicator(j, |block|))
    decreases |block| - from
  {
    if from == |block| then None
    else if block == ToReals(Indicator(from, |block|)) then Some(from)
    else HotColumn(block, from + 1)
  }

  predicate Integral(r: real) {
    r == r.Floor as real
  }

  /** Reads a feature vector back into the form inputs it came from: the
      inverse of `Encode`, defined on every vector and `None` on any that no
      submission produces. */
  function Decode(v: seq<real>): (x: Option<RawInput>)
    ensures x.Some? ==> |v| == FeatureCount && x.value.region in SelectOptions
  {
    if |v| != FeatureCount || !Integral(v[1]) || !Integral(v[2]) || !Integral(v[3]) then None
    else
      match HotColumn(v[NumericColumns..], 0)
      case None => None
      case Some(k) =>
        Some(RawInput(SelectOptions[k], v[0], v[1].Floor, v[2].Floor, v[3].Floor))
  }

  /** Round trip: an encoded submission decodes to itself. */
  lemma DecodeEncode(x: RawInput)
    requires WithinWidgetBounds(x)
    requires x.region in SelectOptions
    ensures Encode(x).Some? && Decode(Encode(x).value) == Some(x)
  {
    var r := FromLabel(x.region).value;
    EncodedBlockIsOneHot(x, r);
    var v := Encode(x).value;
    var block := v[NumericColumns..];
    assert v[1] == x.buildingAge as real && v[2] == x.walkMinutes as real && v[3] == x.busMinutes as real by {
      assert v[..NumericColumns][1] == v[1];
      assert v[..NumericColumns][2] == v[2];
      assert v[..NumericColumns][3] == v[3];
    }
    assert v[0] == v[..NumericColumns][0];
    var k := HotColumn(block, 0);
    assert k.Some? by {
      assert Column(r) < |block|;
    }
    // A block is the indicator of at most one column.
    assert block[k.value] == 1.0;
  }

  /** Round trip the other way: a vector that decodes to a submission within
      the widget bounds is exactly that submission's encoding. */
  lemma EncodeDecode(v: seq<real>, x: RawInput)
    requires Decode(v) == Some(x)
    requires WithinWidgetBounds(x)
    ensures Encode(x) == Some(v)
  {
    var k := HotColumn(v[NumericColumns..], 0).value;
    LabelsIdentifyRegions();
    var r := FromLabel(x.region).value;
    assert Column(r) == k;
    EncodedBlockIsOneHot(x, r);
    var e := Encode(x).value;
    assert e[..NumericColumns] == v[..NumericColumns];
    assert e == e[..NumericColumns] + e[NumericColumns..];
    assert v == v[..NumericColumns] + v[NumericColumns..];
  }

  /** Encoding loses nothing: distinct submissions, in particular submissions
      for distinct regions, give distinct feature vectors. */
  lemma EncodeInjective(x: RawInput, y: RawInput)
    requires WithinWidgetBounds(x) && WithinWidgetBounds(y)
    requires Encode(x).Some? && Encode(x) == Encode(y)
    ensures x == y
  {
    DecodeEncode(x);
    DecodeEncode(y);
  }
}
