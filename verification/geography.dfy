/** The two ward tables of the script: `area_mapping` (ward to region label,
    app.py:14-20) and `region_info` (region label to its wards, app.py:23-29),
    which the sidebar lists. They state the same geography twice. */
module Geography {
  import opened Wrappers
  import opened Dicts
  import opened Regions

  type Ward = string

  /** `area_mapping` is written one region per line; these are its lines. */
  const CentralLine: Dict<Ward, string> := [
    ("千代田区", "都心部"), ("中央区", "都心部"), ("港区", "都心部"),
    ("新宿区", "都心部"), ("文京区", "都心部"), ("渋谷区", "都心部")]
  const EastLine: Dict<Ward, string> := [
    ("台東区", "東部"), ("墨田区", "東部"), ("荒川区", "東部"), ("足立区", "東部"),
    ("江東区", "東部"), ("葛飾区", "東部"), ("江戸川区", "東部")]
  const SouthLine: Dict<Ward, string> := [
    ("品川区", "南部"), ("目黒区", "南部"), ("世田谷区", "南部"), ("大田区", "南部")]
  const WestLine: Dict<Ward, string> := [
    ("中野区", "西部"), ("杉並区", "西部"), ("練馬区", "西部")]
  const NorthLine: Dict<Ward, string> := [
    ("豊島区", "北部"), ("北区", "北部"), ("板橋区", "北部")]

  /** The regions in the order `area_mapping` lists them, one per line. */
  const LineOrder: seq<Region> := [Central, East, South, West, North]

  /** `area_mapping`, entry by entry in the source's order. */
  const AreaMapping: Dict<Ward, string> := Join([CentralLine, EastLine, SouthLine, WestLine, NorthLine])

  /** The line of `area_mapping` that holds a region's wards. */
  function Line(r: Region): Dict<Ward, string> {
    match r
    case North => NorthLine
    case South => SouthLine
    case East => EastLine
    case West => WestLine
    case Central => CentralLine
  }

  /** `region_info`, entry by entry in the source's order. */
  const RegionInfo: Dict<string, seq<Ward>> := [
    ("北部", ["豊島区", "北区", "板橋区"]),
    ("南部", ["品川区", "目黒区", "世田谷区", "大田区"]),
    ("東部", ["台東区", "墨田区", "荒川区", "足立区", "江東区", "葛飾区", "江戸川区"]),
    ("西部", ["中野区", "杉並区", "練馬区"]),
    ("都心部", ["千代田区", "中央区", "港区", "新宿区", "文京区", "渋谷区"])
  ]

  /** Each line binds its wards to one region's label, and lists the same
      wards, in the same order, as that region's entry in `region_info`. */
  lemma LineFacts(r: Region)
    ensures forall i | 0 <= i < |Line(r)| :: Line(r)[i].1 == Label(r)
    ensures Keys(Line(r)) == RegionInfo[Column(r)].1
  {
  }

  /** The wards `area_mapping` binds to a region's label are that region's
      `region_info` list. */
  lemma KeysWithLabel(r: Region)
    ensures KeysWithValue(AreaMapping, Label(r)) == RegionInfo[Column(r)].1
  {
    var lines: seq<Dict<Ward, string>> := seq(5, j requires 0 <= j < 5 => Line(LineOrder[j]));
    var labels: seq<string> := seq(5, j requires 0 <= j < 5 => Label(LineOrder[j]));
    assert lines == [CentralLine, EastLine, SouthLine, WestLine, NorthLine];
    forall j | 0 <= j < 5 ensures forall e | 0 <= e < |lines[j]| :: lines[j][e].1 == labels[j] {
      LineFacts(LineOrder[j]);
    }
    LabelsIdentifyRegions();
    assert r in LineOrder;
    var i :| 0 <= i < 5 && LineOrder[i] == r;
    KeysWithValueJoin(lines, labels, i);
    LineFacts(r);
  }

  /** `region_info` is exactly `area_mapping` inverted over the selectbox
      options: each region's list holds the wards mapped to it, in the order
      `area_mapping` lists them. */
  lemma RegionInfoIsGrouping()
    ensures RegionInfo == GroupBy(AreaMapping, SelectOptions)
  {
    LabelsIdentifyRegions();
    forall i | 0 <= i < 5 ensures GroupBy(AreaMapping, SelectOptions)[i] == RegionInfo[i] {
      var r := FromLabel(SelectOptions[i]).value;
      KeysWithLabel(r);
    }
  }

  /** The ward names of `area_mapping`, as written, in one flat list: the
      distinctness proof compares names by index in it, which keeps that
      proof within the solver's resource limit; `AreaMappingKeys` proves the
      list is `area_mapping`'s keys. */
  function WardNames(): seq<Ward> {
    ["千代田区", "中央区", "港区", "新宿区", "文京区", "渋谷区",
     "台東区", "墨田区", "荒川区", "足立区", "江東区", "葛飾区", "江戸川区",
     "品川区", "目黒区", "世田谷区", "大田区",
     "中野区", "杉並区", "練馬区",
     "豊島区", "北区", "板橋区"]
  }

  /** The keys of `area_mapping`, line by line. */
  lemma AreaMappingKeysByLine()
    ensures Keys(AreaMapping)
         == Keys(CentralLine) + (Keys(EastLine) + (Keys(SouthLine) + (Keys(WestLine) + Keys(NorthLine))))
  {
    var lines := [CentralLine, EastLine, SouthLine, WestLine, NorthLine];
    assert Join(lines[4..]) == NorthLine;
    assert Join(lines[3..]) == WestLine + NorthLine;
    assert Join(lines[2..]) == SouthLine + (WestLine + NorthLine);
    assert Join(lines[1..]) == EastLine + (SouthLine + (WestLine + NorthLine));
    assert AreaMapping == CentralLine + (EastLine + (SouthLine + (WestLine + NorthLine)));
    KeysAppend(WestLine, NorthLine);
    KeysAppend(SouthLine, WestLine + NorthLine);
    KeysAppend(EastLine, SouthLine + (WestLine + NorthLine));
    KeysAppend(CentralLine, EastLine + (SouthLine + (WestLine + NorthLine)));
  }

  lemma WardNamesByLine()
    ensures WardNames()
         == Keys(CentralLine) + (Keys(EastLine) + (Keys(SouthLine) + (Keys(WestLine) + Keys(NorthLine))))
  {
    var names := WardNames();
    assert Keys(CentralLine) == names[..6];
    assert Keys(EastLine) == names[6..13];
    assert Keys(SouthLine) == names[13..17];
    assert Keys(WestLine) == names[17..20];
    assert Keys(NorthLine) == names[20..];
    assert names == names[..6] + (names[6..13] + (names[13..17] + (names[17..20] + names[20..])));
  }

  lemma AreaMappingKeys()
    ensures Keys(AreaMapping) == WardNames()
  {
    AreaMappingKeysByLine();
    WardNamesByLine();
  }

  /** Ward `i` differs from every later ward. */
  lemma WardDiffersFromLater(i: nat)
    requires i < |WardNames()|
    ensures forall j | i < j < |WardNames()| :: WardNames()[i] != WardNames()[j]
  {
  }

  /** `area_mapping` lists 23 wards, none twice. */
  lemma WardsDistinct()
    ensures |AreaMapping| == 23
    ensures Distinct(Keys(AreaMapping))
  {
    AreaMappingKeys();
    forall i | 0 <= i < 23 ensures forall j | i < j < 23 :: WardNames()[i] != WardNames()[j] {
      WardDiffersFromLater(i);
    }
  }

  /** Every region label in `area_mapping` is a selectbox option, and every
      option labels some ward. */
  lemma AreaMappingLabels()
    ensures forall i | 0 <= i < |AreaMapping| :: AreaMapping[i].1 in SelectOptions
    ensures ValueSet(AreaMapping) == set l | l in SelectOptions
  {
    var lines: seq<Dict<Ward, string>> := [CentralLine, EastLine, SouthLine, WestLine, NorthLine];
    var labels: seq<string> := [Label(Central), Label(East), Label(South), Label(West), Label(North)];
    forall j | 0 <= j < 5 ensures forall e | 0 <= e < |lines[j]| :: lines[j][e].1 == labels[j] {
      LineFacts(LineOrder[j]);
    }
    JoinCarries(lines, labels);
    forall l | l in SelectOptions ensures l in ValueSet(AreaMapping) {
      var r := FromLabel(l).value;
      KeysWithLabel(r);
      LineFacts(r);
      KeysWithValueMembers(AreaMapping, l);
      var w := RegionInfo[Column(r)].1[0];
      assert w in KeysWithValue(AreaMapping, l);
    }
  }

  /** The two tables agree entry by entry: a ward is listed under a region
      in `region_info` exactly when `area_mapping` maps it to that region. */
  lemma TablesAgree(i: nat, w: Ward)
    requires i < |RegionInfo|
    ensures w in RegionInfo[i].1 <==> Get(AreaMapping, w) == Some(RegionInfo[i].0)
  {
    RegionInfoIsGrouping();
    WardsDistinct();
    KeysWithValueIff(AreaMapping, SelectOptions[i], w);
  }

  /** Both tables name the same five regions: `region_info` lists the
      selectbox options in the selectbox's order, once each, and they are
      exactly the labels `area_mapping` uses. */
  lemma RegionKeysAgree()
    ensures Keys(RegionInfo) == SelectOptions
    ensures Distinct(Keys(RegionInfo))
    ensures ValueSet(AreaMapping) == set l | l in Keys(RegionInfo)
  {
    RegionInfoIsGrouping();
    LabelsIdentifyRegions();
    AreaMappingLabels();
  }

  /** The lists of `region_info` together hold exactly the wards of
      `area_mapping`, each as often as `area_mapping` lists it. */
  lemma WardsCovered()
    ensures multiset(Concat(RegionInfo)) == multiset(Keys(AreaMapping))
  {
    RegionInfoIsGrouping();
    LabelsIdentifyRegions();
    AreaMappingLabels();
    GroupByPartition(AreaMapping, SelectOptions);
  }

  /** No ward is listed twice in `region_info`, within one list or across
      lists: its lists partition the 23 wards. */
  lemma WardsPartition()
    ensures Distinct(Concat(RegionInfo))
    ensures |Concat(RegionInfo)| == 23
  {
    WardsCovered();
    WardsDistinct();
    DistinctPermutation(Keys(AreaMapping), Concat(RegionInfo));
    assert |Concat(RegionInfo)| == |multiset(Concat(RegionInfo))| == |multiset(Keys(AreaMapping))|;
  }

  /** Each list of `region_info` is duplicate-free. */
  lemma RegionListsDistinct(i: nat)
    requires i < |RegionInfo|
    ensures Distinct(RegionInfo[i].1)
  {
    WardsDistinct();
    RegionInfoIsGrouping();
    KeysWithValueDistinct(AreaMapping, SelectOptions[i]);
  }

  /** `area_mapping[ward]` read as a region: defined for exactly the 23
      wards, and the region found is the one `region_info` lists the ward
      under. */
  function RegionOf(ward: Ward): (r: Option<Region>)
    ensures r.Some? <==> ward in Keys(AreaMapping)
    ensures r.Some? ==> Get(AreaMapping, ward) == Some(Label(r.value))
    ensures r.Some? ==> ward in RegionInfo[Column(r.value)].1
  {
    AreaMappingLabels();
    match Get(AreaMapping, ward)
    case None => None
    case Some(l) =>
      var r := FromLabel(l).value;
      TablesAgree(Column(r), ward);
      RegionKeysAgree();
      Some(r)
  }
}
