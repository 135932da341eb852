/** The five coarse regions of Tokyo's 23 wards. The script knows them only as
    Japanese labels; `Region` is their typed view. */
module Regions {
  import opened Wrappers
  import opened Dicts

  datatype Region = North | South | East | West | Central

  /** The options of the region selectbox, in display order (app.py:40). */
  const SelectOptions: seq<string> := ["北部", "南部", "東部", "西部", "都心部"]

  /** The label the script uses for a region. */
  function Label(r: Region): string {
    match r
    case North => "北部"
    case South => "南部"
    case East => "東部"
    case West => "西部"
    case Central => "都心部"
  }

  /** The region's position in the one-hot block of the feature vector, which
      is also its position among the selectbox options. */
  function Column(r: Region): (k: nat)
    ensures k < |SelectOptions| && SelectOptions[k] == Label(r)
  {
    match r
    case North => 0
    case South => 1
    case East => 2
    case West => 3
    case Central => 4
  }

  /** Reads a label back as a region; only the five selectbox options parse. */
  function FromLabel(s: string): (r: Option<Region>)
    ensures r.Some? <==> s in SelectOptions
    ensures r.Some? ==> Label(r.value) == s
  {
    if s == "北部" then Some(North)
    else if s == "南部" then Some(South)
    else if s == "東部" then Some(East)
    else if s == "西部" then Some(West)
    else if s == "都心部" then Some(Central)
    else None
  }

  /** Labels and columns identify regions: every option is one region's label,
      at that region's column, and no two regions share either. */
  lemma LabelsIdentifyRegions()
    ensures Distinct(SelectOptions)
    ensures forall r: Region :: FromLabel(Label(r)) == Some(r)
    ensures forall r1: Region, r2: Region :: Column(r1) == Column(r2) ==> r1 == r2
    ensures forall k | 0 <= k < |SelectOptions| ::
      FromLabel(SelectOptions[k]).Some? && Column(FromLabel(SelectOptions[k]).value) == k
  {
  }
}
