/** The table schema read once at start-up: the region options, the scaling
    options with their code-to-label map, and the published date
    identifiers, each taken from a fixed position of the schema's
    `variables` list. */
module TableSchema {
  import opened Results

  /** One entry of a variable's `values` list. */
  datatype ValueInfo = ValueInfo(id: string, text: string)

  /** One variable group of the table (scaling measure, region, time). */
  datatype VariableInfo = VariableInfo(id: string, text: string, values: seq<ValueInfo>)

  /** The `tableinfo` response, reduced to its `variables` list. */
  datatype TableInfo = TableInfo(variables: seq<VariableInfo>)

  /** A widget option `{'value': id, 'label': text}` (`label` is a Dafny
      keyword, hence the field name `text`). */
  datatype Choice = Choice(value: string, text: string)

  /** `[{'value': ii['id'], 'label': ii['text']} for ii in values]`. */
  function Choices(vs: seq<ValueInfo>): (cs: seq<Choice>)
    ensures |cs| == |vs|
    ensures forall i :: 0 <= i < |vs| ==> cs[i] == Choice(vs[i].id, vs[i].text)
  {
    if vs == [] then [] else [Choice(vs[0].id, vs[0].text)] + Choices(vs[1..])
  }

  /** `get_region_info`: the options of the second variable group. */
  function RegionInfo(t: TableInfo): (r: Result<seq<Choice>>)
    ensures r.Err? <==> |t.variables| < 2
    ensures r.Ok? ==> |r.value| == |t.variables[1].values|
    ensures r.Ok? ==> forall i :: 0 <= i < |r.value| ==>
      r.value[i].value == t.variables[1].values[i].id && r.value[i].text == t.variables[1].values[i].text
  {
    if |t.variables| < 2 then Err(IndexError) else Ok(Choices(t.variables[1].values))
  }

  /** `get_data_info`: the options of the first variable group (the scaling
      measures). */
  function DataInfo(t: TableInfo): (r: Result<seq<Choice>>)
    ensures r.Err? <==> |t.variables| < 1
    ensures r.Ok? ==> |r.value| == |t.variables[0].values|
    ensures r.Ok? ==> forall i :: 0 <= i < |r.value| ==>
      r.value[i].value == t.variables[0].values[i].id && r.value[i].text == t.variables[0].values[i].text
  {
    if |t.variables| < 1 then Err(IndexError) else Ok(Choices(t.variables[0].values))
  }

  function Ids(vs: seq<ValueInfo>): (ids: seq<string>)
    ensures |ids| == |vs|
    ensures forall i :: 0 <= i < |vs| ==> ids[i] == vs[i].id
  {
    if vs == [] then [] else [vs[0].id] + Ids(vs[1..])
  }

  /** `get_available_dates`: the identifiers of the third variable group. */
  function AvailableDates(t: TableInfo): (r: Result<seq<string>>)
    ensures r.Err? <==> |t.variables| < 3
    ensures r.Ok? ==> |r.value| == |t.variables[2].values|
    ensures r.Ok? ==> forall i :: 0 <= i < |r.value| ==> r.value[i] == t.variables[2].values[i].id
  {
    if |t.variables| < 3 then Err(IndexError) else Ok(Ids(t.variables[2].values))
  }

  /** No later option has the same value as option `i`. */
  predicate LastWithValue(cs: seq<Choice>, i: int)
    requires 0 <= i < |cs|
  {
    forall j :: i < j < |cs| ==> cs[j].value != cs[i].value
  }

  /** `{ii['value']: ii['label'] for ii in data_info}`: every option's value
      is a key, and when a value repeats the later label wins. */
  function LabelMap(cs: seq<Choice>): (m: map<string, string>)
    ensures m.Keys == set i | 0 <= i < |cs| :: cs[i].value
    ensures forall i :: 0 <= i < |cs| && LastWithValue(cs, i) ==> m[cs[i].value] == cs[i].text
  {
    if cs == [] then map[]
    else
      var init, last := cs[..|cs| - 1], cs[|cs| - 1];
      var m := LabelMap(init)[last.value := last.text];
      assert forall i :: 0 <= i < |init| ==> init[i] == cs[i];
      m
  }

  /** What start-up derives from the schema. */
  datatype Schema = Schema(
    regions: seq<Choice>,
    dataInfo: seq<Choice>,
    labels: map<string, string>,
    availableDates: seq<string>)

  /** The start-up sequence: regions, scaling options, their label map and
      the published dates. It fails exactly when one of the three variable
      groups is missing; otherwise each part is what its extractor returns,
      and the label map is built from the scaling options, so later
      duplicates override earlier ones. */
  function LoadSchema(t: TableInfo): (r: Result<Schema>)
    ensures r.Err? <==> |t.variables| < 3
    ensures r.Ok? ==> r.value.labels.Keys == set v | v in t.variables[0].values :: v.id
    ensures r.Ok? ==> |r.value.availableDates| == |t.variables[2].values|
    ensures r.Ok? ==> |r.value.regions| == |t.variables[1].values|
    ensures r.Ok? ==> r.value == Schema(RegionInfo(t).value, DataInfo(t).value,
                                        LabelMap(DataInfo(t).value), AvailableDates(t).value)
  {
    match RegionInfo(t)
    case Err(e) => Err(e)
    case Ok(regions) =>
      match DataInfo(t)
      case Err(e) => Err(e)
      case Ok(dataInfo) =>
        match AvailableDates(t)
        case Err(e) => Err(e)
        case Ok(dates) =>
          var labels := LabelMap(dataInfo);
          assert labels.Keys == set v | v in t.variables[0].values :: v.id by {
            var vs := t.variables[0].values;
            forall k | k in labels.Keys ensures k in set v | v in vs :: v.id {
              var i :| 0 <= i < |dataInfo| && dataInfo[i].value == k;
              assert vs[i] in vs;
            }
            forall k | k in set v | v in vs :: v.id ensures k in labels.Keys {
              var v :| v in vs && v.id == k;
              var i :| 0 <= i < |vs| && vs[i] == v;
              assert dataInfo[i].value == k;
            }
          }
          Ok(Schema(regions, dataInfo, labels, dates))
  }
}
