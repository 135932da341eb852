# Tokyo housing-price form: region tables and feature encoder

The application is a one-page form. The user picks one of five coarse regions of Tokyo's
23 wards and enters four numbers: floor area, building age, minutes on foot to the station
and minutes by bus. The form turns these into a 9-column feature vector and passes it to a
pre-trained regression model. The only logic in the script sits in its static tables and
in the encoder. This project models those pieces:

- `area_mapping`: ward to region label, 23 entries.
- `region_info`: region label to its wards. The sidebar lists this table.
- The selectbox options: the five region labels.
- `区_dict`: region label to its one-hot row.
- The encoder: `[area, age, walk, bus] + 区_dict[region]`.

The model proves the following:

- The two ward tables state the same geography.
  - `region_info` is exactly `area_mapping` inverted over the selectbox options, in
    `area_mapping`'s order.
  - Its lists hold each of the 23 wards exactly once.
  - Both tables name the same five regions.
- The one-hot table uses the fixed column assignment 北部 0, 南部 1, 東部 2, 西部 3, 都心部 4.
  This is the selectbox order and the documented column order.
- The encoder produces 9 columns. The four inputs come first, unchanged and in order. The
  one-hot block follows: its columns are 0/1, they sum to 1, and the single 1 is at the
  region's column.
- The encoder is defined for exactly the five selectbox labels. Any other label fails the
  dictionary lookup.
- The encoder has an inverse, `Decode`, with round trips proved in both directions.
  Encoding is therefore injective.

Modules:

- `Wrappers` (`wrappers.dfy`): `Option`. `None` stands for Python's `KeyError`.
- `Dicts` (`dicts.dfy`): Python's insertion-ordered `dict` as an association list.
  - `Get` is `d[k]`. A later binding of a key wins, as in a dict literal.
  - Also here: inversion of a dictionary (`KeysWithValue`, `GroupBy`), `Join` of a
    literal written over several lines, and the generic partition lemmas.
- `Regions` (`regions.dfy`): the `Region` datatype, the selectbox options, and the
  label/column correspondence.
- `Geography` (`geography.dfy`): `area_mapping` (written line by line, as in the source)
  and `region_info`, with the lemmas on their consistency.
- `Encoder` (`encoder.dfy`): `区_dict`, the form input `RawInput`, the widget bounds,
  `Encode`, its inverse `Decode`, and the one-hot and round-trip lemmas.

How the code treats its inputs:

- The encoder does not re-check the numeric ranges. The `number_input` bounds
  (app.py:41-44) are `Encode`'s precondition, `WithinWidgetBounds`.
- A label outside `区_dict` raises Python's `KeyError`, modelled as `None`.
- `area_mapping` is never looked up by the code; it is only defined. `Geography.RegionOf`
  models what a lookup `area_mapping[ward]` yields.

## Model

| member | source | states |
|---|---|---|
| Dicts.Get | app.py:54 | dictionary subscript: fails exactly when the key is absent; otherwise the value of the last entry with that key |
| Dicts.KeysWithValueIff | app.py:14-29 | with distinct keys, a key is listed under value v in the inversion exactly when the dictionary maps it to v |
| Dicts.GroupByPartition | app.py:14-29 | inverting a dictionary over a duplicate-free list covering all its values lists every key exactly once (multiset equality) |
| Dicts.KeysWithValueJoin | app.py:14-20 | in a literal written one value per line, with distinct values, the keys bound to a line's value are exactly that line's keys |
| Regions.Column | app.py:57 | each region's one-hot column is below 5 and is that region's position among the selectbox options |
| Regions.FromLabel | app.py:40 | a label reads back as a region exactly when it is a selectbox option, and the region's label is that option |
| Regions.LabelsIdentifyRegions | app.py:40 | the five options are distinct; label and column each identify the region; every option is the label of the region at its column |
| Geography.RegionInfoIsGrouping | app.py:14-29 | `region_info` equals `area_mapping` inverted over the selectbox options, each list in `area_mapping`'s order |
| Geography.KeysWithLabel | app.py:14-29 | the wards `area_mapping` maps to a region's label are that region's `region_info` list |
| Geography.LineFacts | app.py:14-29 | each source line of `area_mapping` maps its wards to one region and lists the same wards, in the same order, as `region_info` |
| Geography.WardsDistinct | app.py:14-20 | `area_mapping` has 23 entries, with no ward twice |
| Geography.AreaMappingLabels | app.py:14-20 | every region label in `area_mapping` is a selectbox option, and every option is the label of some ward |
| Geography.TablesAgree | app.py:14-29 | ward w is in `region_info`'s list for region r exactly when `area_mapping[w]` is r |
| Geography.RegionKeysAgree | app.py:14-40 | `region_info`'s keys are the selectbox options, in order and once each, and are exactly the labels `area_mapping` uses |
| Geography.WardsCovered | app.py:14-29 | `region_info`'s lists together hold exactly the wards of `area_mapping`, with the same multiplicities |
| Geography.WardsPartition | app.py:14-29 | `region_info`'s lists hold 23 wards with none repeated, within a list or across lists |
| Geography.RegionListsDistinct | app.py:23-29 | each list of `region_info` is duplicate-free |
| Geography.RegionOf | app.py:14-20 | `area_mapping[ward]` as a region: defined exactly for the 23 wards; the region found is the one whose label `area_mapping` holds, and its `region_info` list contains the ward |
| Encoder.OneHotTableColumns | app.py:47-53 | `区_dict` has one entry per selectbox option, in order, and the option at position k has the indicator row of column k |
| Encoder.OneHotLookup | app.py:47-54 | `区_dict[label]` succeeds exactly for the five options; the row found has length 5, only 0/1 entries, sum 1, and its 1 at the option's position |
| Encoder.WithinWidgetBounds | app.py:41-44 | the `min_value`/`max_value` bounds of the four number inputs, both ends included: area in [10, 300], age in [0, 100], walk and bus minutes in [0, 60] |
| Encoder.WidgetBoundsInclusive | app.py:41-44 | the endpoints of every widget range and the widgets' initial values (70.0, 20, 10, 0) are within bounds; values just outside are not |
| Encoder.ToReals | app.py:58-59 | numpy's coercion of the integer entries to float keeps the length and is exact: each float is whole and floors back to the original integer |
| Encoder.SumIndicator | app.py:47-53 | an indicator row sums to 1 when its column is in range, and to 0 otherwise |
| Encoder.Encode | app.py:54-60 | inputs within the widget bounds encode exactly when the label is an option; the result has 9 columns: the four inputs in order, then 1.0 at the selected option's column and 0.0 elsewhere |
| Encoder.EncodedBlockIsOneHot | app.py:47-60 | the encoded tail is the region's indicator row; its columns are 0/1 and sum to 1 |
| Encoder.DecodeEncode | app.py:54-60 | round trip: decoding the encoding of a valid submission returns that submission |
| Encoder.EncodeDecode | app.py:54-60 | round trip: a vector that decodes to an in-bounds submission is that submission's encoding |
| Encoder.EncodeInjective | app.py:47-60 | distinct valid submissions, including submissions for distinct regions, encode to distinct vectors |

## Left out

- Streamlit rendering: the title, the sidebar text, the widgets and the button (app.py:10-11, 31-37, 63, 69-70). These are presentation only. The widgets' bounds enter the model as `Encoder.WithinWidgetBounds`.
- Loading `trained_model.pkl` with `pickle` (app.py:6-7). This is file I/O over an opaque artifact.
- `model.predict` and the `try/except` that reports its errors (app.py:66, 71-73). This is a call into an unseen regression model.
- numpy's `array(...).reshape(1, -1)` (app.py:58-60). The vector is a flat `seq<real>`. The single-row 1×9 shape is not modelled.
- Floating point. Inputs and features are `real`. The ints and 0/1 entries that numpy coerces to float64 are exact at these magnitudes. The floor area is taken as the exact real the widget produced.
- Price formatting `{predicted_price:,.0f}万円` (app.py:70). This is floating-point rounding and locale formatting.
- The `number_input` step and default values (app.py:41-44). They set the widget's initial state and do not constrain what the encoder receives.
- `Encoder.Decode` and `Encoder.HotColumn` have no counterpart in the script. They are the inverse used to state the round trips and injectivity of `Encode`.
