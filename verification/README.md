# Connect dashboard: a Dafny model of its data logic

This project models the data logic of the Connect dashboard, a browser front end for
bikeability and walkability studies. The dashboard has five pieces of logic:

- **Regional choropleth** (`RegionalCx`). It keeps the features of the selected county,
  takes their attribute values that are not `null` or `undefined`, and sorts them
  ascending. It reads ten decile boundaries at rank `floor((i+1)*L/10) - 1` and pairs
  each boundary with one colour of a fixed ten-colour palette to form the map's
  line-colour stops. Beside it sit the running `Math.max` of the attribute and the
  county filter of the map layer.
- **Study shelf** (`StudyShelf`). It chooses the schema from the connection type. It
  fills the table only from a non-empty `studies` array. It adds a bike-crash and a
  pedestrian-crash message to every study.
- **Table columns** (`useColumns`). These cover the fixed column order, the Public Link
  of a shared study, the Yes/No isochrone cell, and the `|| 'N/A'` cells.
- **Shared study page** (`SharedStudy`). This covers the legend's schema label, the user
  a request is made for, and the page state after the study fetch (stored study, error,
  loading). It also covers the error view and the idempotent installation of the
  geometry source and layer on the map.
- **Study card** (`StudyCard`). This covers the connection-to-schema mapping, the
  Rename/Save toggle, the rename request it sends, and when the parent hears of success.

JavaScript values are modelled as decoded JSON (`Js.Json`), with `undefined` as `None`.
`Js` also defines truthiness, strict and loose comparison with `true`, and member access
that throws a `TypeError` on `null` or `undefined`. It defines the text a template
literal produces and decimal printing of integers. Network replies are inputs: an `ok`
flag or a status, and a decoded body (`None` when decoding threw). A request that threw
is `None` as a whole. The map
is modelled only as its sources and layers, keyed by id.

The band boundaries follow the code. For a list of fewer than ten values, the leading
bands read `values[-1]`, which is `undefined`. So `[5, 5, 5]` gives three undefined
bands, then seven bands of 5 (`Regional.QuantilesOfThreeFives`).

Files: `wrappers.dfy` (Option, Result), `js.dfy` (JavaScript value semantics),
`sorting.dfy` (ascending sort), `regional.dfy`, `shelf.dfy`, `columns.dfy`, `shared.dfy`,
`card.dfy`.

## Model

| member | source | states |
|---|---|---|
| Regional.KeepFeatures | src/components/Map/RegionalCx.js:68 | With the empty or all-counties choice, every feature is kept in order. |
| Regional.KeepFeaturesCount | src/components/Map/RegionalCx.js:68 | A feature that passes the county test appears as often as in the input. Any other feature does not appear. |
| Regional.KeepFeaturesMembers | src/components/Map/RegionalCx.js:68 | A feature is kept exactly when it is in the input and its `co_name` equals the county, or the choice is empty or all counties. |
| Regional.KeepFeaturesAppend | src/components/Map/RegionalCx.js:68 | Filtering a concatenation concatenates the filtered parts, so the input order is kept. |
| Regional.KeepFeaturesSingle | src/components/Map/RegionalCx.js:68 | A single feature is kept exactly when it passes the county test. |
| Regional.DefinedValuesSpec | src/components/Map/RegionalCx.js:69-70 | Value x occurs as often as features carry the number x (an independent count). A value is in the list exactly when some feature carries it. `null` and missing values never appear. |
| Regional.DefinedValuesAppend | src/components/Map/RegionalCx.js:69-70 | Mapping and filtering a concatenation concatenates the parts' values, so the input order is kept. |
| Regional.DefinedValuesSingle | src/components/Map/RegionalCx.js:69-70 | A single feature contributes its value exactly when the value is a number. It contributes nothing when the value is `null` or missing. |
| Sorting.SortAscending | src/components/Map/RegionalCx.js:71 | The result is ascending and a permutation of the input. |
| Sorting.SortedPermutationsEqual | src/components/Map/RegionalCx.js:71 | Two ascending permutations of one multiset are equal. So any sort with comparator `a - b` yields the model's list. |
| Regional.BandValuesSpec | src/components/Map/RegionalCx.js:67-71 | The value list is ascending. Each value occurs as often as kept features carry it (an independent count). A value is present exactly when a kept feature carries it. |
| Regional.BandIndexRange | src/components/Map/RegionalCx.js:74 | Every band index lies in [-1, L-1]. It is -1 exactly when (i+1)·L < 10. Band 9 reads rank L-1. |
| Regional.BandIndexMonotone | src/components/Map/RegionalCx.js:74 | Band indices never decrease with the band number. |
| Regional.BandIndexStrict | src/components/Map/RegionalCx.js:74 | With L ≥ 10, every index is at least 0 and the indices strictly increase. |
| Regional.QuantilesShape | src/components/Map/RegionalCx.js:73-76 | There are exactly ten boundaries. Band i is undefined exactly when (i+1)·L < 10. Every defined boundary is an element of the list. The last band holds the last (largest) element. |
| Regional.QuantilesMonotone | src/components/Map/RegionalCx.js:71-75 | Over a sorted list, once a band is defined every later band is too, and defined boundaries never decrease. |
| Regional.QuantilesDistinct | src/components/Map/RegionalCx.js:73-76 | With at least ten strictly increasing values, all ten boundaries are defined and pairwise distinct. |
| Regional.DistinctBoundariesAtMostLength | src/components/Map/RegionalCx.js:73-76 | The defined boundaries take at most L distinct values. |
| Regional.QuantilesOfOneToTen | src/components/Map/RegionalCx.js:73-76 | The values 1..10 give the boundaries 1..10. |
| Regional.QuantilesOfThreeFives | src/components/Map/RegionalCx.js:73-76 | `[5,5,5]` gives three undefined bands, then seven bands of 5. |
| Regional.ColorStops | src/components/Map/RegionalCx.js:78 | There are ten stops. Stop i pairs boundary i with palette colour i. |
| Regional.BandColorStopsSpec | src/components/Map/RegionalCx.js:67-78 | The stops of a feature set list the palette in order. Each is paired with its band's boundary. Defined boundaries never decrease along the stops. |
| Regional.RegionFilter | src/components/Map/RegionalCx.js:97-103 | There is no filter exactly for the all-counties choice. Any other county gives a `co_name` equality test on that county. |
| Regional.RegionFilterMatchesKept | src/components/Map/RegionalCx.js:97-103 | For every non-empty county choice, the layer shows exactly the features the value list is drawn from. |
| Regional.EmptyCountyFiltersDisagree | src/components/Map/RegionalCx.js:68-99 | At the empty county choice, the value list keeps every feature. The layer shows only features whose `co_name` is empty. |
| Regional.ChoicesOffered | src/components/Map/RegionalCx.js:9-12 | The page starts on a county and an attribute from the lists the header is given. No offered county is empty. |
| Regional.OfferedCountiesMatchKept | src/components/Map/RegionalCx.js:9-103 | For every county in the header's list, the layer shows exactly the features the value list is drawn from. |
| Regional.MaxOfAttribute | src/components/Map/RegionalCx.js:35-40 | The result is NaN exactly when a kept feature lacks the attribute. It is -Infinity exactly when no feature is kept. Otherwise it is at least every kept value (null counting as 0) and equals one of them. |
| StudyShelf.SchemaFor | src/components/StudyShelf/StudyShelf.js:26 | The schema is `lts` exactly for the `bike` connection and `sidewalk` for every other. |
| StudyShelf.EnrichStudy | src/components/StudyShelf/StudyShelf.js:34-42 | Enrichment succeeds exactly for an object whose `bike_ped_crashes` is an array. Anything else throws. |
| StudyShelf.EnrichAll | src/components/StudyShelf/StudyShelf.js:34 | On success there is one row per study, in the same order. The mapping fails exactly when some study throws. |
| StudyShelf.RefreshSpec | src/components/StudyShelf/StudyShelf.js:33-50 | Rows appear exactly when `data.studies` is a non-empty array whose every study enriches. Then there is one row per study, in order. Otherwise, and on any thrown error, the list is empty. |
| StudyShelf.EnrichStudySpec | src/components/StudyShelf/StudyShelf.js:35-41 | A row keeps every field of the study unchanged and adds exactly the two message fields. Both messages are the too-long text exactly when some crash entry is a string containing "414". Otherwise `bikeCrashesMessage` reports the first entry's "Total Bike Crashes" and `pedCrashesMessage` its "Total Pedestrian Crashes", each 0 when absent or null, followed by one space. |
| StudyShelf.CrashMessageSpec | src/components/StudyShelf/StudyShelf.js:36-41 | A "414" entry yields the too-long text. Otherwise the message is the first entry's count (0 when the entry or its field is absent or null) followed by one space. The two cases never coincide. |
| StudyShelf.CrashCountReadsBack | src/components/StudyShelf/StudyShelf.js:38 | A numeric first-entry count is read back exactly from its message. |
| Columns.StudyColumnsLayout | src/components/StudyShelf/columns.js:5-125 | There are 21 columns, starting with Shared, Username and Segment Name. No field appears twice. The crash columns show the two fields the shelf adds. |
| Columns.LinkSchema | src/components/StudyShelf/columns.js:17 | The link's schema segment is `lts` exactly for the `bike` connection and `sidewalk` otherwise, `undefined` included. |
| Columns.LinkPathRoundTrip | src/components/StudyShelf/columns.js:17 | The link path gives back the owner, schema and segment it was built from whenever none contains a `/`. |
| Columns.PublicLinkSpec | src/components/StudyShelf/columns.js:15-17 | The link is shown exactly when `shared == true` (loose equality), in particular for `true`. It is `/webmaps/link/user/<username>/<schema>/study/<seg_name>`. |
| Columns.ShelfLinkAsWrittenUsesWrongSchema | src/components/StudyShelf/StudyShelf.js:14 | With the columns wired as the shelf does it, a shared bike study's link names the `sidewalk` schema. |
| Columns.ShelfLinkNamesFetchedSchema | src/components/StudyShelf/columns.js:4-17 | With the connection passed to the columns, the link names the schema the shelf fetched from. |
| Columns.IsochroneCell | src/components/StudyShelf/columns.js:33 | The cell reads "Yes" exactly for the value `true` (strict) and "No" for anything else. |
| Columns.CellTestsNested | src/components/StudyShelf/columns.js:15-124 | A value the isochrone cell shows as "Yes" would show the Public Link. A value that shows the link is shown as is by an N/A cell (logical OR with 'N/A'). |
| Columns.SharedLooseIsochroneStrict | src/components/StudyShelf/columns.js:15-124 | Neither implication reverses. A numeric 1 shows the Public Link but reads "No" in the isochrone cell. The text "yes" is shown as is by an N/A cell (logical OR with 'N/A') but shows no link. |
| Columns.OrNotAvailable | src/components/StudyShelf/columns.js:102-125 | The renderer of the circuit, essential-services and rail-stations cells shows a truthy value as is and "N/A" for a falsy one. |
| Columns.OrNotAvailableIsOr | src/components/StudyShelf/columns.js:102-125 | The cell's value is JavaScript's logical OR of the value and 'N/A' under the model's truthiness. |
| SharedStudy.LegendSchema | src/components/SharedStudy/SharedStudy.js:31-35 | The label is "bike" exactly for `lts` and "sw" for every other schema. |
| SharedStudy.RequestUsername | src/components/SharedStudy/SharedStudy.js:39 | The request user is the signed-in nickname when present and non-empty, otherwise the route's username. |
| SharedStudy.RequestUsernameIsOr | src/components/SharedStudy/SharedStudy.js:39 | The request user is JavaScript's logical OR of `user?.nickname` and `propUsername` under the model's truthiness. |
| SharedStudy.FetchStudySpec | src/components/SharedStudy/SharedStudy.js:37-53 | From the initial state, loading always ends. A non-ok reply exactly gives "Study not found". An unshared first study exactly gives "Study not shared". The body is stored exactly when ok, decoded and shared. An error is set exactly when nothing is stored. |
| SharedStudy.FetchStudyFrame | src/components/SharedStudy/SharedStudy.js:37-53 | From any state, loading ends and the fetch does what it does from the initial state. A success stores the body and leaves the error as it was. A failure sets the error and leaves the stored study as it was, even when that error was already set. |
| SharedStudy.FirstStudySharedExamples | src/components/SharedStudy/SharedStudy.js:46 | A body with a first study `{shared: true}` is shared. A body without `studies` throws. |
| SharedStudy.Render | src/components/SharedStudy/SharedStudy.js:205 | The error view replaces all content exactly when an error is set. |
| SharedStudy.RenderAfterFetch | src/components/SharedStudy/SharedStudy.js:37-53 | After the fetch, the error view shows exactly when no study was stored. A reply that is not ok shows "Study not found". Otherwise the stored body is shown with loading over. |
| SharedStudy.AddGeoJsonLayerSpec | src/components/SharedStudy/SharedStudy.js:80-103 | With no map or no data nothing changes. Otherwise the geometry source holds the data, replacing an existing source rather than adding one. The layer is added only if absent, and an existing one is kept. No other source or layer changes. |
| SharedStudy.AddGeoJsonLayerIdempotent | src/components/SharedStudy/SharedStudy.js:81-90 | Adding the geometry twice leaves the map as adding it once. |
| SharedStudy.BeneathLayer | src/components/SharedStudy/SharedStudy.js:101 | The geometry goes beneath `lts` exactly for the lts schema and beneath `sw` otherwise. |
| SharedStudy.BeneathLayerMatchesLegend | src/components/SharedStudy/SharedStudy.js:31-101 | The base layer and the legend label agree on the schema. |
| StudyCard.CardSchema | src/components/StudyShelf/StudyCard.js:12-16 | `bike` maps to `lts` and `pedestrian` to `sidewalk`. The schema is undefined exactly for every other connection. |
| StudyCard.CardSchemaAgreesWithShelf | src/components/StudyShelf/StudyCard.js:12-16 | Where the card has a schema it is the shelf's. Where it has none, the shelf uses `sidewalk`. |
| StudyCard.InitialCard | src/components/StudyShelf/StudyCard.js:6-7 | The card starts out of edit mode, with the editable name set to the study's `seg_name`. |
| StudyCard.StepSpec | src/components/StudyShelf/StudyCard.js:9-29 | A click flips edit mode. A request is sent exactly on a click while editing, and it leaves edit mode. The request body is `{oldName: seg_name, newName: edited name}`. Typing never changes the mode. |
| StudyCard.RunRequestsSpec | src/components/StudyShelf/StudyCard.js:9-29 | Over any event sequence, every request goes to the same rename URL with the study's `seg_name` as old name. The number of requests is (clicks + 1 if the card started in edit mode) / 2, since clicks alternate between entering edit mode and saving. The card ends in edit mode exactly when that parity says so. Every new name is the starting name or a typed text. |
| StudyCard.RenameRoundTrip | src/components/StudyShelf/StudyCard.js:7-29 | Rename, type, save sends one request from `seg_name` to the typed name and leaves edit mode. |
| StudyCard.NotifiesParent | src/components/StudyShelf/StudyCard.js:33-38 | `onRenameSuccess` runs exactly for status 200 whose body reads as JSON, with a function callback. A thrown request never notifies. |
| StudyCard.ClickOutcomeSpec | src/components/StudyShelf/StudyCard.js:9-38 | The parent is told only for a save whose reply notifies. A save leaves edit mode whatever the reply, because the mode is reset before the request. |
| StudyCard.Render | src/components/StudyShelf/StudyCard.js:64-77 | The button reads "Save" exactly while editing and "Rename" otherwise. The text input, holding the edited name, is shown exactly while editing. Otherwise the heading shows `seg_name`. |
| StudyCard.RenderFollowsStep | src/components/StudyShelf/StudyCard.js:64-77 | A click flips the button label. Entering edit mode shows the field holding the name. Saving brings back the `seg_name` heading. Typing while editing shows the typed text, and typing otherwise changes nothing. The initial card shows "Rename" and `seg_name`. |

## Findings

| source | as written | input that shows it | evidently intended | confidence | as-written member | corrected member |
|---|---|---|---|---|---|---|
| src/components/StudyShelf/StudyShelf.js:14 | `useColumns()` is called with no arguments, so the columns see `connectionType` as `undefined`. | The bike shelf, whose studies come from `lts`, with a shared study: its Public Link points into `sidewalk`. | Pass the shelf's connection type, so the link names the schema the studies were fetched from. | high for the missing argument; not executed | Columns.ShelfLinkAsWrittenUsesWrongSchema | Columns.ShelfLinkNamesFetchedSchema |

## Left out

- Mapbox: map construction, styles, vector tile sources, paint, popups, cursor handlers, `fitBounds` and `map.remove()`. These are calls into a widget library. The map is modelled only as its sources and layers by id.
- Turf's `bbox` is a foreign library call.
- Network and authentication (`fetch`, the authenticated request helper, `response.json()`, the sign-in hook). Their results are inputs: an ok flag, a status, a decoded body, or `None` when they throw.
- `fetchGeoms` in SharedStudy.js (lines 55-78) only stores a fetched body. The geometry data is an input to `SharedStudy.AddGeoJsonLayer`.
- React scheduling: effect timing, dependency arrays and re-render order are asynchronous lifecycle, not data logic.
- The text of the `toLocaleString('en-US')` cells depends on locale and is not modelled. The card's `JSON.stringify` texts, the rest of the JSX layout and console logging are not modelled either.
- StudyCard.Render assumes the card renders at all. The card calls `data.has_isochrone.toString()` (StudyCard.js:83), which throws when `has_isochrone` is `null` or missing, and then no button is shown.
- StudyShelf.Refresh and the column members assume the table renders. The `toLocaleString` cells (columns.js:38-99) throw when a count field such as `miles` or `total_pop` is `null` or missing, and then the table shows none of the modelled cells.
- Numbers are integers, so fractional values such as `miles` are out of scope.
- Regional.MaxOfAttribute takes the county and the attribute as parameters. In the page, the reduce runs once, in the effect that fetches the data on mount (RegionalCx.js:26-49, with no dependencies). So it only ever sees the starting choices, all counties and `total_pop` (`Regional.InitialCounty`, `Regional.InitialAttribute`), whatever the user picks later. Its result is read only as a dependency of the map effect (line 129).
- Js.IntToDecimal: JavaScript prints numbers of magnitude 1e21 or more in exponent form, and integers above 2^53 are not exact. The model prints every integer in plain decimal, so the round trip of `StudyShelf.CrashCountReadsBack` matches JavaScript only below those bounds.
- RegionalHeader, the component that sets the county choice, is not part of this model. The choice starts as the all-counties string. The list it is given holds no empty county (`Regional.ChoicesOffered`), so the empty choice, where the value list and the layer filter disagree (`Regional.EmptyCountyFiltersDisagree`), does not come from that list. What the header does with the list is not modelled.
- Regional.Feature: a feature always has a `co_name` string. With the county empty, the map's layer test `['==', ['get', 'co_name'], currentCounty]` (RegionalCx.js:99) hides a feature with no `co_name`, while the model would treat a `co_name` of "" as matching. This differs only at the empty county, which the offered list does not contain.
- Js.ToNumber: it reads only plain decimal integers. JavaScript's whitespace trimming, a leading `+` sign, fractions, exponents and hexadecimal numerals are not modelled, so `shared == true` is exact only for such values.
- SharedStudy.ErrorMessage: the runtime's message for a thrown error is not modelled, only that an error was set. The page stores `err.message` (SharedStudy.js:49) and shows the error view only when that message is truthy (line 205). So the model assumes every thrown error has a non-empty message; one without a message would show no error view.
- SharedStudy.RenderAfterFetch: the study view assumes the first study's `bike_ped_crashes`, `essential_services` and `rail_stations` are arrays of non-null entries. The view maps over each (SharedStudy.js:312, 325, 337) and reads members of each entry (lines 318-319, 331, 343). A missing or null list or entry throws while rendering, and then nothing is shown.
- The table library decides how it calls the lower-case `cell` renderers and what `info.value` holds. The cell functions take that value as their input.
- The sharing switch's `onChange` handler is not modelled.
- Mapbox's handling of a `beforeId` layer that does not exist (a schema that is neither `lts` nor `sidewalk` adds no `sw` base layer) is library behaviour. The model records only which layer the geometry was requested beneath.
- GetGeoms.js holds no logic (its body is commented out). App.js is routing only.
