# romania-3d: census pipeline, mesh bookkeeping and camera persistence

This project models the data-to-scene core of `script.js`, a page that draws Romania's counties as extruded solids. Each solid's height and brightness follow the county's population in the chosen census year.

- **Loading** (`Loader`): `loadData` starts one fetch per data source. Each fetch's handler stores its data under the source's key and counts down. The callback runs when the count reaches zero. The fetches are I/O and stay outside the model. The model is the bookkeeping, run over the sequence of handler calls in completion order. It has two layers: pure `Step`/`Run` functions, and the class `LoadBarrier`, whose `Handle` method updates the counter and results in place.
- **Census table** (`Census`, with `JsNumber` and `ObjectKeys`):
  - `extractYears` takes the CSV header names other than `name`, in `Object.keys` order, and applies `parseInt` to each.
  - `prepareCensusData` is the class `CensusModel`. Its `Prepare` method loops over the rows and over the years. It fills `censusData` (county code → year → population) and tracks the largest population.
  - `getPopulation` is a lookup whose failure cases are explicit.
  - `parseInt`, the number-to-key conversion and the key order of `Object.keys` are modelled exactly enough to prove two things: when every header other than `name` is the canonical form of a year below 2^32 - 1 (an array index), the years come out ascending; and `row[year]` reads the column the year came from.
- **Scales** (`Scales`): the two d3 linear scales built from the maximum. One maps population to extrusion over [0, `MAX_EXTRUSION`], the other to luminance over [0, 1]. Values are exact reals.
- **Scene** (`Scene`): `renderPopulation` is the class `SceneManager`. The scene is modelled as the set of object identities in it, plus `meshes` and an identity allocator. Removing the old meshes and adding the new ones are loops. A mesh is a fresh identity tagged with its county, extrusion, luminance and vertical offset.
- **Camera persistence** (`CameraStore`): `saveCameraOrientation` and `restoreCameraOrientation` walk the attribute list of `cameraIter`. They are modelled as pure folds (`Save`, `Restore`) and as methods that loop over the classes `Camera` and `SessionStorage`. Each operation takes the attribute list as a parameter, so the list as written and the corrected list are both modelled.

The behaviour modelled is the code's, including its failure paths:
- An exception is an explicit outcome (`threw`, `ok`, `Failed`), and the effects made before it are kept.
- An empty CSV makes `recensaminte[0]` undefined, so `Census.CensusModel.Build` returns `None`.
- A county without census data makes `getPopulation` throw a TypeError. `RenderPopulation` then reports `ok == false`. `meshes` keeps its old value even though those meshes have already left the scene. The meshes built before the missing county stay in the scene.
- A failed fetch makes its handler throw, so the callback never runs.
- The largest population can come from a row that a later row with the same county code overwrites. The maximum is sure to be a stored value when county codes are distinct (`Census.MaxIsStoredWhenCodesDistinct`); with a shared code it can be a value stored nowhere (`Census.MaxFromOverwrittenRow`).

In three places the code does less than a reader might expect, and the model follows the code:
- A mesh is lowered by its whole extrusion (`translateZ(-extrusion)`), not by half of it.
- The scales do not clamp: a population outside [0, max] maps outside the range.
- The attribute list is `position`, `quarternion`, `up`. `restoreCameraOrientation` is not guarded: it throws on stored text that is not JSON.

## Model

| member | source | states |
|---|---|---|
| JsNumber.ParseInt | script.js:184 | `parseInt(s, 10)`: a blank string is NaN, and a plain string of decimal digits reads as its decimal value |
| JsNumber.TrimStartSkipsWhiteSpace | script.js:184 | `parseInt`'s first step drops exactly the leading white space: everything dropped is white space, and what is kept does not start with any |
| JsNumber.DigitRunIsLongest | script.js:184 | the digits `parseInt` reads are the longest run of decimal digits at that point |
| JsNumber.NatToDigitsCanonical | script.js:183-186 | the key written for a non-negative year is a canonical digit string whose value is the year |
| JsNumber.ParseIntToString | script.js:184-186 | reading back the property key a number is written as gives the same number (NaN included), so keying `datum` by the year's string is keying by the year |
| JsNumber.ToStringOfCanonical | script.js:166-172 | a canonical digit header name is exactly the key its parsed year is written back as |
| ObjectKeys.Names | script.js:166-172 | a row's property names, one per column, in column order |
| ObjectKeys.Get | script.js:179-184 | `row[key]` is undefined exactly when no column has that name, and otherwise is the text of a column with that name |
| ObjectKeys.Insert | script.js:166-172 | inserting an array-index key keeps the index keys ascending and adds exactly that key |
| ObjectKeys.SortIndices | script.js:166-172 | `Object.keys` lists array-index keys in ascending numeric order, as a permutation of them |
| ObjectKeys.OwnKeys | script.js:166-172 | `Object.keys` of a row: one key per column, and a name is a key exactly when some column has it |
| ObjectKeys.OwnKeysPermutation | script.js:166-172 | `Object.keys` lists every property name as often as the row has it: the keys are a permutation of the names |
| ObjectKeys.OwnKeysOnce | script.js:166-172 | for a row whose column names are distinct, as every JavaScript object's are, `Object.keys` lists every property name exactly once |
| ObjectKeys.OwnKeysCreationOrder | script.js:166-172 | with no array-index names, `Object.keys` is column order |
| ObjectKeys.SplitNames | script.js:166-172 | the index names and the other names together are all the names |
| Census.NonNameKeys | script.js:167-169 | the filter keeps exactly the keys other than `name`, dropping one element per `name` |
| Census.ParseAll | script.js:169-171 | the map yields one `parseInt` result per key, in the same order |
| Census.ExtractYears | script.js:166-172 | `extractYears` fails exactly on an empty table (`recensaminte[0]` is undefined); otherwise it gives one year per column of the first row other than `name` |
| Census.YearsFromHeader | script.js:166-172 | whatever order `Object.keys` puts them in, the years are the parsed header names of the first row's columns other than `name`, each as often as it heads a column (a permutation of them) |
| Census.YearKeysSorted | script.js:166-172 | when every header other than `name` is an array index, the filtered keys are those indices in ascending order |
| Census.YearsAscending | script.js:166-172 | such years are non-negative integers in ascending order |
| Census.HeaderYearReadsColumn | script.js:184 | `row[year]` for a year parsed from a canonical header name reads that header's column, or `undefined` when the row lacks it |
| Census.UndefinedIsNaN | script.js:184 | `parseInt` of a missing cell (`"undefined"`) is NaN |
| Census.Code | script.js:179 | a row's county code is `undefined` or one of the codes in `id_judete` |
| Census.Cell | script.js:184 | `parseInt(row[year], 10)` is NaN when no column is headed by the year's string form |
| Census.GetPopulationAfterPrepare | script.js:10-12 | after preparation, `getPopulation` finds no county exactly when no row maps to that code; when some row does, it finds no year exactly when the year is not among the years |
| Census.RowMax | script.js:183-191 | the running maximum after one row is never below its start value |
| Census.TableMax | script.js:178-196 | the running maximum after all rows is never below its start value |
| Census.Table | script.js:178-194 | preparation keeps every code the table already had |
| Census.RowMaxIsLeastBound | script.js:183-191 | one row's running maximum is at least the start value, bounds every integer cell of that row in the years, and is either the start value or one of those cells |
| Census.TableMaxIsLeastBound | script.js:175-196 | the same over all rows: the returned maximum bounds every integer cell and is 0 or some cell |
| Census.TableUntouched | script.js:193 | a county code no row maps to keeps its previous entry, or stays absent |
| Census.TableLastRowWins | script.js:193 | a row whose code no later row repeats is the one stored under that code |
| Census.TableKeys | script.js:179-193 | after preparation the table's codes are the old codes plus the code of each row |
| Census.TableCoversYears | script.js:181-193 | every row's entry has exactly the years as its keys |
| Census.TableEntryOrigin | script.js:193 | every entry is the old one or the datum of a row with that code |
| Census.StoredBelowMax | script.js:188-196 | no stored integer population exceeds the returned maximum, which is at least 0 |
| Census.MaxIsStoredWhenCodesDistinct | script.js:188-193 | when county codes are distinct, the returned maximum is 0 or a stored population |
| Census.TwoRowsMax | script.js:188-190 | a concrete two-row table whose maximum comes from the first row |
| Census.TwoRowsSameCode | script.js:179-193 | with two rows for the same code, only the second row's datum is stored |
| Census.MaxFromOverwrittenRow | script.js:188-193 | the maximum can come from an overwritten row, and then no stored cell equals it |
| Census.PopulationOfPreparedRow | script.js:184-193 | `getPopulation` of a prepared row that no later row overwrites returns that row's parsed cell for each year |
| Census.ReadRow | script.js:181-191 | the inner loop's `datum` maps every year to its parsed cell, and its running maximum is `RowMax` |
| Census.CensusModel.Prepare | script.js:174-197 | `censusData` becomes the old table updated row by row, the returned maximum is `TableMax` from 0, and `years` is unchanged |
| Census.CensusModel.Build | script.js:202-203 | an empty table throws (`None`) and changes nothing; otherwise `years` comes from the header and the table and maximum are as in `Prepare` |
| Scales.Linear | script.js:205-206 | a d3 linear scale from [0, max] gives no number exactly when the population is NaN |
| Scales.Extrusion | script.js:205 | the extrusion scale gives no number exactly for NaN, and maps a population between 0 and the maximum into [0, `MAX_EXTRUSION`] |
| Scales.Luminance | script.js:206 | the luminance scale gives no number exactly for NaN, and maps a population between 0 and the maximum into [0, 1] |
| Scales.ScaleMonotone | script.js:205-206 | a larger population never gets a smaller extrusion or luminance |
| Scales.ScaleEndpoints | script.js:205-206 | 0 maps to 0, and the maximum maps to the top of the range unless the domain is empty |
| Scales.ScaleWithinRange | script.js:205-206 | a population between 0 and the maximum maps between 0 and the top of the range |
| Scales.StoredPopulationInRange | script.js:203-206 | every stored integer population has extrusion at most `MAX_EXTRUSION` and luminance at most 1, and both are at least 0 when the population is not negative |
| Loader.Step | script.js:142-152 | one handler call: a failure throws and changes nothing; data is stored under the source's key, every other entry of `results` keeps its value, and the counter drops by one; a loaded call whose count reaches 0 passes the results to the callback, and no call leaving the count above 0 does |
| Loader.Run | script.js:137-158 | after some handler calls, the counter lies between the number of sources less the number of calls and the number of sources |
| Loader.IndicesSize | script.js:138 | the source indices are exactly 0 up to the number of sources |
| Loader.LoadedSourcesMembers | script.js:142-147 | a source counts as loaded exactly when one of its handler calls delivered data |
| Loader.AtMostOnce | script.js:147-151 | the callback runs at most once, only when the counter has reached 0, and with at least one source exactly then |
| Loader.RunResults | script.js:145 | the results' keys are exactly the keys of the sources that have loaded |
| Loader.RunRemaining | script.js:138-147 | with each handler called once, the counter is the number of sources minus the number loaded |
| Loader.RunDelivered | script.js:149-151 | the callback receives the results object as it stands |
| Loader.FiresIffAllLoaded | script.js:147-151 | with at least one source, the callback has run exactly when every source has loaded |
| Loader.DeliveredResults | script.js:145-151 | once the callback has run, it ran once, every source had loaded, and the results carry every source's key |
| Loader.RunValues | script.js:145 | with distinct source keys, the results hold under each loaded source's key exactly the data its handler received |
| Loader.DeliveredValues | script.js:145-150 | with distinct source keys, the results the callback receives map each source's key to that source's loaded data |
| Loader.FailureSuppresses | script.js:143 | one failed fetch means the callback never runs |
| Loader.NoSourcesNeverFires | script.js:138-151 | with no sources the callback never runs |
| Loader.AllLoadedFiresOnce | script.js:142-151 | when every source loads, the callback runs exactly once, with every source's key |
| Loader.DataSourcesDelivered | script.js:160-164 | the page's callback receives exactly the keys `judete`, `id_judete` and `recensaminte`, each holding the data its own fetch delivered |
| Loader.LoadBarrier.constructor | script.js:137-157 | one request per source, in order, with that source's loader and arguments; the counter starts at the number of sources |
| Loader.LoadBarrier.Handle | script.js:142-152 | a handler call is one `Step` of the barrier: a failure throws and changes nothing, and data is stored, counted and delivered when the count reaches 0 |
| Scene.MeshFor | script.js:104-132 | a county's mesh carries its county and a fresh identity; it has no extrusion, luminance or offset exactly when the population is NaN; its offset is minus its extrusion; a population between 0 and the maximum gives an extrusion in [0, `MAX_EXTRUSION`] and a luminance in [0, 1] |
| Scene.BuildMeshes | script.js:104-133 | `counties.map` builds one mesh per county |
| Scene.FirstMissing | script.js:104-105 | the index where `getPopulation` first throws: every earlier county has data and that county has none |
| Scene.FirstMissingAt | script.js:104-105 | a county without data stops the render there, and not every county has data |
| Scene.IdsMembers | script.js:99-102 | the identities of a list of meshes are those of its elements |
| Scene.BuildMeshesPointwise | script.js:104-133 | mesh `i` draws county `i`, has identity `firstId + i`, and carries that county's extrusion and luminance for the year; its offset is minus its extrusion |
| Scene.BuildMeshesIds | script.js:104-133 | the new meshes have distinct identities, exactly `firstId` to `firstId + n - 1` |
| Scene.SceneAfterRender | script.js:98-134 | after a full render, no old mesh is in the scene and every new one is; every other object is kept; the scene grows by the number of counties, less the old meshes removed |
| Scene.BuildInto | script.js:104-133 | the map loop builds one mesh per county until the first county without data, adding each to the scene; it succeeds exactly when every county has data |
| Scene.SceneManager.RemoveMeshes | script.js:99-102 | every current mesh leaves the scene; nothing else changes |
| Scene.SceneManager.AddMeshes | script.js:104-133 | the loop on the fields: the built meshes are added to the scene with fresh identities; `meshes` is not yet touched |
| Scene.SceneManager.RenderPopulation | script.js:98-134 | on success `meshes` is one mesh per county and the scene swaps the old meshes for the new; on a missing county `meshes` is unchanged, its meshes are out of the scene, and the meshes built so far are in it |
| CameraStore.Attribute | script.js:68-79 | `camera[key]` is defined for the three persisted attributes `position`, `quaternion` and `up`, and reads as `undefined` for any other name, `quarternion` included |
| CameraStore.SetAttribute | script.js:78 | `fromArray` sets one attribute and leaves the others |
| CameraStore.Save | script.js:64-72 | saving never removes a stored item |
| CameraStore.Restore | script.js:74-81 | restoring keeps every attribute's number of coordinates |
| CameraStore.Camera.FromArrayInto | script.js:78 | `fromArray` on the camera's object sets that one attribute, coordinate by coordinate, and leaves the others |
| CameraStore.SaveThrowsIff | script.js:64-72 | save throws exactly when the list names something other than the three persisted attributes |
| CameraStore.SaveWrites | script.js:68-72 | a completed save has stored every listed attribute's coordinates under `camera.<name>` |
| CameraStore.SaveKeepsOthers | script.js:68-72 | whether or not save completes, it touches no other storage key |
| CameraStore.RestoreThrowsIff | script.js:74-81 | restore throws exactly when a listed key holds text that is not JSON, or an array for a name that is not a camera attribute |
| CameraStore.RestoreOnlyPresent | script.js:74-81 | restore changes only listed attributes that have an array stored |
| CameraStore.RestoreFromEmpty | script.js:74-81 | restoring from a store without the listed keys changes nothing and does not throw |
| CameraStore.RestoreWritten | script.js:74-81 | restoring from a store holding each listed attribute's coordinates sets exactly those attributes, without throwing |
| CameraStore.RoundTrip | script.js:64-81 | save then restore, with camera attributes only, reproduces every listed attribute and keeps the others |
| CameraStore.IntendedRoundTrip | script.js:64-81 | with `quaternion` spelled as the camera spells it, save then restore reproduces the whole saved camera |
| CameraStore.AsWrittenSaveStopsAtTypo | script.js:64-72 | as written, save stores `camera.position` and then throws, storing nothing else |
| CameraStore.AsWrittenLosesUp | script.js:64-81 | as written, save on unload then restore on the next load brings back `position` only; a saved camera whose `up` differs from the new camera's is not reproduced |
| CameraStore.SaveCameraOrientation | script.js:68-72 | the loop leaves storage as `Save` says, and throws as it says |
| CameraStore.RestoreCameraOrientation | script.js:74-81 | the loop leaves the camera as `Restore` says, and throws as it says |

## Left out

- The fetches `d3.json` and `d3.csv` (script.js:154-156), their asynchrony and the parsing of JSON and CSV. The loaded data is an opaque value. Handler calls are an event sequence. d3 calling each handler at most once is the `Distinct` precondition.
- The leak of `args` into a global variable (script.js:154). The requests are recorded per source instead.
- The page callback beyond lines 202-206: topojson features, `initGeometry` and the year buttons (script.js:208-231).
- `initThree`, `render`, `animate`, `onWindowResize` and the window event bindings (script.js:22-61, 233-234). The only effect kept is the order: restore at setup, save on unload.
- Mesh geometry, materials, `d3.hsl` colours, rotations and the x/y translations (script.js:108-127). A mesh is an identity with its county, extrusion, luminance and z offset.
- Floating point. Populations are unbounded integers, scale values are exact reals, and camera coordinates are reals. `parseInt` results above 2^53 lose precision in script.js but not in the model.
- The `year_sums` object (script.js:176), which is never used.
- Inherited and prototype properties of rows and of `id_judete`. A county name that is not an own property reads as `undefined`.
- JSON serialisation of camera attributes. A stored item is an array of coordinates, a falsy value, or text that is not JSON. Stored JSON that parses to a truthy non-array (an object, a string, a number) is not modelled.
- The quaternion's change callback, which updates `camera.rotation`. `null` and `undefined` coordinates are the same `None`.
- Census.ExtractYears: a row is a list of named columns, and a header with a repeated column name is not merged the way d3's CSV parser would merge it; every other statement about keys holds for any row, and `ObjectKeys.OwnKeysOnce` covers rows with distinct names.
- CameraStore.Attribute: only the three persisted attributes (`position`, `quaternion`, `up`) are modelled, and every other name reads as `undefined`. That is right for `quarternion` but not for the camera's other attributes, such as `rotation` or `scale`. A list naming `rotation` throws in the model, where script.js would store it. `CameraStore.SaveThrowsIff` and `CameraStore.RestoreThrowsIff` inherit this.
- CameraStore.AsWrittenLosesUp: assumes a session store without `camera.up` and `camera.quarternion`, which is what a new session has; a store seeded by other code is not covered.

## Findings

| source | as written | input that shows it | evidently intended | confidence | as-written member | corrected member |
|---|---|---|---|---|---|---|
| script.js:65 | `cameraIter` lists `quarternion`, which is not a camera attribute, so `saveCameraOrientation` throws a TypeError after storing `camera.position`; `quaternion` and `up` are never stored, and a restored camera keeps its default `up` and orientation | any camera whose `up` differs from the new camera's default, saved on unload into an empty session store | the list `position`, `quaternion`, `up`, so that save then restore reproduces the camera | high (not executed) | CameraStore.AsWrittenLosesUp | CameraStore.IntendedRoundTrip |
