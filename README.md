# Welcome planner — a verified model in Dafny

This project models the browser-side logic of the welcomeplanner suite: the
Students' Union Welcome Fair tools for stallholders, visitors and staff. Each
JavaScript component becomes one Dafny module.

- **Map builder** (`admin/map-builder.js`, with its earlier revision
  `admin/map-builderarchive.js`). An editor that paints stalls, buildings and
  infrastructure onto a grid.
  - `GridModel`: cells, the merge rule and the `x-y` grid keys.
  - `RegionMerger`: the flood fill that finds a merge group.
  - `MergeStyles`: the CSS generated for merged regions.
  - `PageGenerator`: the cell markup of the exported page.
  - `MapBuilderModel`: the editor object with its screens, tools, keyboard
    shortcuts and export.
- **Stallholder editor** (`admin/stallholder-editor.js`):
  `StallholderEditorModel`. It loads, sanitises, searches, filters, adds,
  deletes, updates and exports stallholder records for each campus.
- **Stall finder** (`script.js`): `StallFinderModel`.
  - Processing the raw stall list, with neighbour lookup.
  - Autocomplete search and keyboard navigation.
  - Highlighting of matches, location filtering, the number-sorted list and
    the link to a stall's map.
- **Staff rota** (`staff-rota.js`): `StaffRotaModel`. Times and time slots,
  slot and fair status, who is on a task now, and a person's schedule view.
- **Drag handler** (`js/drag-handler.js`): `DragHandler`. Zoom and pan
  gestures, edit mode, the selection band, single and group drags, area
  resizing and stall relabelling.
- **Mobile utilities and area navigation** (`js/mobile_utils.js`,
  `js/main.js`): `MobileUtils` and `AreaNavigation`.
  - Gesture classification, edge touches, area URLs and history navigation.
  - The keyboard focus cycle over area cards.
- **Service workers**:
  - `sw.js.js`: `UnionStaffWorker`, strategy routing, cache clean-up and
    messages.
  - `js/service_worker.js`: `StallPlannerWorker`, cache-first versus
    network-first routing.
  - `sw.js`: `SimpleWorker`, cache-busting data fetches.

Two support modules, `JsStrings` and `JsValues`, give the JavaScript
built-ins these components rely on a definition of their own:
- `trim`, an ASCII `toLowerCase`, `includes`, `indexOf` and `split`;
- `parseInt`, and `Number` on integer text, returning `NaN` explicitly;
- number-to-string conversion and the components' shared `sanitizeString`;
- `filter`, and JSON values with truthiness, `||` and property access.

State that the source keeps in an object becomes a Dafny `class`. Each
method's `modifies` clause names only the fields it may change, so every
other field is unchanged, and its postconditions state the new values of the
fields it names. Pure computations become functions, with
lemmas that relate them to an independent statement of what they mean.

## Model

The earlier revision `admin/map-builderarchive.js` holds the same map-builder
functions. The rows below cite the current `admin/map-builder.js`. The archived
copies are:
- the merge rule at lines 842-855;
- the flood fill at 804-840;
- the anchor choice at 920-935;
- the merge CSS at 857-918;
- the region scan at 779-802;
- the cell markup at 937-959 and its loop at 671-681;
- the size check at 165-168;
- the keyboard shortcuts at 414-459;
- the cell click at 249-289;
- the export at 468-484.

| member | source | states |
|---|---|---|
| JsStrings.Sanitize | script.js:89-92 | `sanitizeString` removes every `<` and `>` and never lengthens the text |
| JsStrings.SanitizeClean | admin/stallholder-editor.js:137-140 | text that is already trimmed and has no angle brackets is left unchanged |
| JsStrings.SanitizeTwice | staff-rota.js:78-81 | sanitising twice equals trimming the first result again: the second pass only trims |
| JsStrings.SanitizeNotIdempotent | script.js:89-92 | sanitising is not idempotent: `"< x"` becomes `" x"` and a second pass gives `"x"` |
| JsStrings.SanitizeIdempotentWhenTrimmed | script.js:89-92 | when the first result is already trimmed, a second pass changes nothing |
| JsStrings.TrimShape | script.js:91 | the trimmed text occurs in the original and neither starts nor ends with white space |
| JsStrings.ParseIntIntToString | admin/map-builder.js:511-515 | `parseInt(String(n))` reads back `n` for every integer |
| JsValues.Or | script.js:68-71 | `a \|\| b` is one of its operands, and it is truthy exactly when one of them is |
| JsValues.GetChecked | script.js:97-101 | reading a property of `null` or `undefined` throws; any other value gives the property |
| JsValues.FilterMembers | sw.js.js:102-107 | `filter` keeps exactly the listed elements that pass the test |
| GridModel.CellKeyInjective | admin/map-builder.js:1058 | the `${x}-${y}` keys of two cells are equal only when their coordinates are |
| GridModel.StallTypes | admin/map-builder.js:1114-1127 | a type name contains `stall` exactly for the three stall kinds |
| GridModel.ShouldMergeIff | admin/map-builder.js:1114-1127 | two cells merge iff both are buildings, or both names contain `stall` with the same non-empty number |
| GridModel.ShouldMergeSymmetric | admin/map-builder.js:1114-1127 | the merge rule is symmetric |
| GridModel.ShouldMergeTransitive | admin/map-builder.js:1114-1127 | the merge rule is transitive |
| GridModel.ShouldMergeSelfIff | admin/map-builder.js:1114-1127 | a cell merges with itself iff it is a building or a numbered stall |
| RegionMerger.Neighbours | admin/map-builder.js:1096-1099 | the flood fill's four neighbours are exactly the adjacent positions |
| RegionMerger.FreshNeighbours | admin/map-builder.js:1101-1107 | the positions queued are the adjacent, in-bounds, unvisited ones |
| RegionMerger.FindMergeGroup | admin/map-builder.js:1076-1112 | the group is distinct, in-bounds cells that merge with the seed. It starts at the start cell, grows 4-connected in order and is closed under merging neighbours. It is empty iff the start cell does not merge. It is exactly `Flood`, the queue loop that visits neighbours left, right, up, down, so the members' order is fixed |
| RegionMerger.MergeGroupUnique | admin/map-builder.js:1076-1112 | any two results for the same start hold the same cells |
| RegionMerger.MergeGroupMaximal | admin/map-builder.js:1076-1112 | every cell reachable from the start through merging neighbours is in the group |
| RegionMerger.GroupsOverlap | admin/map-builder.js:1051-1074 | two groups seeded from their own cells that share a cell contain each other's seed |
| RegionMerger.SmallGroupIsolated | admin/map-builder.js:1062-1066 | a group of at most one cell means no neighbour merges with it |
| RegionMerger.MemberNotIsolated | admin/map-builder.js:1062-1066 | every member of a group of two or more has a merging neighbour |
| MergeStyles.MinX | admin/map-builder.js:1193-1196 | the least x of the group, attained by a member (`MaxX`, `MinY` and `MaxY` likewise) |
| MergeStyles.Centre | admin/map-builder.js:1193-1199 | the rounded centre lies inside the group's bounding box |
| MergeStyles.FindCenterCell | admin/map-builder.js:1192-1207 | the anchor is the first member at the smallest Manhattan distance from the rounded centre |
| MergeStyles.AnchorIsMember | admin/map-builder.js:1192-1207 | the anchor is a member of the group |
| MergeStyles.HasMember | admin/map-builder.js:1147-1150 | the membership test used for borders is true iff the position is in the group |
| MergeStyles.SidesOf | admin/map-builder.js:1143-1151 | a member gets a border on each side whose neighbour is not in the group |
| MergeStyles.SharedEdgeNotDrawn | admin/map-builder.js:1147-1162 | an edge between two members gets no border on either side |
| MergeStyles.MemberRules | admin/map-builder.js:1143-1165 | the per-member border rules, in group order |
| MergeStyles.HiddenRules | admin/map-builder.js:1167-1178 | every member but the anchor gets a `font-size: 0` rule |
| MergeStyles.GenerateMergeCSS | admin/map-builder.js:1129-1190 | one-cell groups give no CSS. Larger groups get the header, the member borders and, for a numbered stall, rules that hide every number but the anchor's |
| MergeStyles.GenerateMergedCellStyles | admin/map-builder.js:1051-1074 | the styles are the CSS of the regions found, in row-major order of their seeds. Each region is its seed's merge group in flood-fill order, and each seed is its region's first cell in row-major order. Regions are pairwise disjoint. An assigned cell is covered iff some neighbour merges with it |
| MergeStyles.VisitCell | admin/map-builder.js:1057-1070 | one scan step keeps the scan invariant and adds at most one region |
| MergeStyles.RegionsApart | admin/map-builder.js:1066-1069 | a seed not in a region starts a region disjoint from it |
| MergeStyles.AddSeedFirst | admin/map-builder.js:1056-1069 | a region found at the scan position has no member earlier in row-major order |
| MergeStyles.ScanComplete | admin/map-builder.js:1051-1074 | after the last row, exactly the non-isolated assigned cells are covered |
| MergeStyles.CoveredNotIsolated | admin/map-builder.js:1051-1074 | a covered cell is assigned and has a merging neighbour |
| MergeStyles.SeedShared | admin/map-builder.js:1051-1074 | a region seed of one result that keeps the scan's promises is a region seed of any other |
| MergeStyles.ScanResultUnique | admin/map-builder.js:1051-1110 | the scan's promises fix its regions: two region lists that both keep them are equal, so the styles, anchors and rule order are determined |
| PageGenerator.CellMarkupRules | admin/map-builder.js:1209-1231 | stall cells carry the `stall` class, a `data-stall` attribute and their number. Other cells show their label, `INF` for unlabelled infrastructure, or nothing |
| PageGenerator.GridCellsMarkup | admin/map-builder.js:943-953 | the markup is the rendering of the row-major layout: a row comment, then each cell of the row |
| PageGenerator.RowCellsMarkup | admin/map-builder.js:944-952 | one row's markup is the rendering of its cells left to right |
| PageGenerator.RowCells | admin/map-builder.js:945-952 | a row has one slot per column, in order |
| PageGenerator.LayoutCounts | admin/map-builder.js:943-953 | the layout has one comment and `width` slots per row |
| PageGenerator.LayoutMembers | admin/map-builder.js:943-953 | each in-bounds cell has exactly one slot, and no other slot exists |
| PageGenerator.LayoutRowMajor | admin/map-builder.js:943-953 | the slots appear in strict row-major order |
| PageGenerator.DisplayName | admin/map-builder.js:759-765 | a location without a display name is shown as itself |
| MapBuilderModel.EmptySizeAccepted | admin/map-builder.js:357-361 | an empty size field parses to NaN, and the check as written accepts NaN |
| MapBuilderModel.DimensionsChecksAgree | admin/map-builder.js:357-361 | the corrected check agrees with the written one on numbers and rejects every NaN size |
| MapBuilderModel.KeyActionModifiers | admin/map-builder.js:672-717 | with Ctrl or Cmd only `s` and `r` act. Tool keys act only without modifiers. Delete and Backspace choose the clear tool |
| MapBuilderModel.StoreKeepsValid | admin/map-builder.js:494-509 | storing a record with the next id under its own key keeps ids distinct and below the counter |
| MapBuilderModel.RemoveKeepsValid | admin/map-builder.js:544-557 | deleting records keeps the records valid |
| MapBuilderModel.HintOfParsed | admin/map-builder.js:511-515 | the next-number hint is `String(parseInt(number) + 1)` and reads back as that number |
| MapBuilderModel.HintIsNextNumber | admin/map-builderarchive.js:279-281 | for a digit string the hint is its value plus one |
| MapBuilderModel.MapBuilder.constructor | admin/map-builder.js:6-18 | the editor starts on the welcome screen with a 12 by 12 size, no cells, the standard stall tool and id 1 |
| MapBuilderModel.MapBuilder.HandleLocationChange | admin/map-builder.js:239-252 | a chosen location opens setup. An empty choice returns to the welcome screen. Nothing else changes |
| MapBuilderModel.MapBuilder.ResetMapData | admin/map-builder.js:1301-1343 | cells, ids, inputs, tool and generated code are reset; screen, location and size are kept |
| MapBuilderModel.MapBuilder.StartNewMap | admin/map-builder.js:341-346 | starting a new map resets the map data |
| MapBuilderModel.MapBuilder.GridSizeChanged | admin/map-builder.js:202-219 | the size fields are parsed into the width and height |
| MapBuilderModel.MapBuilder.CreateGridAndStartEditing | admin/map-builder.js:348-380 | corrected: the sizes are stored first. Editing opens only for sizes between 6 and 50, and a NaN size is rejected. A rejected size leaves the screen unchanged. Only the size and the screen are in the frame |
| MapBuilderModel.MapBuilder.SelectTool | admin/map-builder.js:452-468 | the chosen tool becomes current. The frame holds only the tool, so cells, ids, inputs, code, screen, location and size are unchanged |
| MapBuilderModel.MapBuilder.SetInputs | admin/map-builder.js:479-483 | the number and label fields hold what was typed. The frame holds only the two inputs, so nothing else changes |
| MapBuilderModel.MapBuilder.ClearCell | admin/map-builder.js:544-557 | exactly the clicked cell's record is removed |
| MapBuilderModel.MapBuilder.AssignCell | admin/map-builder.js:470-523 | outside editing nothing changes. The clear tool removes the cell. A paint tool stores a record with the next id, and after a numbered stall the number field moves to the next number |
| MapBuilderModel.MapBuilder.BackToSetup | admin/map-builder.js:571-580 | returning to setup needs confirmation when cells exist. The frame holds only the screen, so cells, tool, inputs, code, location and size are kept |
| MapBuilderModel.MapBuilder.ResetGrid | admin/map-builder.js:582-609 | a confirmed reset empties the grid and the inputs; otherwise nothing changes. Tool, code, screen, location and size are outside the frame |
| MapBuilderModel.MapBuilder.GoToExport | admin/map-builder.js:611-622 | export opens only when some cell is assigned. The frame holds only the screen |
| MapBuilderModel.MapBuilder.BackToEditing | admin/map-builder.js:624-628 | the editing screen returns. The frame holds only the screen, so cells, tool, inputs, location and size are kept |
| MapBuilderModel.MapBuilder.CreateMapCode | admin/map-builder.js:756-1049 | the page has the display name and size. Its markup is the row-major cell layout. Its styles are the CSS of the scan's regions, which keep every promise of `GenerateMergedCellStyles` and so are unique |
| MapBuilderModel.MapBuilder.GenerateCode | admin/map-builder.js:726-754 | an empty grid generates nothing. Otherwise the stored code has the display name, the grid's columns and rows, the row-major markup, and the CSS of the scan's regions, which keep every promise of `GenerateMergedCellStyles` |
| MapBuilderModel.MapBuilder.HandleKeyDown | admin/map-builder.js:672-724 | shortcuts act only while editing. Ctrl+S opens export when cells exist, Ctrl+R clears cells and inputs after confirmation, and plain keys pick tools. On every other case cells, inputs, tool and screen are kept. The id counter, code, location and size never change |
| StallholderEditorModel.LocationNamesClean | admin/stallholder-editor.js:5-8 | every configured location name survives sanitising |
| StallholderEditorModel.ValidLocationsSanitized | admin/stallholder-editor.js:5-8 | a valid location is unchanged by sanitising |
| StallholderEditorModel.MigrateLocation | admin/stallholder-editor.js:117-131 | a known campus always ends up with one of its own locations, and a valid location is kept |
| StallholderEditorModel.SanitizeRecord | admin/stallholder-editor.js:98-135 | non-objects, records without a string name and records with a NaN number are dropped. A kept record has a name, a positive number read from the data, sanitised text and a location of its campus |
| StallholderEditorModel.ValidateAndSanitizeData | admin/stallholder-editor.js:98-135 | every kept record is well-formed and located on its campus |
| StallholderEditorModel.ValidateMembership | admin/stallholder-editor.js:98-135 | a record is kept iff some raw entry sanitises to it |
| StallholderEditorModel.MaxNumber | admin/stallholder-editor.js:85 | the largest stall number, attained by a record |
| StallholderEditorModel.EmptyListNextStallId | admin/stallholder-editor.js:85 | as written, an empty list gives no usable next id |
| StallholderEditorModel.NextStallIdFresh | admin/stallholder-editor.js:85 | the next id is positive and above every stall number |
| StallholderEditorModel.NextStallIdAgrees | admin/stallholder-editor.js:85 | on a non-empty list of positive numbers the corrected id is the written `max + 1` |
| StallholderEditorModel.Matching | admin/stallholder-editor.js:214-249 | the filtered view lists, in order, exactly the records matching both the search term and the location |
| StallholderEditorModel.MatchingEverything | admin/stallholder-editor.js:214-249 | an empty search and filter show every record |
| StallholderEditorModel.SpliceInRange | admin/stallholder-editor.js:273-285 | deleting an index removes exactly that record and shifts the rest |
| StallholderEditorModel.SpliceSane | admin/stallholder-editor.js:273-285 | deleting keeps every record sanitised |
| StallholderEditorModel.SetFieldSane | admin/stallholder-editor.js:287-316 | an accepted update keeps every record sanitised and the location valid |
| StallholderEditorModel.SetNumberUnique | admin/stallholder-editor.js:288-295 | a number accepted by the duplicate check is unique after the update |
| StallholderEditorModel.NewStallSane | admin/stallholder-editor.js:251-271 | a new default record sits at a location its campus lists and keeps the list sanitised |
| StallholderEditorModel.StallholderEditor.constructor | admin/stallholder-editor.js:11-19 | the editor starts empty on the Cambridge campus with id 1 |
| StallholderEditorModel.StallholderEditor.DetectCampus | admin/stallholder-editor.js:35-49 | a known campus parameter selects that campus; otherwise the campus is kept |
| StallholderEditorModel.StallholderEditor.LoadData | admin/stallholder-editor.js:68-96 | corrected: an array loads as the sanitised records. The view shows them all, the next id is positive and above every number, also for an empty list, and the location filter is back at "All Locations" (`updateLocationFilter` rebuilds the select). Anything else changes nothing. Campus and search are outside the frame |
| StallholderEditorModel.StallholderEditor.SwitchCampus | admin/stallholder-editor.js:51-66 | the campus switches only without unsaved changes or with confirmation. An array for the new campus then replaces the records, view, next id and unsaved flag, and resets the location filter to "". Otherwise records, view, id, flag and filter are kept. Search is outside the frame |
| StallholderEditorModel.StallholderEditor.HandleSearch | admin/stallholder-editor.js:214-231 | the view becomes the records matching the query and the current filter |
| StallholderEditorModel.StallholderEditor.HandleFilter | admin/stallholder-editor.js:233-249 | the view becomes the records matching the search and the chosen location |
| StallholderEditorModel.StallholderEditor.AddNewStall | admin/stallholder-editor.js:251-271 | a default record with the next id and the campus's first location is appended; the id advances, the list is marked unsaved and the shown records are re-filtered |
| StallholderEditorModel.StallholderEditor.DeleteStall | admin/stallholder-editor.js:273-285 | a confirmed delete removes the record at the index and refreshes the view |
| StallholderEditorModel.UpdatedRecordsSpec | admin/stallholder-editor.js:287-316 | an update is refused exactly for a duplicate number or a location outside the campus. An accepted one changes exactly one field of one record, leaves the number unique and the location listed, and keeps every record sanitised |
| StallholderEditorModel.StallholderEditor.UpdateStall | admin/stallholder-editor.js:287-316 | the records become the accepted update, or stay as they were when it is refused; an accepted update marks the list unsaved |
| StallholderEditorModel.StallholderEditor.ExportData | admin/stallholder-editor.js:682-711 | export yields the records and clears the unsaved flag. The frame holds only that flag, so campus, search, filter and records are kept |
| StallFinderModel.Summarize | script.js:94-107 | what the neighbour lookup reads of a raw entry, and whether reading it throws |
| StallFinderModel.FirstNeighbourEntry | script.js:94-107 | the first entry from a position with the wanted number and location, or none |
| StallFinderModel.FindNeighbour | script.js:94-107 | the corrected lookup: none for numbers at most 0, otherwise the first matching entry's sanitised name |
| StallFinderModel.FindNeighbourAgrees | script.js:94-107 | on data without null entries the lookup as written returns the corrected result |
| StallFinderModel.FindAsWrittenAgrees | script.js:94-107 | the written scan from any position agrees with the first matching entry |
| StallFinderModel.NullEntryThrows | script.js:94-107 | a null before a real neighbour makes the written lookup throw; the corrected one finds it |
| StallFinderModel.NullFirst | script.js:94-107 | the same for any two summarised entries with the null first |
| StallFinderModel.LowerRecordEntry | script.js:60-87 | a lower-case record summarises to its number, location and sanitised name |
| StallFinderModel.ProcessRecord | script.js:60-87 | only objects with a name and a positive number are kept; neighbours carry the numbers one below and one above |
| StallFinderModel.MakeRecord | script.js:68-85 | a record is made iff the name is non-empty and the number positive |
| StallFinderModel.ProcessStallDataSpec | script.js:60-87 | corrected: a null entry is skipped by the neighbour lookup. Every processed stall is well-formed and comes from a raw object; every record that passes is kept |
| StallFinderModel.AlternateKeys | script.js:60-87 | the lower-case and the upper-case spreadsheet keys give the same stall |
| StallFinderModel.NameMatching | script.js:214-216 | every stall listed matches the query, and every matching stall is listed |
| StallFinderModel.NameMatchingAppend | script.js:214-216 | matching distributes over concatenation, so the matches keep data order and each record's multiplicity |
| StallFinderModel.NameMatchingFront | script.js:214-216 | the first record, exactly when its lower-cased name contains the query, followed by the matches of the rest |
| StallFinderModel.SearchResults | script.js:206-219 | a query that sanitises to nothing gives nothing; otherwise the prefix of `NameMatching` on the sanitised query, of length the smaller of eight and the number of matches |
| StallFinderModel.FlattenAppend | script.js:302-331 | the text of joined segment lists is the joined text |
| StallFinderModel.SegmentsFlatten | script.js:302-331 | the highlighted segments spell the text from the scan position |
| StallFinderModel.SegmentsGood | script.js:302-331 | each bold segment is a case-insensitive match and each plain segment is non-empty |
| StallFinderModel.SegmentsLeftmost | script.js:309-323 | the segments find the matches left to right: each bold segment sits on an occurrence of the query in the lower-cased text, no occurrence starts inside a plain segment, and a plain segment is last or followed by a bold one |
| StallFinderModel.LeftmostUnique | script.js:302-331 | any segments that spell the text, whose bold parts are the query up to letter case and which find the matches left to right, are the segments the scan builds |
| StallFinderModel.HighlightSpec | script.js:302-331 | highlighting spells the text exactly. Bold segments match the query ignoring case and plain ones are non-empty. No match of the query, ignoring case, starts inside a plain segment, and the matches are taken left to right from where the last one ended |
| StallFinderModel.HighlightUnique | script.js:302-331 | those properties determine the highlighting: any segmentation meeting them is it |
| StallFinderModel.CreateHighlightedText | script.js:302-331 | the loop builds exactly the highlight segments, so its output has every property of `HighlightSpec` |
| StallFinderModel.ByLocation | script.js:528-539 | `all` keeps the whole list; otherwise every stall listed is at that location and every stall there is listed |
| StallFinderModel.ByLocationAppend | script.js:531-535 | filtering distributes over concatenation, so the stalls keep data order and multiplicity |
| StallFinderModel.ByLocationFront | script.js:531-535 | the first record, exactly when it is at the location, followed by the rest filtered |
| StallFinderModel.InsertByNumber | script.js:560 | inserting into a number-sorted list keeps it sorted and adds exactly one stall |
| StallFinderModel.SortByNumber | script.js:560 | the list is sorted by stall number and is a permutation of the input |
| StallFinderModel.InsertByNumberStable | script.js:560 | an inserted record goes before every record with the same number |
| StallFinderModel.SortByNumberStable | script.js:560 | the sort is stable: for every number, the records with that number keep their input order |
| StallFinderModel.Hyphenate | script.js:440 | replacing white-space runs leaves no white space |
| StallFinderModel.HyphenateWords | script.js:440 | a white-space run between words becomes a single hyphen |
| StallFinderModel.HyphenateNoSpace | script.js:440 | text without white space is unchanged |
| StallFinderModel.MapUrlParts | script.js:440-443 | the map link is the location's page slug followed by the highlight query for the stall number |
| StallFinderModel.StallFinder.constructor | script.js:5-15 | the finder starts with no data, the search view and the `all` filter |
| StallFinderModel.StallFinder.LoadStallData | script.js:27-58 | corrected: loaded data is kept. An array loads as the processed stalls and anything else is refused. Only the data and the loaded flag are in the frame, so the view, filter, results and selection are kept |
| StallFinderModel.StallFinder.HideAutocomplete | script.js:371-374 | the list hides and the selection resets |
| StallFinderModel.StallFinder.ShowAutocompleteResults | script.js:221-299 | the results are shown with no selection |
| StallFinderModel.StallFinder.HandleSearchInput | script.js:206-219 | an empty query hides the list; otherwise the list shows the search results. The selection resets. The frame holds only the results, the list and the selection, so view, filter and current stall are kept |
| StallFinderModel.StallFinder.HandleKeyNavigation | script.js:333-363 | the arrows move the selection, clamped between -1 and the last result. Enter picks the selected result and Escape closes the list. An empty list or any other key changes nothing. View, filter, data and results are outside the frame |
| StallFinderModel.StallFinder.SelectStall | script.js:382-385 | the stall becomes current |
| StallFinderModel.StallFinder.FilterByLocation | script.js:528-539 | the filter is stored and the list is the stalls at that location. The frame holds only the filter and the list, so current stall and the autocomplete are kept |
| StallFinderModel.StallFinder.ShowAllStalls | script.js:501-513 | the all-stalls view opens unfiltered. The frame holds only the view, filter and list, so current stall and the autocomplete are kept |
| StallFinderModel.StallFinder.ShowSearchView | script.js:515-526 | the search view returns with the list closed and no selection. Current stall, results, data and filter are outside the frame |
| StallFinderModel.StallFinder.HandleViewOnMap | script.js:429-444 | with a current stall the target is its map link; otherwise nothing happens |
| StaffRotaModel.TimeToMinutesParts | staff-rota.js:232-235 | `h:m` is worth `h * 60 + m` minutes |
| StaffRotaModel.TimeWithoutColon | staff-rota.js:232-235 | a time without a colon is worth NaN minutes |
| StaffRotaModel.TimeToMinutesFormat | staff-rota.js:164-170 | a formatted clock time reads back as its minutes |
| StaffRotaModel.TwoDigitsReading | staff-rota.js:164-170 | a two-digit field reads back as its number |
| StaffRotaModel.ParseTimeSlotJoin | staff-rota.js:172-175 | `start-end` splits back into its start and end |
| StaffRotaModel.ParseTimeSlotNoDash | staff-rota.js:172-175 | a slot has no end exactly when it has no dash |
| StaffRotaModel.TimeSlotContainsTime | staff-rota.js:221-230 | the check throws exactly for a slot without an end |
| StaffRotaModel.ContainsTimeMinutes | staff-rota.js:221-230 | a slot contains a time iff start <= time < end in minutes |
| StaffRotaModel.Classify | staff-rota.js:404-426 | current inside the slot, upcoming within 120 minutes before it, future further ahead, past otherwise; NaN compares false |
| StaffRotaModel.GetSlotStatus | staff-rota.js:404-426 | the status throws exactly for a slot without an end |
| StaffRotaModel.CurrentIffContains | staff-rota.js:404-426 | a slot is current iff it contains the time |
| StaffRotaModel.FairStatusAt | staff-rota.js:646-660 | before 10:30, open until 15:00, closed afterwards; NaN counts as closed |
| StaffRotaModel.FairStatusFormat | staff-rota.js:646-660 | the fair status of a formatted clock time follows its minutes |
| StaffRotaModel.TextField | staff-rota.js:51-76 | a string field is sanitised; anything else becomes empty |
| StaffRotaModel.SanitizeSlot | staff-rota.js:59-67 | exactly the object slots are kept |
| StaffRotaModel.SanitizePerson | staff-rota.js:51-76 | a person is kept iff it is an object with a non-empty sanitised name |
| StaffRotaModel.ValidateRotaSpec | staff-rota.js:51-76 | every kept person is named and comes from the data; every named object is kept |
| StaffRotaModel.SanitizeScheduleSpec | staff-rota.js:59-67 | a schedule keeps exactly its object slots; a missing schedule is empty |
| StaffRotaModel.LoadRota | staff-rota.js:26-49 | data loads iff it is truthy with a `staff` array |
| StaffRotaModel.InsertBy | staff-rota.js:216 | inserting keeps a list sorted by key and adds exactly one element |
| StaffRotaModel.SortBy | staff-rota.js:216 | the list is sorted by key and is a permutation of the input |
| StaffRotaModel.InsertByStable | staff-rota.js:216 | an inserted element goes before every element with the same key |
| StaffRotaModel.SortByStable | staff-rota.js:216 | the sort is stable: for every key, the elements with that key keep their input order |
| StaffRotaModel.SlotRows | staff-rota.js:201-211 | a slot of the task gives a row iff it contains the time; it throws for a task slot without an end |
| StaffRotaModel.SlotsAssignedFails | staff-rota.js:197-219 | a person's rows throw iff one of their slots does |
| StaffRotaModel.StaffAssignedFails | staff-rota.js:197-219 | the search throws iff some person's slot for the task lacks an end |
| StaffRotaModel.StaffAssignedMembers | staff-rota.js:197-219 | the rows are exactly the people whose slot for the task contains the time |
| StaffRotaModel.FirstNameMatch | staff-rota.js:319-323 | the first person from a position whose lower-cased name and the search contain one another, or none |
| StaffRotaModel.FindPersonByName | staff-rota.js:316-324 | the first person whose lower-cased name contains the trimmed search or is contained in it, or none when no one matches |
| StaffRotaModel.SlotEntry | staff-rota.js:333-336 | a slot paired with its status, or a throw |
| StaffRotaModel.Having | staff-rota.js:342-343 | the slots with a given status, each of them |
| StaffRotaModel.SortedEntries | staff-rota.js:338-339 | sorting by time slot keeps every slot with its status and puts the slots of each status in time order |
| StaffRotaModel.ScheduleViewSpec | staff-rota.js:339-367 | the current slot is present iff some slot is current, and it is the earliest current one by time slot. At most two upcoming slots are listed, in time order, and they are the earliest: fewer than two only when no other slot is upcoming, and none only when none is. The recent slot shows only when nothing is current or upcoming and some slot is past, and it is the latest past one |
| StaffRotaModel.PersonViewSpec | staff-rota.js:326-402 | the view throws iff some slot does. Otherwise each slot is paired with its status at the time, and the view meets the same conditions on those statuses |
| StaffRotaModel.StaffRota.constructor | staff-rota.js:5-11 | the rota starts unloaded and empty |
| StaffRotaModel.StaffRota.LoadRotaData | staff-rota.js:26-49 | valid data replaces the rota and marks it loaded; otherwise nothing changes |
| StaffRotaModel.StaffRota.FindStaffByTaskAtCurrentTime | staff-rota.js:197-219 | the result is the assigned rows sorted by name, or a throw exactly when the search throws |
| StaffRotaModel.CollectSlots | staff-rota.js:201-212 | the inner loop collects a person's rows |
| StaffRotaModel.StaffRota.SearchByTask | staff-rota.js:177-195 | no task, still loading, failure exactly when the search throws, or the sorted rows |
| StaffRotaModel.StaffRota.SearchByPerson | staff-rota.js:291-314 | no name, still loading, no match exactly when no name matches, or the first match with its schedule view |
| DragHandler.ClampZoom | js/drag-handler.js:27-28 | zoom stays within 0.5 and 3 and is unchanged inside that range |
| DragHandler.ClampZoomLimits | js/drag-handler.js:115 | zoom below or above the range clamps to its end, and clamping is idempotent |
| DragHandler.WheelFactor | js/drag-handler.js:114 | scrolling down zooms out and scrolling up zooms in |
| DragHandler.FitScale | js/drag-handler.js:81-83 | the fitted scale is the least of the two axis scales and 1 |
| DragHandler.ClampPosition | js/drag-handler.js:553-554 | positions are never negative and are kept when already non-negative |
| DragHandler.Dragged | js/drag-handler.js:549-558 | a dragged stall lands at its start plus the cursor movement, clamped at 0 |
| DragHandler.Resized | js/drag-handler.js:748-763 | an area never shrinks below 80 by 60 and otherwise follows the cursor |
| DragHandler.SelectionRect | js/drag-handler.js:606-609 | the band is the rectangle spanned by its start and the cursor |
| DragHandler.StartPositions | js/drag-handler.js:711-716 | the group's start positions are recorded for exactly the selected stalls |
| DragHandler.GroupMovedSpec | js/drag-handler.js:563-577 | each selected stall moves by the cursor delta from its start, clamped at 0; other stalls stay |
| DragHandler.PressSelection | js/drag-handler.js:389-394 | pressing an unselected stall without Shift selects only it; otherwise the selection grows |
| DragHandler.Toggled | js/drag-handler.js:667-672 | toggling flips exactly the one stall |
| DragHandler.ToggleTwice | js/drag-handler.js:667-672 | toggling twice restores the selection |
| DragHandler.DragHandler.constructor | js/drag-handler.js:4-24 | view mode, no selection, zoom 1 and no pan |
| DragHandler.DragHandler.FitToScreen | js/drag-handler.js:68-88 | on mobile the zoom becomes the fitted scale and the pan resets; otherwise nothing changes |
| DragHandler.DragHandler.WheelZoom | js/drag-handler.js:103-125 | outside edit mode the zoom scales by the wheel factor and is clamped; the pan changes only with the zoom |
| DragHandler.DragHandler.TouchStartGesture | js/drag-handler.js:131-154 | one finger starts a pan from the current offset and two fingers start a pinch; edit mode ignores gestures |
| DragHandler.DragHandler.TouchMoveGesture | js/drag-handler.js:160-200 | a pan follows the finger and a pinch scales the zoom within its limits |
| DragHandler.DragHandler.TouchEndGesture | js/drag-handler.js:206-227 | lifting all fingers ends the gestures; ending a pinch with one finger left starts a pan |
| DragHandler.DragHandler.HandleResize | js/drag-handler.js:242-258 | leaving mobile resets zoom and pan |
| DragHandler.DragHandler.SelectStall | js/drag-handler.js:649-653 | the stall is added to the selection |
| DragHandler.DragHandler.DeselectStall | js/drag-handler.js:658-662 | the stall is removed from the selection |
| DragHandler.DragHandler.ToggleStallSelection | js/drag-handler.js:667-672 | the selection is toggled for that stall |
| DragHandler.DragHandler.ClearSelection | js/drag-handler.js:678-684 | the selection becomes empty |
| DragHandler.DragHandler.ToggleEditMode | js/drag-handler.js:282-302 | edit mode flips, and leaving it clears the selection |
| DragHandler.DragHandler.GroupSelected | js/drag-handler.js:704-719 | with a selection a group drag starts from the stalls' current positions |
| DragHandler.DragHandler.StartDrag | js/drag-handler.js:521-536 | the element, cursor and element position are recorded |
| DragHandler.DragHandler.UpdateDrag | js/drag-handler.js:549-558 | only the dragged stall moves, to a non-negative position |
| DragHandler.DragHandler.UpdateGroupDrag | js/drag-handler.js:563-577 | every selected stall moves from its start by the delta |
| DragHandler.DragHandler.EndDrag | js/drag-handler.js:582-586 | all drags end and the group's start positions are forgotten |
| DragHandler.DragHandler.MouseStart | js/drag-handler.js:376-404 | in edit mode Ctrl or Cmd toggles a stall. Any other press selects, then starts a group drag for a multiple selection or a single drag otherwise |
| DragHandler.DragHandler.TouchStart | js/drag-handler.js:442-458 | outside edit mode one finger starts a pan from the touch and the current pan, two start a pinch at the finger distance, and the drag state is kept. In edit mode, off a resize handle, a touch on a stall of a larger selection starts a group drag and any other touch a single drag; gesture state is kept |
| DragHandler.DragHandler.SelectionStart | js/drag-handler.js:411-436 | a press on the container in edit mode starts a band, keeping the selection only with Ctrl or Cmd |
| DragHandler.DragHandler.SelectionMove | js/drag-handler.js:602-634 | a band larger than the threshold adds every stall inside it; nothing is removed |
| DragHandler.DragHandler.MouseMove | js/drag-handler.js:463-472 | in edit mode a band past the threshold adds exactly the stalls inside it; otherwise the group or the dragged stall moves, in that priority. Outside edit mode nothing changes |
| DragHandler.DragHandler.MouseEnd | js/drag-handler.js:496-501 | releasing ends the band if one is active, otherwise the drag |
| DragHandler.DragHandler.TouchEnd | js/drag-handler.js:507-511 | outside edit mode lifting every finger ends pan and pinch, lifting one of two turns a pinch into a pan from that finger, anything else changes nothing, and the drag state is kept. In edit mode the drag ends and the gestures are kept |
| DragHandler.DragHandler.TouchMove | js/drag-handler.js:478-491 | outside edit mode a pan follows the finger and a pinch scales the zoom within its limits, and positions are kept. In edit mode the group, else the dragged stall, moves by the finger's travel, and zoom and pan are kept |
| DragHandler.DragHandler.ResizeStart | js/drag-handler.js:726-743 | in edit mode the area and its start size are recorded |
| DragHandler.DragHandler.ResizeMove | js/drag-handler.js:748-763 | the area being resized takes the clamped size |
| DragHandler.DragHandler.ResizeEnd | js/drag-handler.js:768-774 | resizing ends |
| DragHandler.DragHandler.EditStallNumber | js/drag-handler.js:808-813 | a non-blank answer becomes the trimmed label; a cancelled or blank one changes nothing |
| MobileUtils.AreaUrl | js/mobile_utils.js:380-386 | exactly the four known areas have a page |
| MobileUtils.GetCurrentArea | js/mobile_utils.js:369-375 | the current area is always one of the known areas |
| MobileUtils.GetCurrentAreaOrder | js/mobile_utils.js:369-375 | `ruskin` wins over `science`, which wins over `lab`; otherwise the area is home |
| MobileUtils.AreaPageRoundTrip | js/mobile_utils.js:369-386 | the area read back from an area's page is that area |
| MobileUtils.NavigationUtils.constructor | js/mobile_utils.js:360-364 | navigation starts at the area of the page with no history |
| MobileUtils.NavigationUtils.NavigateToArea | js/mobile_utils.js:380-393 | a known area pushes the current one on the history and opens its page; an unknown one changes nothing |
| MobileUtils.NavigationUtils.GoBack | js/mobile_utils.js:398-405 | going back returns to the last area and loads its page, and empty history goes home. As written, the left area is pushed again |
| MobileUtils.NavigationUtils.OnPopState | js/mobile_utils.js:410-414 | the browser's back button re-reads the area from the path |
| MobileUtils.GestureKinds | js/mobile_utils.js:218-247 | a long press is long and still, a swipe moves over 50 pixels, a tap is short and still; otherwise unknown |
| MobileUtils.IsEdgeTouch | js/mobile_utils.js:252-262 | each edge flag holds iff the touch is within the threshold of that edge |
| MobileUtils.EdgesExclusive | js/mobile_utils.js:252-262 | on a screen at least twice the threshold, opposite edges never both hold |
| AreaNavigation.NextIndex | js/main.js:175-176 | the next card wraps from the last to the first, and the first card follows no focus |
| AreaNavigation.PrevIndex | js/main.js:182-184 | the previous card wraps from the first to the last, and no focus gives the last card |
| AreaNavigation.HandleKey | js/main.js:165-194 | an arrow throws exactly when there are no cards. Enter or space activates exactly when a card has focus |
| AreaNavigation.NextPrevInverse | js/main.js:171-185 | moving forward then back returns to the same card |
| AreaNavigation.ForwardSteps | js/main.js:175-176 | k forward steps move k cards, wrapping once |
| AreaNavigation.ForwardReaches | js/main.js:175-176 | every card is reachable by fewer than n forward steps |
| AreaNavigation.AreaPage | js/main.js:15-27 | exactly the three courtyard areas have a page |
| AreaNavigation.AreaPageAgrees | js/main.js:15-27 | the home page's links agree with the mobile navigation's area URLs |
| AreaNavigation.SingleTabStop | js/main.js:198-199 | exactly the first card is in the tab order |
| UnionStaffWorker.StrategyCache | sw.js.js:9-16 | each strategy cache is named after the app, the strategy and the version |
| UnionStaffWorker.RouteOf | sw.js.js:140-159 | other origins are not intercepted. Data, app-shell and asset requests go to their strategies in that priority, and the rest to the generic one |
| UnionStaffWorker.DirectoriesAreAppShell | sw.js.js:325-332 | a same-origin directory path is served as app shell |
| UnionStaffWorker.ImagesAreAssets | sw.js.js:334-344 | the union logo is served as an asset |
| UnionStaffWorker.CachesToDelete | sw.js.js:101-111 | a cache is deleted iff it exists, belongs to the app and is not a current strategy cache |
| UnionStaffWorker.ActivationKeeps | sw.js.js:101-111 | the strategy caches survive activation, only the app's caches are deleted, and the old version cache goes |
| UnionStaffWorker.OnMessage | sw.js.js:162-189 | `GET_VERSION` replies with the version, `CLEAR_DATA_CACHE` deletes the data cache and `SKIP_WAITING` activates |
| StallPlannerWorker.OnFetch | js/service_worker.js:86-90 | only GET requests over http are handled, with the corrected strategy |
| StallPlannerWorker.NonGetPassesThrough | js/service_worker.js:86-90 | a POST or a `data:` request is not intercepted |
| StallPlannerWorker.HandleFetchAsWritten | js/service_worker.js:99-126 | as written, network-first is chosen iff the request is neither a static asset nor same-host |
| StallPlannerWorker.NetworkFirstUnreachable | js/service_worker.js:180-189 | as written, every path counts as a static asset, so network-first is never chosen |
| StallPlannerWorker.CdnFontCachedAsWritten | js/service_worker.js:180-196 | a font from a CDN is served cache-first as written |
| StallPlannerWorker.HandleFetch | js/service_worker.js:99-126 | corrected: network-first iff the path is no listed file or static extension and the host is foreign |
| StallPlannerWorker.CdnFontNetworkFirst | js/service_worker.js:194-196 | corrected, the CDN font goes network-first |
| StallPlannerWorker.StaticFilesCacheFirst | js/service_worker.js:8-24 | every listed static file is served cache-first |
| StallPlannerWorker.SameHostUnchanged | js/service_worker.js:104-114 | same-host requests are cache-first both as written and corrected |
| StallPlannerWorker.CachesToDelete | js/service_worker.js:60-64 | a cache is deleted iff it exists and its name lacks the current version tag |
| StallPlannerWorker.ActivationKeepsOwnCaches | js/service_worker.js:4-27 | the worker's three current caches survive activation |
| SimpleWorker.BustedUrl | sw.js:63 | the fetched URL is the request with `?v=` and the time, which reads back |
| SimpleWorker.BustedUrlsDiffer | sw.js:63 | different times give different URLs |
| SimpleWorker.OnFetch | sw.js:57-82 | data paths are fetched fresh with a busted URL; everything else is cache then network |
| SimpleWorker.CachesToDelete | sw.js:36 | a cache is deleted iff it exists, belongs to the app and is not the current cache |
| SimpleWorker.ActivationKeeps | sw.js:36 | the current cache and other apps' caches survive |
| SimpleWorker.DeletesEarlierWorkerCaches | sw.js:2-4 | the strategy caches of the staff-app worker are deleted by this worker |
| SimpleWorker.OnMessage | sw.js:48-54 | only `GET_VERSION` gets a reply, the version |

## Left out

- Every DOM update: rendering, toasts, modals, focus, classes, overlays, animations and the cards of the admin editor. The model keeps the state those renderings read.
- `fetch`, the Cache API, `localStorage`, timers and debouncing. Loaded JSON is a parameter; the service workers' cache responses are named strategies.
- `Date.now` and the clock. The current time is a parameter, as a clock string for the rota and an integer for cache busting. `formatTime`'s locale formatting becomes fixed two-digit fields.
- Floating point. Zoom, pan and drag geometry use exact reals. The screen-to-layout division, the touch distance, the pinch scale and the re-centred pan are given as inputs.
- The swipe direction of `detectGesture` (an `atan2` angle) is not modelled; only the gesture kind is.
- URL parsing. A request is given as its parsed `href`, origin or host and path.
- `parseInt` with a `0x` prefix, and `toLowerCase` outside ASCII, are not modelled.
- `localeCompare` is modelled as code-unit lexicographic order.
- `JsStrings.DigitsValue` (the value of a digit run) is total and unbounded; JavaScript loses precision beyond 2^53.
- The fixed HTML boilerplate, the visitor script and the inline styles of `createMapCode` are not modelled; the model keeps title, size, styles and cell markup.
- `loadExistingMap` is not modelled: it only shows a notice.
- The orientation and low-end-device detection in `js/mobile_utils.js`, and the ripple, counter and page-transition effects of `js/main.js`, are not modelled. They only touch the DOM.
- The other JavaScript files of the repository are not part of this model.
- MergeStyles.MemberRules: the text of each per-member rule is fixed by `RenderMember`; no separate lemma states its shape.
- StallholderEditorModel.StallholderEditor.UpdateStall: requires an index of an existing record. The source would throw on a missing one, and its callers only pass rendered rows.
- StaffRotaModel.StaffRota.FindStaffByTaskAtCurrentTime: a slot without a dash makes the source throw. The model returns `None` there instead of modelling the exception's propagation.
- DragHandler.DragHandler.WheelZoom: the re-centred pan is an input; the model states only when it is applied.
- StaffRotaModel.ScheduleViewSpec: among slots with equal time-slot strings the contract does not say which one is shown; the sort keeps their original order, as `Array.prototype.sort` does.
- MapBuilderModel.MapBuilder.CreateGridAndStartEditing: models the corrected size check. As written (admin/map-builder.js:357-361) a NaN width or height passes the check and opens editing; `EmptySizeAccepted` shows that case.
- StallholderEditorModel.StallholderEditor.LoadData: models the corrected next id. As written (admin/stallholder-editor.js:85) an empty list gives `-Infinity`; `EmptyListNextStallId` shows that case.
- StallFinderModel.ProcessStallDataSpec: models the corrected neighbour lookup. As written (script.js:94-107) a null raw entry throws while records are processed, the error is caught at script.js:46-57 and nothing is loaded; `NullEntryThrows` shows that case.
- StallFinderModel.StallFinder.LoadStallData: loads through the corrected processing. As written, data with a null entry ahead of a wanted neighbour throws, and the finder stays unloaded.
- JsStrings.NumberOf: reads only optional sign and decimal digits. JavaScript's `Number` also reads fractions and exponents (`Number("10.5")` is 10.5, `Number("1e3")` is 1000); the rota's times only hold digit fields.
- StallholderEditorModel.StallholderEditor.DetectCampus: accepts only `cambridge` and `chelmsford`. In the source `LOCATION_CONFIG[campusParam]` (admin/stallholder-editor.js:40) is also truthy for inherited keys such as `constructor`, which would select a campus with no data file.
- StallPlannerWorker.OnFetch: routes with the corrected `HandleFetch`. As written every path is cache-first; `HandleFetchAsWritten` and `NetworkFirstUnreachable` model that case (see Findings).
- MobileUtils.AreaUrl: knows only the four own keys of the URL table. In the source `urls[area]` is also truthy for inherited keys such as `constructor`, which would navigate to a function's text.

## Findings

| source | as written | input that shows it | evidently intended | confidence | as-written member | corrected member |
|---|---|---|---|---|---|---|
| admin/map-builder.js:357-361 | `w < 6 \|\| w > 50 \|\| h < 6 \|\| h > 50` on `parseInt` results; every comparison with NaN is false | empty width and height fields: `parseInt('')` is NaN and the grid is created | sizes that are not numbers are rejected | high, not executed | MapBuilderModel.EmptySizeAccepted | MapBuilderModel.DimensionsChecksAgree |
| admin/stallholder-editor.js:85 | `Math.max(...numbers) + 1` | an empty stall list: `Math.max()` is -Infinity, so the next id is -Infinity | the first id is 1 | high, not executed | StallholderEditorModel.EmptyListNextStallId | StallholderEditorModel.NextStallIdFresh |
| script.js:94-107 | `data.find(s => parseInt(s.stallNumber \|\| ...))` reads properties of every raw entry | raw data `[null, {name: 'A', stallNumber: 2, location: 'X'}]` and neighbour 2 at `X` throws | entries that are dropped are skipped by the lookup | medium, not executed | StallFinderModel.NullEntryThrows | StallFinderModel.FindNeighbourAgrees |
| js/service_worker.js:180-189 | `STATIC_FILES.some(file => url.pathname.includes(file))`, and `'/'` is listed | any path starting with `/`, such as `https://cdnjs.cloudflare.com/fonts/fa.woff2`: every request is cache-first | only the listed files are static assets, so foreign resources go network-first | high, not executed | StallPlannerWorker.NetworkFirstUnreachable | StallPlannerWorker.CdnFontNetworkFirst |

