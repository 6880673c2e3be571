# ezfloorplan core, modelled in Dafny

ezfloorplan is a browser floor-plan editor. A plan is a list of *lines*. Each line is a wall, a door or a window, with world coordinates in inches. A line may carry an opening height, a sill height and a facing flip.

This project models the editor's logic as Dafny code and proves properties of it:

- reading and writing lengths in feet and inches;
- the line store with its bounded undo history;
- joint analysis of the 2D view, placing openings on their walls, and the side a wall's thickness is drawn on;
- cutting walls into blocks around openings in the 3D view, and walk-mode collision;
- the mouse, wheel and keyboard rules;
- the edit panel's handlers, and JSON export and import.

The modules follow the program's files:

| module | file | what it holds |
|---|---|---|
| `Wrappers` | — | `Option` |
| `JsValues` | — | JavaScript values after `JSON.parse`; `Number()` on them, with the string forms it reads (decimals with exponents, `0x`/`0o`/`0b` integers, `Infinity`); `trim`, `toLowerCase` |
| `Plan` | — | the line record, points, `IsSqrt` |
| `Geometry` | `js/utils.js` | point-to-segment distance, ray/segment test, line length and resizing |
| `Utils` | `js/utils.js` | the length parser, the sixteenth-inch formatter, `gcd`, `lineKind` |
| `FormatParse` | `js/utils.js` | what the parser makes of the formatter's text |
| `State` | `js/state.js` | the `AppState` class: the line store, `nextLineId`, the undo stack |
| `Render2D` | `js/renderer-2d.js` | endpoint clusters, joint issues, openings on walls, facing, wall corners |
| `Render3D` | `js/renderer-3d.js` | settings, sorted openings, wall blocks, colliders |
| `Interaction` | `js/interaction.js` | nearest-line and nearest-endpoint search, snapping, commit, wheel, keys |
| `UI` | `js/ui.js` | the length, height, offset and wall-offset edits, the flip, export, import |

## How the model is built

**Square roots.** `Math.sqrt` becomes a function parameter `sqrt: real -> real`. A member that needs its meaning requires `IsSqrt(sqrt)`: on non-negative reals, `sqrt` gives a non-negative root whose square is its argument. Every comparison the code makes on a square-rooted distance is modelled on the `sqrt` value, exactly as written.

**Numbers.** Coordinates are `real`. `Math.round(x)` is `(x + 0.5).Floor` and `Math.floor` is `.Floor`. Numbers read from JSON are `Finite(v)` or `NotFinite`.

**State.** The editor's shared state is the class `State.AppState`, whose methods change its fields. The event handlers are methods that take the state object. Each handler is specified by a function on the state's value `StateValue`: `ensures st.Value() == Spec(old(st.Value()), …)`. The properties the code promises are proved as lemmas about those functions.

**Lines in place.** The code changes a line's fields in place, for example `line.x2 = …`. The model replaces the record at that line's index instead.

**Loops.** Loops in the code are `for`/`while` loops with invariants in the model:
- the endpoint breadth-first search over a `visited` array;
- best-so-far searches;
- the segmentation loop;
- the import loop.

## Model

| member | source | states |
|---|---|---|
| `Geometry.ClampUnit` | js/utils.js:133 | the clamped parameter lies in [0, 1] and is unchanged when already inside |
| `Geometry.DistanceBasics` | js/utils.js:126-137 | the distance is non-negative; for a degenerate segment it is the plain distance to its start |
| `Geometry.DistanceToSegmentPoint` | js/utils.js:132-136 | the distance is attained at some point of the segment with parameter t in [0, 1] |
| `Geometry.DistanceIsMinimal` | js/utils.js:132-136 | no point of the segment is nearer than the reported distance |
| `Geometry.SquaredDistance` | js/utils.js:130-136 | a squared distance is non-negative and positive for distinct points |
| `Geometry.NearlyParallelMisses` | js/utils.js:146-147 | when \|denom\| < 1e-10 the test reports no crossing |
| `Geometry.IntersectionMeets` | js/utils.js:146-152 | a reported crossing has both parameters in [0, 1], and they name a common point of ray and segment |
| `Geometry.MeetingIsReported` | js/utils.js:146-152 | conversely, a common point with both parameters in [0, 1] is reported unless \|denom\| < 1e-10 |
| `Geometry.CrossingParametersMeet` | js/utils.js:149-150 | the computed t and u name the same point on both lines |
| `Geometry.MeetHasCrossingParameters` | js/utils.js:149-150 | any common point of the two lines has exactly the computed parameters |
| `Geometry.ZeroLengthIff` | js/ui.js:164-167 | a line's length is non-negative, and zero exactly when its two ends coincide |
| `Geometry.ResizedLength` | js/ui.js:169-171 | rescaling keeps the start, keeps the direction and gives the requested length |
| `Geometry.ResizedParts` | js/interaction.js:368-374 | the rescaled line differs only in (x2, y2), is parallel and same-directed, and has the requested length |
| `Geometry.Abs` | js/utils.js:147 | `Math.abs` is non-negative and equals x or −x |
| `Utils.ParseLengthToInches` | js/utils.js:3-46 | a parsed length is never negative |
| `Utils.ParseLengthAccepts` | js/utils.js:11-45 | the parser returns v exactly when the trimmed, lower-cased text is one of the four forms (`F' I"`, `F'`, `I"`, bare `N`) whose value is v (12F + I, 12F, I, 12N) |
| `Utils.ParseBlank` | js/utils.js:4-6 | empty or whitespace-only input gives null |
| `Utils.ParsePrimesAsQuotes` | js/utils.js:8 | replacing ′ and ″ by ' and " does not change the result |
| `Utils.MatchLengthSound` | js/utils.js:11-45 | whatever the four patterns match is text of the grammar: spaces, a form, spaces |
| `Utils.MatchFeetAndInchesSound` | js/utils.js:11-13 | a match of the first pattern is a feet-and-inches text |
| `Utils.MatchFeetOnlySound` | js/utils.js:22 | a match of the second pattern is a feet text |
| `Utils.MatchInchesOnlySound` | js/utils.js:30 | a match of the third pattern is an inches text |
| `Utils.MatchBareFeetSound` | js/utils.js:38 | a match of the fourth pattern is a bare number |
| `Utils.MatchLengthComplete` | js/utils.js:11-45 | every text of the grammar is matched, with the same parts |
| `Utils.MatchFeetAndInchesOf` | js/utils.js:11-19 | the first pattern matches every feet-and-inches text |
| `Utils.MatchFeetOnlyOf` | js/utils.js:21-27 | a feet text fails the first pattern and matches the second |
| `Utils.MatchInchesOnlyOf` | js/utils.js:29-35 | an inches text fails the first two patterns and matches the third |
| `Utils.MatchBareFeetOf` | js/utils.js:37-43 | a bare number fails the first three patterns and matches the fourth |
| `Utils.Meaning` | js/utils.js:18-42 | the value of a length text is never negative |
| `Utils.ScanDecimal` | js/utils.js:12 | a scanned `[0-9]+(\.[0-9]+)?` is a valid numeral followed by the rest of the text |
| `Utils.ScanDecimalOf` | js/utils.js:12 | scanning a numeral's text returns that numeral and the rest |
| `Utils.FormatParts` | js/utils.js:55-71 | the whole inches are in 0..11 and the sixteenths in 0..15, and together with the feet they make the rounded number of sixteenths |
| `Utils.FormatIsNearestSixteenth` | js/utils.js:55-61 | the shown value is within half a sixteenth of the input |
| `Utils.NatToStringValue` | js/utils.js:76-87 | the decimal digits written for n read back as n |
| `Utils.GcdDivides` | js/utils.js:93-95 | `gcd(a, b)` divides a and b |
| `Utils.GcdGreatest` | js/utils.js:93-95 | every common divisor of a and b divides `gcd(a, b)` |
| `Utils.ReducedLowestTerms` | js/utils.js:97-99 | dividing by the gcd is exact and leaves a coprime pair |
| `Utils.SixteenthsHaveGlyphs` | js/utils.js:101-121 | every k/16 with k in 1..15 is shown as a glyph from the table |
| `Utils.LineKind` | js/utils.js:155-157 | a missing kind is a wall; a present kind is kept |
| `FormatParse.NegativeFormatText` | js/utils.js:52-88 | a negative input is shown as "-" followed by the text of its magnitude |
| `FormatParse.NonNegativeFormatText` | js/utils.js:55-87 | the text of a non-negative input starts with a digit (the feet) and ends with `"` |
| `FormatParse.WholeInchesRoundTrip` | js/utils.js:75-87 | the text formatted for a whole number n of inches parses back to n |
| `FormatParse.FormatThenParse` | js/utils.js:48-89 | formatting then parsing gives the rounded value when there is no fraction of an inch, and null otherwise |
| `FormatParse.FractionPartsUnparsed` | js/utils.js:79-87 | a formatted text with a fraction glyph is not accepted by the parser |
| `FormatParse.FormatNegativeUnparsed` | js/utils.js:52-88 | a formatted negative length is not accepted by the parser |
| `FormatParse.PartsTextPlain` | js/utils.js:87 | the formatted text starts with a digit, ends with `"` and is unchanged by normalisation |
| `State.IndexOf` | js/state.js:117 | the index of the first line with the id, or none when no line has it |
| `State.FindById` | js/state.js:123-125 | a line is found exactly when some line has the id, and the line found has it |
| `State.FindIndex` | js/state.js:117 | the loop returns the first index with the id |
| `State.FirstIndexUnique` | js/state.js:117 | a position with the id and none before it is the index found |
| `State.RemoveFirstSpec` | js/state.js:116-121 | with the id absent nothing changes; otherwise exactly the first line with that id is cut out and the rest keep their order |
| `State.RemoveFirstKeepsOthers` | js/state.js:116-121 | a line with another id survives the removal |
| `State.Snapshot` | js/state.js:132-141 | a snapshot keeps one saved record per line, in order |
| `State.RestoreAll` | js/state.js:151-152 | restoring gives one line per saved record, in order |
| `State.RestoreSnapshot` | js/state.js:132-151 | restoring a snapshot gives back every line with its facing flip cleared |
| `State.SnapshotLosesFlip` | js/state.js:132-141 | a flipped wall does not survive save and restore |
| `State.MaxId` | js/state.js:153 | the maximum of the ids and 0: at least every id, and either 0 or one of them |
| `State.PushBoundedSpec` | js/state.js:142-145 | the history holds at most `MAX_UNDO_STEPS` (50) snapshots and ends with the new one; the oldest is dropped on overflow |
| `State.AppState.constructor` | js/state.js:4-41 | the initial state: no lines, ids from 1, empty history, no selection, scale 1, not typing |
| `State.AppState.AddLine` | js/state.js:112-114 | the line is appended and nothing else changes |
| `State.AppState.RemoveLine` | js/state.js:116-121 | the lines become those with the first line of the id removed; nothing else changes |
| `State.AppState.GetLineById` | js/state.js:123-125 | returns the first line with the id, or none |
| `State.AppState.GetSelectedLine` | js/state.js:127-129 | returns the first line with the selected id, or none when nothing is selected |
| `State.AppState.ReplaceLine` | js/ui.js:170-171 | the line at the index is replaced and nothing else changes |
| `State.AppState.SaveState` | js/state.js:131-146 | pushes a snapshot of the lines onto the capped history, leaving the lines alone |
| `State.AppState.Undo` | js/state.js:148-157 | with an empty history nothing changes; otherwise the last snapshot is popped and restored, and `nextLineId` is the largest restored id + 1 |
| `State.NextIdAfterUndo` | js/state.js:153 | after undo, `nextLineId` exceeds every live id, and is 1 with no lines |
| `State.SaveThenUndo` | js/state.js:131-157 | undo right after save restores the saved lines (flips cleared) and the previous history |
| `State.UndoReissuesId` | js/state.js:153 | after undoing back to a single line, the next id is 2 again, so later ids can be reissued |
| `Render2D.Endpoints` | js/renderer-2d.js:50-54 | two endpoints per line, start then end, in line order |
| `Render2D.CollectEndpoints` | js/renderer-2d.js:50-54 | the loop collects exactly those endpoints |
| `Render2D.NearSymmetric` | js/renderer-2d.js:73-75 | the closeness test does not depend on the order |
| `Render2D.BuildEndpointClusters` | js/renderer-2d.js:49-104 | the clusters partition the 2·\|lines\| endpoints; no endpoint within tolerance of a member is left outside its cluster; each cluster is linked by steps within tolerance; each records the members' mean and greatest pairwise distance |
| `Render2D.EachEndpointInOneCluster` | js/renderer-2d.js:56-80 | every endpoint lies in exactly one cluster |
| `Render2D.ChainStaysInCluster` | js/renderer-2d.js:66-80 | a chain of steps within tolerance never leaves the cluster it starts in |
| `Render2D.MaxPairDistance` | js/renderer-2d.js:85-93 | the gap is non-negative, at least every pairwise distance, and attained by some pair (or 0) |
| `Render2D.GapUnique` | js/renderer-2d.js:85-93 | the gap is a single number |
| `Render2D.SingletonGap` | js/renderer-2d.js:85-93 | a cluster of one endpoint has gap 0 |
| `Render2D.RecomputeJointIssues` | js/renderer-2d.js:147-169 | the map built by the loop is the joint-issue map of the clusters |
| `Render2D.RecordIssue` | js/renderer-2d.js:162-165 | every member's key is mapped to the one issue record |
| `Render2D.JointIssueKeys` | js/renderer-2d.js:151-165 | a key has an issue exactly when it is the key of a member of a cluster with at least 2 endpoints and gap strictly above 0.25 |
| `Render2D.JointIssueValue` | js/renderer-2d.js:155-165 | a key's issue is that of the last flagged cluster with that key |
| `Render2D.SharedIssue` | js/renderer-2d.js:155-165 | every member of a flagged cluster whose key no later flagged cluster reuses maps to that cluster's issue |
| `Render2D.CandidatesAreUnflagged` | js/renderer-2d.js:117-153 | a polygon candidate (at least 2 endpoints, gap ≤ 0.25) is exactly a cluster with at least 2 endpoints that is not flagged |
| `Render2D.GatheredCorners` | js/renderer-2d.js:120-127 | two corner points are gathered per member wall end that has corners |
| `Render2D.GatherJointPoints` | js/renderer-2d.js:120-127 | the loop gathers exactly those points |
| `Render2D.DrawnJointPolygons` | js/renderer-2d.js:116-129 | a joint polygon is filled exactly for unflagged clusters with at least 2 endpoints and at least 3 gathered corner points |
| `Render2D.Span` | js/renderer-2d.js:215-220 | the span of an element along a wall is its two projections, smaller first |
| `Render2D.PlacementsOnWall` | js/renderer-2d.js:188-225 | none on a zero-length wall; every entry is a non-wall line of the plan that is near the wall, with tStart ≤ tEnd; every such line is included |
| `Render2D.PlacementsStep` | js/renderer-2d.js:199-222 | one more line adds its placement exactly when it is on the wall |
| `Render2D.PlaceOnWall` | js/renderer-2d.js:200-222 | one loop step: the placement when the element is on the wall, else none |
| `Render2D.ElementsOnWall` | js/renderer-2d.js:188-225 | the loop returns exactly the placements on the wall |
| `Render2D.WallDimensionOffset` | js/renderer-2d.js:227-275 | the direction is ±1 with the fallback opposite; it is −1 exactly when the wall carries openings and the +normal ray crosses an odd number of other walls |
| `Render2D.BestParentUnique` | js/renderer-2d.js:294-328 | the first qualifying wall with the least distance is unique |
| `Render2D.OffsetsPartitionWall` | js/renderer-2d.js:343-347 | fromStart and fromEnd are ≥ 0, and when the span lies within the wall they and the span add up to the wall's length |
| `Render2D.WallOffsetsForElement` | js/renderer-2d.js:277-355 | none for a zero-length element; otherwise none exactly when no wall qualifies (non-zero length, span within [−5, wlen + 5], midpoint distance < 10, \|dot\| > 0.9); else the offsets on the first wall of least distance |
| `Render2D.WallCentroid` | js/renderer-2d.js:416-424 | the loop computes the mean of the walls' endpoints (0 when there are none) |
| `Render2D.FacingAwayFromCentroid` | js/renderer-2d.js:441-449 | for an unflipped wall, the facing normal has non-positive dot product with the direction to the centroid |
| `Render2D.FlipReversesFacing` | js/renderer-2d.js:451-455 | toggling the flip negates the facing normal |
| `Render2D.FacingIsNormal` | js/renderer-2d.js:433-455 | the facing is the wall's unit normal or its negation |
| `Render2D.CornersAlong` | js/renderer-2d.js:457-482 | the face corners are the line's ends, and both back corners are offset by the same normal × thickness |
| `Render2D.CornersStep` | js/renderer-2d.js:426-482 | one loop step records a thick wall's corners under its id |
| `Render2D.WallCorners` | js/renderer-2d.js:428-482 | the corners recorded are the wall's face and its back offset by thickness along the facing normal (away from the centroid, reversed when flipped) |
| `Render2D.BuildWallCorners` | js/renderer-2d.js:413-482 | the map has exactly the ids of non-degenerate walls, and the last such wall with an id gives that id's corners |
| `Render3D.WallThicknessSetting` | js/renderer-3d.js:118-119 | the thickness is the input when finite and > 0, else 6 |
| `Render3D.CeilingSetting` | js/renderer-3d.js:121-123 | the ceiling is the parsed length when it is positive, else 96 |
| `Render3D.TrimSetting` | js/renderer-3d.js:125-129 | a trim is the parsed length when positive, else 0 |
| `Render3D.SettingsOf` | js/renderer-3d.js:118-129 | the thickness and ceiling are positive and the trims are non-negative |
| `Render3D.ElementHeight` | js/renderer-3d.js:259 | the opening height is the line's own when present and non-zero, else 80 for a door and 48 for a window |
| `Render3D.ElementBase` | js/renderer-3d.js:260 | the sill is the line's own when present, else 0 for a door and 36 for a window |
| `Render3D.InsertByStart` | js/renderer-3d.js:46 | insertion into a sorted list keeps it sorted by tStart and adds exactly the one entry |
| `Render3D.SortByStart` | js/renderer-3d.js:46 | the result is sorted by tStart and is a permutation of the input |
| `Render3D.SortKeepsSorted` | js/renderer-3d.js:46 | sorting a sorted list changes nothing |
| `Render3D.StartingAtAppend` | js/renderer-3d.js:46 | the entries starting at a given point of a concatenation are those of each part, in order |
| `Render3D.InsertKeepsTies` | js/renderer-3d.js:46 | an inserted entry lands after every entry with the same tStart, which keep their order |
| `Render3D.SortIsStable` | js/renderer-3d.js:46 | the sort is stable: for every tStart, the entries starting there come out in their input order |
| `Render3D.ElementsOnWall` | js/renderer-3d.js:7-47 | the placements on the wall, sorted by tStart |
| `Render3D.SortedOpenings` | js/renderer-3d.js:12-46 | none on a zero-length wall; sorted; the same entries as the 2D placements; no walls; tStart ≤ tEnd |
| `Render3D.Openings` | js/renderer-3d.js:258-260 | one opening per placement, with its defaulted height and sill |
| `Render3D.DoorOpenings` | js/renderer-3d.js:262-269 | the collider's openings are exactly the doors on the wall |
| `Render3D.WallBlocks` | js/renderer-3d.js:248-254 | a wall without openings is one full-height block of its whole length |
| `Render3D.CutStep` | js/renderer-3d.js:258-311 | one loop step adds the blocks for that opening, starting from the previous opening's end, and moves currentT to its tEnd |
| `Render3D.BlocksAround` | js/renderer-3d.js:271-308 | the blocks for one opening: a full-height block when tStart > currentT + 1, one above it when top < ceiling − 1, one below it when base > 1 |
| `Render3D.CutWall` | js/renderer-3d.js:248-325 | the loop builds exactly the wall's blocks and its door openings |
| `Render3D.ReachedBound` | js/renderer-3d.js:310 | with ordered openings, currentT ends at or beyond every opening's end |
| `Render3D.BlocksEndByReached` | js/renderer-3d.js:271-311 | no block emitted inside the loop extends beyond currentT |
| `Render3D.BlocksThroughClear` | js/renderer-3d.js:271-311 | with ordered openings no block from the loop covers an opening |
| `Render3D.BlocksLeaveOpeningsOpen` | js/renderer-3d.js:248-325 | with ordered openings, no block of the wall, the trailing one included, overlaps an opening |
| `Render3D.BlocksInsideWall` | js/renderer-3d.js:248-325 | with ordered openings inside the wall, every block lies within [0, length] × [0, ceiling] |
| `Render3D.IsPositionColliding` | js/renderer-3d.js:605-634 | true exactly when some wall has the point within the radius of its extent, closer than half its thickness plus the radius, with no opening that lets the walker through at eye height |
| `Render3D.OpeningsOnlyAdmit` | js/renderer-3d.js:616-627 | adding openings never makes a wall block the walker |
| `Render3D.SolidWallStops` | js/renderer-3d.js:605-631 | a wall without doors stops a walker on its face |
| `Render3D.ColliderOf` | js/renderer-3d.js:235-269 | the collider has the wall's length and the setting's thickness, faces the 2D facing normal, and its openings are the wall's doors |
| `Render3D.WallModels` | js/renderer-3d.js:185-231 | exactly the walls of length at least 1 get a model (shorter lines are skipped) |
| `Render3D.BuildWall` | js/renderer-3d.js:185-326 | one wall's blocks and collider are built as specified |
| `Render3D.BuildWalls` | js/renderer-3d.js:174-326 | the loop builds the models of all the plan's walls around the walls' centroid |
| `Render3D.Colliders` | js/renderer-3d.js:246 | the collider list holds one collider per wall model, in order |
| `Render3D.SceneLeavesOpeningsOpen` | js/renderer-3d.js:248-325 | no block of a built wall covers one of its openings |
| `Interaction.LineDistances` | js/interaction.js:29-38 | each line's screen distance is its segment distance times the scale |
| `Interaction.FindLineAtPoint` | js/interaction.js:27-44 | none exactly when no line is within the tolerance; otherwise the first line at the least distance |
| `Interaction.ScanStep` | js/interaction.js:39-41 | one best-so-far step keeps the first nearest within bound |
| `Interaction.FirstNearestUnique` | js/interaction.js:39 | the first nearest index is unique |
| `Interaction.EndpointDistances` | js/interaction.js:48-58 | each endpoint's screen distance from the cursor, start before end |
| `Interaction.FindEndpointAtScreen` | js/interaction.js:46-68 | none exactly when no endpoint is within the radius; otherwise the first nearest endpoint, start checked before end, with its distance, line and end |
| `Interaction.SnapDistances` | js/interaction.js:84-87 | each endpoint's scaled distance from the raw point |
| `Interaction.SnapPoint` | js/interaction.js:78-123 | without an anchor: the first nearest endpoint within the snap distance, unless the grid point is strictly nearer, or the grid point alone when only it is in range, else the raw point; with an anchor, that point after the axis lock |
| `Interaction.SnapIsNear` | js/interaction.js:84-105 | a snap target is the raw point or lies within the snap distance |
| `Interaction.GridPointFixed` | js/interaction.js:93-94 | a grid point rounds to itself |
| `Interaction.GridPointSnapsToItself` | js/interaction.js:93-105 | a raw point on the grid, with no endpoint in range, snaps to itself |
| `Interaction.AxisLockCases` | js/interaction.js:107-120 | \|dy\| < 0.2·\|dx\| takes the anchor's y; else \|dx\| < 0.2·\|dy\| takes the anchor's x; else the point stays |
| `Interaction.AxisLockIdempotent` | js/interaction.js:107-120 | applying the axis lock twice equals applying it once |
| `Interaction.SelectLine` | js/interaction.js:70-76 | selects the line's id (or none) and clears the typing buffer |
| `Interaction.CommitDrawing` | js/interaction.js:272-296 | the state becomes the committed value of the drawing |
| `Interaction.CommitKeepsIdsFresh` | js/interaction.js:273-291 | a drawing longer than 2 is appended with id `nextLineId`, which grows by 1, is selected and defaults to a wall; a shorter one changes nothing; ids stay unique and below `nextLineId` |
| `Interaction.ZoomedScale` | js/interaction.js:320-321 | the new scale lies in [0.1, 20] |
| `Interaction.ZoomDirection` | js/interaction.js:320-321 | zooming in never shrinks the scale and zooming out never grows it; unclamped it is the factor exactly |
| `Interaction.ZoomInThenOut` | js/interaction.js:320-321 | one notch in and one out restore the scale when the first step is not clamped |
| `Interaction.HandleWheel` | js/interaction.js:315-328 | only the scale changes, to the clamped zoom |
| `Interaction.KeyActionOf` | js/interaction.js:336-420 | in a text field only Ctrl+Z acts; Enter, Backspace, typing and Delete act only under their guards |
| `Interaction.DropLast` | js/interaction.js:394 | the buffer loses exactly its last character |
| `Interaction.LengthEdit` | js/interaction.js:361-366 | a typed length is applied only for a selected line and a parsed value > 0 |
| `Interaction.ApplyLength` | js/interaction.js:361-383 | the state becomes the typed-length value |
| `Interaction.PressUndo` | js/interaction.js:344-355 | the state becomes the undo-key value |
| `Interaction.DeleteSelection` | js/interaction.js:412-419 | the state becomes the delete-key value |
| `Interaction.HandleKeyDown` | js/interaction.js:336-420 | the state becomes the key-down value for the key |
| `Interaction.TextFieldKeysIgnored` | js/interaction.js:338-342 | in a text field every key except Ctrl+Z leaves the state alone |
| `Interaction.LengthKeyTypes` | js/interaction.js:403-409 | a length character is appended to the buffer and typing turns on |
| `Interaction.BackspaceErases` | js/interaction.js:393-401 | Backspace while typing drops the last character and stops typing when the buffer empties |
| `Interaction.EscapeStopsTyping` | js/interaction.js:385-391 | Escape clears the buffer and stops typing |
| `Interaction.TypeThenErase` | js/interaction.js:393-409 | typing a character and then Backspace restores the state |
| `Interaction.DeleteOnlyWhenNotTyping` | js/interaction.js:412-419 | Delete or Backspace removes the selected line only when not typing; while typing the lines are kept |
| `Interaction.EnterAppliesTypedLength` | js/interaction.js:361-383 | Enter while typing applies the typed length |
| `Interaction.TypedLengthResizes` | js/interaction.js:361-378 | an accepted length on a non-degenerate line changes only that line, keeping its start and direction and giving it the length; a snapshot is pushed and the buffer cleared |
| `Interaction.TypedLengthRejected` | js/interaction.js:364-381 | a rejected input only clears the buffer; on a zero-length line a snapshot is pushed but the line is kept |
| `Interaction.UndoKeyRestores` | js/interaction.js:344-355 | Ctrl+Z restores the last snapshot, renumbers `nextLineId`, clears the selection and buffer, and does nothing else on an empty history |
| `UI.SelectedIndex` | js/state.js:127-129 | the index of the selected line, which has the selected id |
| `UI.FindSelected` | js/state.js:127-129 | the method finds that index |
| `UI.ApplyNewLength` | js/ui.js:150-175 | the state becomes the edited-length value |
| `UI.LengthEditSetsLength` | js/ui.js:155-172 | an accepted length on a non-degenerate line changes only that line, keeping its start and direction and giving it the length, after a snapshot |
| `UI.LengthEditRejected` | js/ui.js:152-161 | no selection, an unparsed input or a value ≤ 0 leaves the state unchanged |
| `UI.ApplyNewHeight` | js/ui.js:205-223 | the state becomes the edited-height value |
| `UI.ApplyNewOffset` | js/ui.js:225-243 | the state becomes the edited-sill value |
| `UI.HeightEditReachesScene` | js/ui.js:207-220 | a change happens only for a selected door or window and a parsed height > 0; it changes only that line's height, which the 3D view then uses |
| `UI.OffsetEditReachesScene` | js/ui.js:227-240 | a change happens only for a selected door or window and a parsed sill ≥ 0; it changes only that line's sill, which the 3D view then uses |
| `UI.WallsKeepHeightAndSill` | js/ui.js:209-230 | a selected wall is never given a height or sill |
| `UI.ParentOffsetsDetermined` | js/renderer-2d.js:277-355 | the wall offsets of an element are unique, and their parent is a non-degenerate wall of the plan |
| `UI.AcceptWallOffset` | js/ui.js:247-256 | accepts exactly a selected door or window with a parsed offset ≥ 0 |
| `UI.MovedFromStartOnWall` | js/ui.js:264-281 | the start edit moves the selected line by delta along the wall's unit direction, after a snapshot |
| `UI.MovedFromEndOnWall` | js/ui.js:306-323 | the end edit moves the selected line by −delta along the wall's unit direction, after a snapshot |
| `UI.ApplyWallOffsetStart` | js/ui.js:245-285 | a rejected input changes nothing; otherwise the element moves along its parent wall by the requested minus the current fromStart, or nothing changes when it has no parent |
| `UI.ApplyWallOffsetEnd` | js/ui.js:287-327 | a rejected input changes nothing; otherwise the element moves back along its parent wall by the requested minus the current fromEnd, or nothing changes when it has no parent |
| `UI.TranslatedKeepsLength` | js/ui.js:278-281 | a translation keeps the element's length |
| `UI.UnitDirectionIsUnit` | js/ui.js:269-273 | the wall's direction vector has length 1 |
| `UI.ProjectShift` | js/ui.js:278-281 | moving a point by delta along the unit direction moves its projection by delta |
| `UI.SpanShift` | js/ui.js:278-281 | translating by delta along the wall shifts the element's span by delta |
| `UI.MoveFromStartSetsOffset` | js/ui.js:264-281 | when the element starts within the wall, after the move its fromStart is the requested offset, its fromEnd shrinks by delta (floored at 0), and its length is kept |
| `UI.MoveFromEndSetsOffset` | js/ui.js:306-323 | when the element ends within the wall, after the move its fromEnd is the requested offset and its length is kept |
| `UI.FlipFacing` | js/ui.js:535-543 | the state becomes the flipped value |
| `UI.IndexOfSameIds` | js/ui.js:541 | replacing a line by one with the same id keeps every lookup |
| `UI.FlipTurnsWall` | js/ui.js:535-543 | nothing changes unless a wall is selected; flipping twice restores the lines; a flip negates the wall's facing normal |
| `UI.ExportedLines` | js/ui.js:333-351 | one exported record per line |
| `UI.ExportedFields` | js/ui.js:334-349 | a record holds the four coordinates and the kind, the height and sill only when present, and `facingFlipped` only when true |
| `UI.ImportedLine` | js/ui.js:399-432 | an item is skipped exactly when it is not an object or a coordinate is not finite; a kept one gets the given id, its normalised kind, and a flip only for exactly `true` |
| `JsValues.IntegerLiteral` | js/ui.js:400-403 | a string of digits scans as a literal with no fraction and exponent 0, worth the digits' decimal value |
| `JsValues.PointedLiteral` | js/ui.js:400-403 | digits, a point and digits (either side may be empty, not both) scan as whole part and fraction with exponent 0 |
| `JsValues.ScientificLiteral` | js/ui.js:400-403 | digits, `e` or `E` and a signed exponent scan as those digits with that exponent |
| `JsValues.PointedScientificLiteral` | js/ui.js:400-403 | digits, a point, digits, `e` or `E` and a signed exponent scan as whole part, fraction and exponent |
| `JsValues.DecimalNumber` | js/ui.js:400-403 | `Number` of an unsigned decimal literal is its value while below the double overflow bound 2^1024 - 2^970, and not finite from it on |
| `JsValues.SignedDecimalNumber` | js/ui.js:400-403 | a leading `+` leaves the reading of a decimal unchanged; a leading `-` negates it |
| `JsValues.NonDecimalNumber` | js/ui.js:400-403 | `Number` of a `0x`, `0o` or `0b` integer is its value in base 16, 8 or 2 (not finite past the overflow bound) |
| `JsValues.SignedNonDecimalIsNaN` | js/ui.js:400-403 | a `+` or `-` in front of a `0x`, `0o` or `0b` integer makes it NaN |
| `JsValues.ReadsScientific` | js/ui.js:400-403 | `Number("1e3")` is 1000 |
| `JsValues.ReadsHexadecimal` | js/ui.js:400-403 | `Number("0x10")` is 16 |
| `JsValues.ReadsSignedHexadecimal` | js/ui.js:400-403 | `Number("-0x10")` is NaN |
| `UI.ImportsNumericStrings` | js/ui.js:396-432 | an object with x1 `"1e3"`, y1 0, x2 0, y2 `"0x10"` and no optional fields imports as one wall from (1000, 0) to (0, 16) |
| `UI.ImportedLines` | js/ui.js:396-435 | at most one line per item |
| `UI.ReadLines` | js/ui.js:396-435 | the loop keeps exactly the lines `ImportedLines` describes, and ends with the counter one past their number |
| `UI.ImportFromJson` | js/ui.js:386-442 | import happens exactly when the data is an array or has an array `lines`; then the lines become the imported ones, `nextLineId` their count + 1 and nothing is selected; otherwise nothing changes |
| `UI.ImportedIds` | js/ui.js:397-438 | imported lines are numbered 1..n in order |
| `UI.ImportedFromItems` | js/ui.js:398-435 | each imported line comes from some item of the input |
| `UI.SkippedItem` | js/ui.js:399-405 | an item that is not an object or has a non-finite coordinate adds nothing |
| `UI.ToLowerNoCapitals` | js/ui.js:407 | lower-casing leaves text without capitals alone |
| `UI.ImportedKindName` | js/ui.js:406-409 | the exported kind name imports back as the same kind |
| `UI.ExportedLineImports` | js/ui.js:333-432 | importing an exported record gives the line back with the new id |
| `UI.ExportThenImportStep` | js/ui.js:333-435 | one more exported line adds exactly its re-imported line |
| `UI.ExportThenImport` | js/ui.js:331-442 | export then import gives every line back in order, renumbered 1..n |
| `UI.ExportedDocumentImports` | js/ui.js:367-390 | the exported document `{ lines, settings }` is accepted by the import |

## Left out

- `Math.sqrt`, `Math.hypot`: passed in as the parameter `sqrt` with its defining property. IEEE-754 rounding, `Math.round` ties on negative halves and `toFixed` are not modelled; arithmetic is exact on reals.
- `jointKeyFromWorld` (js/renderer-2d.js:43-47): float-to-string keys are abstracted as a key function `keyOf` passed to the joint-issue members, because the rounding is an IEEE-754 detail.
- `orderPointsAroundCenter` and the polygon's drawing order (js/renderer-2d.js:106-110, 131-143): `atan2` ordering is not modelled, only which clusters draw a polygon and which points they gather.
- All canvas drawing, dimension labels, the `roundRect` polyfill, and all Three.js meshes, materials and trim groups: rendering through foreign APIs. The 3D model keeps the blocks' extents and the colliders.
- `alert`, `localStorage`, the clipboard, `console.log` and the DOM input fields: user interface plumbing. Handlers take the input's text as a parameter.
- `JSON.parse`, `JSON.stringify` and the import's empty-text check (js/ui.js:372-384): import starts from an already-decoded value and export ends at a decoded value.
- Restoring settings on import (js/ui.js:446-470) and reading them on export (js/ui.js:353-366): DOM fields only. The export takes the settings map as a parameter.
- The view offsets: the wheel handler's re-centring (js/interaction.js:324-325) and the import's reset of the offsets and scale (js/ui.js:440-442) are not part of the state value.
- Mouse-down selection, endpoint dragging, panning, the draw/select mode flags, hover joints and `handleMouseLeave`: mouse-event plumbing. The search, snap and commit rules they call are modelled.
- `applyNewAngle` (js/ui.js:177-203): it uses `cos` and `sin`.
- `updateSelectionPanel`: display only.
- dom.js and main.js: lookup and bootstrapping only.
- Camera orbit, walk-mode yaw and pitch, mouse capture and the animation loops: event plumbing. Only `isPositionColliding` is kept.
- Aliasing of line objects: an in-place field update is modelled as replacing the record at its index; two names for one object are not modelled.
- Render3D.BlocksLeaveOpeningsOpen and Render3D.BlocksInsideWall: these require the openings to be ordered by position and not to overlap (and, for the second, to lie within the wall). The source does not promise anything for overlapping doors and windows, so neither does the model.
- UI.ApplyWallOffsetStart and UI.ApplyWallOffsetEnd: the branch where a parent wall of zero length is found (a division by zero in the source) cannot occur, because `getWallOffsetsForElement` never picks such a wall; the model proves this and does not model the division.
- Formatting then parsing a fractional length: `formatInchesToFeetInches` prints fractions as Unicode glyphs such as "½", which `parseLengthToInches` does not read. The model follows the code, so the text parses back only for whole inches (`FormatParse.FormatThenParse`); a round trip to the nearest sixteenth does not hold.
- JsValues.StringToNumber: a decimal literal keeps its exact value; of the rounding to a double only the overflow to Infinity (from 2^1024 - 2^970 on) is modelled, so `"1e-400"` stays a tiny positive number instead of 0 and long literals are not rounded to 53 bits. Floating point is exact on reals throughout the model.
