# KeepYourDistance, modelled in Dafny

KeepYourDistance is an iOS augmented-reality app that tells how far away
a surface is. This project models its measuring core and proves
properties of the model.

- **The vertical scan** (`DistanceScanner`, `DistanceCoordinates`). The
  scanner sweeps the rows `y = 0 ... Int(height)` of the screen's centre
  line and measures each row. Each of six buckets, one per target of 1 to
  6 feet, keeps the row whose reading is strictly closest to its target.
  `distanceText(forHeight:)` then names the target of the first bucket
  whose row is nearest a given height.
- **The single-marker measurement** (`DistanceNode` and its class twin
  `DistanceCalculator`). It covers the hit-selection rule, the marker kept
  in the scene, and the reading from the scene origin.
- **The two-marker variant** (`DistanceNodes`). It has a tapped sphere, a
  device sphere and a text label in whole feet.
- **The banding function** `Int.distanceText` of the view controller.

Files, one module each:
- `geometry.dfy`: points, sizes, vectors and transforms. The hit-test
  machinery lives in `hit_testing.dfy`.
- `scene.dfy`: scene nodes and the view's child set.
- `text.dfy`: decimal printing.
- `single_node.dfy` and `calculator.dfy`: DistanceNode and
  DistanceCalculator.
- `coordinates.dfy`: the buckets.
- `scanner.dfy`: the scan.
- `two_nodes.dfy`: DistanceNodes.
- `bands.dfy`: the banding function.

How the model stands in for things outside the core:
- Structs are datatypes, and a `mutating` method takes the old value and
  returns the new one.
- Classes are classes: the scanner, the calculator, the scene nodes and
  the view.
- The scene is the view's set of child nodes, and nodes are compared by
  identity.
- ARKit's hit test is a parameter `world`, which gives every hit along
  the ray through a screen point, nearest first. A request for some
  result types keeps the hits of those types, in order.
- The floating-point distance, `Int(sqrt(dx*dx + dy*dy + dz*dz) * 39.3701)`,
  is a parameter `metric` from an offset vector to whole inches.
- Feet are compared in inches. `|inches / 12 - target|` is scaled by 12 to
  `|inches - 12 * target|`, which in exact arithmetic orders readings the
  same way (`Coordinates.DeltaIsTwelveFeetGaps`).
- The sentinel `CGFloat.greatestFiniteMagnitude` is the gap `Unresolved`.

Two behaviours of the code that are easy to overlook:
- `distanceText(forHeight:)` prints the target as a `CGFloat`, so the label reads "3.0".
- After a scan with no hits the six buckets exist and all their points are (0, 0), so `distanceText(forHeight:)` answers "1.0" for every height. It answers "" only before the first scan.

## Model

| member | source | states |
|---|---|---|
| Geometry.Truncate | KeepYourDistance/DistanceScanner.swift:24 | `Int(_:)` on a real rounds toward zero: for `r >= 0` the result is the floor, for negative `r` it is the ceiling |
| Text.NatToString | KeepYourDistance/DistanceNodes.swift:94 | The decimal text of an integer is nonempty, all digits, and has no leading zero; 0 prints as "0" |
| Text.NatToStringRoundTrip | KeepYourDistance/DistanceNodes.swift:94 | Reading the printed digits back gives the number |
| Text.NatToStringInjective | KeepYourDistance/DistanceNodes.swift:94 | Different numbers print differently |
| Text.WholeFloatText | KeepYourDistance/DistanceScanner.swift:49 | A whole `CGFloat` prints as its digits, with no leading zero (0 prints as "0.0"), followed by ".0"; the digits read back to the number, which fixes the text |
| Scene.SceneView.AddChildNode | KeepYourDistance/DistanceNode.swift:57 | Adding a child adds exactly that node to the child set |
| Scene.SceneView.RemoveFromParent | KeepYourDistance/DistanceNodes.swift:37-38 | `removeFromParentNode` removes exactly that node and leaves every other child |
| Scene.SceneView.RemoveIfPresent | KeepYourDistance/DistanceNode.swift:45 | `node?.removeFromParentNode()` removes the node if there is one; with `nil` the scene is unchanged |
| HitTesting.Keep | KeepYourDistance/DistanceNode.swift:67 | A typed hit test returns no more hits than the world has, and a hit is returned if and only if it is on the ray and has a requested type |
| HitTesting.HitTest | KeepYourDistance/DistanceNode.swift:67 | `hitTest(_:types:)` returns no more hits than lie on the ray through the point, and a hit is returned if and only if it lies on that ray and has a requested type |
| HitTesting.KeepAppend | KeepYourDistance/DistanceNode.swift:67 | Filtering by type keeps the order: filtering a concatenation concatenates the filtered parts |
| HitTesting.FirstIndexOf | KeepYourDistance/DistanceNode.swift:74 | `first(where:)` finds an index of that type, with none of that type before it, or nothing if and only if no hit has the type |
| HitTesting.LastIndexOf | KeepYourDistance/DistanceNodes.swift:124 | Finds the index of the last hit of a type, with none of that type after it, or nothing if and only if no hit has the type |
| HitTesting.Last | KeepYourDistance/DistanceNode.swift:91 | `last` is nothing exactly for an empty list, and otherwise the final element |
| HitTesting.LastOfOneKind | KeepYourDistance/DistanceNodes.swift:123-124 | The last hit of a one-type request is the last hit of that type among all hits |
| SingleNode.Filter | KeepYourDistance/DistanceNode.swift:66-92 | Returns nothing if and only if there are no hits; the result is always one of the hits; it is the first `existingPlaneUsingGeometry` hit when one exists, and otherwise the last hit. KeepYourDistance/DistanceCalculator.swift:66-95 is identical |
| SingleNode.Resolve | KeepYourDistance/DistanceNode.swift:94-99 | The marker position is nothing exactly when the requested hit test is empty, and otherwise is the translation of one of its hits |
| SingleNode.Measure | KeepYourDistance/DistanceNode.swift:39-64 | A tap's reading is nothing exactly when there is no hit, and otherwise is the metric of the resolved marker position |
| SingleNode.PointToNode | KeepYourDistance/DistanceNode.swift:94-100 | `pointToNode` gives nothing exactly when `filter` does; otherwise it gives a fresh sphere of radius 0.01 at (m41, m42, m43) of the chosen hit's transform |
| SingleNode.MarkerInches | KeepYourDistance/DistanceNode.swift:62-64 | The reading exists exactly when there is a marker, and is the metric of the marker's position |
| SingleNode.Init | KeepYourDistance/DistanceNode.swift:28-30 | A new struct holds the view and no marker |
| SingleNode.DistanceTo | KeepYourDistance/DistanceNode.swift:39-60 | The old marker always leaves the scene. With no hit: returns nothing, adds nothing, and the struct still refers to the removed marker. With a hit: a fresh sphere at the hit becomes the marker, it is the only node added, and its reading is returned |
| Calculator.DistanceCalculator.constructor | KeepYourDistance/DistanceCalculator.swift:28-30 | A new calculator holds the view and no marker |
| Calculator.DistanceCalculator.DistanceInInches | KeepYourDistance/DistanceCalculator.swift:62-64 | The reading exists exactly when a marker is stored, and is the metric of its position |
| Calculator.DistanceCalculator.DistanceTo | KeepYourDistance/DistanceCalculator.swift:39-60 | Like DistanceNode's, on the public field: the old marker is removed; a failure keeps the field and adds nothing; a success stores a fresh sphere at the hit, adds exactly it, and returns its reading |
| Coordinates.Fresh | KeepYourDistance/DistanceCoordinates.swift:15-22 | A new bucket has the given target, `y` 0 and the sentinel gap, so the first measured reading always moves it |
| Coordinates.DistanceCoordinates.Y | KeepYourDistance/DistanceCoordinates.swift:24 | `y` is the stored point's vertical coordinate (no contract: it is a plain projection) |
| Coordinates.UpdateIfClose | KeepYourDistance/DistanceCoordinates.swift:26-39 | The bucket changes if and only if the new gap is strictly smaller, so a tie does not change it. On an update it holds the new gap and the new point; otherwise nothing changes. The target never changes and the gap never grows |
| Coordinates.DeltaIsTwelveFeetGaps | KeepYourDistance/DistanceCoordinates.swift:29 | In exact arithmetic the gap in inches is 12 times the gap in feet, so both order readings alike |
| Coordinates.ReplayNeverWorsens | KeepYourDistance/DistanceCoordinates.swift:26-39 | Over any sequence of updates the target is fixed, and the gap after more updates is at most the gap after fewer |
| Scanner.InitCoordinates | KeepYourDistance/DistanceScanner.swift:55-63 | Six fresh buckets with targets 1 to 6, in order |
| Scanner.Observe | KeepYourDistance/DistanceScanner.swift:26-32 | A row without a reading leaves the bucket unchanged; with one, the target stays and the gap does not grow |
| Scanner.Scanned | KeepYourDistance/DistanceScanner.swift:24-35 | Sweeping any number of rows keeps the bucket's target and never increases its gap |
| Scanner.ScanResult | KeepYourDistance/DistanceScanner.swift:16-38 | A sweep always yields exactly six buckets |
| Scanner.MissStep | KeepYourDistance/DistanceScanner.swift:26-34 | A row without a hit leaves a bucket's summary valid one row further |
| Scanner.ImprovingStep | KeepYourDistance/DistanceScanner.swift:26-32 | A row whose gap strictly improves becomes the bucket's first closest row |
| Scanner.KeepingStep | KeepYourDistance/DistanceScanner.swift:26-32 | A row whose gap does not improve leaves the bucket's first closest row as it was |
| Scanner.ScannedIsFirstClosest | KeepYourDistance/DistanceScanner.swift:24-35 | After rows 0 .. n-1, a bucket holds its target. It holds the sentinel and point (0, 0) exactly when no row was measured. Otherwise it holds the smallest gap over all measured rows and the point of the earliest row attaining it |
| Scanner.ScanResultSummarizes | KeepYourDistance/DistanceScanner.swift:16-38 | Installed bucket `i` is for `i + 1` feet. It holds the sentinel and point (0, 0) exactly when no row was measured, and otherwise the smallest gap over the measured rows and the point of the earliest row attaining it |
| Scanner.NoHitScanIsFresh | KeepYourDistance/DistanceScanner.swift:24-35 | A sweep without hits leaves the six fresh buckets, and then the first bucket is nearest every height |
| Scanner.UpdateEach | KeepYourDistance/DistanceScanner.swift:29-32 | The inner loop runs `updateIfClose` on every bucket, each written back to its own index and none other |
| Scanner.SweepRow | KeepYourDistance/DistanceScanner.swift:25-26 | One row's `distanceTo` on the copy. It returns that row's reading, the copy's previous marker leaves the scene, and the row's fresh marker takes its place exactly when the row had a hit |
| Scanner.MinBy | KeepYourDistance/DistanceScanner.swift:44-48 | `min(by:)` with the strict comparator returns the first element whose `abs(Int(y) - height)` is smallest |
| Scanner.FirstNearestUnique | KeepYourDistance/DistanceScanner.swift:44-48 | There is exactly one first nearest element, so the answer is determined |
| Scanner.DistanceScanner.constructor | KeepYourDistance/DistanceScanner.swift:14 | A new scanner has no buckets |
| Scanner.DistanceScanner.DistanceText | KeepYourDistance/DistanceScanner.swift:40-53 | Gives "" with no buckets; otherwise the target of the first bucket nearest `height`, printed as a whole `CGFloat` |
| Scanner.DistanceScanner.NoHitText | KeepYourDistance/DistanceScanner.swift:48-49 | With the buckets of a scan that found nothing, every height is answered "1.0" |
| Scanner.DistanceScanner.Scan | KeepYourDistance/DistanceScanner.swift:16-38 | Installs for rows 0 .. Int(height) at x = width / 2 the six buckets `ScanResult` describes. In the shared scene the caller's marker is removed, and a fresh marker at the last row's hit remains exactly when the last row had a hit |
| Scanner.ScanTwice | KeepYourDistance/DistanceScanner.swift:16-38 | Two scans with the same size, world and metric install the same six buckets |
| TwoNodes.AddNodes | KeepYourDistance/DistanceNodes.swift:25-31 | Both spheres join the scene; nothing else changes |
| TwoNodes.RemoveNodes | KeepYourDistance/DistanceNodes.swift:33-39 | Both spheres leave the scene; every other child stays |
| TwoNodes.Filter | KeepYourDistance/DistanceNodes.swift:122-125 | The result is the last feature-point hit among all hits at the location, or nothing when there is none |
| TwoNodes.PointToNode | KeepYourDistance/DistanceNodes.swift:127-133 | Gives nothing exactly when `filter` does; otherwise a fresh sphere of radius 0.03 at the filtered hit's translation |
| TwoNodes.Nodes.DistanceInInches | KeepYourDistance/DistanceNodes.swift:41-52 | The pair's reading is the metric of the offset from the device sphere to the tapped one (no contract: the floating-point formula is the parameter) |
| TwoNodes.FeetLabel | KeepYourDistance/DistanceNodes.swift:94 | The label ends in " Feet", and what comes before is decimal digits with no leading zero (under 12 inches the label is "0 Feet"), whose value is `inches / 12`, truncated; this fixes the text |
| TwoNodes.FeetLabelInjective | KeepYourDistance/DistanceNodes.swift:94 | Equal labels mean equal whole feet |
| TwoNodes.Init | KeepYourDistance/DistanceNodes.swift:59-61 | A new struct holds the view, no spheres and no label |
| TwoNodes.DevicePoint | KeepYourDistance/DistanceNodes.swift:72-73 | The device point is the middle of the view's width, 20 points above its bottom |
| TwoNodes.AddTextNodeAsWritten | KeepYourDistance/DistanceNodes.swift:84-116 | As written: nothing happens without nodes. Otherwise the stored label is removed, and a fresh label with the pair's whole feet is added at the location; the struct is unchanged |
| TwoNodes.LabelsPileUpAsWritten | KeepYourDistance/DistanceNodes.swift:84-116 | As written, two calls leave two different labels in the scene |
| TwoNodes.AddTextNode | KeepYourDistance/DistanceNodes.swift:84-116 | As intended: the same, but the new label is stored. Nothing happens without nodes. If the scene's labels were at most the stored one before, they are at most the stored one after |
| TwoNodes.SetTapped | KeepYourDistance/DistanceNodes.swift:63-82 | The stored spheres always leave the scene first. If the tap or the device point has no feature point, the struct is unchanged and nothing is added. Otherwise two fresh spheres at the two hits become the pair and join the scene, and a label for their distance, at the tapped sphere, replaces the stored label. At most one label is kept in the scene |
| Bands.DistanceText | KeepYourDistance/ViewController.swift:180-197 | The switch, case by case with its `default`; every integer gets one of the seven band labels, never "" |
| Bands.Reached | KeepYourDistance/ViewController.swift:180-194 | The number of thresholds reached is at most the number of thresholds |
| Bands.BandIndex | KeepYourDistance/ViewController.swift:180-194 | Every integer falls in one of the seven bands |
| Bands.ReachedMonotone | KeepYourDistance/ViewController.swift:180-194 | A larger value reaches at least as many thresholds |
| Bands.BandIndexMonotone | KeepYourDistance/ViewController.swift:180-194 | The band never decreases as the value grows |
| Bands.ReachedIsPrefix | KeepYourDistance/ViewController.swift:180-194 | On increasing thresholds, the ones reached are exactly a prefix |
| Bands.BandBounds | KeepYourDistance/ViewController.swift:181-194 | Band k is exactly the values from threshold k-1 up to, not including, threshold k. The thresholds are 37, 44, 52, 57, 60 and 64, so the bands are ≤36, 37–43, 44–51, 52–56, 57–59, 60–63 and ≥64 |
| Bands.DistanceTextIsBanded | KeepYourDistance/ViewController.swift:178-199 | Every integer gets its band's label ("Less than 1", "1", ..., "5", "Over six"). 36 gets "Less than 1" because the first matching case wins, and the `default` "" is never reached |
| Bands.SameLabelSameBand | KeepYourDistance/ViewController.swift:178-199 | Two integers get the same label if and only if they are in the same band |

## Left out

- Floating point. The distance from the origin (KeepYourDistance/DistanceNode.swift:103-116, KeepYourDistance/DistanceCalculator.swift:106-119) and between the two spheres (KeepYourDistance/DistanceNodes.swift:41-52) is the parameter `metric`. Its meters-to-inches factor and its truncation to `Int` are not modelled.
- Float coordinates. Screen coordinates and sizes are exact reals, not `CGFloat`. `Int(height)` is modelled as truncation toward zero.
- Coordinates.UpdateIfClose: the gaps are exact in the model. In `CGFloat` a tie between k inches below and k inches above a target can compare as strict: for 1 foot, `abs(13/12.0 - 1)` is below `abs(11/12.0 - 1)`, so the source moves the bucket from a row reading 11 inches to a later row reading 13. "The earliest row wins ties" therefore holds only in exact arithmetic.
- Integer traps. `abs(Int(a.y) - height)` in `distanceText(forHeight:)` traps on `Int` overflow for `height` near `Int.min`, and `Int(size.height)` traps on NaN or on values beyond `Int`'s range. Integers and reals are unbounded in the model, so neither trap is modelled.
- Scanner.DistanceScanner.Scan requires `height > -1`, since for smaller heights the range `0...Int(height)` traps in Swift.
- Fractional targets. Targets are whole numbers of feet; the source only ever makes 1.0 to 6.0.
- Large-value number formatting. For whole `CGFloat` values, printing as digits followed by ".0" holds only up to the point where Swift switches to exponent notation. The targets 1 to 6 are far below that.
- A changing world. The hit test is a fixed `world` for the whole sweep. ARKit's world can change between rows, and that is not modelled.
- ARKit, SceneKit and UIKit specifics: the hit-test engine itself, sphere and text geometry, materials, colours, fonts, the text node's pivot and scale, and the transform conversion beyond its translation row.
- The order in which children are added. The scene is a set, so adding device then tapped is not distinguished from the reverse, and re-adding an existing child is a no-op.
- Logging and printing (`os_log`, `print`) and the `forEach` in `filter(at:)`, which only prints.
- Everything in ViewController.swift outside `Int.distanceText`, and the other app files (gestures, accelerometer, preview, welcome screen, grid). These are user-interface plumbing.
- SCNNode's `distanceInInches` extension is not modelled as a member, only through `metric`.
- TwoNodes.SetTapped calls the corrected `TwoNodes.AddTextNode`, not the code as written (see Findings). With the code as written, labels accumulate in the scene.

## Findings

| source | as written | input that shows it | evidently intended | confidence | as-written member | corrected member |
|---|---|---|---|---|---|---|
| KeepYourDistance/DistanceNodes.swift:84-116 | `addTextNode` is not `mutating`, and its local `let textNode` shadows the field, so the stored `textNode` is never set. The removal at line 92 comes before the local's declaration; read as the field, `self.textNode?.removeFromParentNode()`, it never removes a label, and the as-written member models it that way | Any two successful taps: each adds a label, and the first is never removed | The new label is stored in `textNode`, so the next tap removes it and at most one label is shown | not executed | TwoNodes.LabelsPileUpAsWritten | TwoNodes.AddTextNode |
