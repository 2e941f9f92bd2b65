# tuios, modelled and verified

tuios is a terminal window manager. This project models the parts of it where a fast path, a cache or a
second writer has to come to the same result as something simpler, and proves that it does.

* **The incremental compositor** (`CanvasRow`, `StableSort`, `Compose`, `LayerRecords`, `FrameDiff`,
  `Compositor`, `FrameRuns`, `SeenCells`). Last frame's canvas is kept and only rows where something
  differs are redrawn, some from recorded cell writes, some of those with part of the clearing left out.
  `Compose.FullCompose` is the reference: clear everything, draw every layer. `FrameDiff` says which
  rows a frame redraws, as a function of two lists of layers; `Compositor` is the code; `FrameRuns` is
  about runs of frames, and `SeenCells` about what is then seen where layers overlap. The cell buffer
  belongs to a library; what the compositor relies on (a line is set by itself, a write breaks up the
  wide cell it lands on but not one beneath its second column, the styling library never starts a cell
  beneath another) is written out as `CanvasRow.SetCell` and `Compose.Drawable`, and how a content
  string becomes cells is a parameter, as is what resizing leaves on a canvas.
* **The image passthrough** (`KittyPlacement`, `KittyPixels`, `KittyHost`, `HostIDs`, `KittyProtocol`,
  `KittyRuns`, `KittyStream`, `KittyPassthrough`, `KittySessions`). Placements of guest images are
  clipped, hidden, moved and deleted by appending commands to a stream, which is all the host terminal
  sees. `KittyPixels` says which screen cells a command takes and which pixels they show; `KittyHost`
  interprets the stream; `KittyProtocol` says what every operation does to the state and sends,
  `HostIDs` how host ids are given, `KittyRuns` what whole runs keep; `KittyPassthrough` is the code
  that does it, loop by loop over its tables, in any order, and `KittySessions` calls it for one event
  after another.
* **Video frames** (`VideoWriter`, `FrameQueue`). A background writer and the render loop both write to
  the host. `VideoWriter` is their state machine, one action for each critical section.
* **Chunked transfer** (`Base64`, `Transmit`). Gathering a guest's chunks and sending them on.
* **The styled-row writer** (`Terminal`, `CellStyle`), against a terminal that keeps a pen.
* **Small exact algorithms**: `EditDistance`, `DockStrip`, `LineWidth`, `AccentColor`, `AccentSlider`,
  `PamStash`.

`Common` holds what several of them share. Objects whose methods change fields are classes here; the
loops are loops, proved against functions and predicates about which the lemmas speak. A table that the
program reaches through pointers is a map of values that the methods reassign.

Where a property that the comments or the design suggest does not hold as it stands, the code is kept,
the exact condition is proved, and inputs for which it fails are named:

* The frame after one that passes a layer twice can keep a stale canvas
  (`FrameRuns.RepeatedLayerMatters`, and `RepeatedLayerStays` on the compositor itself). `RunRight` says
  row by row when: until a frame redraws the row, it stays as the repeating frame left it.
* `renderComposed` returns an old text for a canvas without rows, and for no other
  (`Compositor.OS.RenderComposed`, `FrameRuns.TextOfNoRows`).
* Clipped and shown rows add up only for an image and a pane with a row to show
  (`KittyPlacement.RowsAddUp`, `RowsNeedNotAddUp`); a guest's own rectangle is checked only when the
  image is clipped (`ShownCropInBitmap`, `GuestCropCanOverflow`); a window move does not look at the
  screen, at the pane below the image's first row, or at windows above (`MoveCanPlaceOffScreen`;
  `MoveContained`, `MoveIsRefresh`, `MoveIsRefreshInGeometry`).
* An image clipped to rows that do not divide its pixels evenly is shown from a little too early
  (`KittyPixels.ShowsItsPixels`); one with fewer pixels than rows is sent without a height
  (`TooFewPixels`), and a guest's corner without a size is passed on only while the image is clipped
  (`CornerNeedsClipping`).
* A guest that sends an image again, under an id that is shown or a video image's, leaves the host out
  of step with what is tracked (`KittyRuns.TrackAgrees`, `RunAgreesThroughout`).
* The comment on `isKittyResponse` says that image data cannot match it. Short pieces whose encoding is
  all capitals do (`Transmit.TakenForResponse`, `SomePiecesAreLost`), and then the image is not sent on
  whole (`ImageArrives`).
* The two writers can leave a video image in the wrong place after exactly two kinds of step
  (`VideoWriter.StaysOnCourse`); the second, a frame of another size while a re-placement is queued, the
  comments do not mention.
* A bar wider than its values loses columns (`AccentSlider.ColumnsComeBack`).
* A login offered without a session is not taken in, and is left to the caller (`PamStash.Stash.Put`).
* An expired login is deleted without another look. If it has been claimed or replaced since, it is
  closed under its new owner, or the new login is lost (`PamStash.RacesBreak`, `HandedOutAndClosed`);
  `NoLoginHasTwoOwners` holds otherwise.

`dafny verify dfyconfig.toml` checks the whole project.

## Model

| member | source | states |
|---|---|---|
| FrameRuns.RunShowsEveryFrame | internal/app/layer_cells.go:171-343 | Over any run of frames in which no frame passes a layer twice, with layers moved, raised, renamed, rebuilt, added and dropped and the canvas replaced or resized in between, the canvas shows after every frame exactly what clearing it and drawing every layer in stable z order would |
| FrameRuns.RunRight | internal/app/layer_cells.go:171-343 | Over any run at all, a row shows its frame if and only if that frame redraws it, or the frame that last did shows there what it would with each layer passed once |
| FrameRuns.RightAgain | internal/app/layer_cells.go:189-193 | Whatever came before, a new or resized canvas puts everything right for all frames that follow |
| FrameRuns.IdleFrame | internal/app/layer_cells.go:174-183 | A frame that shows what the last one showed redraws no row |
| FrameRuns.RepeatedLayerMatters | internal/app/layer_cells.go:190-193 | The frame after one that passes a layer again on top of another finds no difference and leaves the wrong one on top, for any two layers of different content |
| FrameRuns.RepeatedLayerStays | internal/app/layer_cells.go:171-343 | A run of the compositor itself that ends that way |
| FrameRuns.TextOfNoRows | internal/app/layer_cells.go:359-389 | A run of the compositor that turns a canvas resized to no rows into the text it had before |
| FrameRuns.ShowFrames | internal/app/render.go:27-34 | Frame after frame, the compositor leaves on the canvas, and renders, exactly what the run on values says |
| FrameRuns.ShownBottomUp | internal/app/layer_cells.go:204-211 | What a frame shows is listed by z, the lowest first, and layers of one z as they were passed |
| FrameRuns.RemadeFrame | internal/app/layer_cells.go:234-243 | A frame whose layers are all made anew, each under a name of its own to look as the one it replaces, redraws no row |
| SeenCells.HighestIsSeen | internal/app/layer_cells.go:171-343 | After any run without repeated layers, where layers overlap the canvas shows the one set to the higher z, or of equals the one passed later, at the place it was set to |
| SeenCells.LayerIsSeen | internal/app/layer_cells.go:204-211 | So does the full compose: a cell of a layer that no layer above it reaches is seen at the layer's place |
| SeenCells.CellIsSeen | internal/app/layer_cells.go:28-30 | A cell of a drawn layer is seen unless a layer drawn later reaches it |
| SeenCells.BlankIsSeen | internal/app/layer_cells.go:28-30 | A layer is opaque: where it has no cell a blank is seen, not what lies beneath |
| SeenCells.NothingIsSeen | internal/app/layer_cells.go:189-193 | Where no layer reaches, the screen is blank |
| Compositor.OS.ComposeLayers | internal/app/layer_cells.go:171-343 | Exactly the rows that the frame redraws change, to those of the full compose of the layers from the lowest z up, equal z in the order passed; so a row shows the frame if and only if it is redrawn or showed the last frame with each layer taken once. The records kept are old ones or new, so frames can follow one another |
| Compositor.OS.RenderComposed | internal/app/layer_cells.go:359-389 | The cached text is what rendering every row afresh gives, if and only if the canvas has a row, or is not the composed one, or nothing was cached; and cut at its newlines it is row for row what the rows render to |
| Compositor.OS.RefreshRows | internal/app/layer_cells.go:369-388 | Every row not dirty keeps the text of the cells now on it, and the joined text is that of the whole canvas |
| Compositor.LineByLine | internal/app/layer_cells.go:384-388 | The text has one line for each row, in order, each what the row renders to |
| Compositor.OS.KeepCache | internal/app/layer_cells.go:318-328 | A row whose text stays cached has not changed since it was rendered |
| Compositor.StillCached | internal/app/layer_cells.go:318-328 | The cache stays right from one compose to the next, dirty flags from earlier frames included |
| Compositor.OS.FindRecord | internal/app/layer_cells.go:234-243 | A layer takes the record of the last layer that was itself, or else of the one it was rebuilt from, exactly if no layer of this frame has taken it |
| Compositor.OS.MatchRebuiltLayer | internal/app/layer_cells.go:346-357 | The record found is that of the last layer with the id, or with the content and no id; none if it is taken or its content differs |
| Compositor.OS.MatchLayers | internal/app/layer_cells.go:222-265 | After matching, every layer has a record of its own showing it as this frame does; the damaged rows are exactly those where a new or moved layer was or is; everything is redrawn if and only if asked for, a layer repeats, or two that stayed swapped |
| Compositor.OS.MatchOne | internal/app/layer_cells.go:228-264 | One layer matched or measured anew keeps all of that |
| Compositor.OS.PlaceLayer | internal/app/layer_cells.go:232-257 | A layer that stays and moves damages exactly its old rows and its new ones, a new one all it covers; a swap, and nothing else, asks for a full redraw |
| Compositor.OS.MarkGone | internal/app/layer_cells.go:266-270 | Exactly the rows of the layers that are gone are added to the damage |
| Compositor.OS.ClearDamaged | internal/app/layer_cells.go:276-296 | Everything is cleared if and only if a full redraw was asked for or more than half of the rows are damaged, and otherwise exactly the damaged rows |
| Compositor.OS.Redraw | internal/app/layer_cells.go:298-316 | The damaged rows show every layer drawn over them in z order; the other rows are untouched |
| Compositor.OS.RedrawKept | internal/app/layer_cells.go:308-316 | A kept layer that crosses a damaged row is decoded if need be and drawn on exactly the damaged rows |
| Compositor.PlaceInStep | internal/app/layer_cells.go:228-264 | The matching invariant survives each layer, and no two layers come to share a record |
| Compositor.AgainInStep | internal/app/layer_cells.go:229-231 | It survives a layer passed over because it came before |
| FrameDiff.UntouchedIsSame | internal/app/layer_cells.go:175-181 | On a row that no new, moved or gone layer crosses the two frames show the same layers in the same order |
| FrameDiff.PaintIsRight | internal/app/layer_cells.go:171-181 | Rows kept and rows redrawn make up the full compose exactly where the kept ones were right |
| FrameDiff.OriginsFacts | internal/app/layer_cells.go:340-345 | No two layers of a frame take over the same layer of the last one, and contents agree |
| FrameDiff.AllFirst | internal/app/layer_cells.go:229-231 | A list is its first places alone if and only if it repeats no layer |
| FrameDiff.RowsRedrawn | internal/app/layer_cells.go:222-296 | A row is redrawn exactly if a new, moved or gone layer crosses it, or the canvas is new or resized, a layer repeats, two that stayed swapped, or more than half of the rows would have to be |
| FrameDiff.SortIsBottomUp | internal/app/layer_cells.go:204-211 | Sorting gives every layer once, the lowest z first, and leaves the layers of one z in order |
| FrameDiff.SortDistinct | internal/app/layer_cells.go:204-211 | Sorting by z doubles no layer and loses none |
| StableSort.SortIsStable | internal/app/layer_cells.go:204-211 | Layers of equal z, and writes on one row, keep the order they were given in |
| StableSort.SortedPlace | internal/app/layer_cells.go:204-211 | Whatever comes after an element in the sorted list has a higher key, or the same and was given later |
| StableSort.StableOrderIsUnique | internal/app/layer_cells.go:98-101 | Only one order is sorted and stable, whichever algorithm finds it |
| Compose.UndamagedRow | internal/app/layer_cells.go:176-181 | A row that the same layers cross in the same order comes out the same in both frames |
| Compose.DrawAllRowByRow | internal/app/layer_cells.go:28-30 | Drawing all layers changes each row as if it were alone |
| CanvasRow.ReplayIsDraw | internal/app/layer_cells.go:34-40 | Setting recorded cells after clearing only the columns where none starts gives the same row as clearing all of it first, wide cells included, old or new |
| CanvasRow.OverlapBreaksReplay | internal/app/layer_cells.go:34-40 | It takes that no wide cell of the layer covers a column where another of its cells starts: a row and two writes for which the two differ |
| CanvasRow.SetCellKeepsWellFormed | internal/app/layer_cells.go:34-40 | Setting any cell keeps every wide cell followed by its placeholder |
| CanvasRow.SetCellShows | internal/app/layer_cells.go:34-40 | A cell that is set stands there, with its placeholder if it is wide; half of a wide cell that it cuts becomes a space, and no other column changes |
| LayerRecords.RecordWrites | internal/app/layer_cells.go:81-119 | The decoded writes are grouped by row in drawing order, and the start flags say exactly where a write begins a cell |
| LayerRecords.GroupRows | internal/app/layer_cells.go:102-112 | The row index cuts the sorted writes into exactly the writes of each row |
| LayerRecords.MarkStarts | internal/app/layer_cells.go:114-118 | A position is marked if and only if some write inside the area starts there |
| LayerRecords.LayerCells.Replay | internal/app/layer_cells.go:142-169 | Every damaged row of the screen that the layer covers is drawn as a clear and redraw would, every other row is left alone |
| LayerRecords.ReplayOneRow | internal/app/layer_cells.go:152-167 | Clipped to the screen, replaying one row is drawing it |
| LayerRecords.LayerCells.MarkRows | internal/app/layer_cells.go:134-140 | Exactly the canvas rows the layer covers become damaged |
| KittyPlacement.ShownFits | internal/app/kitty_passthrough_placement.go:272-401 | A placement a native refresh leaves shown is on the screen with the last row free, between its pane's left and right edge, under no visible higher window; and between top and bottom exactly when the pane has a row |
| KittyPlacement.RowsAddUp | internal/app/kitty_passthrough_placement.go:297-319 | Rows clipped above, shown and clipped below add up to the image's, if and only if the image has a row and the pane has one |
| KittyPlacement.RowsNeedNotAddUp | internal/app/kitty_passthrough_placement.go:301-304 | An image without rows inside its pane is shown on one row all the same |
| KittyPlacement.ShownCropInBitmap | internal/app/kitty_passthrough_placement.go:569-606 | A crop of a known bitmap without guest offset lies inside it, if and only if the image is clipped or the guest asked for no more than it sent |
| KittyPlacement.CropInBitmap | internal/app/kitty_passthrough_placement.go:560-606 | The same of any placement record |
| KittyPlacement.GuestCropCanOverflow | internal/app/kitty_passthrough_placement.go:607-619 | An image in full view is placed with the guest's rectangle as it is, which lies in the bitmap if and only if the guest asked for no more than it sent |
| KittyPlacement.RefreshOneSettles | internal/app/kitty_passthrough_placement.go:256-405 | Refreshing a placement again changes nothing and sends nothing |
| KittyPlacement.RefreshVideoSettles | internal/app/kitty_passthrough_placement.go:133-203 | Nor does refreshing a video image again |
| KittyPlacement.MoveCanPlaceOffScreen | internal/app/kitty_passthrough_lifecycle.go:31-48 | A window move can place an image left of the screen, which a refresh never does |
| KittyPlacement.MoveContained | internal/app/kitty_passthrough_lifecycle.go:31-48 | A moved image is within pane and screen if and only if the part recorded before has room there |
| KittyPlacement.WantedIsGeometry | internal/app/kitty_passthrough_placement.go:272-401 | The step-by-step clipping of a native refresh comes to the intersection of image, pane and screen, shown exactly if some of it is in sight |
| KittyPlacement.RefreshIsGeometry | internal/app/kitty_passthrough_placement.go:249-405 | All of a native refresh of one placement: left alone while it is transmitted, hidden on the other screen and forgotten when the alternate one is left, otherwise shown exactly as far as it is in sight; something is sent exactly if that is a change |
| KittyPlacement.InlineHasNoEdges | internal/app/kitty_passthrough_placement.go:346-380 | On an inline host a refresh does what it would with a screen without edges |
| KittyPlacement.MoveIsGeometry | internal/app/kitty_passthrough_lifecycle.go:31-48 | A window move places an image at its cell of the pane exactly if its first row is in view, after taking it off the screen |
| KittyPlacement.CommandCarries | internal/app/kitty_passthrough_placement.go:508-634 | What a placing command says: image, cell, extent, offsets and z of the record, under an id that is not zero |
| KittyPixels.ShownWhereItBelongs | internal/app/kitty_passthrough_placement.go:272-401 | Every cell of an image that a native refresh leaves shown is drawn at the screen cell it has unclipped, exactly if that is inside pane and screen |
| KittyPixels.ShowsItsPixels | internal/app/kitty_passthrough_placement.go:569-606 | Such a cell shows the pixels it shows unclipped, exactly if rows and columns divide the bitmap evenly, and otherwise from less than a pixel too early for each cell before it |
| KittyPixels.ClippedRow | internal/app/kitty_passthrough_placement.go:569-597 | Row k of a clipped image begins k rows of pixels below the guest's corner, however many rows are clipped above |
| KittyPixels.ClippedColumn | internal/app/kitty_passthrough_placement.go:574-600 | Column k begins k columns of pixels in |
| KittyPixels.GuestRectangle | internal/app/kitty_passthrough_placement.go:583-619 | A guest's own rectangle goes out unchanged but for clipped rows and columns |
| KittyPixels.TooFewPixels | internal/app/kitty_passthrough_placement.go:569-597 | A clipped image with fewer pixels than rows is sent without a height |
| KittyPixels.CornerNeedsClipping | internal/app/kitty_passthrough_placement.go:607-619 | A guest's corner without a size is passed on only while the image is clipped |
| KittyPixels.OccludedByCells | internal/app/kitty_passthrough_placement.go:15-35 | An image is covered exactly if one of its cells belongs to another visible window of higher z |
| KittyPixels.VideoIsGeometry | internal/app/kitty_passthrough_placement.go:133-203 | A video image of this screen is shown exactly if its window is visible, no corner is negative, some of it is left of the right edge and above the last row, and no window above overlaps that; then exactly that much of it is |
| KittyPixels.VideoOfOtherScreen | internal/app/kitty_passthrough_placement.go:139-147 | One of the other screen is deleted and forgotten |
| KittyPixels.VideoShowsItsPixels | internal/app/kitty_passthrough.go:243-260 | A clipped video image shows in each cell the pixels it shows whole, to less than a pixel |
| KittyPixels.VideoCommandCarries | internal/app/kitty_passthrough_placement.go:186-202 | It is placed under id 1 at its cell, from the bitmap's corner |
| KittyPlacement.MoveIsRefresh | internal/app/kitty_passthrough_lifecycle.go:31-48 | A window move leaves what a refresh would, clipping, screen and windows above included, if and only if both hide the image or the refresh would clip it just as it is recorded |
| KittyPlacement.MoveIsRefreshInGeometry | internal/app/kitty_passthrough_lifecycle.go:31-48 | In terms of window, pane and screen: if and only if both hide it, or what is in sight of it is what is recorded |
| KittyPlacement.MoveOfWholeImage | internal/app/kitty_passthrough_lifecycle.go:31-48 | For an image shown whole before: if and only if it is in full view, or out of sight for both |
| KittyPlacement.VideoFits | internal/app/kitty_passthrough_placement.go:133-190 | A video image a refresh leaves shown is on the screen with the last row free, at its place in the pane, under no visible higher window |
| KittyPlacement.VideoCropInBitmap | internal/app/kitty_passthrough.go:243-260 | The part of a video bitmap asked for lies in it, and only a clipped image asks for a part |
| KittyPlacement.MoveAgreesWithRefresh | internal/app/kitty_passthrough_lifecycle.go:31-48 | Where the whole image is in view a move places it exactly where a refresh would, and the refresh after it sends something only if the image was clipped before |
| KittyHost.ShownAtItsPlace | internal/app/kitty_passthrough_placement.go:508-634 | A shown image has exactly one placement on the host, under a non-zero id, at its recorded cell and of its recorded extent |
| KittyHost.OnlyAbout | internal/app/kitty_passthrough_placement.go:475-506 | What the host shows of an image depends on the commands about that image alone |
| KittyHost.RefreshIsFaithful | internal/app/kitty_passthrough_placement.go:249-405 | After a refresh step the host shows the placement exactly as its new record says |
| KittyHost.MoveIsFaithful | internal/app/kitty_passthrough_lifecycle.go:31-48 | So it does after a window move, shown or hidden before |
| KittyProtocol.RefreshIsQuiescent | internal/app/kitty_passthrough_placement.go:37-412 | A second refresh over the same windows changes no placement, video image or recorded size, and asks for no command |
| KittyProtocol.QuietSendsNothing | internal/app/kitty_passthrough_placement.go:37-412 | Such a refresh sends not one command |
| KittyProtocol.RefreshLaysOut | internal/app/kitty_passthrough_placement.go:77-254 | A refresh leaves a window's images alone exactly while it is manipulated and no longer has the size last laid out at; every other window's are laid out, those of a window that is gone deleted |
| KittyProtocol.RefreshRecordsSizes | internal/app/kitty_passthrough_placement.go:77-121 | It records the size of every window it lays out, keeps that of one it holds, and forgets that of one gone, or with nothing but video images and now without them |
| KittyProtocol.MoveMovesItsOwn | internal/app/kitty_passthrough_lifecycle.go:11-49 | A window move is about its own placements, on an enabled native host only, and about nothing else |
| KittyProtocol.HideAllHidesAll | internal/app/kitty_passthrough_placement.go:475-493 | Hiding takes every placement off a native host, and does nothing on an inline one |
| KittyProtocol.ClearTakesItsOwn | internal/app/kitty_passthrough_lifecycle.go:51-104 | A window cleared or closed loses all its images and no other window loses any |
| KittyProtocol.StepAgrees | internal/app/kitty_passthrough_placement.go:205-412 | Whatever the order images are visited in, after refresh, move, hide-all, clear or close the host shows exactly the tracked placements not hidden, each at its recorded place |
| KittyRuns.RunAgreesThroughout | internal/app/kitty_passthrough_placement.go:205-506 | Over any run of these operations and newly tracked images, the host is in agreement after every event if and only if every id is free when an image is tracked under it |
| KittyRuns.RunAgrees | internal/app/kitty_passthrough_placement.go:205-506 | After any such run the whole stream, replayed, shows exactly what is tracked and not hidden, and the ids are still apart |
| KittyRuns.AgreesFromTheStart | internal/app/kitty_passthrough.go:336-350 | In particular from the start, where nothing is tracked |
| KittyRuns.TrackAgrees | internal/app/kitty_passthrough_forward.go:422-458 | Tracking the image of a completed transmission keeps the host in agreement, if and only if no video image and no shown placement has its id |
| KittyRuns.TrackKeepsAllocated | internal/app/kitty_passthrough_forward.go:337-353 | Ids in use stay below the next one, each with one guest image of one window, if and only if the next one has not wrapped |
| KittyRuns.DoKeepsAllocated | internal/app/kitty_passthrough_lifecycle.go:11-104 | No operation disturbs that |
| HostIDs.GivenIsOwn | internal/app/kitty_passthrough.go:471-482 | A guest image keeps its host id, others keep theirs, and a new one is nobody else's |
| HostIDs.StaysApart | internal/app/kitty_passthrough_forward.go:337-353 | No two guest images come to have the same host id |
| HostIDs.IDsCount | internal/app/kitty_passthrough.go:524-531 | Ids count up and go once through all 32-bit numbers but zero |
| KittySessions.ReactToAll | internal/app/kitty_passthrough_placement.go:37-412 | The methods, called for one event after another, make exactly the run and send exactly its stream, and keep the host in agreement |
| KittySessions.Session | internal/app/kitty_passthrough.go:336-350 | From the start, once all output is written, the host shows exactly what is tracked and not hidden |
| KittyProtocol.FrozenStays | internal/app/kitty_passthrough_placement.go:77-111 | A window held during an interactive resize stays held, and one that is not stays free |
| KittyProtocol.StepIsFaithful | internal/app/kitty_passthrough_lifecycle.go:11-104 | Each operation's step on one placement leaves the host showing what its new record says |
| KittyPassthrough.KittyPassthrough.RefreshAllPlacements | internal/app/kitty_passthrough_placement.go:37-412 | The loops over the tables make exactly the refreshed state and send, image by image, exactly its commands; agreement is kept |
| KittyPassthrough.KittyPassthrough.MarkAll | internal/app/kitty_passthrough_placement.go:68-121 | A window is held exactly when it is being manipulated and differs from the size last laid out at; all others are recorded |
| KittyPassthrough.KittyPassthrough.RefreshVideos | internal/app/kitty_passthrough_placement.go:133-203 | Video images follow, hide, return or are deleted as their window does; a window left without any is forgotten |
| KittyPassthrough.KittyPassthrough.RefreshPlacements | internal/app/kitty_passthrough_placement.go:205-411 | Placements likewise; those of the alternate screen are deleted when it is left |
| KittyPassthrough.KittyPassthrough.OnWindowMove | internal/app/kitty_passthrough_lifecycle.go:11-49 | Only on a native host, and only for the window's own images, each deleted if shown and placed anew if in the viewport |
| KittyPassthrough.KittyPassthrough.HideAllPlacements | internal/app/kitty_passthrough_placement.go:475-493 | Every shown image is deleted and marked hidden, and everything pending reaches the host at once |
| KittyPassthrough.KittyPassthrough.ClearWindow | internal/app/kitty_passthrough_lifecycle.go:87-104 | All of the window's images are deleted, its video images freed |
| KittyPassthrough.KittyPassthrough.OnWindowClose | internal/app/kitty_passthrough_lifecycle.go:51-66 | The same, and its id map is dropped |
| KittyPassthrough.KittyPassthrough.GetOrAllocateHostID | internal/app/kitty_passthrough.go:471-482 | The ids become those of `HostIDs.Given`, and the one returned is the guest image's |
| KittyPassthrough.KittyPassthrough.AllocateHostID | internal/app/kitty_passthrough.go:524-531 | Ids count up in 32 bits and skip zero |
| KittyPassthrough.KittyPassthrough.Track | internal/app/kitty_passthrough_forward.go:331-458 | The image of a completed transmission is tracked hidden, under a fresh id for guest id 0 or one not met before; agreement is kept if and only if the id is free |
| VideoWriter.WritersConverge | internal/app/kitty_passthrough.go:417-460 | Along every interleaving of frame writes, refreshes and flushes in which no refresh changes the geometry between the writer's second look and its corrective write with no frame waiting, and no frame changes the size while a re-placement is queued, the image ends where it was last wanted |
| VideoWriter.StaysOnCourse | internal/app/kitty_passthrough.go:428-460 | Those two steps, and no others, lead off course |
| VideoWriter.OnCourseIsExact | internal/app/kitty_passthrough.go:417-460 | A state converges along every order of the writes under way if and only if it is on course |
| VideoWriter.OffCourseDiverges | internal/app/kitty_passthrough.go:417-460 | From any other state some order of the writes leaves the image in the wrong place |
| VideoWriter.RefreshSetsRight | internal/app/kitty_passthrough_placement.go:170-190 | Whatever went before, a refresh that sends a re-placement leads on course, if and only if no corrective write with another geometry is due with no frame behind it |
| VideoWriter.GeometryIsCommand | internal/app/kitty_passthrough.go:243-260 | The geometry the two writers race about is all that their commands say |
| VideoWriter.FrameSetsRight | internal/app/kitty_passthrough.go:417-460 | A new frame does, if and only if no other re-placement is queued |
| VideoWriter.HandOffIsExact | internal/app/kitty_passthrough_forward.go:869-911 | When the first frame is handed over, with an earlier re-placement still on its way or not, every order of the writes converges if and only if none is queued to another geometry |
| VideoWriter.ConvergesFromHandOff | internal/app/kitty_passthrough.go:417-460 | From such a hand-over on, every run without a derailing step converges |
| VideoWriter.RefreshQueuesChanges | internal/app/kitty_passthrough_placement.go:170-190 | While an image stays visible, a refresh that changes its geometry sends a re-placement with it |
| FrameQueue.FrameQueue.Forward | internal/app/kitty_passthrough_forward.go:754-919 | A frame of a known stream that passes the first check is never dropped for want of room, whenever the writer drains the channel; hashes are recorded exactly for frames sent; exactly which frames are skipped as unchanged and which can still be dropped; and for which frames an id is given |
| FrameQueue.SentMore | internal/app/kitty_passthrough_forward.go:795-812 | Every recorded hash is that of a frame of its stream that was sent |
| Base64.RoundTrip | internal/app/kitty_passthrough_forward.go:355-356 | Decoding by section 4 of RFC 4648 gives back every byte sequence encoded |
| Base64.LeadingGroup | internal/app/kitty_passthrough_forward.go:355-356 | Three bytes read as one number are the next four symbols read as one, by the table of the RFC; what is missing at the end is padded |
| Base64.DecodeInPieces | internal/app/kitty_passthrough_forward.go:388-416 | A text cut at whole groups decodes piece by piece to the same data |
| Transmit.BuildChunks | internal/app/kitty_passthrough_forward.go:986-1012 | The loop makes exactly the chunks of the encoded text |
| Transmit.ChunksFacts | internal/app/kitty_passthrough_forward.go:388-416 | The payloads make up the text; each has 1 to 4096 symbols, all but the last 4096; only the first carries the header and only the last lacks m=1 |
| Transmit.HostReadsWhatWasSent | internal/app/kitty_passthrough_forward.go:355-416 | The host reads exactly the data sent, payload by payload and as a whole |
| Transmit.IsKittyResponse | internal/app/kitty_passthrough.go:38-62 | A payload is taken for a response exactly when it is OK, or E and at least one more capital, then nothing or a colon and anything, in at most 256 characters |
| Transmit.TakenForResponse | internal/app/kitty_passthrough.go:25-37 | A piece of image data is taken for one exactly when it has at most 192 bytes and its encoding is all capitals beginning with E |
| Transmit.SomePiecesAreLost | internal/app/kitty_passthrough_forward.go:61-67 | Three bytes that are: a continuation of just these is thrown away |
| Transmit.ImageArrives | internal/app/kitty_passthrough_forward.go:264-416 | An image in any pieces within the cap is sent on whole, if and only if no continuation is taken for a response |
| Transmit.DataOfPiece | internal/vt/kitty_parser.go:27-53 | A piece's command carries exactly the piece's bytes |
| Transmit.DataInText | internal/vt/kitty_parser.go:27-53 | A line break anywhere in a payload makes no difference |
| Transmit.OtherText | internal/vt/kitty_parser.go:27-53 | A payload with any other character in it is taken as it is |
| Transmit.NothingElseIsLost | internal/app/kitty_passthrough_forward.go:259-330 | Of the data a command brings, only what looks like a response or exceeds 64 MiB is lost: the rest is kept until complete and then said to the host, or passed on |
| Transmit.Transmitter.Forward | internal/app/kitty_passthrough_forward.go:259-330 | One command gathers, sends, passes through, or gives up on its own window's data, and touches no other window's |
| Terminal.IdenticalIsSamePaint | internal/app/cell_style.go:51-77 | Two safe colours are identical exactly when a terminal is told the same of them |
| Terminal.IdenticalIsSamePen | internal/app/cell_style.go:78-86 | Two drawable styles are identical exactly when they set the same pen, and only the zero style sets the plain one |
| Terminal.BrokenIsAlone | internal/app/cell_style.go:71-73 | A colour that cannot be resolved is identical to itself only |
| CellStyle.StyleMemo.Resolve | internal/app/cell_style.go:109-135 | The result is the style with each colour as the theme has it, dropped if unusable; under an unchanged generation it is the one returned before; `same` says whether resolving changed it |
| CellStyle.CellLineWriter.WriteCell | internal/app/cell_style.go:187-213 | After every cell the terminal shows the row so far but for blanks held back, and its pen and link are what the writer believes |
| CellStyle.CellLineWriter.SetStyle | internal/app/cell_style.go:202-206 | The pen is right also where it is not looked at because the generation is the same |
| CellStyle.CellLineWriter.SetPen | internal/app/cell_style.go:236-245 | The terminal ends with the style's pen, though a style change on a terminal only adds to the pen |
| CellStyle.CellLineWriter.SetLink | internal/app/cell_style.go:247-258 | The terminal ends with exactly this link, or none if it has no address |
| CellStyle.CellLineWriter.End | internal/app/cell_style.go:260-273 | Pen and link are plain at the end of a row and nothing shown is lost |
| CellStyle.RenderCellScreen | internal/app/cell_style.go:282-303 | Every row of the output shows its cells up to the blanks at its end, with pen and link plain; a well-formed row column by column as `RowComesBack` says |
| CellStyle.RowComesBack | internal/app/cell_style.go:167-273 | Column by column of a well-formed row: each cell's character, link, attributes and underline, its foreground, background and underline colour each as the theme has that colour or the default if it is unusable; exactly the blanks that end the row are left out |
| EditDistance.EditDistance | cmd/tuios/diagnostics.go:391-418 | Two swapped rows compute the recursive Levenshtein distance |
| EditDistance.DistanceIsFewestEdits | cmd/tuios/diagnostics.go:391-418 | It is the least number of single insertions, deletions and replacements, anywhere in the text, that lead from one to the other |
| EditDistance.Symmetric | cmd/tuios/diagnostics.go:391-418 | It is the same in both directions |
| EditDistance.Triangle | cmd/tuios/diagnostics.go:391-418 | A detour is never shorter |
| EditDistance.ZeroIsSame | cmd/tuios/diagnostics.go:391-418 | Only a text is at distance zero from itself |
| EditDistance.LimitByLength | cmd/tuios/diagnostics.go:373 | The limit is one edit below four bytes, two below eight, and three from there on |
| EditDistance.ClosestName | cmd/tuios/diagnostics.go:367-389 | The first of the nearest candidates that is not the target itself, if it is within the limit, and otherwise nothing |
| DockStrip.Dock.PlanDockWorkspaceStrip | internal/app/dock_helpers.go:289-387 | The strip and the offset are those of the plan, case by case |
| DockStrip.StaysInRoom | internal/app/dock_helpers.go:300-387 | The strip takes no more than its budget and the room; its pills fit between the arrows, are a run of the workspaces, and the arrows say whether there are more |
| DockStrip.StripInColumns | internal/app/dock_helpers.go:300-387 | All tabs are drawn, one column apart after a leading one, exactly if they fit the room and two thirds of the bar; otherwise as many whole pills as fit between two-column arrows in half of the bar or the room, or only the "+" if it fits |
| DockStrip.ScrollRemembered | internal/app/dock_helpers.go:342-371 | A strip that fits is back at its start, one that scrolls remembers the workspace and the track, and any other changes nothing |
| DockStrip.ActivePillIndex | internal/app/dock_helpers.go:389-398 | The first active pill |
| DockStrip.SwitchShowsCurrent | internal/app/dock_helpers.go:363-386 | Right after a switch or a change of room, in a strip that cannot draw all its tabs, the first active pill, or the first of all if none is, is drawn in its place if and only if it fits between the arrows by itself |
| DockStrip.SwitchMovesLeast | internal/app/dock_helpers.go:400-423 | The strip then moves no further than it has to: from no offset passed over would that pill be in sight, and going back it stops at the pill or where the run to the last pill begins |
| DockStrip.ReplanIsTheSame | internal/app/dock_helpers.go:300-387 | Planning again with nothing changed gives the same strip and offset |
| DockStrip.ArrowsStepOnePill | internal/app/dock_helpers.go:466-482 | A click on an arrow, planned again, moves the strip by exactly one pill if the plan before showed that arrow, and otherwise not at all; the strip is drawn there if and only if its first pill fits |
| DockStrip.PillsFitting | internal/app/dock_helpers.go:278-291 | The most pills whose run fits, no more and no fewer |
| DockStrip.ScrollToShow | internal/app/dock_helpers.go:400-411 | The least move that brings the pill in sight, or else puts it first |
| DockStrip.LastScrollOffset | internal/app/dock_helpers.go:413-423 | The first offset whose run reaches the last pill, or the last pill if none does |
| DockStrip.PillsSpan | internal/app/dock_helpers.go:266-276 | The widths of a run with the gaps between |
| LineWidth.Meter.LineWidth | internal/app/linewidth.go:54-104 | Where the byte loop answers, it is what a parser of ECMA-48 section 5.4 control sequences counts; everywhere else it is the reference's own answer, counted as a fallback |
| LineWidth.NarrowAgreesWithFull | internal/app/linewidth.go:74-92 | Leaving intermediate bytes to the reference changes no answer |
| LineWidth.ParseIsGrammar | internal/app/linewidth.go:54-104 | The parser takes exactly the lines made of visible characters, control characters and control sequences, and counts the visible ones |
| LineWidth.IntermediatesAreSlow | internal/app/linewidth.go:77-83 | Of the lines the standard allows, the byte loop leaves to the reference exactly those with an intermediate byte in a control sequence |
| LineWidth.Meter.FramesWidth | internal/app/linewidth.go:106-118 | The width of the widest line, wherever it is |
| AccentColor.RoundTrip | internal/app/accent_color.go:122-174 | Hue, saturation and lightness give every colour back over exact reals, greys and sector boundaries included |
| AccentColor.BytesRoundTrip | internal/app/accent_color.go:122-174 | Every byte colour survives the trip and the final rounding |
| AccentColor.MadeAsAsked | internal/app/accent_color.go:122-149 | A colour made from any three numbers is in range and has the hue asked for, turned into the circle, and the saturation and lightness asked for, clamped |
| AccentColor.ReadAsItIs | internal/app/accent_color.go:151-174 | Reading a colour gives its hue, saturation and lightness, in range, and 0 degrees for a grey |
| AccentColor.NumbersComeBack | internal/app/accent_color.go:122-174 | A colour that is no grey gives back the three numbers it was made from |
| AccentColor.RoundedIsNearest | internal/app/accent_color.go:144-149 | A channel becomes the nearest byte |
| AccentSlider.ColumnsComeBack | internal/app/accent_slider.go:130-148 | Every column of a bar comes back through its value, if and only if the bar has no more columns than there are values |
| AccentSlider.ValueAtMonotone | internal/app/accent_slider.go:132-138 | A click further right never means less |
| AccentSlider.ColMonotone | internal/app/accent_slider.go:142-148 | A larger value is never drawn further left |
| AccentSlider.ValueIsNearest | internal/app/accent_slider.go:132-138 | A click means the value nearest to its place on the bar, the ends being 0 and the maximum |
| AccentSlider.ColIsNearest | internal/app/accent_slider.go:142-148 | The thumb stands at the column nearest to the value |
| PamStash.Stash.Put | cmd/tuios-web/pam_login_stash.go:28-47 | A login is taken in exactly when there is a session to file it under, to expire after 30 seconds, and whatever waited there is closed; no other entry changes |
| PamStash.Stash.Expire | cmd/tuios-web/pam_login_stash.go:49-58 | The timer closes its own entry if it still waits, and touches no other |
| PamStash.Stash.Take | cmd/tuios-web/pam_login_stash.go:60-90 | A login is handed out exactly when it waits under this session, unexpired, with these credentials; an expired one is closed, and a claim that fails otherwise changes nothing |
| PamStash.OneOwner | cmd/tuios-web/pam_login_stash.go:28-90 | Every login taken in is at all times exactly one of waiting, handed out once, or closed once |
| PamStash.NoLoginHasTwoOwners | cmd/tuios-web/pam_login_stash.go:30-90 | Whatever the interleaving of single map operations of stashing, claiming and expiring, none is lost, handed out twice, closed twice, or both, unless what expired is deleted when it is no longer there |
| PamStash.RacesBreak | cmd/tuios-web/pam_login_stash.go:49-58 | That condition is exact: from any such step some order of the rest loses a login, or closes one that has another owner |
| PamStash.HandedOutAndClosed | cmd/tuios-web/pam_login_stash.go:49-90 | A run in which a login is claimed just as its timer runs out, handed out, and then closed |
| PamStash.Undisturbed | cmd/tuios-web/pam_login_stash.go:28-90 | A caller or timer left to itself does what `Stash` does at once |
| PamStash.FreshLoginsStartInPlace | cmd/tuios-web/pam_login_stash.go:20-47 | Callers that bring distinct logins start out so |

## Left out

- Reuse of scratch memory: the two generations of layer tables, the damage slice, the sort buffer and the freeze map are fresh values in every frame.
- The width method of a canvas: it is the same for every canvas, as the styling library draws a layer.
- Generation counters (frames, style resolutions) do not overflow.
- Cells wider than two columns, and zero-width clusters that the styling library flushes outside a layer's rows.
- Children of layers: tuios adds none.
- Byte-level escape sequences: a command is a datatype value, a payload a sequence of bytes; save-cursor, restore-cursor and synchronized-update brackets are not commands here.
- Aliasing of placement records: the tables hold the records by value, so two tables never share one (in the program none do).
- The host's cell size is fixed once known.
- Screen dimensions remembered by a refresh: only other forwarders read them.
- Overlays over video images, and hiding or deleting a video image while a frame of it is being written: convergence is about the geometry of an image that stays visible.
- What a terminal does with the placements of an image that is transmitted again differs between terminals; here a transmission leaves them alone.
- KittyRuns.RunAgreesThroughout: runs long enough for the 32-bit ids to wrap round are not covered; the program does not check for ids still in use then.
- Guest-issued place, delete and file transmissions, capability probing and query answers.
- zlib and CRC-32: the checksum is any function, compression is not modelled.
- The overflow strip of minimized windows, the twin of the workspace strip.
- The layout of everything else on the dock, menus, dialogs, themes and configuration.
- Floating point: colours and sliders are over exact reals.
- The reference measure of a line is a parameter; nothing is said of it beyond where it is used.
- Lower-casing and the byte length of names are parameters of `ClosestName`.
- PAM, sockets, cookies, sessions, the terminal emulator and window layout.
