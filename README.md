# Undo/redo history of the Qt image viewer, in Dafny

This project models the edit history of the image viewer's `MainWindow`
(`mainwindow.cpp`) and proves properties of that model. The window keeps full snapshots
of what it shows. It does not keep a log of operations to replay. There are two stacks
of `screenshot` records, each holding a pixmap, a scale factor and, for a zoom to a
region, the selected rectangle:

- `stack1` is the history. Its top is normally the state last recorded for what is
  shown, and its bottom is the image as it was opened. After an open whose file cannot
  be read, the label shows the null pixmap and the history is unchanged. Its top then no
  longer matches what is shown, until the next edit records the null pixmap on top of
  the old history. After a failed first open the history is empty, and the first edit
  records the null pixmap at a scale the source never assigned (see "## Left out").
- `stack2` is the redo stack.

These are the operations on the stacks:

- `snapshot()` discards the redo stack and pushes a record of what is shown. When the history
  then holds more than 20 entries, the entry just above the bottom is dropped. The code
  does this by shuffling the history through the redo stack.
- `undo()` moves the top of the history onto the redo stack, but only when the history
  holds more than one entry. It then shows the new top.
- `redo()` moves the top of the redo stack back onto the history and shows it.
- `reset()` empties the redo stack and pops the history down to its bottom entry.
- `open()` empties both stacks and takes the first snapshot.
- Every editing action that acts ends in a snapshot: the zooms, normal size, fit to
  window, rotate, crop and close file. These take none: zoomIn at a scale of 6 or more
  with no rubber band, zoomOut at a scale of 0.2 or less, rotate with a cancelled or
  rejected angle, and crop with no visible rubber band.

The model also covers two decision rules. One is the set of guards and clamps on the
display scale factor in `zoomIn`, `zoomOut` and `zoomToRegion`. The other is how the
rubber-band selection is normalised into a rectangle.

Files:

- `Geometry.dfy`: points, rectangles with inclusive corners as in `QRect`, and the
  normalisation of the selection.
- `Zoom.dfy`: the zoom constants (1.25, 6, 0.8, 0.2, 7.5) and the scale each zoom
  produces, over `real`.
- `History.dfy`: the screenshot record and the two stacks as values. It defines what
  snapshot, undo, redo and reset do to them, and holds the lemmas relating these
  operations.
- `Window.dfy`: the class `MainWindow`. Its fields are `imageArea` (the label's pixmap),
  `scaleFactor`, `stack1` and `stack2`. Its methods change those fields in place, using
  the while loops of `snapshot()` and `reset()`. Each method's postcondition ties the
  new state to the functions of `History.dfy` and `Zoom.dfy`.

The pixmap is opaque. `NullPixmap` stands for Qt's null `QPixmap()`, and `Pixmap(key)`
stands for an image. Stacks are sequences whose last element is the top.

Whether an image is loaded is decided by `isImageLoaded()` (`mainwindow.cpp:361-363`),
which only asks whether the label has a pixmap at all. Once any pixmap has been set,
including the null pixmap that `closeFile` and a failed read leave behind, the test stays
true. The model encodes this as `imageArea == Some(NullPixmap)`, which counts as loaded.

Notes on the source:

- `isNeedSave` always returns true (`mainwindow.cpp:331-333`).
- `mainwindow.h` does not declare the `screenshot` record, the stacks or `snapshot()`.
  It also declares `zoomToRegion` with one argument, while `mainwindow.cpp:379` defines
  it with two. The record's fields are taken from their use at `mainwindow.cpp:148-152`
  and `mainwindow.cpp:400-401`.

## Model

| member | source | states |
|---|---|---|
| `Geometry.SelectedRegion` | mainwindow.cpp:372-376 | the selection is a normal rectangle that contains both drag points; each of its sides lies on one of the points; its width and height are the distance between the points plus one |
| `Geometry.SelectedRegionIsSmallest` | mainwindow.cpp:372-375 | every rectangle that contains both drag points contains the selection |
| `Geometry.SelectedRegionSymmetric` | mainwindow.cpp:372-373 | the direction of the drag does not change the selection |
| `Geometry.SelectedRegionOfNormal` | mainwindow.cpp:372-375 | a normal rectangle is its own selection from its top-left and bottom-right corners, so normalising a selection a second time changes nothing |
| `Zoom.ZoomedIn` | mainwindow.cpp:119-122 | zoomIn multiplies the scale by 1.25 only when it is below 6 and otherwise leaves it unchanged; a zoom that acts lands below 7.5; a scale at or below 7.5 stays at or below 7.5; a positive scale never decreases |
| `Zoom.ZoomedOut` | mainwindow.cpp:130-133 | zoomOut multiplies the scale by 0.8 only when it is above 0.2 and otherwise leaves it unchanged; a zoom that acts lands above 0.16; a positive scale stays positive and never grows |
| `Zoom.RegionScale` | mainwindow.cpp:392-395 | a zoom to a region sets the scale to scale/s when that is below 7.5 and to exactly 7.5 otherwise, so the result is always in (0, 7.5] |
| `Zoom.ZoomOutUndoesZoomIn` | mainwindow.cpp:119-133 | a zoom-in that acted is undone exactly by one zoom-out, when the result is above zoomOut's 0.2 floor |
| `Zoom.ZoomInUndoesZoomOut` | mainwindow.cpp:119-133 | a zoom-out that acted is undone exactly by one zoom-in, when the result is below zoomIn's limit of 6 |
| `Zoom.ZoomInNeverPassesRegionLimit` | mainwindow.cpp:119-122 | any number of zoom-ins from a scale at or below 7.5 stays at or below 7.5 |
| `History.Capped` | mainwindow.cpp:154-160 | the cap leaves a history of at most 20 entries unchanged; after one push onto such a history, at most 20 entries remain; when the cap fires, exactly one entry goes and the bottom and top entries stay |
| `History.CapDropsSecondOldest` | mainwindow.cpp:154-160 | when the cap fires, the bottom entry stays and every entry above the second-oldest moves down one place in its original order; the entries removed are exactly the second-oldest |
| `History.Recorded` | mainwindow.cpp:146-161 | after a snapshot the redo stack is empty and the new record is on top; the bottom entry is kept; below the cap the history only grows by the record; a history already at 20 entries loses exactly its second-oldest entry and stays at 20 |
| `History.WithRectangle` | mainwindow.cpp:398-401 | a zoom to a region marks only the top record, with the selected rectangle and need_rectangle set; every other entry is unchanged |
| `History.Undone` | mainwindow.cpp:224-233 | undo acts only when the history holds more than one entry and moves exactly its top onto the redo stack; otherwise nothing changes; the total number of entries is unchanged; a non-empty history stays non-empty with the same bottom |
| `History.Redone` | mainwindow.cpp:236-245 | redo acts only when the redo stack is non-empty and moves exactly its top back onto the history; otherwise nothing changes; the total number of entries and the bottom of the history are unchanged |
| `History.ResetStacks` | mainwindow.cpp:259-263 | reset leaves the redo stack empty and only the original bottom entry in the history |
| `History.UndoThenRedo` | mainwindow.cpp:224-247 | an undo that acts, followed by a redo, restores both stacks |
| `History.RedoThenUndo` | mainwindow.cpp:224-247 | a redo that acts, followed by an undo, restores both stacks |
| `History.RedoAfterRecordIsNoOp` | mainwindow.cpp:146-161 | after a snapshot, redo changes nothing |
| `History.RecordedKeepsValid` | mainwindow.cpp:146-161 | a snapshot keeps the two stacks at no more than 20 entries together, with only positive scales recorded |
| `History.WithRectangleKeepsValid` | mainwindow.cpp:398-401 | marking the top record with a rectangle keeps every recorded scale positive |
| `History.UndoneTimes` | mainwindow.cpp:224-233 | n undos, with n less than the history's size, shorten the history by n and lengthen the redo stack by n; which entries move is stated by `History.UndoneTimesStacks` |
| `History.UndoneTimesStacks` | mainwindow.cpp:224-233 | n undos leave the oldest entries of the history in place and stack the n newest onto the redo stack, newest lowest |
| `History.UndoneTimesThenRedoneTimes` | mainwindow.cpp:224-247 | n undos that all act, followed by n redos, restore both stacks |
| `History.ResetIsUndoAllThenDropRedo` | mainwindow.cpp:259-263 | reset leaves the same history that undoing down to one entry would leave, with an empty redo stack |
| `History.UndoRedoKeepValid` | mainwindow.cpp:224-247 | undo and redo keep the two stacks at no more than 20 entries together, with only positive scales recorded |
| `Window.MainWindow.IsImageLoaded` | mainwindow.cpp:361-363 | the test is whether the label has any pixmap, the null one included; the constructor ensures it is false on a new window, `Open` ensures it is true after any open whose dialog was not cancelled (a failed read included), and every other action (undo, redo, reset, the zooms, normal size, fit to window, close file, rotate, crop) ensures `old(IsImageLoaded()) ==> IsImageLoaded()`; the helpers `ScaleImage`, `Snapshot` and `DropSecondOldest` cannot change the label's pixmap, since their `modifies` frames name only `scaleFactor` or the two stacks; so once true it stays true |
| `Window.MainWindow.constructor` | mainwindow.cpp:15-37 | a new window shows no pixmap and has empty stacks |
| `Window.MainWindow.Open` | mainwindow.cpp:43-60 | a successful open shows the image at scale 1, with a history of one plain record of it and nothing to redo; a cancelled dialog changes nothing; an unreadable file shows the null pixmap and leaves the stacks and the scale unchanged |
| `Window.MainWindow.ScaleImage` | mainwindow.cpp:136-144 | the scale factor is multiplied by the given factor and stays positive |
| `Window.MainWindow.Snapshot` | mainwindow.cpp:146-161 | the stacks become `History.Recorded` of the old stacks and a plain record of the shown pixmap and scale; the window invariant (at most 20 entries, positive scales) holds after it |
| `Window.MainWindow.DropSecondOldest` | mainwindow.cpp:154-160 | the shuffle through the empty redo stack removes exactly the second-oldest entry of the history, keeps the others in order and leaves the redo stack empty |
| `Window.MainWindow.Undo` | mainwindow.cpp:224-235 | the stacks become `History.Undone` of the old stacks; after an undo that acts, the shown pixmap and scale are those of the new top; otherwise they are unchanged |
| `Window.MainWindow.Redo` | mainwindow.cpp:236-247 | the stacks become `History.Redone` of the old stacks; after a redo that acts, the shown pixmap and scale are those of the new top; otherwise they are unchanged |
| `Window.MainWindow.Reset` | mainwindow.cpp:259-271 | the stacks become `History.ResetStacks` of the old stacks; the shown pixmap and scale are those of the original bottom entry |
| `Window.MainWindow.ZoomToRegion` | mainwindow.cpp:379-402 | the scale becomes `Zoom.RegionScale`, so it is never above 7.5; the zoom is recorded, and the top record carries the selected rectangle with need_rectangle set |
| `Window.MainWindow.ZoomIn` | mainwindow.cpp:112-125 | without an image nothing changes; with a rubber band, it zooms to the normalised selection; otherwise the scale becomes `Zoom.ZoomedIn`, and a snapshot is taken exactly when the scale was below 6 |
| `Window.MainWindow.ZoomOut` | mainwindow.cpp:127-135 | without an image nothing changes; otherwise the scale becomes `Zoom.ZoomedOut`, and a snapshot is taken exactly when the scale was above 0.2 |
| `Window.MainWindow.NormalSize` | mainwindow.cpp:105-110 | with an image, the scale becomes 1 and this is recorded; without one, nothing changes |
| `Window.MainWindow.FitToWindow` | mainwindow.cpp:96-103 | with an image, the scale is divided by the larger of the two label-to-window ratios, and this is recorded; without one, nothing changes |
| `Window.MainWindow.CloseFile` | mainwindow.cpp:249-257 | with an image, the null pixmap is shown at scale 1, and this is recorded so that it can be undone; without one, nothing changes |
| `Window.MainWindow.Rotate` | mainwindow.cpp:273-306 | with an image and an accepted angle, the rotated pixmap is shown and recorded at the same scale; otherwise nothing changes |
| `Window.MainWindow.Crop` | mainwindow.cpp:308-322 | with an image and a visible rubber band, the cropped pixmap is shown and recorded at the same scale; otherwise nothing changes |

## Left out

- Window, widget and action setup: the constructor's layout work, `connectActions`, the scroll area, the rubber band widget, and the mouse and wheel handlers. These are user-interface plumbing. Whether the rubber band is visible, and where its corners are, arrive as the `Selection` parameter.
- File dialogs and codecs: `open`'s file dialog, `loadFile`, `save`, `checkSave`, `closeEvent` and `exit`. What open produced arrives as the `OpenOutcome` parameter. Saving never touches the stacks.
- Window.MainWindow.Open: the save prompt shown before a new file is chosen is not modelled. It is a modal dialog, and `isNeedSave` is always true.
- Window.MainWindow.Open: the window title set by `loadFile` is not modelled.
- Pixel transforms: the `QPixmap::transformed` call in `rotate`, the `copy` call in `crop`, and the angle dialog with its integer check. The resulting pixmap arrives as a parameter. `None` means the dialog was cancelled, the angle was rejected, or no rubber band was visible.
- Scrolling and viewport arithmetic: `adjustScrollBar`, the label resizes, and the centring and scrolling code in `zoomToRegion`.
- Window.MainWindow.Undo: the call `zoomToRegion(rectangle, true)` for a record with need_rectangle set only scrolls. It does not change the stacks, the pixmap or the scale, so it is not modelled. The same holds for `Window.MainWindow.Redo` and `Window.MainWindow.Reset`.
- Window.MainWindow.ZoomToRegion: the ratio `s` comes from the window and label geometry. Here it is a parameter required to be positive. A null pixmap of width 0 would make the source divide by zero, and that case is not modelled.
- Window.MainWindow.FitToWindow: the two ratios come from the window and label geometry. Here they are parameters required to be positive. A zero ratio is reachable in the source: after `closeFile` the label shows the null pixmap and is resized to the scale factor times a 0×0 size (`mainwindow.cpp:139`, `mainwindow.cpp:253-254`), while `isImageLoaded()` stays true. A later `fitToWindow` then computes both ratios as 0 and calls `scaleImage(1.0/0)`, so the scale factor becomes infinite. A following `normalSize` multiplies infinity by 0, which gives NaN, and `snapshot` records that. The model does not cover this path: its scale factor is always a positive real.
- Double rounding: the scale factor is a Dafny `real`. Multiplying by `1/scaleFactor` in `normalSize` and `closeFile` gives exactly 1 here, but a double may be off by a rounding error. For the same reason, `Zoom.ZoomOutUndoesZoomIn` and `Zoom.ZoomInUndoesZoomOut` hold exactly only over `real`: 0.8 has no exact double representation, so with doubles a zoom-in followed by a zoom-out may miss the original scale by a rounding error. The division of the drag points by the scale factor in `getSelectedRegOnImg` (`mainwindow.cpp:369-370`), rounded to the nearest integer, is not modelled either: the two mapped points are the input.
- Window.MainWindow.constructor: the source leaves `scaleFactor` uninitialised until the first successful load (`mainwindow.cpp:89`). The model starts it at 1, so that the invariant "the scale factor is positive" holds from the start. The source does read the uninitialised value on a reachable path: when the first open fails, `loadFile` puts the null pixmap on the label (`mainwindow.cpp:85`), so `isImageLoaded()` is true. zoomIn (`mainwindow.cpp:119`), zoomOut (`mainwindow.cpp:130`), normalSize (`mainwindow.cpp:108`), fitToWindow and closeFile (through `scaleImage`, `mainwindow.cpp:138` and `mainwindow.cpp:254`), rotate (`mainwindow.cpp:293`) and crop (`mainwindow.cpp:319`) then compute with that value, and `snapshot` records the result. The bottom of such a history is a null-pixmap record, not an opened image. The model does not fix the value the source would read: its contracts hold for every positive starting scale, and the path where the value is not positive is not covered.
- Window.MainWindow.Reset: it requires a non-empty history, because `QStack::top()` on an empty stack is undefined. The source does not guard this, so triggering reset before any image has been opened is not covered.
