/** The image window: the pixmap its label shows, the display scale factor and the two
    snapshot stacks that give undo and redo. Each method is proved against the value
    functions of History and Zoom. Dialogs, files, pixel transforms and the viewport are
    not modelled: what they produce arrives as a parameter. */
module Window {
  import opened Geometry
  import opened Zoom
  import opened History

  datatype Option<T> = None | Some(value: T)

  /** What the open dialog and the file reader produced. */
  datatype OpenOutcome =
    | Cancelled         // no file was chosen
    | Unreadable        // the chosen file could not be read as an image
    | Loaded(key: nat)  // the image that was read

  /** A visible rubber band: its two corners already mapped to image coordinates, and
      the ratio `s` that the window and label geometry give for zooming into it. */
  datatype Selection = Selection(origin: Point, end: Point, s: real)

  class MainWindow {
    /** The pixmap of the image label; None until a pixmap has ever been set. */
    var imageArea: Option<Pixmap>
    var scaleFactor: real
    /** The history; its top is the last record taken, its bottom the image as opened.
        After an unreadable open the shown pixmap differs from the top until the next
        record. */
    var stack1: seq<Screenshot>
    /** The redo stack. */
    var stack2: seq<Screenshot>

    ghost predicate Valid()
      reads this
    {
      scaleFactor > 0.0 && History.Valid(State())
    }

    function State(): Stacks
      reads this
    {
      Stacks(stack1, stack2)
    }

    /** isImageLoaded(): the label has some pixmap, and the null pixmap left by closeFile
        or by a failed read counts. */
    predicate IsImageLoaded(): (r: bool)
      reads this
      ensures r <==> imageArea != None
      ensures imageArea == Some(NullPixmap) ==> r
    {
      imageArea.Some?
    }

    constructor ()
      ensures Valid()
      ensures !IsImageLoaded()
      ensures imageArea == None && stack1 == [] && stack2 == []
    {
      imageArea := None;
      scaleFactor := 1.0;
      stack1 := [];
      stack2 := [];
    }

    /** open(): after a successful read the new image is shown at scale 1 and becomes the
        sole entry of a fresh history. */
    method Open(outcome: OpenOutcome)
      requires Valid()
      modifies this
      ensures Valid()
      ensures old(IsImageLoaded()) ==> IsImageLoaded()
      ensures !outcome.Cancelled? ==> IsImageLoaded()
      ensures outcome.Cancelled? ==>
                imageArea == old(imageArea) && scaleFactor == old(scaleFactor) && State() == old(State())
      ensures outcome.Unreadable? ==>
                imageArea == Some(NullPixmap) && scaleFactor == old(scaleFactor) && State() == old(State())
      ensures outcome.Loaded? ==>
                && imageArea == Some(Pixmap(outcome.key)) && scaleFactor == 1.0
                && stack1 == [Shot(Pixmap(outcome.key), 1.0)] && stack2 == []
    {
      match outcome
      case Cancelled =>
      case Unreadable =>
        imageArea := Some(NullPixmap);
      case Loaded(key) =>
        scaleFactor := 1.0;
        imageArea := Some(Pixmap(key));
        stack1 := [];
        stack2 := [];
        Snapshot();
    }

    /** scaleImage(): multiply the scale factor; the label resize and scroll-bar
        adjustment that go with it are display work. */
    method ScaleImage(scale: real)
      requires scaleFactor > 0.0 && scale > 0.0
      modifies this`scaleFactor
      ensures scaleFactor == old(scaleFactor) * scale && scaleFactor > 0.0
    {
      scaleFactor := scaleFactor * scale;
    }

    /** snapshot(): record what is shown, discard the redo stack, and keep at most Cap
        entries by dropping the one just above the bottom. The cap shuffles the history
        through the redo stack, which is empty again afterwards. */
    method Snapshot()
      requires Valid() && imageArea.Some?
      modifies this`stack1, this`stack2
      ensures Valid()
      ensures State() == Recorded(old(State()), Shot(imageArea.value, scaleFactor))
    {
      ghost var before := State();
      stack2 := [];
      var shot := Shot(imageArea.value, scaleFactor);
      stack1 := stack1 + [shot];
      if |stack1| > Cap {
        DropSecondOldest();
      }
      RecordedKeepsValid(before, shot);
    }

    /** The cap's shuffle: pop the history onto the empty redo stack down to its two
        oldest entries, pop the second-oldest, then pop everything back. */
    method DropSecondOldest()
      requires |stack1| > 2 && stack2 == []
      modifies this`stack1, this`stack2
      ensures stack1 == [old(stack1)[0]] + old(stack1)[2..] && stack2 == []
    {
      ghost var pushed := stack1;
      while |stack1| > 2
        invariant 2 <= |stack1| <= |pushed|
        invariant stack1 == pushed[..|stack1|]
        invariant stack2 == Reversed(pushed[|stack1|..])
        decreases |stack1|
      {
        ReversedStep(pushed, |stack1| - 1);
        stack2 := stack2 + [Top(stack1)];
        stack1 := Pop(stack1);
      }
      stack1 := Pop(stack1);
      while stack2 != []
        invariant 1 <= |stack1| < |pushed|
        invariant stack1 == [pushed[0]] + pushed[2..|stack1| + 1]
        invariant stack2 == Reversed(pushed[|stack1| + 1..])
        decreases |stack2|
      {
        ReversedStep(pushed, |stack1| + 1);
        stack1 := stack1 + [Top(stack2)];
        stack2 := Pop(stack2);
      }
      assert pushed[|stack1| + 1..] == [];
    }

    /** undo(): step back one entry and show it. */
    method Undo()
      requires Valid()
      modifies this
      ensures Valid()
      ensures old(IsImageLoaded()) ==> IsImageLoaded()
      ensures State() == Undone(old(State()))
      ensures |old(stack1)| > 1 ==> imageArea == Some(Top(stack1).pix) && scaleFactor == Top(stack1).scale
      ensures |old(stack1)| <= 1 ==> imageArea == old(imageArea) && scaleFactor == old(scaleFactor)
    {
      if |stack1| > 1 {
        stack2 := stack2 + [Top(stack1)];
        stack1 := Pop(stack1);
        imageArea := Some(Top(stack1).pix);
        scaleFactor := Top(stack1).scale;
      }
    }

    /** redo(): step forward one undone entry and show it. */
    method Redo()
      requires Valid()
      modifies this
      ensures Valid()
      ensures old(IsImageLoaded()) ==> IsImageLoaded()
      ensures State() == Redone(old(State()))
      ensures old(stack2) != [] ==> imageArea == Some(Top(stack1).pix) && scaleFactor == Top(stack1).scale
      ensures old(stack2) == [] ==> imageArea == old(imageArea) && scaleFactor == old(scaleFactor)
    {
      if |stack2| > 0 {
        stack1 := stack1 + [Top(stack2)];
        stack2 := Pop(stack2);
        imageArea := Some(Top(stack1).pix);
        scaleFactor := Top(stack1).scale;
      }
    }

    /** reset(): go back to the image as first opened, with nothing to redo. */
    method Reset()
      requires Valid() && |stack1| > 0
      modifies this
      ensures Valid()
      ensures old(IsImageLoaded()) ==> IsImageLoaded()
      ensures State() == ResetStacks(old(State()))
      ensures imageArea == Some(old(stack1)[0].pix) && scaleFactor == old(stack1)[0].scale
    {
      stack2 := [];
      while |stack1| > 1
        invariant 1 <= |stack1| <= |old(stack1)|
        invariant stack1 == old(stack1)[..|stack1|]
        invariant stack2 == []
        decreases |stack1|
      {
        stack1 := Pop(stack1);
      }
      assert stack1[0] == old(stack1)[0];
      imageArea := Some(Top(stack1).pix);
      scaleFactor := Top(stack1).scale;
    }

    /** zoomToRegion(rec, false): zoom so that the selection fills the window, but never
        past RegionLimit; record the result together with the selected rectangle. */
    method ZoomToRegion(rec: Rect, s: real)
      requires Valid() && imageArea.Some? && s > 0.0
      modifies this
      ensures Valid()
      ensures old(IsImageLoaded()) ==> IsImageLoaded()
      ensures imageArea == old(imageArea)
      ensures scaleFactor == RegionScale(old(scaleFactor), s)
      ensures stack2 == []
      ensures stack1 == WithRectangle(Recorded(old(State()), Shot(imageArea.value, scaleFactor)).stack1, rec)
    {
      if scaleFactor / s < RegionLimit {
        ScaleImage(1.0 / s);
      } else {
        ScaleImage(RegionLimit / scaleFactor);
      }
      assert scaleFactor == RegionScale(old(scaleFactor), s);
      Snapshot();
      ghost var recorded := stack1;
      stack1 := stack1[|stack1| - 1 := Top(stack1).(rectangle := rec)];
      stack1 := stack1[|stack1| - 1 := Top(stack1).(needRectangle := true)];
      assert stack1 == WithRectangle(recorded, rec);
      WithRectangleKeepsValid(recorded, rec);
    }

    /** zoomIn(): with a visible rubber band, zoom to the selected region; otherwise zoom
        one step if the scale is below ZoomInLimit, and record it. */
    method ZoomIn(selection: Option<Selection>)
      requires Valid()
      requires selection.Some? ==> selection.value.s > 0.0
      modifies this
      ensures Valid()
      ensures old(IsImageLoaded()) ==> IsImageLoaded()
      ensures imageArea == old(imageArea)
      ensures old(imageArea).None? ==> scaleFactor == old(scaleFactor) && State() == old(State())
      ensures old(imageArea).Some? && selection.Some? ==>
                var sel := selection.value;
                && scaleFactor == RegionScale(old(scaleFactor), sel.s)
                && stack2 == []
                && stack1 == WithRectangle(Recorded(old(State()), Shot(imageArea.value, scaleFactor)).stack1,
                                           SelectedRegion(sel.origin, sel.end))
      ensures old(imageArea).Some? && selection.None? ==>
                && scaleFactor == ZoomedIn(old(scaleFactor))
                && State() == if old(scaleFactor) < ZoomInLimit
                              then Recorded(old(State()), Shot(imageArea.value, scaleFactor))
                              else old(State())
    {
      if !IsImageLoaded() {
        return;
      }
      if selection.Some? {
        var sel := selection.value;
        ZoomToRegion(SelectedRegion(sel.origin, sel.end), sel.s);
      } else if scaleFactor < ZoomInLimit {
        ScaleImage(ZoomInFactor);
        Snapshot();
      }
    }

    /** zoomOut(): zoom one step out if the scale is above ZoomOutLimit, and record it. */
    method ZoomOut()
      requires Valid()
      modifies this
      ensures Valid()
      ensures old(IsImageLoaded()) ==> IsImageLoaded()
      ensures imageArea == old(imageArea)
      ensures old(imageArea).None? ==> scaleFactor == old(scaleFactor) && State() == old(State())
      ensures old(imageArea).Some? ==>
                && scaleFactor == ZoomedOut(old(scaleFactor))
                && State() == if old(scaleFactor) > ZoomOutLimit
                              then Recorded(old(State()), Shot(imageArea.value, scaleFactor))
                              else old(State())
    {
      if !IsImageLoaded() {
        return;
      }
      if scaleFactor > ZoomOutLimit {
        ScaleImage(ZoomOutFactor);
        Snapshot();
      }
    }

    /** normalSize(): back to scale 1, recorded. */
    method NormalSize()
      requires Valid()
      modifies this
      ensures Valid()
      ensures old(IsImageLoaded()) ==> IsImageLoaded()
      ensures imageArea == old(imageArea)
      ensures old(imageArea).None? ==> scaleFactor == old(scaleFactor) && State() == old(State())
      ensures old(imageArea).Some? ==>
                scaleFactor == 1.0 && State() == Recorded(old(State()), Shot(imageArea.value, 1.0))
    {
      if !IsImageLoaded() {
        return;
      }
      ScaleImage(1.0 / scaleFactor);
      Snapshot();
    }

    /** fitToWindow(): `sx` and `sy` are the label-to-window ratios along the two axes;
        the scale is divided by the larger, and the result recorded. */
    method FitToWindow(sx: real, sy: real)
      requires Valid() && sx > 0.0 && sy > 0.0
      modifies this
      ensures Valid()
      ensures old(IsImageLoaded()) ==> IsImageLoaded()
      ensures imageArea == old(imageArea)
      ensures old(imageArea).None? ==> scaleFactor == old(scaleFactor) && State() == old(State())
      ensures old(imageArea).Some? ==>
                && scaleFactor == old(scaleFactor) / (if sx > sy then sx else sy)
                && State() == Recorded(old(State()), Shot(imageArea.value, scaleFactor))
    {
      if !IsImageLoaded() {
        return;
      }
      var larger := if sx > sy then sx else sy;
      ScaleImage(1.0 / larger);
      Snapshot();
    }

    /** closeFile(): show the null pixmap at scale 1 and record that, so the closing can
        be undone. */
    method CloseFile()
      requires Valid()
      modifies this
      ensures Valid()
      ensures old(IsImageLoaded()) ==> IsImageLoaded()
      ensures old(imageArea).None? ==>
                imageArea == None && scaleFactor == old(scaleFactor) && State() == old(State())
      ensures old(imageArea).Some? ==>
                && imageArea == Some(NullPixmap) && scaleFactor == 1.0
                && State() == Recorded(old(State()), Shot(NullPixmap, 1.0))
    {
      if !IsImageLoaded() {
        return;
      }
      imageArea := Some(NullPixmap);
      ScaleImage(1.0 / scaleFactor);
      Snapshot();
    }

    /** rotate(): `rotated` is the shown pixmap turned by the angle the user entered, or
        None when the dialog was cancelled or the angle rejected. */
    method Rotate(rotated: Option<Pixmap>)
      requires Valid()
      modifies this
      ensures Valid()
      ensures old(IsImageLoaded()) ==> IsImageLoaded()
      ensures scaleFactor == old(scaleFactor)
      ensures old(imageArea).Some? && rotated.Some? ==>
                imageArea == rotated && State() == Recorded(old(State()), Shot(rotated.value, scaleFactor))
      ensures old(imageArea).None? || rotated.None? ==>
                imageArea == old(imageArea) && State() == old(State())
    {
      if !IsImageLoaded() {
        return;
      }
      if rotated.Some? {
        imageArea := rotated;
        Snapshot();
      }
    }

    /** crop(): `cropped` is the part of the shown pixmap under the rubber band, or None
        when no rubber band is visible. */
    method Crop(cropped: Option<Pixmap>)
      requires Valid()
      modifies this
      ensures Valid()
      ensures old(IsImageLoaded()) ==> IsImageLoaded()
      ensures scaleFactor == old(scaleFactor)
      ensures old(imageArea).Some? && cropped.Some? ==>
                imageArea == cropped && State() == Recorded(old(State()), Shot(cropped.value, scaleFactor))
      ensures old(imageArea).None? || cropped.None? ==>
                imageArea == old(imageArea) && State() == old(State())
    {
      if !IsImageLoaded() {
        return;
      }
      if cropped.Some? {
        imageArea := cropped;
        Snapshot();
      }
    }
  }
}
