/** The undo/redo history as values: the snapshot record, the pair of stacks, and what
    recording, undoing, redoing and resetting do to them. The window's methods are
    proved against these functions. A stack is a sequence whose last element is its
    top; index 0 is its bottom. */
module History {
  import opened Geometry

  /** A pixmap, opaque: `NullPixmap` is Qt's null QPixmap() and `Pixmap(key)` an image
      identified by its contents. No pixel is modelled. */
  datatype Pixmap = NullPixmap | Pixmap(key: nat)

  /** One entry of the history: the displayed pixmap and scale factor, and, for an entry
      recorded by a zoom to a region, the selected rectangle. */
  datatype Screenshot = Screenshot(pix: Pixmap, scale: real, needRectangle: bool, rectangle: Rect)

  /** stack1 holds the history (its top is the last record taken, its bottom the image
      as first loaded); stack2 holds the entries that redo would bring back. */
  datatype Stacks = Stacks(stack1: seq<Screenshot>, stack2: seq<Screenshot>)

  /** The most entries the history holds after a snapshot. */
  const Cap: nat := 20

  function Top(s: seq<Screenshot>): Screenshot
    requires |s| > 0
  {
    s[|s| - 1]
  }

  function Pop(s: seq<Screenshot>): seq<Screenshot>
    requires |s| > 0
  {
    s[..|s| - 1]
  }

  /** The record snapshot() pushes: no rectangle, and the rectangle field left as a
      default-constructed QRect. */
  function Shot(pix: Pixmap, scale: real): Screenshot
  {
    Screenshot(pix, scale, false, NullRect)
  }

  /** What the window keeps true of its history between operations: at most Cap entries
      in the two stacks together, and only positive scales recorded. */
  ghost predicate Valid(h: Stacks)
  {
    && |h.stack1| + |h.stack2| <= Cap
    && (forall i :: 0 <= i < |h.stack1| ==> h.stack1[i].scale > 0.0)
    && (forall i :: 0 <= i < |h.stack2| ==> h.stack2[i].scale > 0.0)
  }

  /** The sequence read back to front; it is the order in which entries land on one
      stack when they are popped off another one by one. */
  function Reversed(s: seq<Screenshot>): (r: seq<Screenshot>)
    ensures |r| == |s|
  {
    if s == [] then [] else Reversed(s[1..]) + [s[0]]
  }

  /** Reading t[k..] backwards ends with t[k]. */
  lemma ReversedStep(t: seq<Screenshot>, k: nat)
    requires k < |t|
    ensures Reversed(t[k..]) == Reversed(t[k + 1..]) + [t[k]]
  {
  }

  /** The cap on the history, applied after a push: above Cap entries, the entry just
      above the bottom is dropped. */
  function Capped(s: seq<Screenshot>): (r: seq<Screenshot>)
    ensures |s| <= Cap ==> r == s
    ensures |s| <= Cap + 1 ==> |r| <= Cap
    ensures |s| > Cap ==> |r| == |s| - 1 && r[0] == s[0] && Top(r) == Top(s)
  {
    if |s| > Cap then [s[0]] + s[2..] else s
  }

  /** When the cap fires, exactly the second-oldest entry goes: the bottom stays put and
      every entry above the dropped one keeps its place relative to the others. */
  lemma CapDropsSecondOldest(s: seq<Screenshot>)
    requires |s| > Cap
    ensures Capped(s)[0] == s[0]
    ensures forall i :: 2 <= i < |s| ==> Capped(s)[i - 1] == s[i]
    ensures multiset(Capped(s)) + multiset{s[1]} == multiset(s)
  {
    assert s == [s[0]] + [s[1]] + s[2..];
  }

  /** snapshot(): the redo stack is discarded, the record is pushed, and the cap is
      enforced. */
  function Recorded(h: Stacks, shot: Screenshot): (r: Stacks)
    ensures r.stack2 == []
    ensures |r.stack1| > 0 && Top(r.stack1) == shot
    ensures |h.stack1| < Cap ==> r.stack1 == h.stack1 + [shot]
    ensures |h.stack1| <= Cap ==> |r.stack1| <= Cap
    ensures |h.stack1| == Cap ==> r.stack1 == [h.stack1[0]] + h.stack1[2..] + [shot]
    ensures |h.stack1| > 0 ==> r.stack1[0] == h.stack1[0]
  {
    var pushed := h.stack1 + [shot];
    assert |h.stack1| == Cap ==> [pushed[0]] + pushed[2..] == [h.stack1[0]] + h.stack1[2..] + [shot];
    Stacks(Capped(pushed), [])
  }

  /** A record pushed by zoomToRegion: snapshot()'s record with the selected rectangle
      attached to it afterwards. */
  function WithRectangle(s: seq<Screenshot>, rec: Rect): (r: seq<Screenshot>)
    requires |s| > 0
    ensures |r| == |s| && Pop(r) == Pop(s)
    ensures Top(r) == Top(s).(needRectangle := true, rectangle := rec)
  {
    Pop(s) + [Top(s).(needRectangle := true, rectangle := rec)]
  }

  lemma WithRectangleKeepsValid(s: seq<Screenshot>, rec: Rect)
    requires |s| > 0 && Valid(Stacks(s, []))
    ensures Valid(Stacks(WithRectangle(s, rec), []))
  {
  }

  /** undo(): with more than one entry in the history, its top moves onto the redo
      stack; otherwise nothing changes. */
  function Undone(h: Stacks): (r: Stacks)
    ensures |h.stack1| <= 1 ==> r == h
    ensures |h.stack1| > 1 ==> |r.stack1| == |h.stack1| - 1 && |r.stack2| == |h.stack2| + 1
    ensures |h.stack1| > 1 ==> r.stack1 == Pop(h.stack1) && r.stack2 == h.stack2 + [Top(h.stack1)]
    ensures |r.stack1| + |r.stack2| == |h.stack1| + |h.stack2|
    ensures |h.stack1| > 0 ==> |r.stack1| > 0 && r.stack1[0] == h.stack1[0]
  {
    if |h.stack1| > 1 then Stacks(Pop(h.stack1), h.stack2 + [Top(h.stack1)]) else h
  }

  /** redo(): with a non-empty redo stack, its top moves back onto the history;
      otherwise nothing changes. */
  function Redone(h: Stacks): (r: Stacks)
    ensures h.stack2 == [] ==> r == h
    ensures h.stack2 != [] ==> |r.stack1| == |h.stack1| + 1 && r.stack2 == Pop(h.stack2)
    ensures h.stack2 != [] ==> Pop(r.stack1) == h.stack1 && Top(r.stack1) == Top(h.stack2)
    ensures |r.stack1| + |r.stack2| == |h.stack1| + |h.stack2|
    ensures |h.stack1| > 0 ==> r.stack1[0] == h.stack1[0]
  {
    if h.stack2 != [] then Stacks(h.stack1 + [Top(h.stack2)], Pop(h.stack2)) else h
  }

  /** reset(): the redo stack is discarded and the history is popped down to its bottom
      entry, the image as first loaded. */
  function ResetStacks(h: Stacks): (r: Stacks)
    requires |h.stack1| > 0
    ensures r.stack2 == [] && |r.stack1| == 1 && r.stack1[0] == h.stack1[0]
  {
    Stacks(h.stack1[..1], [])
  }

  lemma UndoThenRedo(h: Stacks)
    requires |h.stack1| > 1
    ensures Redone(Undone(h)) == h
  {
  }

  lemma RedoThenUndo(h: Stacks)
    requires h.stack2 != [] && |h.stack1| > 0
    ensures Undone(Redone(h)) == h
  {
  }

  /** After a snapshot there is nothing to redo. */
  lemma RedoAfterRecordIsNoOp(h: Stacks, shot: Screenshot)
    ensures Redone(Recorded(h, shot)) == Recorded(h, shot)
  {
  }

  lemma RecordedKeepsValid(h: Stacks, shot: Screenshot)
    requires Valid(h) && shot.scale > 0.0
    ensures Valid(Recorded(h, shot))
  {
  }

  /** undo() pressed `n` times. */
  function UndoneTimes(h: Stacks, n: nat): (r: Stacks)
    ensures n < |h.stack1| ==> |r.stack1| == |h.stack1| - n && |r.stack2| == |h.stack2| + n
  {
    if n == 0 then h else Undone(UndoneTimes(h, n - 1))
  }

  /** redo() pressed `n` times. */
  function RedoneTimes(h: Stacks, n: nat): Stacks
    decreases n
  {
    if n == 0 then h else RedoneTimes(Redone(h), n - 1)
  }

  /** `n` undos leave the oldest entries of the history in place and put the `n` newest
      on the redo stack, newest at the bottom. */
  lemma {:induction false} UndoneTimesStacks(h: Stacks, n: nat)
    requires n < |h.stack1|
    ensures UndoneTimes(h, n).stack1 == h.stack1[..|h.stack1| - n]
    ensures UndoneTimes(h, n).stack2 == h.stack2 + Reversed(h.stack1[|h.stack1| - n..])
  {
    var k := |h.stack1| - n;
    if n > 0 {
      UndoneTimesStacks(h, n - 1);
      var g := UndoneTimes(h, n - 1);
      assert g.stack1 == h.stack1[..k + 1];
      assert Top(g.stack1) == h.stack1[k];
      var tail := h.stack1[k..];
      assert tail[1..] == h.stack1[k + 1..];
      assert Reversed(tail) == Reversed(h.stack1[k + 1..]) + [h.stack1[k]];
    }
  }

  /** Undoing `n` times and then redoing `n` times restores both stacks, as long as the
      undos all acted. */
  lemma {:induction false} UndoneTimesThenRedoneTimes(h: Stacks, n: nat)
    requires n < |h.stack1|
    ensures RedoneTimes(UndoneTimes(h, n), n) == h
  {
    if n > 0 {
      var g := UndoneTimes(h, n - 1);
      UndoThenRedo(g);
      UndoneTimesThenRedoneTimes(h, n - 1);
    }
  }

  /** reset() leaves the history where undoing all the way down would, but with
      nothing left to redo. */
  lemma ResetIsUndoAllThenDropRedo(h: Stacks)
    requires |h.stack1| > 0
    ensures ResetStacks(h) == Stacks(UndoneTimes(h, |h.stack1| - 1).stack1, [])
  {
    UndoneTimesStacks(h, |h.stack1| - 1);
  }

  /** Undo and redo keep the window's history invariant. */
  lemma UndoRedoKeepValid(h: Stacks)
    requires Valid(h)
    ensures Valid(Undone(h)) && Valid(Redone(h))
  {
  }
}
