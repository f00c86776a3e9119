/** A canvas's undo and redo history: two stacks of records, each holding a
    rectangle of the image and the pixels that rectangle held. Undoing
    pops a record, saves what its rectangle holds now onto the other stack
    and writes the popped pixels back; redoing is the mirror image. */
module History {
  import opened Pixels

  /** The undo stack never grows beyond this many records. */
  const MaxUndoDepth := 25

  datatype UndoRecord = UndoRecord(image: Image, rect: Rect)

  /** An editable canvas's image and its two stacks; the last entry of
      each sequence is the top of the stack. */
  datatype Canvas = Canvas(image: Image, undoStack: seq<UndoRecord>, redoStack: seq<UndoRecord>)

  /** A fresh canvas: both stacks start empty. */
  function NewCanvas(image: Image): (c: Canvas)
    ensures c.image == image && c.undoStack == [] && c.redoStack == []
  {
    Canvas(image, [], [])
  }

  /** `r` lies entirely inside a `w` by `h` image. */
  predicate RectInside(r: Rect, w: int, h: int) {
    0 <= r.x && 0 <= r.y && r.x + r.w <= w && r.y + r.h <= h
  }

  /** The record's pixels have its rectangle's size, and the rectangle lies
      inside the image. */
  predicate Fits(rec: UndoRecord, img: Image) {
    IsGrid(rec.image, rec.rect.w, rec.rect.h) && RectInside(rec.rect, Width(img), |img|)
  }

  predicate AllFit(s: seq<UndoRecord>, img: Image) {
    forall k :: 0 <= k < |s| ==> Fits(s[k], img)
  }

  /** The image is rectangular and every record on either stack fits it. */
  predicate ValidCanvas(c: Canvas) {
    Rectangular(c.image) && AllFit(c.undoStack, c.image) && AllFit(c.redoStack, c.image)
  }

  function Top(s: seq<UndoRecord>): UndoRecord
    requires |s| > 0
  {
    s[|s| - 1]
  }

  function Pop(s: seq<UndoRecord>): seq<UndoRecord>
    requires |s| > 0
  {
    s[..|s| - 1]
  }

  /** A new transparent surface of `r`'s size with the part of `img` under
      `r` copied in (`blit(img, (0, 0), r)`); cells of `r` outside the image
      stay transparent. */
  function Crop(img: Image, r: Rect): (sub: Image)
    ensures IsGrid(sub, r.w, r.h)
    ensures forall j, i :: 0 <= j < r.h && 0 <= i < r.w && InGrid(img, r.x + i, r.y + j) ==>
              sub[j][i] == img[r.y + j][r.x + i]
    ensures forall j, i :: 0 <= j < r.h && 0 <= i < r.w && !InGrid(img, r.x + i, r.y + j) ==>
              sub[j][i] == Transparent
  {
    seq(r.h, j => seq(r.w, i => if InGrid(img, r.x + i, r.y + j) then img[r.y + j][r.x + i] else Transparent))
  }

  /** `sub` copied onto `img` with its top-left corner at `at`
      (`img.blit(sub, at)`); the copy is clipped to the image, and only
      `at`'s position matters, not its size. */
  function Paste(img: Image, sub: Image, at: Rect): (out: Image)
    ensures SameShape(out, img)
    ensures forall j, i :: InGrid(img, i, j) && InGrid(sub, i - at.x, j - at.y) ==>
              out[j][i] == sub[j - at.y][i - at.x]
    ensures forall j, i :: InGrid(img, i, j) && !InGrid(sub, i - at.x, j - at.y) ==>
              out[j][i] == img[j][i]
  {
    seq(|img|, j requires 0 <= j < |img| =>
      seq(|img[j]|, i requires 0 <= i < |img[j]| =>
        if InGrid(sub, i - at.x, j - at.y) then sub[j - at.y][i - at.x] else img[j][i]))
  }

  /** The shared step of `_try_undo` and `_try_redo`: pop `from`, push a
      record of the same rectangle holding what the image holds there now
      onto `to`, and write the popped pixels back. An empty `from` leaves
      everything as it was. */
  datatype Transfer = Transfer(image: Image, from: seq<UndoRecord>, to: seq<UndoRecord>)

  function Replay(img: Image, from: seq<UndoRecord>, to: seq<UndoRecord>): (t: Transfer)
    ensures |from| == 0 ==> t == Transfer(img, from, to)
    ensures |from| > 0 ==> t.from == Pop(from)
    ensures |from| > 0 ==> |t.to| == |to| + 1 && t.to[..|to|] == to
    ensures |from| > 0 ==> Top(t.to).rect == Top(from).rect
    ensures |from| > 0 ==> IsGrid(Top(t.to).image, Top(from).rect.w, Top(from).rect.h)
    ensures |from| > 0 ==>
              forall j, i ::
                (0 <= j < Top(from).rect.h && 0 <= i < Top(from).rect.w &&
                 InGrid(img, Top(from).rect.x + i, Top(from).rect.y + j)) ==>
                Top(t.to).image[j][i] == img[Top(from).rect.y + j][Top(from).rect.x + i]
    ensures |t.from| + |t.to| == |from| + |to|
    ensures SameShape(t.image, img)
    ensures |from| > 0 && Fits(Top(from), img) ==>
              forall j, i :: InGrid(img, i, j) && !Top(from).rect.Contains(Point(i, j)) ==>
                t.image[j][i] == img[j][i]
    ensures |from| > 0 && Fits(Top(from), img) ==>
              forall j, i :: InGrid(img, i, j) && Top(from).rect.Contains(Point(i, j)) ==>
                t.image[j][i] == Top(from).image[j - Top(from).rect.y][i - Top(from).rect.x]
  {
    if |from| == 0 then Transfer(img, from, to)
    else
      var rec := Top(from);
      var saved := UndoRecord(Crop(img, rec.rect), rec.rect);
      Transfer(Paste(img, rec.image, rec.rect), Pop(from), to + [saved])
  }

  /** `_try_undo` on one canvas. */
  function Undo(c: Canvas): (r: Canvas)
    ensures |c.undoStack| == 0 ==> r == c
    ensures |c.undoStack| > 0 ==> r.undoStack == Pop(c.undoStack) && |r.redoStack| == |c.redoStack| + 1
    ensures |c.undoStack| > 0 ==> r.redoStack[..|c.redoStack|] == c.redoStack
    ensures |r.undoStack| + |r.redoStack| == |c.undoStack| + |c.redoStack|
    ensures ValidCanvas(c) ==> ValidCanvas(r)
  {
    var t := Replay(c.image, c.undoStack, c.redoStack);
    var r := Canvas(t.image, t.from, t.to);
    if |c.undoStack| > 0 && ValidCanvas(c) then
      ReplayKeepsValid(c.image, c.undoStack, c.redoStack);
      r
    else r
  }

  /** `_try_redo` on one canvas. */
  function Redo(c: Canvas): (r: Canvas)
    ensures |c.redoStack| == 0 ==> r == c
    ensures |c.redoStack| > 0 ==> r.redoStack == Pop(c.redoStack) && |r.undoStack| == |c.undoStack| + 1
    ensures |c.redoStack| > 0 ==> r.undoStack[..|c.undoStack|] == c.undoStack
    ensures |r.undoStack| + |r.redoStack| == |c.undoStack| + |c.redoStack|
    ensures ValidCanvas(c) ==> ValidCanvas(r)
  {
    var t := Replay(c.image, c.redoStack, c.undoStack);
    var r := Canvas(t.image, t.to, t.from);
    if |c.redoStack| > 0 && ValidCanvas(c) then
      ReplayKeepsValid(c.image, c.redoStack, c.undoStack);
      r
    else r
  }

  /** A replay keeps the image's shape, so every record that fitted still
      fits, and the saved record fits too. */
  lemma ReplayKeepsValid(img: Image, from: seq<UndoRecord>, to: seq<UndoRecord>)
    requires Rectangular(img) && |from| > 0 && AllFit(from, img) && AllFit(to, img)
    ensures Rectangular(Replay(img, from, to).image)
    ensures AllFit(Replay(img, from, to).from, Replay(img, from, to).image)
    ensures AllFit(Replay(img, from, to).to, Replay(img, from, to).image)
  {
    var t := Replay(img, from, to);
    assert Width(t.image) == Width(img);
    assert forall k :: 0 <= k < |t.from| ==> t.from[k] == from[k];
    forall k | 0 <= k < |t.to| ensures Fits(t.to[k], t.image) {
      if k < |to| {
        assert t.to[k] == t.to[..|to|][k];
      }
    }
  }

  /** The popped record's pixels come back out of the image unchanged
      when its rectangle lies inside the image. */
  lemma CropOfPaste(img: Image, rec: UndoRecord)
    requires Rectangular(img) && Fits(rec, img)
    ensures Crop(Paste(img, rec.image, rec.rect), rec.rect) == rec.image
  {
    var out := Crop(Paste(img, rec.image, rec.rect), rec.rect);
    forall j, i | InGrid(out, i, j) ensures out[j][i] == rec.image[j][i] {
      assert InGrid(img, rec.rect.x + i, rec.rect.y + j);
    }
    GridExtensionality(out, rec.image);
  }

  /** Writing back what a rectangle held restores the image. */
  lemma PasteOfCrop(img: Image, paste: Image, r: Rect)
    requires Rectangular(img) && SameShape(paste, img) && RectInside(r, Width(img), |img|)
    requires forall j, i :: InGrid(img, i, j) && !r.Contains(Point(i, j)) ==> paste[j][i] == img[j][i]
    ensures Paste(paste, Crop(img, r), r) == img
  {
    var sub := Crop(img, r);
    var out := Paste(paste, sub, r);
    forall j, i | InGrid(out, i, j) ensures out[j][i] == img[j][i] {
      PasteOfCropCell(img, paste, sub, out, r, i, j);
    }
    GridExtensionality(out, img);
  }

  /** One cell of `PasteOfCrop`. */
  lemma PasteOfCropCell(img: Image, paste: Image, sub: Image, out: Image, r: Rect, i: int, j: int)
    requires Rectangular(img) && SameShape(paste, img) && RectInside(r, Width(img), |img|)
    requires InGrid(img, i, j) && (!r.Contains(Point(i, j)) ==> paste[j][i] == img[j][i])
    requires sub == Crop(img, r) && out == Paste(paste, sub, r)
    ensures out[j][i] == img[j][i]
  {
    assert InGrid(paste, i, j);
    if r.Contains(Point(i, j)) {
      assert InGrid(sub, i - r.x, j - r.y);
      assert InGrid(img, r.x + (i - r.x), r.y + (j - r.y));
    } else {
      assert !InGrid(sub, i - r.x, j - r.y);
    }
  }

  /** Replaying from one stack and then from the other restores the image
      and both stacks exactly. */
  lemma ReplayTwice(img: Image, from: seq<UndoRecord>, to: seq<UndoRecord>)
    requires Rectangular(img) && |from| > 0 && AllFit(from, img)
    ensures Replay(Replay(img, from, to).image, Replay(img, from, to).to, Replay(img, from, to).from)
            == Transfer(img, to, from)
  {
    var rec := Top(from);
    var t := Replay(img, from, to);
    var back := Replay(t.image, t.to, t.from);
    assert Fits(rec, img);
    assert Top(t.to) == UndoRecord(Crop(img, rec.rect), rec.rect);
    PasteOfCrop(img, t.image, rec.rect);
    assert back.image == img;
    assert back.from == to;
    CropOfPaste(img, rec);
    assert back.to == Pop(from) + [rec];
    assert Pop(from) + [rec] == from;
  }

  /** Undo followed by redo restores the canvas bit for bit, including the
      top undo record's rectangle and pixels. */
  lemma UndoThenRedo(c: Canvas)
    requires ValidCanvas(c) && |c.undoStack| > 0
    ensures Redo(Undo(c)) == c
  {
    ReplayTwice(c.image, c.undoStack, c.redoStack);
  }

  /** Redo followed by undo restores the canvas bit for bit. */
  lemma RedoThenUndo(c: Canvas)
    requires ValidCanvas(c) && |c.redoStack| > 0
    ensures Undo(Redo(c)) == c
  {
    ReplayTwice(c.image, c.redoStack, c.undoStack);
  }

  /** Undo writes only inside the popped record's rectangle, and inside it
      puts back exactly the record's pixels. */
  lemma UndoFrame(c: Canvas)
    requires ValidCanvas(c) && |c.undoStack| > 0
    ensures forall j, i :: InGrid(c.image, i, j) && !Top(c.undoStack).rect.Contains(Point(i, j)) ==>
              Undo(c).image[j][i] == c.image[j][i]
    ensures forall j, i :: InGrid(c.image, i, j) && Top(c.undoStack).rect.Contains(Point(i, j)) ==>
              Undo(c).image[j][i] == Top(c.undoStack).image[j - Top(c.undoStack).rect.y][i - Top(c.undoStack).rect.x]
  {
    assert Fits(Top(c.undoStack), c.image);
  }

  /** Redo writes only inside the popped record's rectangle. */
  lemma RedoFrame(c: Canvas)
    requires ValidCanvas(c) && |c.redoStack| > 0
    ensures forall j, i :: InGrid(c.image, i, j) && !Top(c.redoStack).rect.Contains(Point(i, j)) ==>
              Redo(c).image[j][i] == c.image[j][i]
    ensures forall j, i :: InGrid(c.image, i, j) && Top(c.redoStack).rect.Contains(Point(i, j)) ==>
              Redo(c).image[j][i] == Top(c.redoStack).image[j - Top(c.redoStack).rect.y][i - Top(c.redoStack).rect.x]
  {
    assert Fits(Top(c.redoStack), c.image);
  }

  /** The newest `MaxUndoDepth` entries of `s`. */
  function Newest(s: seq<UndoRecord>): (r: seq<UndoRecord>)
    ensures |r| <= MaxUndoDepth
  {
    if |s| > MaxUndoDepth then s[|s| - MaxUndoDepth..] else s
  }

  /** Pushing a new history record, as the fill tool does on a click:
      append it, clear the redo stack, and drop the oldest record if the
      stack has grown past the limit. */
  function PushRecord(c: Canvas, rec: UndoRecord): (r: Canvas)
    ensures r.image == c.image && r.redoStack == []
    ensures |r.undoStack| > 0 && Top(r.undoStack) == rec
    ensures |c.undoStack| < MaxUndoDepth ==> r.undoStack == c.undoStack + [rec]
    ensures |c.undoStack| >= MaxUndoDepth ==> r.undoStack == c.undoStack[1..] + [rec]
    ensures |c.undoStack| <= MaxUndoDepth ==> r.undoStack == Newest(c.undoStack + [rec])
  {
    var pushed := c.undoStack + [rec];
    Canvas(c.image, if |pushed| > MaxUndoDepth then pushed[1..] else pushed, [])
  }

  /** The records pushed one after another. */
  function PushAll(c: Canvas, recs: seq<UndoRecord>): Canvas
    decreases |recs|
  {
    if |recs| == 0 then c else PushAll(PushRecord(c, recs[0]), recs[1..])
  }

  lemma NewestOfNewest(s: seq<UndoRecord>, t: seq<UndoRecord>)
    ensures Newest(Newest(s) + t) == Newest(s + t)
  {
    if |s| > MaxUndoDepth {
      var k := |s| - MaxUndoDepth;
      assert s + t == s[..k] + (s[k..] + t);
      assert (s + t)[|s + t| - MaxUndoDepth..] == (s[k..] + t)[|s[k..] + t| - MaxUndoDepth..];
    }
  }

  /** However many records are pushed, the undo stack holds exactly the
      newest 25 of the old records followed by the new ones, in order. */
  lemma {:induction false} PushAllKeepsNewest(c: Canvas, recs: seq<UndoRecord>)
    requires |c.undoStack| <= MaxUndoDepth
    ensures PushAll(c, recs).undoStack == Newest(c.undoStack + recs)
    ensures |recs| > 0 ==> PushAll(c, recs).redoStack == []
    decreases |recs|
  {
    if |recs| > 0 {
      var c1 := PushRecord(c, recs[0]);
      PushAllKeepsNewest(c1, recs[1..]);
      NewestOfNewest(c.undoStack + [recs[0]], recs[1..]);
      ConsConcat(c.undoStack, recs);
    } else {
      assert c.undoStack + recs == c.undoStack;
    }
  }

  lemma ConsConcat(s: seq<UndoRecord>, recs: seq<UndoRecord>)
    requires |recs| > 0
    ensures s + [recs[0]] + recs[1..] == s + recs
  {
    assert [recs[0]] + recs[1..] == recs;
  }
}
