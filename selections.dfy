/** The editing tools and the rectangular selections made on the heat map
    (script.js:941-1108). A selection records the bin where the drag began
    and the bin it has reached; normalising it adds the covering rectangle
    that the edits read. */
module Selections {
  import opened Wrappers
  import opened JsArrays

  /** The tool buttons (`selectedTool`). */
  datatype Tool = Select | Move | Swap | Invert | Delete | Duplicate | Split | Fuse

  /** `requiresTwoSelections`: move, swap and fuse need a second region. */
  predicate TwoSelectionTool(t: Tool) {
    t == Move || t == Swap || t == Fuse
  }

  /** The fields `normalizeSelection` writes: top-left bin and size. */
  datatype Rect = Rect(x: int, y: int, width: int, height: int)

  /** A selection: the drag's two ends and, once normalised, its
      rectangle. A drag only moves the end, so a rectangle written earlier
      is kept as it was. */
  datatype Selection = Selection(startX: int, startY: int, endX: int, endY: int, rect: Option<Rect>)

  predicate Normalized(sel: Selection) {
    sel.rect.Some?
  }

  /** The selection a mouse press creates: both ends at the pressed bin. */
  function Anchor(binX: int, binY: int): Selection {
    Selection(binX, binY, binX, binY, None)
  }

  /** A drag step: the end follows the pointer. */
  function DragTo(sel: Selection, binX: int, binY: int): Selection {
    sel.(endX := binX, endY := binY)
  }

  /** `k` lies in `[lo, lo + width)`. */
  predicate Spans(lo: int, width: int, k: int) {
    lo <= k < lo + width
  }

  /** `k` lies between the ends `a` and `b`, in either order. */
  predicate Between(a: int, b: int, k: int) {
    (a <= k <= b) || (b <= k <= a)
  }

  function Max(a: int, b: int): int { if a < b then b else a }

  /** `normalizeSelection`: the rectangle of a selection covers exactly the
      bins between its two ends, on each axis, and is at least one bin
      wide and high; the ends themselves are left as they are. */
  function Normalize(sel: Selection): (r: Selection)
    ensures r.startX == sel.startX && r.startY == sel.startY
    ensures r.endX == sel.endX && r.endY == sel.endY
    ensures Normalized(r) && r.rect.value.width >= 1 && r.rect.value.height >= 1
    ensures forall k :: Spans(r.rect.value.x, r.rect.value.width, k) <==> Between(sel.startX, sel.endX, k)
    ensures forall k :: Spans(r.rect.value.y, r.rect.value.height, k) <==> Between(sel.startY, sel.endY, k)
  {
    var minX := Min(sel.startX, sel.endX);
    var maxX := Max(sel.startX, sel.endX);
    var minY := Min(sel.startY, sel.endY);
    var maxY := Max(sel.startY, sel.endY);
    sel.(rect := Some(Rect(minX, minY, maxX - minX + 1, maxY - minY + 1)))
  }

  /** Dragging up-left gives the same rectangle as dragging down-right
      between the same two bins. */
  lemma NormalizeSymmetric(sel: Selection)
    ensures Normalize(sel.(startX := sel.endX, endX := sel.startX)).rect == Normalize(sel).rect
    ensures Normalize(sel.(startY := sel.endY, endY := sel.startY)).rect == Normalize(sel).rect
  {
    var r1 := Normalize(sel).rect.value;
    var r2 := Normalize(sel.(startX := sel.endX, endX := sel.startX)).rect.value;
    assert Spans(r1.x, r1.width, r1.x);
    assert Spans(r2.x, r2.width, r2.x);
    assert Spans(r1.x, r1.width, r1.x + r1.width - 1);
    assert Spans(r2.x, r2.width, r2.x + r2.width - 1);
    var r3 := Normalize(sel.(startY := sel.endY, endY := sel.startY)).rect.value;
    assert Spans(r1.y, r1.height, r1.y);
    assert Spans(r3.y, r3.height, r3.y);
    assert Spans(r1.y, r1.height, r1.y + r1.height - 1);
    assert Spans(r3.y, r3.height, r3.y + r3.height - 1);
  }

  /** Normalising twice changes nothing more. */
  lemma NormalizeIdempotent(sel: Selection)
    ensures Normalize(Normalize(sel)) == Normalize(sel)
  {
  }

  /** A click without a drag selects the single clicked bin. */
  lemma ClickSelectsOneBin(binX: int, binY: int)
    ensures Normalize(Anchor(binX, binY)).rect == Some(Rect(binX, binY, 1, 1))
  {
    var r := Normalize(Anchor(binX, binY)).rect.value;
    assert Spans(r.x, r.width, binX);
    assert Spans(r.x, r.width, r.x);
    assert Spans(r.x, r.width, r.x + r.width - 1);
    assert Spans(r.y, r.height, binY);
    assert Spans(r.y, r.height, r.y);
    assert Spans(r.y, r.height, r.y + r.height - 1);
  }
}
