/** The five edits of the bin order (`binOrder[visualPosition] = originalBinId`),
    each written as the program writes it: a composition of `slice`,
    `splice` and `reverse` on the current order (script.js:1233-1321).
    Every edit is total, as in the program, which never checks bounds;
    the lemmas state the closed form each one has on in-bounds regions. */
module BinOrder {
  import opened JsArrays

  /** Where `performMove` reinserts the removed block: a target to the
      right of the block is shifted left by the block's width. */
  function InsertPos(startX: int, width: int, targetX: int): (pos: int)
    ensures 0 <= width ==> targetX - width <= pos <= targetX
    ensures pos == targetX <==> targetX <= startX || width == 0
  {
    if targetX > startX then targetX - width else targetX
  }

  /** `performMove`: cut `width` bins at `startX`, insert them at
      `InsertPos(startX, width, targetX)` of what is left. Whatever the
      arguments, the result is a rearrangement of the input. */
  function Move(order: seq<int>, startX: int, width: int, targetX: int): (r: seq<int>)
    ensures multiset(r) == multiset(order)
    ensures |r| == |order|
  {
    var cut := Splice(order, startX, width, []);
    var pos := InsertPos(startX, width, targetX);
    SpliceContents(order, startX, width, []);
    assert multiset(cut.0) + multiset(cut.1) == multiset(order);
    var r := Splice(cut.0, pos, 0, cut.1);
    SpliceContents(cut.0, pos, 0, cut.1);
    SpliceInsert(cut.0, pos, cut.1);
    assert multiset(r.0) == multiset(cut.0) + multiset(cut.1);
    r.0
  }

  /** `performSwap`: copy both regions, then overwrite the later region
      first so that the earlier one's position is still valid. Whatever
      the arguments, only bins of the input appear in the result. */
  function Swap(order: seq<int>, x1: int, w1: int, x2: int, w2: int): (r: seq<int>)
    ensures forall v :: v in r ==> v in order
  {
    var bins1 := Slice(order, x1, x1 + w1);
    var bins2 := Slice(order, x2, x2 + w2);
    SliceContents(order, x1, x1 + w1);
    SliceContents(order, x2, x2 + w2);
    if x1 < x2 then
      var once := Splice(order, x2, w2, bins1).0;
      SpliceContents(order, x2, w2, bins1);
      SpliceContents(once, x1, w1, bins2);
      Splice(once, x1, w1, bins2).0
    else
      var once := Splice(order, x1, w1, bins2).0;
      SpliceContents(order, x1, w1, bins2);
      SpliceContents(once, x2, w2, bins1);
      Splice(once, x2, w2, bins1).0
  }

  /** `performInversion`: reverse the region in place. With a
      non-negative position and width the result is a rearrangement of the
      input; in every case it holds only bins of the input. */
  function Invert(order: seq<int>, x: int, width: int): (r: seq<int>)
    ensures 0 <= x && 0 <= width ==> |r| == |order| && multiset(r) == multiset(order)
    ensures forall v :: v in r ==> v in order
  {
    var region := Slice(order, x, x + width);
    var inverted := Reverse(region);
    var r := Splice(order, x, width, inverted);
    SliceContents(order, x, x + width);
    ReverseContents(region);
    SpliceContents(order, x, width, inverted);
    assert forall v :: v in r.0 ==> v in order by {
      forall v | v in r.0 ensures v in order {
        if v in inverted {
          assert v in multiset(region);
        }
      }
    }
    if 0 <= x && 0 <= width then
      SpliceRearranged(order, x, width, inverted);
      r.0
    else
      r.0
  }

  /** `performDeletion`: remove the region. What remains is part of the
      input. */
  function Delete(order: seq<int>, x: int, width: int): (r: seq<int>)
    ensures multiset(r) <= multiset(order)
    ensures |r| <= |order|
  {
    var r := Splice(order, x, width, []);
    SpliceContents(order, x, width, []);
    assert multiset(r.0) + multiset(r.1) == multiset(order);
    r.0
  }

  /** `performDuplication`: insert a copy of the region right after it.
      Nothing is lost and only bins of the input appear. */
  function Duplicate(order: seq<int>, x: int, width: int): (r: seq<int>)
    ensures multiset(order) <= multiset(r)
    ensures forall v :: v in r ==> v in order
  {
    var copy := Slice(order, x, x + width);
    SliceContents(order, x, x + width);
    var r := Splice(order, x + width, 0, copy);
    SpliceContents(order, x + width, 0, copy);
    SpliceInsert(order, x + width, copy);
    assert multiset(r.0) == multiset(order) + multiset(copy);
    r.0
  }

  /** A region `[x, x + width)` inside an order of length `n`. */
  predicate InBounds(n: int, x: int, width: int) {
    0 <= x && 0 <= width && x + width <= n
  }

  /** The two splices of a move, on an in-bounds block. */
  lemma MoveSplices(order: seq<int>, startX: int, width: int, targetX: int)
    requires InBounds(|order|, startX, width)
    requires 0 <= InsertPos(startX, width, targetX) <= |order| - width
    ensures var rest := order[..startX] + order[startX + width..];
            var pos := InsertPos(startX, width, targetX);
            Move(order, startX, width, targetX) == rest[..pos] + order[startX..startX + width] + rest[pos..]
  {
    var block := order[startX..startX + width];
    var rest := order[..startX] + order[startX + width..];
    var pos := InsertPos(startX, width, targetX);
    assert Splice(order, startX, width, []) == (rest, block) by {
      SpliceAt(order, startX, width, []);
    }
    assert Splice(rest, pos, 0, block).0 == rest[..pos] + block + rest[pos..] by {
      SpliceAt(rest, pos, 0, block);
    }
  }

  /** Where the parts of the order end up when a block is reinserted into
      the rest of the order at `InsertPos`. */
  lemma MovedShape(order: seq<int>, startX: int, width: int, targetX: int, r: seq<int>)
    requires InBounds(|order|, startX, width) && 0 <= targetX <= |order|
    requires !(startX < targetX < startX + width)
    requires var rest := order[..startX] + order[startX + width..];
             var pos := InsertPos(startX, width, targetX);
             0 <= pos <= |rest| && r == rest[..pos] + order[startX..startX + width] + rest[pos..]
    ensures var block := order[startX..startX + width];
            targetX > startX ==> r == order[..startX] + order[startX + width..targetX] + block + order[targetX..]
    ensures var block := order[startX..startX + width];
            targetX <= startX ==> r == order[..targetX] + block + order[targetX..startX] + order[startX + width..]
    ensures var pos := InsertPos(startX, width, targetX);
            0 <= pos && pos + width <= |r| && r[pos..pos + width] == order[startX..startX + width]
  {
    var block := order[startX..startX + width];
    var rest := order[..startX] + order[startX + width..];
    var pos := InsertPos(startX, width, targetX);
    if targetX > startX {
      assert rest[..pos] == order[..startX] + order[startX + width..targetX];
      assert rest[pos..] == order[targetX..];
    } else {
      assert rest[..pos] == order[..targetX];
      assert rest[pos..] == order[targetX..startX] + order[startX + width..];
    }
    assert r[pos..pos + width] == block;
  }

  /** Move on an in-bounds block and a target outside the block's interior:
      the block lands, contiguous and in order, at `InsertPos`, and the
      bins between the block and the target shift over by its width. */
  lemma MoveBlock(order: seq<int>, startX: int, width: int, targetX: int)
    requires InBounds(|order|, startX, width) && 0 <= targetX <= |order|
    requires !(startX < targetX < startX + width)
    ensures var block := order[startX..startX + width];
            targetX > startX ==>
              Move(order, startX, width, targetX)
                == order[..startX] + order[startX + width..targetX] + block + order[targetX..]
    ensures var block := order[startX..startX + width];
            targetX <= startX ==>
              Move(order, startX, width, targetX)
                == order[..targetX] + block + order[targetX..startX] + order[startX + width..]
    ensures var pos := InsertPos(startX, width, targetX);
            0 <= pos && pos + width <= |order| &&
            Move(order, startX, width, targetX)[pos..pos + width] == order[startX..startX + width]
  {
    MoveSplices(order, startX, width, targetX);
    MovedShape(order, startX, width, targetX, Move(order, startX, width, targetX));
  }

  /** The two splices of a swap, later region first, as sequence algebra. */
  lemma TwoSplices(order: seq<int>, x1: int, w1: int, x2: int, w2: int, bins1: seq<int>, bins2: seq<int>)
    requires InBounds(|order|, x1, w1) && InBounds(|order|, x2, w2) && x1 + w1 <= x2
    requires bins1 == order[x1..x1 + w1] && bins2 == order[x2..x2 + w2]
    ensures Splice(Splice(order, x2, w2, bins1).0, x1, w1, bins2).0
              == order[..x1] + bins2 + order[x1 + w1..x2] + bins1 + order[x2 + w2..]
  {
    var once := order[..x2] + bins1 + order[x2 + w2..];
    assert Splice(order, x2, w2, bins1).0 == once by {
      SpliceAt(order, x2, w2, bins1);
    }
    assert once[..x1] == order[..x1];
    assert once[x1 + w1..] == order[x1 + w1..x2] + bins1 + order[x2 + w2..];
    assert Splice(once, x1, w1, bins2).0 == once[..x1] + bins2 + once[x1 + w1..] by {
      SpliceAt(once, x1, w1, bins2);
    }
  }

  /** Both argument orders of `Swap` on regions with `x1 < x2` perform the
      same two splices. */
  lemma SwapUnfold(order: seq<int>, x1: int, w1: int, x2: int, w2: int)
    requires x1 < x2
    ensures Swap(order, x1, w1, x2, w2)
              == Splice(Splice(order, x2, w2, Slice(order, x1, x1 + w1)).0, x1, w1, Slice(order, x2, x2 + w2)).0
    ensures Swap(order, x2, w2, x1, w1)
              == Splice(Splice(order, x2, w2, Slice(order, x1, x1 + w1)).0, x1, w1, Slice(order, x2, x2 + w2)).0
  {
  }

  /** Two disjoint in-bounds regions, selected in either order: their
      contents trade places and everything else stays. */
  lemma SwapRegions(order: seq<int>, x1: int, w1: int, x2: int, w2: int)
    requires InBounds(|order|, x1, w1) && InBounds(|order|, x2, w2)
    requires x1 + w1 <= x2 && x1 < x2
    ensures Swap(order, x1, w1, x2, w2)
              == order[..x1] + order[x2..x2 + w2] + order[x1 + w1..x2] + order[x1..x1 + w1] + order[x2 + w2..]
    ensures Swap(order, x2, w2, x1, w1) == Swap(order, x1, w1, x2, w2)
  {
    var bins1, bins2 := order[x1..x1 + w1], order[x2..x2 + w2];
    SwapUnfold(order, x1, w1, x2, w2);
    assert Slice(order, x1, x1 + w1) == bins1;
    assert Slice(order, x2, x2 + w2) == bins2;
    TwoSplices(order, x1, w1, x2, w2, bins1, bins2);
  }

  /** Trading the contents of two disjoint regions rearranges the order. */
  lemma TradedPermutes(order: seq<int>, x1: int, w1: int, x2: int, w2: int, r: seq<int>)
    requires InBounds(|order|, x1, w1) && InBounds(|order|, x2, w2) && x1 + w1 <= x2
    requires r == order[..x1] + order[x2..x2 + w2] + order[x1 + w1..x2] + order[x1..x1 + w1] + order[x2 + w2..]
    ensures |r| == |order| && multiset(r) == multiset(order)
  {
    var p0, p1, p2, p3, p4 := order[..x1], order[x1..x1 + w1], order[x1 + w1..x2], order[x2..x2 + w2], order[x2 + w2..];
    assert order == p0 + p1 + p2 + p3 + p4;
  }

  /** A swap of disjoint in-bounds regions is a rearrangement. */
  lemma SwapPermutes(order: seq<int>, x1: int, w1: int, x2: int, w2: int)
    requires InBounds(|order|, x1, w1) && InBounds(|order|, x2, w2)
    requires x1 + w1 <= x2 && x1 < x2
    ensures |Swap(order, x1, w1, x2, w2)| == |order|
    ensures multiset(Swap(order, x1, w1, x2, w2)) == multiset(order)
  {
    SwapRegions(order, x1, w1, x2, w2);
    TradedPermutes(order, x1, w1, x2, w2, Swap(order, x1, w1, x2, w2));
  }

  /** `Invert` is one splice of the reversed slice. */
  lemma InvertUnfold(order: seq<int>, x: int, width: int)
    ensures Invert(order, x, width) == Splice(order, x, width, Reverse(Slice(order, x, x + width))).0
  {
  }

  /** Inversion reverses exactly the part of the region inside the order
      (the region is clamped at the end of the order) and nothing else. */
  lemma InvertClamped(order: seq<int>, x: int, width: int)
    requires 0 <= x && 0 <= width
    ensures var a, b := Min(x, |order|), Min(x + width, |order|);
            Invert(order, x, width) == order[..a] + Reverse(order[a..b]) + order[b..]
  {
    var a, b := Min(x, |order|), Min(x + width, |order|);
    InvertUnfold(order, x, width);
    SliceClamped(order, x, x + width);
    assert Slice(order, x, x + width) == order[a..b];
    SpliceClamped(order, x, width, Reverse(order[a..b]));
  }

  /** The positions of an order with region `[x, x + width)` reversed. */
  lemma ReversedRegion(order: seq<int>, x: int, width: int, r: seq<int>)
    requires InBounds(|order|, x, width)
    requires r == order[..x] + Reverse(order[x..x + width]) + order[x + width..]
    ensures |r| == |order|
    ensures forall k :: x <= k < x + width ==> r[k] == order[2 * x + width - 1 - k]
    ensures forall k :: 0 <= k < |order| && !(x <= k < x + width) ==> r[k] == order[k]
  {
    var inverted := Reverse(order[x..x + width]);
    forall k | x <= k < x + width
      ensures r[k] == order[2 * x + width - 1 - k]
    {
      assert r[k] == inverted[k - x];
    }
    forall k | 0 <= k < |order| && !(x <= k < x + width)
      ensures r[k] == order[k]
    {
      if k >= x + width {
        assert r[k] == order[x + width..][k - x - width];
      }
    }
  }

  /** On an in-bounds region: positions inside are mirrored, positions
      outside keep their bin. */
  lemma InvertRegion(order: seq<int>, x: int, width: int)
    requires InBounds(|order|, x, width)
    ensures var r := Invert(order, x, width);
            |r| == |order|
            && r == order[..x] + Reverse(order[x..x + width]) + order[x + width..]
            && (forall k :: x <= k < x + width ==> r[k] == order[2 * x + width - 1 - k])
            && (forall k :: 0 <= k < |order| && !(x <= k < x + width) ==> r[k] == order[k])
  {
    var r := Invert(order, x, width);
    assert r == order[..x] + Reverse(order[x..x + width]) + order[x + width..] by {
      InvertClamped(order, x, width);
    }
    ReversedRegion(order, x, width, r);
  }

  /** Inverting the same region twice restores the order. */
  lemma InvertTwice(order: seq<int>, x: int, width: int)
    requires 0 <= x && 0 <= width
    ensures Invert(Invert(order, x, width), x, width) == order
  {
    var a, b := Min(x, |order|), Min(x + width, |order|);
    var region := order[a..b];
    var once := order[..a] + Reverse(region) + order[b..];
    assert Invert(order, x, width) == once by {
      InvertClamped(order, x, width);
    }
    ReplaceMiddle(order, a, b, Reverse(region));
    assert Invert(once, x, width) == order[..a] + Reverse(Reverse(region)) + order[b..] by {
      InvertClamped(once, x, width);
    }
    ReverseReverse(region);
    ThreeParts(order, a, b);
  }

  /** Deleting an in-bounds region shortens the order by exactly its width. */
  lemma DeleteRegion(order: seq<int>, x: int, width: int)
    requires InBounds(|order|, x, width)
    ensures Delete(order, x, width) == order[..x] + order[x + width..]
    ensures |Delete(order, x, width)| == |order| - width
    ensures multiset(Delete(order, x, width)) + multiset(order[x..x + width]) == multiset(order)
  {
    assert Delete(order, x, width) == order[..x] + order[x + width..] by {
      SpliceAt(order, x, width, []);
    }
    assert order == order[..x] + order[x..x + width] + order[x + width..];
  }

  /** `Duplicate` is one splice of a copy of the slice. */
  lemma DuplicateUnfold(order: seq<int>, x: int, width: int)
    ensures Duplicate(order, x, width) == Splice(order, x + width, 0, Slice(order, x, x + width)).0
  {
  }

  /** Duplicating an in-bounds region inserts a second copy right after it,
      lengthening the order by exactly its width. */
  lemma DuplicateRegion(order: seq<int>, x: int, width: int)
    requires InBounds(|order|, x, width)
    ensures Duplicate(order, x, width) == order[..x + width] + order[x..x + width] + order[x + width..]
    ensures |Duplicate(order, x, width)| == |order| + width
    ensures multiset(Duplicate(order, x, width)) == multiset(order) + multiset(order[x..x + width])
  {
    var copy := order[x..x + width];
    DuplicateUnfold(order, x, width);
    assert Slice(order, x, x + width) == copy;
    SpliceAt(order, x + width, 0, copy);
    ThreeParts(order, x, x + width);
  }
}
