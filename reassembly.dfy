/** The editor object `GenomeReassemblyTool` (script.js:1-14, 420-447,
    594-662, 941-1108, 1201-1335): the current bin order of one contact
    map with its P(s) analysis and score, the undo history, and the mouse
    and button handlers that select regions and apply the edits. */
module Reassembly {
  import opened Wrappers
  import opened Decay
  import opened Selections
  import BinOrder
  import History

  /** What `saveToHistory` stores: a copy of the order, its score and the
      exponent of its analysis (`psData?.alpha`). */
  datatype Snapshot = Snapshot(binOrder: seq<int>, score: real, psAlpha: Option<real>)

  /** What one recomputation takes from outside the model: `Math.log`, the
      100 pairs of `Math.random()` draws of the fit, and the composite
      score `calculateScore` reports when there is an analysis. */
  datatype Measure = Measure(ln: real -> real, draws: seq<(real, real)>, fitScore: real)

  ghost predicate Usable(meas: Measure) {
    Increasing(meas.ln) && |meas.draws| == 100 && Draws(meas.draws)
  }

  /** `Array.from({length: n}, (_, i) => i)`. */
  function Identity(n: nat): (r: seq<int>)
    ensures |r| == n && forall k :: 0 <= k < n ==> r[k] == k
  {
    seq(n, k => k)
  }

  /** `psData?.alpha`. */
  function AlphaOf(psData: Option<PsData>): Option<real> {
    if psData.Some? then Some(psData.value.alpha) else None
  }

  /** `calculateScore`: 0 without an analysis, the composite otherwise. */
  function ScoreOf(psData: Option<PsData>, fitScore: real): real {
    if psData.None? then 0.0 else fitScore
  }

  /** `psData` and `score` are what `calculatePsDistribution` and
      `calculateScore` compute for `order` under `meas`. */
  ghost predicate MeasuredBy(m: Matrix, order: seq<int>, psData: Option<PsData>, score: real, meas: Measure) {
    && Square(m)
    && IdsIn(order, |m|)
    && Usable(meas)
    && Ascending(Curve(m, order, |order|))
    && psData == Analyze(Curve(m, order, |order|), |order|, meas.ln, meas.draws)
    && score == ScoreOf(psData, meas.fitScore)
  }

  /** The part of the editor an edit touches: `currentState` without its
      matrix, and the history with its cursor. */
  datatype Doc = Doc(binOrder: seq<int>, psData: Option<PsData>, score: real,
                     history: seq<Snapshot>, historyIndex: int)

  /** The outcome of one edit of matrix `m`: with no edit nothing
      changes; otherwise the edited order is current and analysed, it was
      recorded, and undo leads back to the order before. */
  ghost predicate Applied(m: Matrix, edit: Option<seq<int>>, before: Doc, after: Doc, meas: Measure)
    requires History.WellFormed(before.history, before.historyIndex)
  {
    if edit.None? then after == before
    else
      && after.binOrder == edit.value
      && MeasuredBy(m, after.binOrder, after.psData, after.score, meas)
      && (after.history, after.historyIndex)
         == History.Record(before.history, before.historyIndex, Snapshot(after.binOrder, after.score, AlphaOf(after.psData)))
      && after.historyIndex >= 1
      && after.history[after.historyIndex - 1].binOrder == before.binOrder
  }

  /** A selection that is present has been normalised. */
  predicate Settled(sel: Option<Selection>) {
    sel.Some? ==> Normalized(sel.value)
  }

  /** The order a confirmed tool leaves behind, or `None` when the tool
      returns early for a missing selection, only raises an alert (split,
      fuse), or has no case in the dispatch (select). */
  function EditOf(tool: Tool, order: seq<int>, sel: Option<Selection>, second: Option<Selection>): (r: Option<seq<int>>)
    requires Settled(sel) && (TwoSelectionTool(tool) ==> Settled(second))
    ensures r.Some? <==> ((tool == Move || tool == Swap) && sel.Some? && second.Some?)
                         || ((tool == Invert || tool == Delete || tool == Duplicate) && sel.Some?)
    ensures r.Some? && tool == Move ==> |r.value| == |order| && multiset(r.value) == multiset(order)
    ensures r.Some? && tool == Delete ==> |r.value| <= |order|
    ensures r.Some? && tool == Duplicate ==> |r.value| >= |order|
  {
    match tool
    case Move =>
      if sel.None? || second.None? then None
      else Some(BinOrder.Move(order, sel.value.rect.value.x, sel.value.rect.value.width, second.value.rect.value.x))
    case Swap =>
      if sel.None? || second.None? then None
      else
        var r1, r2 := sel.value.rect.value, second.value.rect.value;
        Some(BinOrder.Swap(order, r1.x, r1.width, r2.x, r2.width))
    case Invert =>
      if sel.None? then None
      else Some(BinOrder.Invert(order, sel.value.rect.value.x, sel.value.rect.value.width))
    case Delete =>
      if sel.None? then None
      else Some(BinOrder.Delete(order, sel.value.rect.value.x, sel.value.rect.value.width))
    case Duplicate =>
      if sel.None? then None
      else Some(BinOrder.Duplicate(order, sel.value.rect.value.x, sel.value.rect.value.width))
    case Split => None
    case Fuse => None
    case Select => None
  }

  /** Exactly the tools `requiresTwoSelections` names read the second
      region: without it move and swap leave the order alone (and fuse
      never changes it), while every other tool ignores it. */
  lemma SecondRegionOnlyForTwoSelectionTools(tool: Tool, order: seq<int>, sel: Option<Selection>,
                                             second: Option<Selection>, other: Option<Selection>)
    requires Settled(sel) && Settled(second) && Settled(other)
    ensures TwoSelectionTool(tool) ==> EditOf(tool, order, sel, None) == None
    ensures !TwoSelectionTool(tool) ==> EditOf(tool, order, sel, second) == EditOf(tool, order, sel, other)
    ensures (tool == Move || tool == Swap) && sel.Some? && second.Some? ==> EditOf(tool, order, sel, second).Some?
  {
  }

  /** A delete of bins inside an order as long as the matrix leaves an
      order the as-written P(s) loop cannot walk (it reads past the end of
      the order), although the shorter order still names bins of the
      matrix and so has a well-defined curve. */
  lemma DeletionBreaksCurve(m: Matrix, order: seq<int>, x: int, width: int)
    requires Square(m) && IdsIn(order, |m|) && |order| == |m|
    requires BinOrder.InBounds(|order|, x, width) && width >= 1
    ensures var r := BinOrder.Delete(order, x, width);
            IdsIn(r, |m|) && |r| == |m| - width && CurveAsWritten(m, r).Failure?
  {
    BinOrder.DeleteRegion(order, x, width);
    SubMultisetKeepsIds(BinOrder.Delete(order, x, width), order, |m|);
  }

  /** A duplication makes the order longer than the matrix; the as-written
      loop still stops at the matrix size, so the distances the new bins
      add never enter the curve. */
  lemma DuplicationIgnoredByCurve(m: Matrix, order: seq<int>, x: int, width: int)
    requires Square(m) && IdsIn(order, |m|) && |order| == |m| && |m| >= 1
    requires BinOrder.InBounds(|order|, x, width) && width >= 1
    ensures var r := BinOrder.Duplicate(order, x, width);
            IdsIn(r, |m|) && |r| == |m| + width
            && CurveAsWritten(m, r).Success?
            && |CurveAsWritten(m, r).value| == |m| - 1
            && |Curve(m, r, |r|)| == |m| + width - 1
  {
    BinOrder.DuplicateRegion(order, x, width);
    KeepsIds(BinOrder.Duplicate(order, x, width), order, |m|);
  }

  /** A symmetric six-bin map whose only contacts away from the diagonal
      link bin 0 with bins 2, 3 and 4. */
  const StaleMap: Matrix := [
    [0.0, 0.0, 1.0, 1.0, 1.0, 0.0],
    [0.0, 0.0, 0.0, 0.0, 0.0, 0.0],
    [1.0, 0.0, 0.0, 0.0, 0.0, 0.0],
    [1.0, 0.0, 0.0, 0.0, 0.0, 0.0],
    [1.0, 0.0, 0.0, 0.0, 0.0, 0.0],
    [0.0, 0.0, 0.0, 0.0, 0.0, 0.0]]

  /** In the identity order the map has contacts at distances 2, 3 and 4,
      all three closer than 0.8 of the size. */
  lemma IdentityCandidates()
    ensures Square(StaleMap) && |StaleMap| == 6 && IdsIn([0, 1, 2, 3, 4, 5], 6)
    ensures |Candidates(Curve(StaleMap, [0, 1, 2, 3, 4, 5], 6), 6)| == 3
  {
    var m, o := StaleMap, [0, 1, 2, 3, 4, 5];
    var c := Curve(m, o, 6);
    assert DiagonalSum(m, o, 2, 4) == 1.0;
    assert DiagonalSum(m, o, 3, 3) == 1.0;
    assert DiagonalSum(m, o, 4, 2) == 1.0;
    assert c == [PsPoint(1, MeanAt(m, o, 6, 1)), PsPoint(2, 0.25), PsPoint(3, 1.0 / 3.0),
                 PsPoint(4, 0.5), PsPoint(5, MeanAt(m, o, 6, 5))];
    assert Candidates(c[4..], 6) == [];
    assert Candidates(c[3..], 6) == [c[3]];
    assert Candidates(c[2..], 6) == [c[2], c[3]];
    assert Candidates(c[1..], 6) == [c[1], c[2], c[3]];
  }

  /** With bins 0 and 5 traded, bin 0 sits at the far end: bins 2 and 3
      stay at distances 3 and 2 from it, bin 4 moves to distance 1, and
      distance 4 has no contact left. */
  lemma SwappedCandidates()
    ensures Square(StaleMap) && |StaleMap| == 6 && IdsIn([5, 1, 2, 3, 4, 0], 6)
    ensures |Candidates(Curve(StaleMap, [5, 1, 2, 3, 4, 0], 6), 6)| == 2
  {
    var m, o := StaleMap, [5, 1, 2, 3, 4, 0];
    var c := Curve(m, o, 6);
    assert DiagonalSum(m, o, 2, 4) == 1.0;
    assert DiagonalSum(m, o, 3, 3) == 1.0;
    assert DiagonalSum(m, o, 4, 2) == 0.0;
    assert c == [PsPoint(1, MeanAt(m, o, 6, 1)), PsPoint(2, 0.25), PsPoint(3, 1.0 / 3.0),
                 PsPoint(4, 0.0), PsPoint(5, MeanAt(m, o, 6, 5))];
    assert Candidates(c[4..], 6) == [];
    assert Candidates(c[3..], 6) == [];
    assert Candidates(c[2..], 6) == [c[2]];
    assert Candidates(c[1..], 6) == [c[1], c[2]];
  }

  /** The stale analysis on a run the program can make: the identity order
      of `StaleMap` is fitted; swapping bins 0 and 5 keeps the order as
      long as the matrix, so the as-written curve is computed, but only two
      distances survive the filter and the as-written fitting step keeps
      the identity order's analysis, where the right answer is none. */
  lemma StaleAnalysisAfterSwap(ln: real -> real, draws: seq<(real, real)>)
    requires Increasing(ln) && |draws| == 100 && Draws(draws)
    ensures Square(StaleMap) && |StaleMap| == 6
    ensures BinOrder.Swap(Identity(6), 0, 1, 5, 1) == [5, 1, 2, 3, 4, 0]
    ensures var id, sw := Identity(6), BinOrder.Swap(Identity(6), 0, 1, 5, 1);
            IdsIn(id, 6) && IdsIn(sw, 6)
            && CurveAsWritten(StaleMap, id) == Success(Curve(StaleMap, id, 6))
            && CurveAsWritten(StaleMap, sw) == Success(Curve(StaleMap, sw, 6))
            && Ascending(Curve(StaleMap, id, 6)) && Ascending(Curve(StaleMap, sw, 6))
            && var fitted := Analyze(Curve(StaleMap, id, 6), 6, ln, draws);
               fitted.Some?
               && AnalyzeAsWritten(fitted, Curve(StaleMap, sw, 6), 6, ln, draws) == fitted
               && Analyze(Curve(StaleMap, sw, 6), 6, ln, draws) == None
  {
    var id := Identity(6);
    assert id == [0, 1, 2, 3, 4, 5];
    BinOrder.SwapRegions(id, 0, 1, 5, 1);
    var sw := BinOrder.Swap(id, 0, 1, 5, 1);
    assert sw == [5, 1, 2, 3, 4, 0];
    IdentityCandidates();
    SwappedCandidates();
    CurveAscending(StaleMap, id, 6);
    CurveAscending(StaleMap, sw, 6);
  }

  class ReassemblyTool {
    /** `currentState.matrix`: the deep copy of the loaded contact map. */
    const matrix: Matrix
    /** `currentState.binOrder`: the original bin shown at each position. */
    var binOrder: seq<int>
    /** `currentState.psData`: the curve and exponent, when there is a fit. */
    var psData: Option<PsData>
    /** `currentState.score`. */
    var score: real
    var history: seq<Snapshot>
    var historyIndex: int
    var selectedTool: Tool
    var selection: Option<Selection>
    var secondSelection: Option<Selection>
    var operationStep: int
    var isDragging: bool
    /** Whether the confirm / cancel controls are displayed. */
    var confirmShown: bool

    /** The matrix is square, the order and every stored order name its
        bins, and the history is a list with its cursor. */
    predicate Stored()
      reads this`binOrder, this`history, this`historyIndex
    {
      && Square(matrix)
      && IdsIn(binOrder, |matrix|)
      && History.WellFormed(history, historyIndex)
      && AllIdsIn(history, |matrix|)
    }

    /** The analysis on record is that of the current order. */
    predicate Analysed()
      reads this`binOrder, this`psData, this`score
    {
      && Square(matrix)
      && IdsIn(binOrder, |matrix|)
      && (psData.None? ==> score == 0.0)
      && (psData.Some? ==> psData.value.data == Curve(matrix, binOrder, |binOrder|))
    }

    /** The history entry under the cursor shows the current order. */
    predicate Synced()
      reads this`binOrder, this`history, this`historyIndex
    {
      0 <= historyIndex < |history| && history[historyIndex].binOrder == binOrder
    }

    /** The selection steps: the second region is chosen only in step 1 of
        a two-region tool, a selection still lacks its rectangle only
        while its drag lasts, and the controls are shown only once every
        region the tool needs was chosen. */
    predicate Steps()
      reads this`selectedTool, this`selection, this`secondSelection, this`operationStep
      reads this`isDragging, this`confirmShown
    {
      && (operationStep == 0 || operationStep == 1)
      && (operationStep == 1 ==> TwoSelectionTool(selectedTool) && Settled(selection))
      && (secondSelection.Some? ==> operationStep == 1)
      && (operationStep == 1 && isDragging ==> secondSelection.Some?)
      && (!Settled(selection) ==> isDragging && operationStep == 0)
      && (!Settled(secondSelection) ==> isDragging)
      && (confirmShown ==> selectedTool != Select && (TwoSelectionTool(selectedTool) ==> operationStep == 1))
    }

    predicate Valid()
      reads this`binOrder, this`psData, this`score, this`history, this`historyIndex
      reads this`selectedTool, this`selection, this`secondSelection, this`operationStep
      reads this`isDragging, this`confirmShown
    {
      Stored() && Analysed() && Synced() && Steps()
    }

    /** The entry `saveToHistory` would store now. */
    function Current(): Snapshot
      reads this`binOrder, this`psData, this`score
    {
      Snapshot(binOrder, score, AlphaOf(psData))
    }

    /** The constructor followed by `processData` on a loaded map: the
        identity order, analysed, as the only history entry, with the
        select tool and no selection. */
    constructor (m: Matrix, meas: Measure)
      requires Square(m) && Usable(meas)
      ensures Valid() && matrix == m
      ensures binOrder == Identity(|m|) && MeasuredBy(matrix, binOrder, psData, score, meas)
      ensures history == [Current()] && historyIndex == 0
      ensures selectedTool == Select && selection.None? && secondSelection.None?
      ensures operationStep == 0 && !isDragging && !confirmShown
    {
      matrix := m;
      binOrder := [];
      psData := None;
      score := 0.0;
      history := [];
      historyIndex := -1;
      selectedTool := Select;
      selection := None;
      secondSelection := None;
      operationStep := 0;
      isDragging := false;
      confirmShown := false;
      new;
      ProcessData(meas);
      History.RecordFirst(Current());
    }

    /** `processData`: start over from the identity order, analyse it and
        record it as a new history entry. */
    method ProcessData(meas: Measure)
      requires Square(matrix) && History.WellFormed(history, historyIndex) && Usable(meas)
      requires AllIdsIn(history, |matrix|)
      modifies this`binOrder, this`psData, this`score, this`history, this`historyIndex
      ensures binOrder == Identity(|matrix|) && MeasuredBy(matrix, binOrder, psData, score, meas)
      ensures (history, historyIndex) == History.Record(old(history), old(historyIndex), Current())
      ensures Stored() && Analysed() && Synced()
    {
      binOrder := Identity(|matrix|);
      psData := None;
      score := 0.0;
      Commit(meas);
    }

    /** `calculatePsDistribution` then `calculateScore` on the current order. */
    method Refresh(meas: Measure)
      requires Square(matrix) && IdsIn(binOrder, |matrix|) && Usable(meas)
      modifies this`psData, this`score
      ensures MeasuredBy(matrix, binOrder, psData, score, meas) && Analysed()
    {
      psData := Distribution(matrix, binOrder, meas.ln, meas.draws);
      score := ScoreOf(psData, meas.fitScore);
    }

    /** `saveToHistory`: drop the redo branch, append the current state,
        keep the newest 50 entries, and put the cursor on the new one. */
    method SaveToHistory()
      requires Stored()
      modifies this`history, this`historyIndex
      ensures (history, historyIndex) == History.Record(old(history), old(historyIndex), Current())
      ensures Stored() && Synced()
      ensures old(history) != [] ==> historyIndex >= 1 && history[historyIndex - 1] == old(history)[old(historyIndex)]
    {
      RecordKeepsIds(history, historyIndex, Current(), |matrix|);
      if history != [] {
        History.UndoAfterRecord(history, historyIndex, Current());
      }
      var r := History.Record(history, historyIndex, Current());
      history, historyIndex := r.0, r.1;
    }

    /** The three calls each edit ends with: analyse, score, record. The
        entry just before the new cursor is the one that was current. */
    method Commit(meas: Measure)
      requires Stored() && Usable(meas)
      modifies this`psData, this`score, this`history, this`historyIndex
      ensures MeasuredBy(matrix, binOrder, psData, score, meas) && Stored() && Analysed() && Synced()
      ensures (history, historyIndex) == History.Record(old(history), old(historyIndex), Current())
      ensures old(history) != [] ==> historyIndex >= 1 && history[historyIndex - 1] == old(history)[old(historyIndex)]
    {
      Refresh(meas);
      SaveToHistory();
    }

    /** `loadFromHistory`: an index outside the list changes nothing;
        otherwise the stored order becomes current and is analysed anew,
        and the cursor moves there without touching the list. */
    method LoadFromHistory(index: int, meas: Measure)
      requires Valid() && Usable(meas)
      modifies this`binOrder, this`psData, this`score, this`historyIndex
      ensures Valid() && history == old(history)
      ensures !(0 <= index < |history|) ==>
                binOrder == old(binOrder) && psData == old(psData) && score == old(score)
                && historyIndex == old(historyIndex)
      ensures 0 <= index < |history| ==>
                binOrder == history[index].binOrder && historyIndex == index && MeasuredBy(matrix, binOrder, psData, score, meas)
    {
      if index < 0 || index >= |history| {
        return;
      }
      binOrder := history[index].binOrder;
      Refresh(meas);
      historyIndex := index;
    }

    /** `handleMouseDown`: a press starts a drag anchored at the pressed
        bin, as the second region in step 1 of a two-region tool and as
        the (first) region otherwise. */
    method MouseDown(binX: int, binY: int)
      requires Valid()
      modifies this`selection, this`secondSelection, this`isDragging
      ensures Valid() && isDragging
      ensures operationStep == 1 ==> secondSelection == Some(Anchor(binX, binY)) && selection == old(selection)
      ensures operationStep == 0 ==> selection == Some(Anchor(binX, binY)) && secondSelection == old(secondSelection)
    {
      if selectedTool == Select {
        selection := Some(Anchor(binX, binY));
        isDragging := true;
      } else if TwoSelectionTool(selectedTool) {
        if operationStep == 0 {
          selection := Some(Anchor(binX, binY));
          isDragging := true;
        } else if operationStep == 1 {
          secondSelection := Some(Anchor(binX, binY));
          isDragging := true;
        }
      } else {
        selection := Some(Anchor(binX, binY));
        isDragging := true;
      }
    }

    /** The drag part of `handleMouseMove`: while dragging, the end of the
        region being chosen follows the pointer; nothing else changes. */
    method MouseMove(binX: int, binY: int)
      requires Valid()
      modifies this`selection, this`secondSelection
      ensures Valid()
      ensures !isDragging ==> selection == old(selection) && secondSelection == old(secondSelection)
      ensures isDragging && operationStep == 1 ==>
                secondSelection == Some(DragTo(old(secondSelection).value, binX, binY))
                && selection == old(selection)
      ensures isDragging && operationStep == 0 ==>
                secondSelection == old(secondSelection)
                && (old(selection).Some? ==> selection == Some(DragTo(old(selection).value, binX, binY)))
                && (old(selection).None? ==> selection.None?)
    {
      if isDragging {
        if operationStep == 1 && secondSelection.Some? {
          secondSelection := Some(DragTo(secondSelection.value, binX, binY));
        } else if selection.Some? {
          selection := Some(DragTo(selection.value, binX, binY));
        }
      }
    }

    /** `handleMouseUp`: ending a drag normalises the region it chose; a
        two-region tool then advances to step 1, or shows the controls if
        it was already there, and a one-region tool shows the controls.
        Without a drag nothing happens. */
    method MouseUp()
      requires Valid()
      modifies this`selection, this`secondSelection, this`isDragging, this`operationStep, this`confirmShown
      ensures Valid()
      ensures !old(isDragging) ==>
                selection == old(selection) && secondSelection == old(secondSelection)
                && isDragging == old(isDragging) && operationStep == old(operationStep)
                && confirmShown == old(confirmShown)
      ensures old(isDragging) ==> !isDragging && Settled(selection) && Settled(secondSelection)
      ensures old(isDragging) && old(operationStep) == 1 ==>
                secondSelection == Some(Normalize(old(secondSelection).value)) && selection == old(selection)
      ensures old(isDragging) && old(operationStep) == 0 ==>
                secondSelection == old(secondSelection)
                && selection == (if old(selection).Some? then Some(Normalize(old(selection).value)) else None)
      ensures old(isDragging) ==> operationStep == if TwoSelectionTool(selectedTool) then 1 else 0
      ensures old(isDragging) ==>
                (confirmShown <==> selectedTool != Select
                                   && (TwoSelectionTool(selectedTool) ==> old(operationStep) == 1))
    {
      if isDragging {
        isDragging := false;
        if operationStep == 1 && secondSelection.Some? {
          secondSelection := Some(Normalize(secondSelection.value));
        } else if selection.Some? {
          selection := Some(Normalize(selection.value));
        }
        if TwoSelectionTool(selectedTool) {
          if operationStep == 0 {
            operationStep := 1;
          } else if operationStep == 1 {
            confirmShown := true;
          }
        } else if selectedTool != Select {
          confirmShown := true;
        }
      }
    }

    /** `resetOperation` (and `cancelOperation`): no region, step 0, the
        controls hidden. A drag in progress goes on. */
    method ResetOperation()
      requires Stored() && Analysed() && Synced()
      modifies this`selection, this`secondSelection, this`operationStep, this`confirmShown
      ensures Valid()
      ensures selection.None? && secondSelection.None? && operationStep == 0 && !confirmShown
    {
      selection := None;
      secondSelection := None;
      operationStep := 0;
      confirmShown := false;
    }

    /** A tool button: the tool changes and the operation is reset. */
    method SelectTool(tool: Tool)
      requires Valid()
      modifies this`selectedTool, this`selection, this`secondSelection, this`operationStep, this`confirmShown
      ensures Valid() && selectedTool == tool
      ensures selection.None? && secondSelection.None? && operationStep == 0 && !confirmShown
    {
      selectedTool := tool;
      ResetOperation();
    }

    /** The part of the editor an edit touches. */
    function Now(): Doc
      reads this`binOrder, this`psData, this`score, this`history, this`historyIndex
    {
      Doc(binOrder, psData, score, history, historyIndex)
    }

    /** The end of every edit: the new order becomes current, then
        `calculatePsDistribution`, `calculateScore` and `saveToHistory`. */
    method Install(order: seq<int>, meas: Measure)
      requires Stored() && Analysed() && Synced() && Usable(meas) && IdsIn(order, |matrix|)
      modifies this`binOrder, this`psData, this`score, this`history, this`historyIndex
      ensures Stored() && Analysed() && Synced()
      ensures Applied(matrix, Some(order), old(Now()), Now(), meas)
    {
      binOrder := order;
      Commit(meas);
    }

    /** `performMove`: the first region is moved to the second's position. */
    method PerformMove(meas: Measure)
      requires Stored() && Analysed() && Synced() && Usable(meas)
      requires Settled(selection) && Settled(secondSelection)
      modifies this`binOrder, this`psData, this`score, this`history, this`historyIndex
      ensures Stored() && Analysed() && Synced()
      ensures Applied(matrix, EditOf(Move, old(binOrder), selection, secondSelection),
                      old(Now()), Now(), meas)
    {
      if selection.None? || secondSelection.None? {
        return;
      }
      var startX := selection.value.rect.value.x;
      var width := selection.value.rect.value.width;
      var targetX := secondSelection.value.rect.value.x;
      var moved := BinOrder.Move(binOrder, startX, width, targetX);
      SubMultisetKeepsIds(moved, binOrder, |matrix|);
      assert EditOf(Move, binOrder, selection, secondSelection) == Some(moved);
      Install(moved, meas);
    }

    /** `performSwap`: the two regions trade places. */
    method PerformSwap(meas: Measure)
      requires Stored() && Analysed() && Synced() && Usable(meas)
      requires Settled(selection) && Settled(secondSelection)
      modifies this`binOrder, this`psData, this`score, this`history, this`historyIndex
      ensures Stored() && Analysed() && Synced()
      ensures Applied(matrix, EditOf(Swap, old(binOrder), selection, secondSelection),
                      old(Now()), Now(), meas)
    {
      if selection.None? || secondSelection.None? {
        return;
      }
      var r1, r2 := selection.value.rect.value, secondSelection.value.rect.value;
      var swapped := BinOrder.Swap(binOrder, r1.x, r1.width, r2.x, r2.width);
      KeepsIds(swapped, binOrder, |matrix|);
      assert EditOf(Swap, binOrder, selection, secondSelection) == Some(swapped);
      Install(swapped, meas);
    }

    /** `performInversion`: the region is reversed in place. */
    method PerformInversion(meas: Measure)
      requires Stored() && Analysed() && Synced() && Usable(meas)
      requires Settled(selection)
      modifies this`binOrder, this`psData, this`score, this`history, this`historyIndex
      ensures Stored() && Analysed() && Synced()
      ensures Applied(matrix, EditOf(Invert, old(binOrder), selection, secondSelection),
                      old(Now()), Now(), meas)
    {
      if selection.None? {
        return;
      }
      var r := selection.value.rect.value;
      var inverted := BinOrder.Invert(binOrder, r.x, r.width);
      KeepsIds(inverted, binOrder, |matrix|);
      assert EditOf(Invert, binOrder, selection, secondSelection) == Some(inverted);
      Install(inverted, meas);
    }

    /** `performDeletion`: the region's bins are removed from the order. */
    method PerformDeletion(meas: Measure)
      requires Stored() && Analysed() && Synced() && Usable(meas)
      requires Settled(selection)
      modifies this`binOrder, this`psData, this`score, this`history, this`historyIndex
      ensures Stored() && Analysed() && Synced()
      ensures Applied(matrix, EditOf(Delete, old(binOrder), selection, secondSelection),
                      old(Now()), Now(), meas)
    {
      if selection.None? {
        return;
      }
      var r := selection.value.rect.value;
      var kept := BinOrder.Delete(binOrder, r.x, r.width);
      SubMultisetKeepsIds(kept, binOrder, |matrix|);
      assert EditOf(Delete, binOrder, selection, secondSelection) == Some(kept);
      Install(kept, meas);
    }

    /** `performDuplication`: a copy of the region follows it. */
    method PerformDuplication(meas: Measure)
      requires Stored() && Analysed() && Synced() && Usable(meas)
      requires Settled(selection)
      modifies this`binOrder, this`psData, this`score, this`history, this`historyIndex
      ensures Stored() && Analysed() && Synced()
      ensures Applied(matrix, EditOf(Duplicate, old(binOrder), selection, secondSelection),
                      old(Now()), Now(), meas)
    {
      if selection.None? {
        return;
      }
      var r := selection.value.rect.value;
      var grown := BinOrder.Duplicate(binOrder, r.x, r.width);
      KeepsIds(grown, binOrder, |matrix|);
      assert EditOf(Duplicate, binOrder, selection, secondSelection) == Some(grown);
      Install(grown, meas);
    }

    /** `confirmOperation`: the selected tool's edit is applied, analysed
        and recorded, with the previous order one undo step back; a tool
        that returns early or only raises an alert (split, fuse) leaves the
        state as it was. Either way the operation is reset. */
    method ConfirmOperation(meas: Measure)
      requires Valid() && Settled(selection) && Settled(secondSelection) && Usable(meas)
      modifies this`binOrder, this`psData, this`score, this`history, this`historyIndex
      modifies this`selection, this`secondSelection, this`operationStep, this`confirmShown
      ensures Valid()
      ensures Applied(matrix, EditOf(old(selectedTool), old(binOrder), old(selection), old(secondSelection)),
                      old(Now()), Now(), meas)
      ensures selection.None? && secondSelection.None? && operationStep == 0 && !confirmShown
    {
      Dispatch(meas);
      ResetOperation();
    }

    /** The `switch` of `confirmOperation`. */
    method Dispatch(meas: Measure)
      requires Stored() && Analysed() && Synced() && Usable(meas)
      requires Settled(selection) && Settled(secondSelection)
      modifies this`binOrder, this`psData, this`score, this`history, this`historyIndex
      ensures Stored() && Analysed() && Synced()
      ensures Applied(matrix, EditOf(selectedTool, old(binOrder), selection, secondSelection),
                      old(Now()), Now(), meas)
    {
      match selectedTool {
        case Move => PerformMove(meas);
        case Swap => PerformSwap(meas);
        case Invert => PerformInversion(meas);
        case Delete => PerformDeletion(meas);
        case Duplicate => PerformDuplication(meas);
        case Split =>
        case Fuse =>
        case Select =>
      }
    }
  }

  /** Every stored order names bins of an `n`-bin matrix. */
  predicate AllIdsIn(entries: seq<Snapshot>, n: int) {
    forall k :: 0 <= k < |entries| ==> IdsIn(entries[k].binOrder, n)
  }

  /** Recording a state whose order names bins of the matrix keeps every
      stored order naming bins of the matrix. */
  lemma RecordKeepsIds(entries: seq<Snapshot>, cursor: int, e: Snapshot, n: int)
    requires History.WellFormed(entries, cursor) && IdsIn(e.binOrder, n)
    requires AllIdsIn(entries, n)
    ensures AllIdsIn(History.Record(entries, cursor, e).0, n)
  {
    var r := History.Record(entries, cursor, e);
    forall k | 0 <= k < |r.0|
      ensures IdsIn(r.0[k].binOrder, n)
    {
      if k < r.1 {
        assert r.0[k] == r.0[..r.1][k] == entries[k + cursor + 2 - |r.0|];
      }
    }
  }

  /** An order made only of bins of `order` names bins of the matrix. */
  lemma KeepsIds(r: seq<int>, order: seq<int>, n: int)
    requires IdsIn(order, n) && forall v :: v in r ==> v in order
    ensures IdsIn(r, n)
  {
    forall k | 0 <= k < |r|
      ensures 0 <= r[k] < n
    {
      assert r[k] in r;
    }
  }

  lemma SubMultisetKeepsIds(r: seq<int>, order: seq<int>, n: int)
    requires IdsIn(order, n) && multiset(r) <= multiset(order)
    ensures IdsIn(r, n)
  {
    forall v | v in r
      ensures v in order
    {
      assert v in multiset(r);
    }
    KeepsIds(r, order, n);
  }
}
