/** The scene and selection controller of the editor's window: the ordered
    shape list, the optional selected index, and the four things the user
    can do to them (add, click, drag, delete) plus editing the selected
    square's parameters in the side panel. */
module Scene {
  import opened Shapes

  datatype Option<T> = None | Some(value: T)

  function Abs(v: real): real { if v < 0.0 then -v else v }

  /** A click at `p` (relative to the canvas origin) hits a square when it is
      strictly inside the square's box on both axes. Circles are never hit. */
  predicate Hits(shape: Shape, p: Pos2) {
    match shape
    case SquareShape(sq, _, _, _) =>
      var d := Sub(p, sq.pos);
      Abs(d.x) < sq.size.x / 2.0 && Abs(d.y) < sq.size.y / 2.0
    case CircleShape(_, _, _, _) => false
  }

  /** Index `i` may take the selection: it is hit, and it is not the index
      that was selected before the click began. */
  predicate Eligible(shapes: seq<Shape>, i: nat, before: Option<nat>, p: Pos2)
    requires i < |shapes|
  {
    Hits(shapes[i], p) && before != Some(i)
  }

  /** The selection after a click scan that starts from `before`: every eligible
      index overwrites the selection in turn, so the scan's result is decided by
      the last eligible index. */
  function SelectionAfterClick(shapes: seq<Shape>, before: Option<nat>, p: Pos2): Option<nat>
    decreases |shapes|
  {
    if |shapes| == 0 then before
    else
      var i := |shapes| - 1;
      if Eligible(shapes, i, before, p) then Some(i)
      else SelectionAfterClick(shapes[..i], before, p)
  }

  /** The click rule stated without the scan: the selection stays as it was
      exactly when no index is eligible; otherwise it becomes the largest
      eligible index, which lies inside the list. */
  lemma {:induction false} ClickSelectsLastEligible(shapes: seq<Shape>, before: Option<nat>, p: Pos2)
    ensures SelectionAfterClick(shapes, before, p) == before
        <==> forall i :: 0 <= i < |shapes| ==> !Eligible(shapes, i, before, p)
    ensures var r := SelectionAfterClick(shapes, before, p);
      r != before ==>
        r.Some? && r.value < |shapes| && Eligible(shapes, r.value, before, p) &&
        forall j :: r.value < j < |shapes| ==> !Eligible(shapes, j, before, p)
    decreases |shapes|
  {
    if |shapes| > 0 {
      var i := |shapes| - 1;
      if !Eligible(shapes, i, before, p) {
        var prefix := shapes[..i];
        ClickSelectsLastEligible(prefix, before, p);
        forall j | 0 <= j < i
          ensures Eligible(prefix, j, before, p) == Eligible(shapes, j, before, p)
        {
          assert prefix[j] == shapes[j];
        }
      }
    }
  }

  /** A click never resets an existing selection to none. */
  lemma {:induction false} ClickNeverDeselects(shapes: seq<Shape>, before: Option<nat>, p: Pos2)
    requires before.Some?
    ensures SelectionAfterClick(shapes, before, p).Some?
  {
    ClickSelectsLastEligible(shapes, before, p);
  }

  /** A changed selection names a square of the list: circles are never hit. */
  lemma {:induction false} ClickSelectsSquare(shapes: seq<Shape>, before: Option<nat>, p: Pos2)
    ensures var r := SelectionAfterClick(shapes, before, p);
      r != before ==> r.Some? && r.value < |shapes| && shapes[r.value].SquareShape?
  {
    ClickSelectsLastEligible(shapes, before, p);
  }

  /** Two overlapping squares at (50,50) and (60,60), both 100 by 100, and a
      click at (55,55) inside both. With nothing selected the later one
      wins; with the later one selected the guard skips it and the earlier one
      is taken; and clicking again on a lone selected square keeps it. */
  lemma ClickTieBreakExamples()
    ensures var a := SquareShape(Square(Pos2(50.0, 50.0), Pos2(100.0, 100.0), White, 0.2), 0.5, 0.5, false);
      var b := SquareShape(Square(Pos2(60.0, 60.0), Pos2(100.0, 100.0), White, 0.2), 0.5, 0.5, false);
      SelectionAfterClick([a, b], None, Pos2(55.0, 55.0)) == Some(1) &&
      SelectionAfterClick([a, b], Some(1), Pos2(55.0, 55.0)) == Some(0) &&
      SelectionAfterClick([a], Some(0), Pos2(55.0, 55.0)) == Some(0)
  {
  }

  /** The shape list after a drag by `delta` with selection `sel`: only a
      selected square that exists moves. */
  function Dragged(shapes: seq<Shape>, sel: Option<nat>, delta: Pos2): seq<Shape> {
    if sel.Some? && sel.value < |shapes| && shapes[sel.value].SquareShape? then
      var s := shapes[sel.value];
      shapes[sel.value := s.(square := s.square.(pos := Add(s.square.pos, delta)))]
    else shapes
  }

  /** A drag moves the centre of the selected square by `delta` and changes
      nothing else; with no selection, a stale one or a circle it is a no-op. */
  lemma DragChangesOnlySelectedPosition(shapes: seq<Shape>, sel: Option<nat>, delta: Pos2)
    ensures |Dragged(shapes, sel, delta)| == |shapes|
    ensures forall j :: 0 <= j < |shapes| && sel != Some(j) ==> Dragged(shapes, sel, delta)[j] == shapes[j]
    ensures sel.Some? && sel.value < |shapes| && shapes[sel.value].SquareShape? ==>
      var s, t := shapes[sel.value], Dragged(shapes, sel, delta)[sel.value];
      t.SquareShape? && t.square.pos == Add(s.square.pos, delta) &&
      t.square.size == s.square.size && t.square.color == s.square.color &&
      t.square.radius == s.square.radius && t.blob == s.blob &&
      t.colorSpread == s.colorSpread && t.subtract == s.subtract
    ensures !(sel.Some? && sel.value < |shapes| && shapes[sel.value].SquareShape?) ==>
      Dragged(shapes, sel, delta) == shapes
  {
  }

  /** Two drags in a row are one drag by the sum of the deltas. */
  lemma DragTwice(shapes: seq<Shape>, sel: Option<nat>, a: Pos2, b: Pos2)
    ensures Dragged(Dragged(shapes, sel, a), sel, b) == Dragged(shapes, sel, Add(a, b))
  {
  }

  function SumOf(deltas: seq<Pos2>): Pos2
    decreases |deltas|
  {
    if |deltas| == 0 then Pos2(0.0, 0.0)
    else Add(SumOf(deltas[..|deltas| - 1]), deltas[|deltas| - 1])
  }

  /** The shape list after one drag per frame, the frames' deltas in order. */
  function DraggedFrames(shapes: seq<Shape>, sel: Option<nat>, deltas: seq<Pos2>): seq<Shape>
    decreases |deltas|
  {
    if |deltas| == 0 then shapes
    else Dragged(DraggedFrames(shapes, sel, deltas[..|deltas| - 1]), sel, deltas[|deltas| - 1])
  }

  /** Dragging over many frames ends where one drag by the summed delta ends. */
  lemma {:induction false} DraggedFramesIsOneDrag(shapes: seq<Shape>, sel: Option<nat>, deltas: seq<Pos2>)
    ensures DraggedFrames(shapes, sel, deltas) == Dragged(shapes, sel, SumOf(deltas))
    decreases |deltas|
  {
    if |deltas| == 0 {
      if sel.Some? && sel.value < |shapes| && shapes[sel.value].SquareShape? {
        var s := shapes[sel.value];
        assert s.(square := s.square.(pos := Add(s.square.pos, Pos2(0.0, 0.0)))) == s;
      }
    } else {
      var n := |deltas|;
      DraggedFramesIsOneDrag(shapes, sel, deltas[..n - 1]);
      DragTwice(shapes, sel, SumOf(deltas[..n - 1]), deltas[n - 1]);
    }
  }

  /** `Vec::remove(i)`. */
  function Removed(shapes: seq<Shape>, i: nat): seq<Shape>
    requires i < |shapes|
  {
    shapes[..i] + shapes[i + 1..]
  }

  /** Removing index `i` drops exactly that element: one shorter, the others
      keep their relative order, and as a multiset only `shapes[i]` is gone. */
  lemma RemovedDropsExactlyOne(shapes: seq<Shape>, i: nat)
    requires i < |shapes|
    ensures |Removed(shapes, i)| == |shapes| - 1
    ensures forall j :: 0 <= j < i ==> Removed(shapes, i)[j] == shapes[j]
    ensures forall j :: i <= j < |shapes| - 1 ==> Removed(shapes, i)[j] == shapes[j + 1]
    ensures multiset(Removed(shapes, i)) + multiset{shapes[i]} == multiset(shapes)
  {
    assert shapes == shapes[..i] + [shapes[i]] + shapes[i + 1..];
  }

  /** The application state: the shape list and the optional selected index. */
  class App {
    var shapes: seq<Shape>
    var selected: Option<nat>

    /** What the side panel relies on: a selection names an existing shape. */
    predicate SelectionInRange()
      reads this
    {
      selected.Some? ==> selected.value < |shapes|
    }

    /** The invariant every operation keeps: the selection, if any, names an
        existing square. */
    predicate Valid()
      reads this
    {
      SelectionInRange() && (selected.Some? ==> shapes[selected.value].SquareShape?)
    }

    /** `MyApp::new`: no shapes, nothing selected. */
    constructor ()
      ensures shapes == [] && selected == None && Valid()
    {
      shapes := [];
      selected := None;
    }

    /** "Add Square". */
    method AddSquare()
      modifies this
      ensures shapes == old(shapes) + [DefaultSquare()] && selected == old(selected)
      ensures old(Valid()) ==> Valid()
    {
      shapes := shapes + [DefaultSquare()];
    }

    /** "Add Circle". */
    method AddCircle()
      modifies this
      ensures shapes == old(shapes) + [DefaultCircle()] && selected == old(selected)
      ensures old(Valid()) ==> Valid()
    {
      shapes := shapes + [DefaultCircle()];
    }

    /** The side panel's sliders, colour picker and checkbox: when the selected
        shape is a square, its parameters become the given ones; the variant,
        the other shapes and the selection stay. */
    method EditSelected(square: Square, blob: real, colorSpread: real, subtract: bool)
      requires SelectionInRange()
      modifies this
      ensures selected == old(selected)
      ensures old(selected).Some? && old(shapes)[old(selected).value].SquareShape? ==>
        shapes == old(shapes)[old(selected).value := SquareShape(square, blob, colorSpread, subtract)]
      ensures !(old(selected).Some? && old(shapes)[old(selected).value].SquareShape?) ==>
        shapes == old(shapes)
      ensures old(Valid()) ==> Valid()
    {
      if selected.Some? {
        var idx := selected.value;
        match shapes[idx]
        case SquareShape(_, _, _, _) =>
          shapes := shapes[idx := SquareShape(square, blob, colorSpread, subtract)];
        case CircleShape(_, _, _, _) =>
      }
    }

    /** "delete": shown only for a selected square; removes it and clears the
        selection. */
    method Delete()
      requires SelectionInRange()
      modifies this
      ensures old(selected).Some? && old(shapes)[old(selected).value].SquareShape? ==>
        shapes == Removed(old(shapes), old(selected).value) && selected == None
      ensures !(old(selected).Some? && old(shapes)[old(selected).value].SquareShape?) ==>
        shapes == old(shapes) && selected == old(selected)
      ensures old(Valid()) ==> Valid()
    {
      if selected.Some? {
        var idx := selected.value;
        match shapes[idx]
        case SquareShape(_, _, _, _) =>
          shapes := shapes[..idx] + shapes[idx + 1..];
          selected := None;
        case CircleShape(_, _, _, _) =>
      }
    }

    /** A click on the canvas at screen position `pointer`, the canvas's top
        left corner being `canvasOrigin`. The scan compares against the
        selection as it was before the click, not the one it is updating. */
    method Click(pointer: Pos2, canvasOrigin: Pos2)
      modifies this`selected
      ensures shapes == old(shapes)
      ensures selected == SelectionAfterClick(shapes, old(selected), Sub(pointer, canvasOrigin))
      ensures old(Valid()) ==> Valid()
    {
      var p := Sub(pointer, canvasOrigin);
      var before := selected;
      for idx := 0 to |shapes|
        invariant selected == SelectionAfterClick(shapes[..idx], before, p)
      {
        assert shapes[..idx + 1][..idx] == shapes[..idx];
        match shapes[idx]
        case SquareShape(sq, _, _, _) =>
          var d := Sub(p, sq.pos);
          if Abs(d.x) < sq.size.x / 2.0 && Abs(d.y) < sq.size.y / 2.0 && before != Some(idx) {
            selected := Some(idx);
          }
        case CircleShape(_, _, _, _) =>
      }
      assert shapes[..|shapes|] == shapes;
      ClickSelectsSquare(shapes, before, p);
    }

    /** A drag on the canvas: the selected square, if it exists, moves by the
        frame's drag delta. */
    method Drag(delta: Pos2)
      modifies this`shapes
      ensures selected == old(selected)
      ensures shapes == Dragged(old(shapes), selected, delta)
      ensures old(Valid()) ==> Valid()
    {
      if selected.Some? && selected.value < |shapes| {
        var idx := selected.value;
        match shapes[idx]
        case SquareShape(sq, blob, spread, subtract) =>
          shapes := shapes[idx := SquareShape(sq.(pos := Add(sq.pos, delta)), blob, spread, subtract)];
        case CircleShape(_, _, _, _) =>
      }
    }

    /** One frame of the canvas: the hit test when there was a click, then
        the drag with the selection as the hit test left it. */
    method CustomPainting(click: Option<Pos2>, canvasOrigin: Pos2, dragDelta: Pos2)
      modifies this
      ensures selected == if click.Some?
        then SelectionAfterClick(old(shapes), old(selected), Sub(click.value, canvasOrigin))
        else old(selected)
      ensures shapes == Dragged(old(shapes), selected, dragDelta)
      ensures old(Valid()) ==> Valid()
    {
      if click.Some? {
        Click(click.value, canvasOrigin);
      }
      Drag(dragDelta);
    }
  }

  /** Adding a square to the empty scene, clicking its centre (50,50) with
      nothing selected, dragging by (10,0) and removing the selection, stated
      on the functions that specify those operations. The click selects index 0, the
      drag moves the centre to (60,50), and the delete leaves no shapes. */
  lemma AddClickDragDeleteScenario()
    ensures var added := [] + [DefaultSquare()];
      var sel := SelectionAfterClick(added, None, Pos2(50.0, 50.0));
      var dragged := Dragged(added, sel, Pos2(10.0, 0.0));
      sel == Some(0) && |dragged| == 1 && dragged[0].SquareShape? &&
      dragged[0].square.pos == Pos2(60.0, 50.0) && Removed(dragged, 0) == []
  {
  }
}
