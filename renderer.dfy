/** The fragment shader assembly of the plane renderer. The generated GLSL
    text is modelled as a small statement language: one template per shape,
    emitted left to right, spliced into the fixed body of `main()`. The
    numbers are the shapes' parameters themselves; their textual formatting
    is not modelled. */
module Renderer {
  import opened Shapes

  /** The two distance variables of the generated shader. */
  datatype Var = D | D2

  /** The arguments of one `rectangle(p, vec2(pos), vec2(halfSize), radius)` call. */
  datatype Rect = Rect(pos: Pos2, halfSize: Pos2, radius: real)

  datatype Stmt =
    /** `target = rectangle(p, ...);` */
    | AssignRect(target: Var, rect: Rect)
    /** `d = smin(d, sign*d2, blob);` with `sign` the literal written out */
    | CombineSmin(sign: string, blob: real)
    /** `w = max(1.0-(10-10*colorSpread)*dist, 0.0001);` */
    | AssignWeight(colorSpread: real, dist: Var)
    /** `dcol += vec4(color, 1.0)*w;` */
    | AccumulateColor(color: Rgb)
    /** `float d = value;` before the shape terms */
    | InitDistance(value: real)
    /** `dcol.xyz /= dcol.w;` after the shape terms */
    | NormalizeColor
    /** `col = mix(col, dcol.xyz, 1.0-smoothstep(0.0,0.01,d*10.0));` and the output */
    | BlendBackground

  datatype RenderError = CircleNotImplemented(index: nat)

  datatype Result<T> = Ok(value: T) | Err(error: RenderError)

  /** The fragment shader as the renderer formats it: the normalisation
      scale, the canvas origin subtracted from `gl_FragCoord`, and `main()`. */
  datatype FragmentShader = FragmentShader(minDim: real, canvasOrigin: Pos2, main: seq<Stmt>)

  /** The value `d` holds before any shape term runs. */
  const InitialDistance: real := 1.0

  function SignLiteral(subtract: bool): string {
    if subtract then "-1.0" else "1.0"
  }

  function HalfSize(size: Pos2): Pos2 {
    Pos2(size.x / 2.0, size.y / 2.0)
  }

  function RectOf(sq: Square): Rect {
    Rect(sq.pos, HalfSize(sq.size), sq.radius)
  }

  /** The text pushed for the square at index `idx`: the first one seeds `d`,
      every later one computes `d2` and folds it in with `smin`. */
  function Term(idx: nat, shape: Shape): seq<Stmt>
    requires shape.SquareShape?
  {
    var sq := shape.square;
    if idx == 0 then
      [AssignRect(D, RectOf(sq)), AssignWeight(shape.colorSpread, D), AccumulateColor(sq.color)]
    else
      [AssignRect(D2, RectOf(sq)), CombineSmin(SignLiteral(shape.subtract), shape.blob),
       AssignWeight(shape.colorSpread, D2), AccumulateColor(sq.color)]
  }

  predicate AllSquares(shapes: seq<Shape>) {
    forall i :: 0 <= i < |shapes| ==> shapes[i].SquareShape?
  }

  /** The terms of the scene, one per shape and in list order. */
  function Terms(shapes: seq<Shape>): seq<seq<Stmt>>
    requires AllSquares(shapes)
  {
    seq(|shapes|, i requires 0 <= i < |shapes| => Term(i, shapes[i]))
  }

  function Concat(ts: seq<seq<Stmt>>): seq<Stmt>
    decreases |ts|
  {
    if |ts| == 0 then [] else Concat(ts[..|ts| - 1]) + ts[|ts| - 1]
  }

  /** The fragment string: the concatenation of the terms. */
  function Body(shapes: seq<Shape>): seq<Stmt>
    requires AllSquares(shapes)
  {
    Concat(Terms(shapes))
  }

  /** The fixed `main()` of the fragment shader with the fragment spliced in
      between the declarations and the colour normalisation. */
  function Splice(minDim: real, canvasOrigin: Pos2, body: seq<Stmt>): FragmentShader {
    FragmentShader(minDim, canvasOrigin, [InitDistance(InitialDistance)] + body + [NormalizeColor, BlendBackground])
  }

  lemma BodySnoc(shapes: seq<Shape>)
    requires AllSquares(shapes) && |shapes| > 0
    ensures AllSquares(shapes[..|shapes| - 1])
    ensures Body(shapes) == Body(shapes[..|shapes| - 1]) + Term(|shapes| - 1, shapes[|shapes| - 1])
  {
    var n := |shapes|;
    assert Terms(shapes)[..n - 1] == Terms(shapes[..n - 1]);
  }

  lemma BodyExtend(shapes: seq<Shape>, idx: nat)
    requires idx < |shapes| && AllSquares(shapes[..idx]) && shapes[idx].SquareShape?
    ensures AllSquares(shapes[..idx + 1])
    ensures Body(shapes[..idx + 1]) == Body(shapes[..idx]) + Term(idx, shapes[idx])
  {
    assert shapes[..idx + 1][..idx] == shapes[..idx];
    BodySnoc(shapes[..idx + 1]);
  }

  /** The loop of `PlaneRenderer::new` that builds the fragment: one term per
      shape in list order; the first circle aborts the construction. */
  method AssembleFragment(shapes: seq<Shape>) returns (r: Result<seq<Stmt>>)
    ensures r.Ok? <==> AllSquares(shapes)
    ensures r.Ok? ==> r.value == Body(shapes)
    ensures r.Err? ==>
      var k := r.error.index;
      k < |shapes| && shapes[k].CircleShape? && forall j :: 0 <= j < k ==> shapes[j].SquareShape?
  {
    var fragment: seq<Stmt> := [];
    for idx := 0 to |shapes|
      invariant AllSquares(shapes[..idx])
      invariant fragment == Body(shapes[..idx])
    {
      match shapes[idx]
      case CircleShape(_, _, _, _) =>
        return Err(CircleNotImplemented(idx));
      case SquareShape(_, _, _, _) =>
        BodyExtend(shapes, idx);
        fragment := fragment + Term(idx, shapes[idx]);
    }
    assert shapes[..|shapes|] == shapes;
    return Ok(fragment);
  }

  /** The fragment shader source `PlaneRenderer::new` compiles. */
  method NewFragmentShader(shapes: seq<Shape>, minDim: real, canvasOrigin: Pos2) returns (r: Result<FragmentShader>)
    ensures r.Ok? <==> AllSquares(shapes)
    ensures r.Ok? ==> r.value == Splice(minDim, canvasOrigin, Body(shapes))
    ensures r.Err? ==>
      var k := r.error.index;
      k < |shapes| && shapes[k].CircleShape? && forall j :: 0 <= j < k ==> shapes[j].SquareShape?
  {
    var fragment := AssembleFragment(shapes);
    match fragment
    case Ok(body) => r := Ok(Splice(minDim, canvasOrigin, body));
    case Err(e) => r := Err(e);
  }

  /** Where the term of shape `i` starts in the body. */
  function Offset(i: nat): nat {
    if i == 0 then 0 else 4 * i - 1
  }

  /** The first term is three statements long and the others four: it seeds
      `d` straight from `rectangle` and calls no `smin`; the others compute
      `d2`, combine it with sign -1.0 exactly for a subtracting shape, and
      weigh the colour by `d2`, not by the combined `d`. The geometry is
      emitted as the centre, half the size and the radius. */
  lemma TermShape(i: nat, shape: Shape)
    requires shape.SquareShape?
    ensures |Term(i, shape)| == Offset(i + 1) - Offset(i)
    ensures Term(i, shape)[0].AssignRect? && Term(i, shape)[0].target == (if i == 0 then D else D2)
    ensures Term(i, shape)[0].rect.pos == shape.square.pos
    ensures Term(i, shape)[0].rect.halfSize == Pos2(shape.square.size.x / 2.0, shape.square.size.y / 2.0)
    ensures Term(i, shape)[0].rect.radius == shape.square.radius
    ensures i == 0 ==> forall k :: 0 <= k < |Term(i, shape)| ==> !Term(i, shape)[k].CombineSmin?
    ensures i == 0 ==> Term(i, shape)[1] == AssignWeight(shape.colorSpread, D)
    ensures i > 0 ==> Term(i, shape)[1] == CombineSmin(Term(i, shape)[1].sign, shape.blob)
    ensures i > 0 ==> (Term(i, shape)[1].sign == "-1.0" <==> shape.subtract)
    ensures i > 0 ==> (Term(i, shape)[1].sign == "1.0" <==> !shape.subtract)
    ensures i > 0 ==> Term(i, shape)[2] == AssignWeight(shape.colorSpread, D2)
    ensures Term(i, shape)[|Term(i, shape)| - 1] == AccumulateColor(shape.square.color)
  {
  }

  lemma SliceOfLeft(a: seq<Stmt>, t: seq<Stmt>, lo: nat, hi: nat)
    requires lo <= hi <= |a|
    ensures (a + t)[lo..hi] == a[lo..hi]
  {
  }

  /** The body is the terms laid end to end: shape `i`'s term occupies
      exactly `[Offset(i), Offset(i + 1))`, and nothing else is emitted. */
  lemma {:induction false} BodyLayout(shapes: seq<Shape>)
    requires AllSquares(shapes)
    ensures |Body(shapes)| == Offset(|shapes|)
    ensures forall i :: 0 <= i < |shapes| ==> Body(shapes)[Offset(i)..Offset(i + 1)] == Term(i, shapes[i])
    decreases |shapes|
  {
    if |shapes| > 0 {
      var n := |shapes|;
      var prefix := shapes[..n - 1];
      BodySnoc(shapes);
      BodyLayout(prefix);
      var a, t := Body(prefix), Term(n - 1, shapes[n - 1]);
      assert |t| == Offset(n) - Offset(n - 1);
      forall i | 0 <= i < n
        ensures Body(shapes)[Offset(i)..Offset(i + 1)] == Term(i, shapes[i])
      {
        if i < n - 1 {
          SliceOfLeft(a, t, Offset(i), Offset(i + 1));
          assert prefix[i] == shapes[i];
        } else {
          assert (a + t)[|a|..] == t;
        }
      }
    }
  }

  function CountSmin(stmts: seq<Stmt>): nat
    decreases |stmts|
  {
    if |stmts| == 0 then 0
    else (if stmts[0].CombineSmin? then 1 else 0) + CountSmin(stmts[1..])
  }

  lemma {:induction false} CountSminConcat(a: seq<Stmt>, b: seq<Stmt>)
    ensures CountSmin(a + b) == CountSmin(a) + CountSmin(b)
    decreases |a|
  {
    if |a| > 0 {
      assert (a + b)[1..] == a[1..] + b;
      CountSminConcat(a[1..], b);
    } else {
      assert a + b == b;
    }
  }

  /** `smin` is called once for every shape after the first and never for the
      first, so a scene of n shapes blends n - 1 times. */
  lemma {:induction false} SminCountIsShapesMinusOne(shapes: seq<Shape>)
    requires AllSquares(shapes)
    ensures CountSmin(Body(shapes)) == if |shapes| == 0 then 0 else |shapes| - 1
    decreases |shapes|
  {
    if |shapes| > 0 {
      var n := |shapes|;
      var t := Term(n - 1, shapes[n - 1]);
      BodySnoc(shapes);
      SminCountIsShapesMinusOne(shapes[..n - 1]);
      CountSminConcat(Body(shapes[..n - 1]), t);
      TermFilters(n - 1, shapes[n - 1]);
    }
  }

  /** The colours the body accumulates into `dcol`, in order. */
  function Colors(stmts: seq<Stmt>): seq<Rgb>
    decreases |stmts|
  {
    if |stmts| == 0 then []
    else
      var head := if stmts[0].AccumulateColor? then [stmts[0].color] else [];
      head + Colors(stmts[1..])
  }

  lemma {:induction false} ColorsConcat(a: seq<Stmt>, b: seq<Stmt>)
    ensures Colors(a + b) == Colors(a) + Colors(b)
    decreases |a|
  {
    if |a| > 0 {
      assert (a + b)[1..] == a[1..] + b;
      ColorsConcat(a[1..], b);
    } else {
      assert a + b == b;
    }
  }

  /** A term calls `smin` once unless it is the seed, and contributes its
      own colour once. */
  lemma TermFilters(i: nat, shape: Shape)
    requires shape.SquareShape?
    ensures CountSmin(Term(i, shape)) == if i == 0 then 0 else 1
    ensures Colors(Term(i, shape)) == [shape.square.color]
  {
    var t := Term(i, shape);
    var n := |t|;
    assert t[n..] == [];
    assert t[n - 1..][1..] == t[n..];
    assert t[n - 2..][1..] == t[n - 1..];
    assert t[n - 3..][1..] == t[n - 2..];
    assert CountSmin(t[n - 1..]) == 0 && Colors(t[n - 1..]) == [shape.square.color];
    assert CountSmin(t[n - 2..]) == 0 && Colors(t[n - 2..]) == [shape.square.color];
    if i == 0 {
      assert t[n - 3..] == t;
    } else {
      assert t[n - 4..][1..] == t[n - 3..];
      assert t[n - 4..] == t;
    }
  }

  /** Every shape adds exactly one colour contribution to `dcol`, its own
      colour, in list order; so `dcol.w` sums one weight per shape. */
  lemma {:induction false} EveryShapeAddsItsColor(shapes: seq<Shape>)
    requires AllSquares(shapes)
    ensures Colors(Body(shapes)) == seq(|shapes|, i requires 0 <= i < |shapes| => shapes[i].square.color)
    decreases |shapes|
  {
    if |shapes| > 0 {
      var n := |shapes|;
      var prefix := shapes[..n - 1];
      var t := Term(n - 1, shapes[n - 1]);
      BodySnoc(shapes);
      EveryShapeAddsItsColor(prefix);
      ColorsConcat(Body(prefix), t);
      TermFilters(n - 1, shapes[n - 1]);
    }
  }

  /** Every read in the body follows the write it needs: each `smin` comes
      right after the `rectangle` that set `d2`, each colour accumulation right
      after the weight it multiplies, and the weight reads the distance its
      own term has just assigned. */
  predicate InputsJustAssigned(b: seq<Stmt>, k: nat)
    requires k < |b|
  {
    (b[k].CombineSmin? ==> k >= 1 && b[k - 1].AssignRect? && b[k - 1].target == D2) &&
    (b[k].AccumulateColor? ==> k >= 1 && b[k - 1].AssignWeight?) &&
    (b[k].AssignWeight? && b[k].dist == D ==> k >= 1 && b[k - 1].AssignRect? && b[k - 1].target == D) &&
    (b[k].AssignWeight? && b[k].dist == D2 ==> k >= 2 && b[k - 2].AssignRect? && b[k - 2].target == D2)
  }

  predicate WellSequenced(b: seq<Stmt>) {
    forall k :: 0 <= k < |b| ==> InputsJustAssigned(b, k)
  }

  lemma WellSequencedAppend(a: seq<Stmt>, t: seq<Stmt>)
    requires WellSequenced(a) && WellSequenced(t)
    requires |t| > 0 && t[0].AssignRect?
    ensures WellSequenced(a + t)
  {
    forall k | 0 <= k < |a + t|
      ensures InputsJustAssigned(a + t, k)
    {
      if k >= |a| {
        assert InputsJustAssigned(t, k - |a|);
      } else {
        assert InputsJustAssigned(a, k);
      }
    }
  }

  /** The generated body never reads `d2` or `w` before the statement that
      assigns them in the same term. */
  lemma {:induction false} BodyIsWellSequenced(shapes: seq<Shape>)
    requires AllSquares(shapes)
    ensures WellSequenced(Body(shapes))
    decreases |shapes|
  {
    if |shapes| > 0 {
      var n := |shapes|;
      BodySnoc(shapes);
      BodyIsWellSequenced(shapes[..n - 1]);
      var t := Term(n - 1, shapes[n - 1]);
      assert WellSequenced(t) by {
        forall k | 0 <= k < |t| ensures InputsJustAssigned(t, k) { }
      }
      WellSequencedAppend(Body(shapes[..n - 1]), t);
    }
  }

  /** The square `shape` with its blob factor and subtract flag replaced. */
  function WithBlend(shape: Shape, blob: real, subtract: bool): Shape
    requires shape.SquareShape?
  {
    SquareShape(shape.square, blob, shape.colorSpread, subtract)
  }

  /** The blob factor and the subtract flag of the first shape are never
      emitted: changing them leaves the fragment as it was. */
  lemma {:induction false} SeedBlendIgnored(shapes: seq<Shape>, blob: real, subtract: bool)
    requires AllSquares(shapes) && |shapes| > 0
    ensures AllSquares(shapes[0 := WithBlend(shapes[0], blob, subtract)])
    ensures Body(shapes[0 := WithBlend(shapes[0], blob, subtract)]) == Body(shapes)
  {
    var other := shapes[0 := WithBlend(shapes[0], blob, subtract)];
    assert Terms(other) == Terms(shapes) by {
      forall i | 0 <= i < |shapes| ensures Terms(other)[i] == Terms(shapes)[i] {
        if i == 0 {
          assert Term(0, other[0]) == Term(0, shapes[0]);
        }
      }
    }
  }

  /** With no shapes the fragment is empty, so `main()` goes straight from
      `float d = 1;` to the colour normalisation and `d` keeps its initial 1.
      No colour is accumulated either, so `dcol` keeps its zero start and the
      normalisation divides by a zero `dcol.w`. */
  lemma EmptySceneKeepsInitialDistance(minDim: real, canvasOrigin: Pos2)
    ensures AllSquares([]) && Body([]) == []
    ensures Colors(Body([])) == []
    ensures Splice(minDim, canvasOrigin, Body([])).main == [InitDistance(1.0), NormalizeColor, BlendBackground]
  {
  }

  /** With at least one shape, the statement after `float d = 1;` overwrites
      `d` with the first square's distance, and the fragment sits between
      the declarations and the normalisation. */
  lemma {:induction false} SeedFollowsInitialDistance(shapes: seq<Shape>, minDim: real, canvasOrigin: Pos2)
    requires AllSquares(shapes) && |shapes| > 0
    ensures var main := Splice(minDim, canvasOrigin, Body(shapes)).main;
      |main| == Offset(|shapes|) + 3 &&
      main[0] == InitDistance(InitialDistance) &&
      main[1] == AssignRect(D, RectOf(shapes[0].square)) &&
      main[1..|main| - 2] == Body(shapes) &&
      main[|main| - 2..] == [NormalizeColor, BlendBackground]
  {
    BodyLayout(shapes);
    TermShape(0, shapes[0]);
    var b := Body(shapes);
    assert b[0] == b[0..Offset(1)][0];
  }

  /** `smin` of the fragment shader's preamble over the reals. */
  function Smin(a: real, b: real, k: real): real
    requires k != 0.0
  {
    var h := Clamp(0.5 + 0.5 * (a - b) / k, 0.0, 1.0);
    Mix(a, b, h) - k * h * (1.0 - h)
  }

  function Clamp(x: real, lo: real, hi: real): real {
    if x < lo then lo else if x > hi then hi else x
  }

  function Mix(a: real, b: real, h: real): real {
    a * (1.0 - h) + b * h
  }

  /** On equal distances `smin` is not the identity: it lowers the distance by
      a quarter of the blob factor. */
  lemma SminOfEqualDistances(a: real, k: real)
    requires k != 0.0
    ensures Smin(a, a, k) == a - k / 4.0
  {
  }

  /** For a positive blob factor `smin` lies at or below both distances. */
  lemma SminBelowBoth(a: real, b: real, k: real)
    requires k > 0.0
    ensures Smin(a, b, k) <= a && Smin(a, b, k) <= b
  {
    var x := 0.5 + 0.5 * (a - b) / k;
    var h := Clamp(x, 0.0, 1.0);
    if 0.0 <= x <= 1.0 {
      var g := 1.0 - h;
      assert a - b == (2.0 * h - 1.0) * k;
      assert Smin(a, b, k) == a - k * (h * h);
      assert Smin(a, b, k) == b - k * (g * g);
      assert h * h >= 0.0 && g * g >= 0.0;
    } else if x < 0.0 {
      assert (a - b) / k < 0.0;
    } else {
      assert (a - b) / k > 0.0;
    }
  }
}
