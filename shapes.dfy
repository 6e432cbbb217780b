/** The shape data model of the editor: squares and circles with their
    blend parameters, and the two factories the "Add" buttons use.
    Coordinates and colour channels are `real`: the model only compares and
    adds them, so no floating-point behaviour is needed. */
module Shapes {

  /** A point or a 2-D vector in canvas pixel space (egui's `Pos2`/`Vec2`). */
  datatype Pos2 = Pos2(x: real, y: real)

  function Add(a: Pos2, b: Pos2): Pos2 { Pos2(a.x + b.x, a.y + b.y) }

  function Sub(a: Pos2, b: Pos2): Pos2 { Pos2(a.x - b.x, a.y - b.y) }

  /** An RGB colour, three channels (the source's `[f32; 3]`). */
  datatype Rgb = Rgb(r: real, g: real, b: real)

  /** Geometry of a square: centre, full width/height, colour and the corner
      rounding as a fraction of the half of the smaller side. */
  datatype Square = Square(pos: Pos2, size: Pos2, color: Rgb, radius: real)

  /** Geometry of a circle: centre, radius, colour. */
  datatype Circle = Circle(pos: Pos2, radius: real, color: Rgb)

  /** The tagged union of the scene: each variant carries its geometry record
      followed by exactly the blob factor, the colour spread and the subtract
      flag, in that order. */
  datatype Shape =
    | SquareShape(square: Square, blob: real, colorSpread: real, subtract: bool)
    | CircleShape(circle: Circle, blob: real, colorSpread: real, subtract: bool)

  const White: Rgb := Rgb(1.0, 1.0, 1.0)

  /** `Square::default()`. */
  function DefaultSquareGeometry(): Square {
    Square(Pos2(50.0, 50.0), Pos2(100.0, 100.0), White, 0.2)
  }

  /** `Circle::default()`. */
  function DefaultCircleGeometry(): Circle {
    Circle(Pos2(0.0, 0.0), 100.0, White)
  }

  /** `Shape::default_square()`: the shape "Add Square" appends. */
  function DefaultSquare(): Shape {
    SquareShape(DefaultSquareGeometry(), 0.5, 0.5, false)
  }

  /** `Shape::default_circle()`: the shape "Add Circle" appends. */
  function DefaultCircle(): Shape {
    CircleShape(DefaultCircleGeometry(), 0.0, 0.0, false)
  }

  lemma DefaultSquareGeometryValues()
    ensures DefaultSquareGeometry().pos == Pos2(50.0, 50.0)
    ensures DefaultSquareGeometry().size == Pos2(100.0, 100.0)
    ensures DefaultSquareGeometry().color == Rgb(1.0, 1.0, 1.0)
    ensures DefaultSquareGeometry().radius == 0.2
  {
  }

  lemma DefaultSquareValues()
    ensures DefaultSquare().SquareShape?
    ensures DefaultSquare().square == DefaultSquareGeometry()
    ensures DefaultSquare().blob == 0.5 && DefaultSquare().colorSpread == 0.5
    ensures !DefaultSquare().subtract
  {
  }

  lemma DefaultCircleGeometryValues()
    ensures DefaultCircleGeometry().pos == Pos2(0.0, 0.0)
    ensures DefaultCircleGeometry().radius == 100.0
    ensures DefaultCircleGeometry().color == Rgb(1.0, 1.0, 1.0)
  {
  }

  lemma DefaultCircleValues()
    ensures DefaultCircle().CircleShape?
    ensures DefaultCircle().circle == DefaultCircleGeometry()
    ensures DefaultCircle().blob == 0.0 && DefaultCircle().colorSpread == 0.0
    ensures !DefaultCircle().subtract
  {
  }
}
