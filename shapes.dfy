/**
 * The shape model: Squares with digit labels that hold only Squares,
 * Circles with upper-case labels that hold Squares or Circles, and the
 * Container that collects the top-level shapes of one parse.
 *
 * Labels are checked with ASCII character classes: digits `[0-9]`,
 * upper-case letters `[A-Z]`, and for the label scan `[A-Za-z0-9]`.
 */
module Shapes {

  // ---------------------------------------------------------------------
  // Character classes and label rules
  // ---------------------------------------------------------------------

  predicate IsDigit(c: char) { '0' <= c <= '9' }

  predicate IsUpperLetter(c: char) { 'A' <= c <= 'Z' }

  predicate IsLowerLetter(c: char) { 'a' <= c <= 'z' }

  /** The characters a label scan runs over: `[a-zA-Z0-9]`. */
  predicate IsAlnum(c: char) { IsDigit(c) || IsUpperLetter(c) || IsLowerLetter(c) }

  /** A valid Square label: `^[0-9]+$`. */
  predicate IsSquareLabel(name: string) {
    |name| > 0 && forall i :: 0 <= i < |name| ==> IsDigit(name[i])
  }

  /** A valid Circle label: `^[A-Z]+$`. */
  predicate IsCircleLabel(name: string) {
    |name| > 0 && forall i :: 0 <= i < |name| ==> IsUpperLetter(name[i])
  }

  predicate AllAlnum(s: string) {
    forall i :: 0 <= i < |s| ==> IsAlnum(s[i])
  }

  // ---------------------------------------------------------------------
  // Errors
  // ---------------------------------------------------------------------

  datatype ParseError =
    | UnexpectedCharacter(found: char)   // a top-level character that opens no shape
    | InvalidSquareContent               // inside a square: neither `[` nor `]`
    | InvalidCircleContent               // inside a circle: neither `[`, `(` nor `)`
    | InvalidSquareLabel(name: string)  // label is not `^[0-9]+$`
    | InvalidCircleLabel(name: string)  // label is not `^[A-Z]+$`
    | UnexpectedEndOfInput               // the text ended while a shape was still open

  datatype Result<+T> = Ok(value: T) | Err(error: ParseError)

  // ---------------------------------------------------------------------
  // Shapes
  // ---------------------------------------------------------------------

  /** A Square holds Squares only: the type rules out a Circle child. */
  // `name` holds the shape's label (`label` is a reserved word in Dafny).
  datatype Square = Square(name: string, inner: seq<Square>)
  {
    /** Appends one child at the end; the label and earlier children stay. */
    function AddInnerSquare(child: Square): (r: Square)
      ensures r.name == name
      ensures |r.inner| == |inner| + 1 && r.inner[..|inner|] == inner && r.inner[|inner|] == child
      ensures WellFormedSquare(this) && WellFormedSquare(child) ==> WellFormedSquare(r)
    {
      Square(name, inner + [child])
    }
  }

  /** A Circle holds Squares and Circles, in any order. */
  datatype Circle = Circle(name: string, inner: seq<Shape>)
  {
    /** Appends one child at the end; the label and earlier children stay. */
    function AddInnerShape(child: Shape): (r: Circle)
      ensures r.name == name
      ensures |r.inner| == |inner| + 1 && r.inner[..|inner|] == inner && r.inner[|inner|] == child
      ensures WellFormedCircle(this) && WellFormedShape(child) ==> WellFormedCircle(r)
    {
      Circle(name, inner + [child])
    }
  }

  /** The closed set of shape kinds. */
  datatype Shape = Sq(square: Square) | Ci(circle: Circle)

  /** Construction of a Square: fails unless the label is `^[0-9]+$`. */
  function NewSquare(name: string): (r: Result<Square>)
    ensures r.Ok? <==> IsSquareLabel(name)
    ensures r.Ok? ==> r.value.name == name && r.value.inner == []
    ensures r.Err? ==> r.error == InvalidSquareLabel(name)
    ensures name == "" ==> r.Err?
  {
    if IsSquareLabel(name) then Ok(Square(name, [])) else Err(InvalidSquareLabel(name))
  }

  /** Construction of a Circle: fails unless the label is `^[A-Z]+$`. */
  function NewCircle(name: string): (r: Result<Circle>)
    ensures r.Ok? <==> IsCircleLabel(name)
    ensures r.Ok? ==> r.value.name == name && r.value.inner == []
    ensures r.Err? ==> r.error == InvalidCircleLabel(name)
    ensures name == "" ==> r.Err?
  {
    if IsCircleLabel(name) then Ok(Circle(name, [])) else Err(InvalidCircleLabel(name))
  }

  /** The label check of the label scan: `isSquare` picks the rule. */
  function CheckLabel(text: string, isSquare: bool): (r: Result<string>)
    ensures r.Ok? <==> (if isSquare then IsSquareLabel(text) else IsCircleLabel(text))
    ensures r.Ok? ==> r.value == text
    ensures r.Err? ==> r.error == (if isSquare then InvalidSquareLabel(text) else InvalidCircleLabel(text))
  {
    if isSquare && !IsSquareLabel(text) then Err(InvalidSquareLabel(text))
    else if !isSquare && !IsCircleLabel(text) then Err(InvalidCircleLabel(text))
    else Ok(text)
  }

  // ---------------------------------------------------------------------
  // Well-formedness: the label rule of every node, at every depth
  // ---------------------------------------------------------------------

  predicate WellFormedSquare(s: Square) {
    IsSquareLabel(s.name) && forall i :: 0 <= i < |s.inner| ==> WellFormedSquare(s.inner[i])
  }

  predicate WellFormedCircle(c: Circle) {
    IsCircleLabel(c.name) && forall i :: 0 <= i < |c.inner| ==> WellFormedShape(c.inner[i])
  }

  predicate WellFormedShape(s: Shape) {
    match s
    case Sq(q) => WellFormedSquare(q)
    case Ci(c) => WellFormedCircle(c)
  }

  predicate WellFormedShapes(shapes: seq<Shape>) {
    forall i :: 0 <= i < |shapes| ==> WellFormedShape(shapes[i])
  }

  // ---------------------------------------------------------------------
  // Container
  // ---------------------------------------------------------------------

  /** The ordered top-level shapes of one parse. */
  class Container {
    var shapes: seq<Shape>

    constructor ()
      ensures shapes == []
    {
      shapes := [];
    }

    /** Appends one shape at the end and changes nothing else. */
    method AddShape(shape: Shape)
      modifies this
      ensures shapes == old(shapes) + [shape]
    {
      shapes := shapes + [shape];
    }
  }
}
