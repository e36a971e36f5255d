/**
 * Where, and with which error, a reading of a malformed input gives up.
 *
 * A reading consumes well-formed text for as long as it can: the opening
 * delimiter, the label and the complete children that follow it, read one
 * after the other up to a position `j`. The lemmas below state the
 * outcome from what stands at `j`:
 *   - inside a square, a character other than `[` or `]`:
 *     `InvalidSquareContent` at `j`;
 *   - inside a circle, a character other than `[`, `(` or `)`:
 *     `InvalidCircleContent` at `j`;
 *   - at the top level, a character other than `[` or `(`:
 *     `UnexpectedCharacter` at `j`;
 *   - the end of the input while a shape is open: `UnexpectedEndOfInput`;
 *   - a label run that breaks its kind's rule: that label's error, right
 *     after the run;
 *   - a nested shape that fails: its error, at its cursor, for every
 *     enclosing shape.
 * `SquaresTextWritten` and `SquaresLaidOut` (and their shape versions)
 * connect the text of well-formed children to children read in turn, so
 * these lemmas apply to any input that starts with well-formed text.
 * Finally, every error the reading reports describes what the input
 * holds where the reading stopped.
 */
module Failures {
  import opened Shapes
  import opened Serial
  import opened Progress
  import opened Reading
  import opened Agreement

  // ---------------------------------------------------------------------
  // Reading over well-formed text
  // ---------------------------------------------------------------------

  /** A label scan over a run of label characters stops right after it when nothing alphanumeric follows. */
  lemma {:induction false} LabelEndAt(input: string, p: nat, text: string)
    requires Spells(input, p, text) && AllAlnum(text)
    requires p + |text| < |input| ==> !IsAlnum(input[p + |text|])
    ensures LabelEnd(input, p) == p + |text|
    decreases |text|
  {
    if text != [] {
      SpellsChar(input, p, text, 0);
      assert input[p + 1..p + |text|] == input[p..p + |text|][1..];
      LabelEndAt(input, p + 1, text[1..]);
    }
  }

  datatype Option<+T> = None | Some(value: T)

  /**
   * Where reading the squares `kids` one after the other from `pos` ends,
   * each starting where the reading of the one before stopped; `None`
   * when one of them is not read there.
   */
  function SquaresReadEnd(input: string, pos: nat, kids: seq<Square>): (end: Option<nat>)
    ensures end.Some? ==> pos <= end.value <= |input|
    decreases |kids|
  {
    if kids == [] then
      if pos <= |input| then Some(pos) else None
    else if pos < |input| && input[pos] == '[' && ReadSquare(input, pos).result == Ok(kids[0]) then
      SquaresReadEnd(input, ReadSquare(input, pos).cursor, kids[1..])
    else
      None
  }

  /**
   * Where reading the shapes `kids` one after the other from `pos` ends,
   * each starting where the reading of the one before stopped; `None`
   * when one of them is not read there.
   */
  function ShapesReadEnd(input: string, pos: nat, kids: seq<Shape>): (end: Option<nat>)
    ensures end.Some? ==> pos <= end.value <= |input|
    decreases |kids|
  {
    if kids == [] then
      if pos <= |input| then Some(pos) else None
    else if kids[0].Sq? && pos < |input| && input[pos] == '[' && ReadSquare(input, pos).result == Ok(kids[0].square) then
      ShapesReadEnd(input, ReadSquare(input, pos).cursor, kids[1..])
    else if kids[0].Ci? && pos < |input| && input[pos] == '(' && ReadCircle(input, pos).result == Ok(kids[0].circle) then
      ShapesReadEnd(input, ReadCircle(input, pos).cursor, kids[1..])
    else
      None
  }

  /** The squares `kids` are read one after the other from `pos`, and the last one stops at `end`. */
  predicate SquaresReadFrom(input: string, pos: nat, kids: seq<Square>, end: nat) {
    SquaresReadEnd(input, pos, kids) == Some(end)
  }

  /** The shapes `kids` are read one after the other from `pos`, and the last one stops at `end`. */
  predicate ShapesReadFrom(input: string, pos: nat, kids: seq<Shape>, end: nat) {
    ShapesReadEnd(input, pos, kids) == Some(end)
  }

  /** A well-formed square written at `pos` is read there, and the reading stops right after it. */
  lemma SquareReadThere(input: string, pos: nat, kid: Square)
    requires SquareAt(input, pos, kid)
    ensures pos < |input| && input[pos] == '['
    ensures ReadSquare(input, pos) == Outcome(Ok(kid), pos + |SquareText(kid)|)
  {
    SquareTextFirst(kid);
    SpellsOpens(input, pos, SquareText(kid), '[');
    ReadSquareAgrees(input, pos);
  }

  /** A well-formed circle written at `pos` is read there, and the reading stops right after it. */
  lemma CircleReadThere(input: string, pos: nat, kid: Circle)
    requires CircleAt(input, pos, kid)
    ensures pos < |input| && input[pos] == '('
    ensures ReadCircle(input, pos) == Outcome(Ok(kid), pos + |CircleText(kid)|)
  {
    CircleLaidOut(input, pos, kid);
    ReadCircleAgrees(input, pos);
  }

  /** A well-formed square written at `pos`, followed by squares read in turn up to `end`, is read first. */
  lemma SquaresReadStep(input: string, pos: nat, kids: seq<Square>, end: nat)
    requires kids != [] && SquareAt(input, pos, kids[0])
    requires SquaresReadFrom(input, pos + |SquareText(kids[0])|, kids[1..], end)
    ensures SquaresReadFrom(input, pos, kids, end)
  {
    SquareReadThere(input, pos, kids[0]);
  }

  /** A well-formed shape written at `pos`, followed by shapes read in turn up to `end`, is read first. */
  lemma ShapesReadStep(input: string, pos: nat, kids: seq<Shape>, end: nat)
    requires kids != [] && WellFormedShape(kids[0]) && Spells(input, pos, ShapeText(kids[0]))
    requires ShapesReadFrom(input, pos + |ShapeText(kids[0])|, kids[1..], end)
    ensures ShapesReadFrom(input, pos, kids, end)
  {
    match kids[0] {
      case Sq(q) => ShapesSquareStep(input, pos, q, kids[1..], end);
      case Ci(c) => ShapesCircleStep(input, pos, c, kids[1..], end);
    }
    assert [kids[0]] + kids[1..] == kids;
  }

  /** A well-formed square written at `pos`, followed by shapes read in turn up to `end`, is read first. */
  lemma ShapesSquareStep(input: string, pos: nat, q: Square, rest: seq<Shape>, end: nat)
    requires SquareAt(input, pos, q)
    requires ShapesReadFrom(input, pos + |SquareText(q)|, rest, end)
    ensures ShapesReadFrom(input, pos, [Sq(q)] + rest, end)
  {
    SquareReadThere(input, pos, q);
    assert ([Sq(q)] + rest)[1..] == rest;
  }

  /** A well-formed circle written at `pos`, followed by shapes read in turn up to `end`, is read first. */
  lemma ShapesCircleStep(input: string, pos: nat, c: Circle, rest: seq<Shape>, end: nat)
    requires CircleAt(input, pos, c)
    requires ShapesReadFrom(input, pos + |CircleText(c)|, rest, end)
    ensures ShapesReadFrom(input, pos, [Ci(c)] + rest, end)
  {
    CircleReadThere(input, pos, c);
    assert ([Ci(c)] + rest)[1..] == rest;
  }

  /**
   * The well-formed squares `kids` are written one after the other from
   * `pos`, and the last one ends at `end`.
   */
  predicate SquaresWritten(input: string, pos: nat, kids: seq<Square>, end: nat)
    decreases |kids|
  {
    if kids == [] then pos == end <= |input|
    else SquareAt(input, pos, kids[0]) && SquaresWritten(input, pos + |SquareText(kids[0])|, kids[1..], end)
  }

  /**
   * The well-formed shapes `kids` are written one after the other from
   * `pos`, and the last one ends at `end`.
   */
  predicate ShapesWritten(input: string, pos: nat, kids: seq<Shape>, end: nat)
    decreases |kids|
  {
    if kids == [] then pos == end <= |input|
    else
      WellFormedShape(kids[0]) && Spells(input, pos, ShapeText(kids[0])) &&
      ShapesWritten(input, pos + |ShapeText(kids[0])|, kids[1..], end)
  }

  /** The text of well-formed squares at `pos` writes them one after the other, up to the end of that text. */
  lemma {:induction false} SquaresTextWritten(input: string, pos: nat, kids: seq<Square>)
    requires forall k :: 0 <= k < |kids| ==> WellFormedSquare(kids[k])
    requires Spells(input, pos, SquaresText(kids))
    ensures SquaresWritten(input, pos, kids, pos + |SquaresText(kids)|)
    decreases |kids|
  {
    if kids != [] {
      SpellsSplit(input, pos, SquareText(kids[0]), SquaresText(kids[1..]));
      SquaresTextWritten(input, pos + |SquareText(kids[0])|, kids[1..]);
    }
  }

  /** The text of well-formed shapes at `pos` writes them one after the other, up to the end of that text. */
  lemma {:induction false} ShapesTextWritten(input: string, pos: nat, kids: seq<Shape>)
    requires WellFormedShapes(kids)
    requires Spells(input, pos, ShapesText(kids))
    ensures ShapesWritten(input, pos, kids, pos + |ShapesText(kids)|)
    decreases |kids|
  {
    if kids != [] {
      SpellsSplit(input, pos, ShapeText(kids[0]), ShapesText(kids[1..]));
      assert WellFormedShape(kids[0]);
      ShapesTextWritten(input, pos + |ShapeText(kids[0])|, kids[1..]);
    }
  }

  /** Well-formed squares written one after the other from `pos` are read there in turn, up to where they end. */
  lemma {:induction false} SquaresLaidOut(input: string, pos: nat, kids: seq<Square>, end: nat)
    requires SquaresWritten(input, pos, kids, end)
    ensures SquaresReadFrom(input, pos, kids, end)
    decreases |kids|
  {
    if kids != [] {
      SquaresLaidOut(input, pos + |SquareText(kids[0])|, kids[1..], end);
      SquaresReadStep(input, pos, kids, end);
    }
  }

  /** Well-formed shapes written one after the other from `pos` are read there in turn, up to where they end. */
  lemma {:induction false} ShapesLaidOut(input: string, pos: nat, kids: seq<Shape>, end: nat)
    requires ShapesWritten(input, pos, kids, end)
    ensures ShapesReadFrom(input, pos, kids, end)
    decreases |kids|
  {
    if kids != [] {
      ShapesLaidOut(input, pos + |ShapeText(kids[0])|, kids[1..], end);
      ShapesReadStep(input, pos, kids, end);
    }
  }

  /** Squares read one after the other from `pos` become the next children of `square`. */
  lemma {:induction false} SquareKidsRead(input: string, pos: nat, square: Square, kids: seq<Square>, end: nat)
    requires SquaresReadFrom(input, pos, kids, end)
    ensures end <= |input|
    ensures SquareBody(input, pos, square) == SquareBody(input, end, Square(square.name, square.inner + kids))
    decreases |kids|
  {
    if kids == [] {
      assert Square(square.name, square.inner + kids) == square;
    } else {
      var mid, next := ReadSquare(input, pos).cursor, square.AddInnerSquare(kids[0]);
      calc {
        SquareBody(input, pos, square);
        { SquareBodyChild(input, pos, square); }
        SquareBody(input, mid, next);
        { SquareKidsRead(input, mid, next, kids[1..], end); }
        SquareBody(input, end, Square(next.name, next.inner + kids[1..]));
        { assert Square(next.name, next.inner + kids[1..]) == Square(square.name, square.inner + kids); }
        SquareBody(input, end, Square(square.name, square.inner + kids));
      }
    }
  }

  /** The first of the shapes read in turn from `pos` becomes the next child of `circle`. */
  lemma CircleKidStep(input: string, pos: nat, circle: Circle, kids: seq<Shape>, end: nat) returns (mid: nat)
    requires kids != [] && ShapesReadFrom(input, pos, kids, end)
    ensures mid <= |input| && ShapesReadFrom(input, mid, kids[1..], end)
    ensures CircleBody(input, pos, circle) == CircleBody(input, mid, circle.AddInnerShape(kids[0]))
  {
    if kids[0].Sq? {
      CircleBodySquare(input, pos, circle);
      mid := ReadSquare(input, pos).cursor;
    } else {
      CircleBodyCircle(input, pos, circle);
      mid := ReadCircle(input, pos).cursor;
    }
  }

  /** Shapes read one after the other from `pos` become the next children of `circle`. */
  lemma {:induction false} CircleKidsRead(input: string, pos: nat, circle: Circle, kids: seq<Shape>, end: nat)
    requires ShapesReadFrom(input, pos, kids, end)
    ensures end <= |input|
    ensures CircleBody(input, pos, circle) == CircleBody(input, end, Circle(circle.name, circle.inner + kids))
    decreases |kids|
  {
    if kids == [] {
      assert Circle(circle.name, circle.inner + kids) == circle;
    } else {
      var next := circle.AddInnerShape(kids[0]);
      var mid := CircleKidStep(input, pos, circle, kids, end);
      calc {
        CircleBody(input, pos, circle);
        CircleBody(input, mid, next);
        { CircleKidsRead(input, mid, next, kids[1..], end); }
        CircleBody(input, end, Circle(next.name, next.inner + kids[1..]));
        { assert Circle(next.name, next.inner + kids[1..]) == Circle(circle.name, circle.inner + kids); }
        CircleBody(input, end, Circle(circle.name, circle.inner + kids));
      }
    }
  }

  /** The first of the shapes read in turn from `pos` becomes the next top-level shape. */
  lemma ForestShapeStep(input: string, pos: nat, shapes: seq<Shape>, c: seq<Shape>, end: nat) returns (mid: nat)
    requires c != [] && ShapesReadFrom(input, pos, c, end)
    ensures mid <= |input| && ShapesReadFrom(input, mid, c[1..], end)
    ensures ForestBody(input, pos, shapes) == ForestBody(input, mid, shapes + [c[0]])
  {
    if c[0].Sq? {
      ForestBodySquare(input, pos, shapes);
      mid := ReadSquare(input, pos).cursor;
    } else {
      ForestBodyCircle(input, pos, shapes);
      mid := ReadCircle(input, pos).cursor;
    }
  }

  /** Shapes read one after the other from `pos` become the next top-level shapes. */
  lemma {:induction false} ForestShapesRead(input: string, pos: nat, shapes: seq<Shape>, c: seq<Shape>, end: nat)
    requires ShapesReadFrom(input, pos, c, end)
    ensures end <= |input|
    ensures ForestBody(input, pos, shapes) == ForestBody(input, end, shapes + c)
    decreases |c|
  {
    if c == [] {
      assert shapes + c == shapes;
    } else {
      var mid := ForestShapeStep(input, pos, shapes, c, end);
      calc {
        ForestBody(input, pos, shapes);
        ForestBody(input, mid, shapes + [c[0]]);
        { ForestShapesRead(input, mid, shapes + [c[0]], c[1..], end); }
        ForestBody(input, end, shapes + [c[0]] + c[1..]);
        { assert shapes + [c[0]] + c[1..] == shapes + c; }
        ForestBody(input, end, shapes + c);
      }
    }
  }

  /** A valid square label after the `[` at `i` is read, and the square's body starts right after it. */
  lemma SquareLabelOpens(input: string, i: nat, name: string)
    requires i < |input| && input[i] == '['
    requires IsSquareLabel(name) && Spells(input, i + 1, name)
    requires i + 1 + |name| < |input| ==> !IsAlnum(input[i + 1 + |name|])
    ensures ReadSquare(input, i) == SquareBody(input, i + 1 + |name|, Square(name, []))
  {
    assert AllAlnum(name) by {
      forall k | 0 <= k < |name| ensures IsAlnum(name[k]) {
        assert IsDigit(name[k]);
      }
    }
    LabelEndAt(input, i + 1, name);
    LabelRunIsSlice(input, i + 1);
    if i + 1 + |name| == |input| {
      SquareBodyStop(input, |input|, Square(name, []));
    }
  }

  /** A valid circle label after the `(` at `i` is read, and the circle's body starts right after it. */
  lemma CircleLabelOpens(input: string, i: nat, name: string)
    requires i < |input| && input[i] == '('
    requires IsCircleLabel(name) && Spells(input, i + 1, name)
    requires i + 1 + |name| < |input| ==> !IsAlnum(input[i + 1 + |name|])
    ensures ReadCircle(input, i) == CircleBody(input, i + 1 + |name|, Circle(name, []))
  {
    assert AllAlnum(name) by {
      forall k | 0 <= k < |name| ensures IsAlnum(name[k]) {
        assert IsUpperLetter(name[k]);
      }
    }
    LabelEndAt(input, i + 1, name);
    LabelRunIsSlice(input, i + 1);
    if i + 1 + |name| == |input| {
      CircleBodyStop(input, |input|, Circle(name, []));
    }
  }

  /**
   * A square opened at `i` with a valid label, whose children are then
   * read one after the other up to `j`, is read up to `j` holding all of
   * them.
   */
  lemma SquareOpens(input: string, i: nat, name: string, kids: seq<Square>, j: nat)
    requires i < |input| && input[i] == '['
    requires IsSquareLabel(name) && Spells(input, i + 1, name)
    requires SquaresReadFrom(input, i + 1 + |name|, kids, j)
    requires kids == [] && i + 1 + |name| < |input| ==> !IsAlnum(input[i + 1 + |name|])
    ensures j <= |input| && ReadSquare(input, i) == SquareBody(input, j, Square(name, kids))
  {
    SquareLabelOpens(input, i, name);
    SquareKidsRead(input, i + 1 + |name|, Square(name, []), kids, j);
    assert [] + kids == kids;
  }

  /**
   * A circle opened at `i` with a valid label, whose children are then
   * read one after the other up to `j`, is read up to `j` holding all of
   * them.
   */
  lemma CircleOpens(input: string, i: nat, name: string, kids: seq<Shape>, j: nat)
    requires i < |input| && input[i] == '('
    requires IsCircleLabel(name) && Spells(input, i + 1, name)
    requires ShapesReadFrom(input, i + 1 + |name|, kids, j)
    requires kids == [] && i + 1 + |name| < |input| ==> !IsAlnum(input[i + 1 + |name|])
    ensures j <= |input| && ReadCircle(input, i) == CircleBody(input, j, Circle(name, kids))
  {
    CircleLabelOpens(input, i, name);
    CircleKidsRead(input, i + 1 + |name|, Circle(name, []), kids, j);
    assert [] + kids == kids;
  }

  // ---------------------------------------------------------------------
  // Squares
  // ---------------------------------------------------------------------

  /**
   * After the label and the children read in turn up to `j`, a character
   * other than `[` or `]` stops the square at `i` there with
   * `InvalidSquareContent`.
   */
  lemma SquareContentRejected(input: string, i: nat, name: string, kids: seq<Square>, j: nat)
    requires i < |input| && input[i] == '['
    requires IsSquareLabel(name) && Spells(input, i + 1, name)
    requires SquaresReadFrom(input, i + 1 + |name|, kids, j)
    requires j < |input| && input[j] != '[' && input[j] != ']'
    requires kids == [] ==> !IsAlnum(input[j])
    ensures ReadSquare(input, i) == Outcome(Err(InvalidSquareContent), j)
  {
    SquareOpens(input, i, name, kids, j);
    SquareBodyStop(input, j, Square(name, kids));
  }

  /**
   * A square whose label and children, read in turn, run to the end of
   * the input unclosed fails with `UnexpectedEndOfInput` at the end.
   */
  lemma SquareEndsEarly(input: string, i: nat, name: string, kids: seq<Square>)
    requires i < |input| && input[i] == '['
    requires IsSquareLabel(name) && Spells(input, i + 1, name)
    requires SquaresReadFrom(input, i + 1 + |name|, kids, |input|)
    ensures ReadSquare(input, i) == Outcome(Err(UnexpectedEndOfInput), |input|)
  {
    SquareOpens(input, i, name, kids, |input|);
    SquareBodyStop(input, |input|, Square(name, kids));
  }

  /**
   * A nested square at `j` that fails, after the label and the children
   * read in turn, makes the square at `i` fail with the same error at the
   * same position.
   */
  lemma SquareChildRejected(input: string, i: nat, name: string, kids: seq<Square>, j: nat)
    requires i < |input| && input[i] == '['
    requires IsSquareLabel(name) && Spells(input, i + 1, name)
    requires SquaresReadFrom(input, i + 1 + |name|, kids, j)
    requires j < |input| && input[j] == '['
    requires ReadSquare(input, j).result.Err?
    ensures ReadSquare(input, i) == ReadSquare(input, j)
  {
    SquareOpens(input, i, name, kids, j);
    SquareBodyChild(input, j, Square(name, kids));
  }

  /**
   * A run of label characters after `[` that is not a run of digits, and
   * is followed by some other character, is rejected as a square label
   * right after the run.
   */
  lemma SquareLabelRejected(input: string, i: nat, run: string)
    requires i < |input| && input[i] == '['
    requires Spells(input, i + 1, run) && AllAlnum(run)
    requires i + 1 + |run| < |input| && !IsAlnum(input[i + 1 + |run|])
    requires !IsSquareLabel(run)
    ensures ReadSquare(input, i) == Outcome(Err(InvalidSquareLabel(run)), i + 1 + |run|)
  {
    LabelEndAt(input, i + 1, run);
    LabelRunIsSlice(input, i + 1);
  }

  // ---------------------------------------------------------------------
  // Circles
  // ---------------------------------------------------------------------

  /**
   * After the label and the children read in turn up to `j`, a character
   * other than `[`, `(` or `)` stops the circle at `i` there with
   * `InvalidCircleContent`.
   */
  lemma CircleContentRejected(input: string, i: nat, name: string, kids: seq<Shape>, j: nat)
    requires i < |input| && input[i] == '('
    requires IsCircleLabel(name) && Spells(input, i + 1, name)
    requires ShapesReadFrom(input, i + 1 + |name|, kids, j)
    requires j < |input| && input[j] != '[' && input[j] != '(' && input[j] != ')'
    requires kids == [] ==> !IsAlnum(input[j])
    ensures ReadCircle(input, i) == Outcome(Err(InvalidCircleContent), j)
  {
    CircleOpens(input, i, name, kids, j);
    CircleBodyStop(input, j, Circle(name, kids));
  }

  /**
   * A circle whose label and children, read in turn, run to the end of
   * the input unclosed fails with `UnexpectedEndOfInput` at the end.
   */
  lemma CircleEndsEarly(input: string, i: nat, name: string, kids: seq<Shape>)
    requires i < |input| && input[i] == '('
    requires IsCircleLabel(name) && Spells(input, i + 1, name)
    requires ShapesReadFrom(input, i + 1 + |name|, kids, |input|)
    ensures ReadCircle(input, i) == Outcome(Err(UnexpectedEndOfInput), |input|)
  {
    CircleOpens(input, i, name, kids, |input|);
    CircleBodyStop(input, |input|, Circle(name, kids));
  }

  /**
   * A nested square or circle at `j` that fails, after the label and the
   * children read in turn, makes the circle at `i` fail with the same
   * error at the same position.
   */
  lemma CircleChildRejected(input: string, i: nat, name: string, kids: seq<Shape>, j: nat)
    requires i < |input| && input[i] == '('
    requires IsCircleLabel(name) && Spells(input, i + 1, name)
    requires ShapesReadFrom(input, i + 1 + |name|, kids, j)
    requires j < |input| && (input[j] == '[' || input[j] == '(')
    ensures input[j] == '[' && ReadSquare(input, j).result.Err? ==>
              ReadCircle(input, i) == Outcome(Err(ReadSquare(input, j).result.error), ReadSquare(input, j).cursor)
    ensures input[j] == '(' && ReadCircle(input, j).result.Err? ==>
              ReadCircle(input, i) == ReadCircle(input, j)
  {
    CircleOpens(input, i, name, kids, j);
    if input[j] == '[' {
      CircleBodySquare(input, j, Circle(name, kids));
    } else if input[j] == '(' {
      CircleBodyCircle(input, j, Circle(name, kids));
    }
  }

  /**
   * A run of label characters after `(` that is not a run of upper-case
   * letters, and is followed by some other character, is rejected as a
   * circle label right after the run.
   */
  lemma CircleLabelRejected(input: string, i: nat, run: string)
    requires i < |input| && input[i] == '('
    requires Spells(input, i + 1, run) && AllAlnum(run)
    requires i + 1 + |run| < |input| && !IsAlnum(input[i + 1 + |run|])
    requires !IsCircleLabel(run)
    ensures ReadCircle(input, i) == Outcome(Err(InvalidCircleLabel(run)), i + 1 + |run|)
  {
    LabelEndAt(input, i + 1, run);
    LabelRunIsSlice(input, i + 1);
  }

  // ---------------------------------------------------------------------
  // The top level
  // ---------------------------------------------------------------------

  /**
   * After the shapes read in turn from the start of the input up to `j`,
   * a character other than `[` or `(` stops the reading there with
   * `UnexpectedCharacter`.
   */
  lemma StrayCharacterRejected(input: string, c: seq<Shape>, j: nat)
    requires ShapesReadFrom(input, 0, c, j)
    requires j < |input| && input[j] != '[' && input[j] != '('
    ensures ReadInput(input) == Outcome(Err(UnexpectedCharacter(input[j])), j)
  {
    ForestShapesRead(input, 0, [], c, j);
    ForestBodyStop(input, j, [] + c);
  }

  /**
   * A square or circle at `j` that fails, after the shapes read in turn
   * from the start of the input, makes the whole reading fail with the
   * same error at the same position.
   */
  lemma ForestShapeRejected(input: string, c: seq<Shape>, j: nat)
    requires ShapesReadFrom(input, 0, c, j)
    requires j < |input|
    ensures input[j] == '[' && ReadSquare(input, j).result.Err? ==>
              ReadInput(input) == Outcome(Err(ReadSquare(input, j).result.error), ReadSquare(input, j).cursor)
    ensures input[j] == '(' && ReadCircle(input, j).result.Err? ==>
              ReadInput(input) == Outcome(Err(ReadCircle(input, j).result.error), ReadCircle(input, j).cursor)
  {
    ForestShapesRead(input, 0, [], c, j);
    if input[j] == '[' {
      ForestBodySquare(input, j, [] + c);
    } else if input[j] == '(' {
      ForestBodyCircle(input, j, [] + c);
    }
  }

  // ---------------------------------------------------------------------
  // What every error reports
  // ---------------------------------------------------------------------

  /** A failed square reading reports what the input holds where it stopped. */
  lemma ReadSquareStops(input: string, i: nat)
    requires i < |input| && input[i] == '['
    ensures var o := ReadSquare(input, i);
      o.result.Err? ==> ErrorAt(input, o.cursor, o.result.error) && !o.result.error.UnexpectedCharacter?
    decreases |input| - i, 0
  {
    var name := ReadLabel(input, i + 1, true);
    LabelEndRun(input, i + 1);
    LabelRunIsSlice(input, i + 1);
    if name.result.Ok? {
      SquareBodyStops(input, name.cursor, Square(name.result.value, []));
    }
  }

  /** A failed reading of the rest of a square reports what the input holds where it stopped. */
  lemma SquareBodyStops(input: string, i: nat, square: Square)
    requires i <= |input|
    ensures var o := SquareBody(input, i, square);
      o.result.Err? ==> ErrorAt(input, o.cursor, o.result.error) && !o.result.error.UnexpectedCharacter?
    decreases |input| - i, 1
  {
    SquareBodyStop(input, i, square);
    if i < |input| && input[i] == '[' {
      SquareBodyChild(input, i, square);
      ReadSquareStops(input, i);
      var child := ReadSquare(input, i);
      if child.result.Ok? {
        SquareBodyStops(input, child.cursor, square.AddInnerSquare(child.result.value));
      }
    }
  }

  /** A failed circle reading reports what the input holds where it stopped. */
  lemma ReadCircleStops(input: string, i: nat)
    requires i < |input| && input[i] == '('
    ensures var o := ReadCircle(input, i);
      o.result.Err? ==> ErrorAt(input, o.cursor, o.result.error) && !o.result.error.UnexpectedCharacter?
    decreases |input| - i, 0
  {
    var name := ReadLabel(input, i + 1, false);
    LabelEndRun(input, i + 1);
    LabelRunIsSlice(input, i + 1);
    if name.result.Ok? {
      CircleBodyStops(input, name.cursor, Circle(name.result.value, []));
    }
  }

  /** A failed reading of the rest of a circle reports what the input holds where it stopped. */
  lemma CircleBodyStops(input: string, i: nat, circle: Circle)
    requires i <= |input|
    ensures var o := CircleBody(input, i, circle);
      o.result.Err? ==> ErrorAt(input, o.cursor, o.result.error) && !o.result.error.UnexpectedCharacter?
    decreases |input| - i, 1
  {
    CircleBodyStop(input, i, circle);
    if i < |input| && input[i] == '[' {
      CircleBodySquare(input, i, circle);
      ReadSquareStops(input, i);
      var child := ReadSquare(input, i);
      if child.result.Ok? {
        CircleBodyStops(input, child.cursor, circle.AddInnerShape(Sq(child.result.value)));
      }
    } else if i < |input| && input[i] == '(' {
      CircleBodyCircle(input, i, circle);
      ReadCircleStops(input, i);
      var child := ReadCircle(input, i);
      if child.result.Ok? {
        CircleBodyStops(input, child.cursor, circle.AddInnerShape(Ci(child.result.value)));
      }
    }
  }

  /** A failed reading of the rest of the top level reports what the input holds where it stopped. */
  lemma ForestBodyStops(input: string, i: nat, shapes: seq<Shape>)
    requires i <= |input|
    ensures var o := ForestBody(input, i, shapes);
      o.result.Err? ==> ErrorAt(input, o.cursor, o.result.error)
    decreases |input| - i
  {
    ForestBodyStop(input, i, shapes);
    if i < |input| && input[i] == '[' {
      ForestBodySquare(input, i, shapes);
      ReadSquareStops(input, i);
      var child := ReadSquare(input, i);
      if child.result.Ok? {
        ForestBodyStops(input, child.cursor, shapes + [Sq(child.result.value)]);
      }
    } else if i < |input| && input[i] == '(' {
      ForestBodyCircle(input, i, shapes);
      ReadCircleStops(input, i);
      var child := ReadCircle(input, i);
      if child.result.Ok? {
        ForestBodyStops(input, child.cursor, shapes + [Ci(child.result.value)]);
      }
    }
  }
}
