/**
 * What a parse in progress has established.
 *
 * While a parse method reads a shape, it holds the label it has read and
 * the children it has built so far. The "so far" predicates say what that
 * partial value is worth: whichever well-formed tree has its text at the
 * shape's opening delimiter, the partial value agrees with it (same label,
 * the same first children) and the cursor stands exactly where that
 * tree's next child, or its closing delimiter, begins. The lemmas below
 * carry these facts across one step of a parse loop, so that the parse
 * methods only have to chain them.
 */
module Progress {
  import opened Shapes
  import opened Serial

  // ---------------------------------------------------------------------
  // Where a parse gives up
  // ---------------------------------------------------------------------

  /**
   * What an error reports about the input at the cursor `index` where the
   * parse gave up: the end of the input, a character that may not appear
   * there, or a label (the run of `[A-Za-z0-9]` right after an opening
   * delimiter, ending at the cursor) that breaks its shape's rule.
   */
  predicate ErrorAt(input: string, index: nat, e: ParseError) {
    match e
    case UnexpectedEndOfInput => index == |input|
    case UnexpectedCharacter(ch) => index < |input| && input[index] == ch && ch != '[' && ch != '('
    case InvalidSquareContent => index < |input| && input[index] != '[' && input[index] != ']'
    case InvalidCircleContent =>
      index < |input| && input[index] != '[' && input[index] != '(' && input[index] != ')'
    case InvalidSquareLabel(name) => LabelBefore(input, index, name, '[') && !IsSquareLabel(name)
    case InvalidCircleLabel(name) => LabelBefore(input, index, name, '(') && !IsCircleLabel(name)
  }

  /** `name` is the whole run of label characters between `open` and the character at `index`. */
  predicate LabelBefore(input: string, index: nat, name: string, open: char) {
    |name| < index < |input| && input[index - |name| - 1] == open &&
    input[index - |name|..index] == name && AllAlnum(name) && !IsAlnum(input[index])
  }

  // ---------------------------------------------------------------------
  // Reading a label
  // ---------------------------------------------------------------------

  /**
   * A run of label characters that ends in a delimiter: a scan that
   * starts at the run and stops at the first character outside
   * `[A-Za-z0-9]` stops exactly at the delimiter.
   */
  lemma ScanStopsAfterLabel(input: string, p: nat, text: string, e: nat)
    requires Spells(input, p, text) && AllAlnum(text)
    requires p + |text| < |input| && !IsAlnum(input[p + |text|])
    requires p <= e <= |input|
    requires forall k :: p <= k < e ==> IsAlnum(input[k])
    requires e < |input| ==> !IsAlnum(input[e])
    ensures e == p + |text| && input[p..e] == text
  {
    if e < p + |text| {
      SpellsChar(input, p, text, e - p);
    }
  }

  /** The label scan after a `[` reads the label of any square whose text starts there. */
  lemma SquareLabelRead(input: string, start: nat, e: nat, name: Result<string>)
    requires start + 1 <= e <= |input|
    requires forall k :: start + 1 <= k < e ==> IsAlnum(input[k])
    requires e < |input| ==> !IsAlnum(input[e]) && name == CheckLabel(input[start + 1..e], true)
    requires e == |input| ==> name == Err(UnexpectedEndOfInput)
    ensures forall t {:trigger SquareAt(input, start, t)} :: SquareAt(input, start, t) ==>
              name == Ok(t.name) && e == start + 1 + |t.name|
    ensures name.Ok? ==> SquareSoFar(input, start, e, Square(name.value, []))
  {
    forall t | SquareAt(input, start, t)
      ensures name == Ok(t.name) && e == start + 1 + |t.name|
      ensures SquareResumesAt(input, start, e, t, 0)
    {
      SquareLaidOut(input, start, t);
      ScanStopsAfterLabel(input, start + 1, t.name, e);
      SquareNext(input, start, t, 0);
      assert t.inner[..0] == [];
    }
  }

  /** The label scan after a `(` reads the label of any circle whose text starts there. */
  lemma CircleLabelRead(input: string, start: nat, e: nat, name: Result<string>)
    requires start + 1 <= e <= |input|
    requires forall k :: start + 1 <= k < e ==> IsAlnum(input[k])
    requires e < |input| ==> !IsAlnum(input[e]) && name == CheckLabel(input[start + 1..e], false)
    requires e == |input| ==> name == Err(UnexpectedEndOfInput)
    ensures forall t {:trigger CircleAt(input, start, t)} :: CircleAt(input, start, t) ==>
              name == Ok(t.name) && e == start + 1 + |t.name|
    ensures name.Ok? ==> CircleSoFar(input, start, e, Circle(name.value, []))
  {
    forall t | CircleAt(input, start, t)
      ensures name == Ok(t.name) && e == start + 1 + |t.name|
      ensures CircleResumesAt(input, start, e, t, 0)
    {
      CircleLaidOut(input, start, t);
      ScanStopsAfterLabel(input, start + 1, t.name, e);
      CircleNext(input, start, t, 0);
      assert t.inner[..0] == [];
    }
  }

  // ---------------------------------------------------------------------
  // Inside a square
  // ---------------------------------------------------------------------

  /** `square` is a prefix of every square whose text starts at `start`, and the cursor follows it. */
  ghost predicate SquareSoFar(input: string, start: nat, index: nat, square: Square) {
    forall t {:trigger SquareAt(input, start, t)} :: SquareAt(input, start, t) ==>
      square.name == t.name && |square.inner| <= |t.inner| &&
      square.inner == t.inner[..|square.inner|] &&
      SquareResumesAt(input, start, index, t, |square.inner|)
  }

  /**
   * Inside a square whose text starts at `start`, the cursor is on a `[`
   * (a further child) or on the closing `]`; on `]` the square read so
   * far is the whole square.
   */
  lemma SquareAtCursor(input: string, start: nat, index: nat, square: Square)
    requires SquareSoFar(input, start, index, square)
    ensures forall t {:trigger SquareAt(input, start, t)} :: SquareAt(input, start, t) ==>
              index < |input| && (input[index] == '[' || input[index] == ']') &&
              (input[index] == ']' ==> square == t && index + 1 == start + |SquareText(t)|)
  {
    forall t | SquareAt(input, start, t)
      ensures index < |input| && (input[index] == '[' || input[index] == ']')
      ensures input[index] == ']' ==> square == t && index + 1 == start + |SquareText(t)|
    {
      if |square.inner| == |t.inner| {
        assert square.inner == t.inner;
      }
    }
  }

  /**
   * A nested square read at a `[` inside a square is that square's next
   * child, for every square whose text starts at `start`.
   */
  lemma SquareStep(input: string, start: nat, before: nat, index: nat, square: Square, child: Result<Square>)
    requires SquareSoFar(input, start, before, square)
    requires before == start + 1 + |square.name| + |SquaresText(square.inner)|
    requires before < |input| && input[before] == '['
    requires forall u {:trigger SquareAt(input, before, u)} :: SquareAt(input, before, u) ==>
               child == Ok(u) && index == before + |SquareText(u)|
    ensures forall t {:trigger SquareAt(input, start, t)} :: SquareAt(input, start, t) ==> child.Ok?
    ensures child.Ok? ==> SquareSoFar(input, start, index, square.AddInnerSquare(child.value))
  {
    var k := |square.inner|;
    forall t | SquareAt(input, start, t)
      ensures k < |t.inner| && child == Ok(t.inner[k]) && index == before + |SquareText(t.inner[k])|
    {
      assert k < |t.inner|;
      assert SquareAt(input, before, t.inner[k]);
    }
    if child.Ok? {
      var next := square.AddInnerSquare(child.value);
      forall t | SquareAt(input, start, t)
        ensures next.name == t.name && |next.inner| <= |t.inner|
        ensures next.inner == t.inner[..|next.inner|]
        ensures SquareResumesAt(input, start, index, t, |next.inner|)
      {
        SquareNextChild(input, start, t, square.inner, index);
      }
    }
  }

  /** The text consumed so far grows by the text of the child just read. */
  lemma SquareTextGrows(input: string, start: nat, before: nat, index: nat, square: Square, child: Square)
    requires start <= before <= index <= |input|
    requires input[start..before] == "[" + square.name + SquaresText(square.inner)
    requires input[before..index] == SquareText(child)
    ensures input[start..index] == "[" + square.name + SquaresText(square.inner + [child])
  {
    var open := "[" + square.name;
    SquaresTextSnoc(square.inner, child);
    assert input[start..index] == input[start..before] + input[before..index];
    assert open + (SquaresText(square.inner) + SquareText(child)) == (open + SquaresText(square.inner)) + SquareText(child);
  }

  /** With the closing `]`, the text consumed is the square's whole text. */
  lemma SquareTextClosed(input: string, start: nat, index: nat, square: Square)
    requires start <= index < |input| && input[index] == ']'
    requires input[start..index] == "[" + square.name + SquaresText(square.inner)
    ensures input[start..index + 1] == SquareText(square)
  {
    assert input[start..index + 1] == input[start..index] + [input[index]];
  }

  // ---------------------------------------------------------------------
  // Inside a circle
  // ---------------------------------------------------------------------

  /** `circle` is a prefix of every circle whose text starts at `start`, and the cursor follows it. */
  ghost predicate CircleSoFar(input: string, start: nat, index: nat, circle: Circle) {
    forall t {:trigger CircleAt(input, start, t)} :: CircleAt(input, start, t) ==>
      circle.name == t.name && |circle.inner| <= |t.inner| &&
      circle.inner == t.inner[..|circle.inner|] &&
      CircleResumesAt(input, start, index, t, |circle.inner|)
  }

  /**
   * Inside a circle whose text starts at `start`, the cursor is on a `[`
   * or a `(` (a further child) or on the closing `)`; on `)` the circle
   * read so far is the whole circle.
   */
  lemma CircleAtCursor(input: string, start: nat, index: nat, circle: Circle)
    requires CircleSoFar(input, start, index, circle)
    ensures forall t {:trigger CircleAt(input, start, t)} :: CircleAt(input, start, t) ==>
              index < |input| && (input[index] == '[' || input[index] == '(' || input[index] == ')') &&
              (input[index] == ')' ==> circle == t && index + 1 == start + |CircleText(t)|)
  {
    forall t | CircleAt(input, start, t)
      ensures index < |input| && (input[index] == '[' || input[index] == '(' || input[index] == ')')
      ensures input[index] == ')' ==> circle == t && index + 1 == start + |CircleText(t)|
    {
      if |circle.inner| == |t.inner| {
        assert circle.inner == t.inner;
      }
    }
  }

  /** One more child read, agreeing with the next child of every candidate circle. */
  lemma CircleAdvance(input: string, start: nat, before: nat, index: nat, circle: Circle, shape: Shape)
    requires CircleSoFar(input, start, before, circle)
    requires before == start + 1 + |circle.name| + |ShapesText(circle.inner)|
    requires forall t {:trigger CircleAt(input, start, t)} :: CircleAt(input, start, t) ==>
               |circle.inner| < |t.inner| && t.inner[|circle.inner|] == shape &&
               index == before + |ShapeText(shape)|
    ensures CircleSoFar(input, start, index, circle.AddInnerShape(shape))
  {
    var next := circle.AddInnerShape(shape);
    forall t | CircleAt(input, start, t)
      ensures next.name == t.name && |next.inner| <= |t.inner|
      ensures next.inner == t.inner[..|next.inner|]
      ensures CircleResumesAt(input, start, index, t, |next.inner|)
    {
      CircleNextChild(input, start, t, circle.inner, index);
    }
  }

  /** A square read at a `[` inside a circle is that circle's next child. */
  lemma CircleStepSquare(input: string, start: nat, before: nat, index: nat, circle: Circle, child: Result<Square>)
    requires CircleSoFar(input, start, before, circle)
    requires before == start + 1 + |circle.name| + |ShapesText(circle.inner)|
    requires before < |input| && input[before] == '['
    requires forall u {:trigger SquareAt(input, before, u)} :: SquareAt(input, before, u) ==>
               child == Ok(u) && index == before + |SquareText(u)|
    ensures forall t {:trigger CircleAt(input, start, t)} :: CircleAt(input, start, t) ==> child.Ok?
    ensures child.Ok? ==> CircleSoFar(input, start, index, circle.AddInnerShape(Sq(child.value)))
  {
    var k := |circle.inner|;
    forall t | CircleAt(input, start, t)
      ensures k < |t.inner| && t.inner[k].Sq? && child == Ok(t.inner[k].square)
      ensures index == before + |ShapeText(t.inner[k])|
    {
      assert k < |t.inner|;
      assert WellFormedShape(t.inner[k]);
      assert SquareAt(input, before, t.inner[k].square);
    }
    if child.Ok? {
      CircleAdvance(input, start, before, index, circle, Sq(child.value));
    }
  }

  /** A circle read at a `(` inside a circle is that circle's next child. */
  lemma CircleStepCircle(input: string, start: nat, before: nat, index: nat, circle: Circle, child: Result<Circle>)
    requires CircleSoFar(input, start, before, circle)
    requires before == start + 1 + |circle.name| + |ShapesText(circle.inner)|
    requires before < |input| && input[before] == '('
    requires forall u {:trigger CircleAt(input, before, u)} :: CircleAt(input, before, u) ==>
               child == Ok(u) && index == before + |CircleText(u)|
    ensures forall t {:trigger CircleAt(input, start, t)} :: CircleAt(input, start, t) ==> child.Ok?
    ensures child.Ok? ==> CircleSoFar(input, start, index, circle.AddInnerShape(Ci(child.value)))
  {
    var k := |circle.inner|;
    forall t | CircleAt(input, start, t)
      ensures k < |t.inner| && t.inner[k].Ci? && child == Ok(t.inner[k].circle)
      ensures index == before + |ShapeText(t.inner[k])|
    {
      assert k < |t.inner|;
      assert WellFormedShape(t.inner[k]);
      assert CircleAt(input, before, t.inner[k].circle);
    }
    if child.Ok? {
      CircleAdvance(input, start, before, index, circle, Ci(child.value));
    }
  }

  /** The text consumed so far grows by the text of the child just read. */
  lemma CircleTextGrows(input: string, start: nat, before: nat, index: nat, circle: Circle, child: Shape)
    requires start <= before <= index <= |input|
    requires input[start..before] == "(" + circle.name + ShapesText(circle.inner)
    requires input[before..index] == ShapeText(child)
    ensures input[start..index] == "(" + circle.name + ShapesText(circle.inner + [child])
  {
    var open := "(" + circle.name;
    ShapesTextSnoc(circle.inner, child);
    assert input[start..index] == input[start..before] + input[before..index];
    assert open + (ShapesText(circle.inner) + ShapeText(child)) == (open + ShapesText(circle.inner)) + ShapeText(child);
  }

  /** With the closing `)`, the text consumed is the circle's whole text. */
  lemma CircleTextClosed(input: string, start: nat, index: nat, circle: Circle)
    requires start <= index < |input| && input[index] == ')'
    requires input[start..index] == "(" + circle.name + ShapesText(circle.inner)
    ensures input[start..index + 1] == CircleText(circle)
  {
    assert input[start..index + 1] == input[start..index] + [input[index]];
  }

  // ---------------------------------------------------------------------
  // At the top level
  // ---------------------------------------------------------------------

  /** `shapes` is a prefix of every forest whose text is `input`, and the cursor follows it. */
  ghost predicate ForestSoFar(input: string, index: nat, shapes: seq<Shape>) {
    forall c {:trigger ForestOf(input, c)} :: ForestOf(input, c) ==>
      |shapes| <= |c| && shapes == c[..|shapes|] && ForestResumesAt(input, index, c, |shapes|)
  }

  /** Before anything is read, the empty list is a prefix of every forest of `input`. */
  lemma ForestStart(input: string)
    ensures ForestSoFar(input, 0, [])
  {
    forall c: seq<Shape> | ForestOf(input, c)
      ensures ForestResumesAt(input, 0, c, 0)
    {
      ForestNext(input, c, 0);
    }
  }

  /**
   * At the top level, for every forest of `input`, the cursor is on the
   * `[` or `(` of a further shape, or at the end, where the shapes read
   * so far are the whole forest.
   */
  lemma ForestAtCursor(input: string, index: nat, shapes: seq<Shape>)
    requires ForestSoFar(input, index, shapes)
    ensures forall c {:trigger ForestOf(input, c)} :: ForestOf(input, c) ==>
              (index < |input| ==> input[index] == '[' || input[index] == '(') &&
              (index >= |input| ==> shapes == c)
  {
    forall c: seq<Shape> | ForestOf(input, c)
      ensures index < |input| ==> input[index] == '[' || input[index] == '('
      ensures index >= |input| ==> shapes == c
    {
      if |shapes| == |c| {
        assert shapes == c;
      }
    }
  }

  /** One more top-level shape read, agreeing with the next shape of every forest of `input`. */
  lemma ForestAdvance(input: string, before: nat, index: nat, shapes: seq<Shape>, shape: Shape)
    requires ForestSoFar(input, before, shapes)
    requires before == |ShapesText(shapes)|
    requires forall c {:trigger ForestOf(input, c)} :: ForestOf(input, c) ==>
               |shapes| < |c| && c[|shapes|] == shape && index == before + |ShapeText(shape)|
    ensures ForestSoFar(input, index, shapes + [shape])
  {
    forall c: seq<Shape> | ForestOf(input, c)
      ensures |shapes + [shape]| <= |c| && shapes + [shape] == c[..|shapes| + 1]
      ensures ForestResumesAt(input, index, c, |shapes| + 1)
    {
      assert |shapes| <= |c| && shapes == c[..|shapes|];
      assert |shapes| < |c| && c[|shapes|] == shape && index == before + |ShapeText(shape)|;
      ForestNextShape(input, c, shapes, index);
    }
  }

  /** A square read at a top-level `[` is the next shape of every forest of `input`. */
  lemma ForestStepSquare(input: string, before: nat, index: nat, shapes: seq<Shape>, child: Result<Square>)
    requires ForestSoFar(input, before, shapes)
    requires before == |ShapesText(shapes)|
    requires before < |input| && input[before] == '['
    requires forall u {:trigger SquareAt(input, before, u)} :: SquareAt(input, before, u) ==>
               child == Ok(u) && index == before + |SquareText(u)|
    ensures forall c {:trigger ForestOf(input, c)} :: ForestOf(input, c) ==> child.Ok?
    ensures child.Ok? ==> ForestSoFar(input, index, shapes + [Sq(child.value)])
  {
    var k := |shapes|;
    forall c: seq<Shape> | ForestOf(input, c)
      ensures k < |c| && c[k].Sq? && child == Ok(c[k].square)
      ensures index == before + |ShapeText(c[k])|
    {
      assert k < |c|;
      assert WellFormedShape(c[k]);
      assert SquareAt(input, before, c[k].square);
    }
    if child.Ok? {
      ForestAdvance(input, before, index, shapes, Sq(child.value));
    }
  }

  /** A circle read at a top-level `(` is the next shape of every forest of `input`. */
  lemma ForestStepCircle(input: string, before: nat, index: nat, shapes: seq<Shape>, child: Result<Circle>)
    requires ForestSoFar(input, before, shapes)
    requires before == |ShapesText(shapes)|
    requires before < |input| && input[before] == '('
    requires forall u {:trigger CircleAt(input, before, u)} :: CircleAt(input, before, u) ==>
               child == Ok(u) && index == before + |CircleText(u)|
    ensures forall c {:trigger ForestOf(input, c)} :: ForestOf(input, c) ==> child.Ok?
    ensures child.Ok? ==> ForestSoFar(input, index, shapes + [Ci(child.value)])
  {
    var k := |shapes|;
    forall c: seq<Shape> | ForestOf(input, c)
      ensures k < |c| && c[k].Ci? && child == Ok(c[k].circle)
      ensures index == before + |ShapeText(c[k])|
    {
      assert k < |c|;
      assert WellFormedShape(c[k]);
      assert CircleAt(input, before, c[k].circle);
    }
    if child.Ok? {
      ForestAdvance(input, before, index, shapes, Ci(child.value));
    }
  }

  /** The text consumed so far grows by the text of the shape just read. */
  lemma ForestTextGrows(input: string, before: nat, index: nat, shapes: seq<Shape>, shape: Shape)
    requires before <= index <= |input|
    requires input[..before] == ShapesText(shapes)
    requires input[before..index] == ShapeText(shape)
    requires WellFormedShapes(shapes) && WellFormedShape(shape)
    ensures input[..index] == ShapesText(shapes + [shape])
    ensures WellFormedShapes(shapes + [shape])
  {
    ShapesTextSnoc(shapes, shape);
    assert input[..index] == input[..before] + input[before..index];
  }
}
