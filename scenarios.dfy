/**
 * The inputs the repository's tests feed the parser, with the outcomes
 * they expect, proved from the parser's contracts. Each scenario uses a
 * fresh parser, as the tests' set-up does.
 */
module Scenarios {
  import opened Shapes
  import opened Serial
  import opened Reading
  import opened Failures
  import opened Parser

  /** A fresh parser run on `input`; the shapes it found, or its error. */
  method ParseWithFreshParser(input: string) returns (r: Result<seq<Shape>>)
    ensures r.Ok? ==> ForestOf(input, r.value)
    ensures forall c {:trigger ForestOf(input, c)} :: ForestOf(input, c) ==> r == Ok(c)
    ensures |input| > 0 && input[0] != '[' && input[0] != '(' ==> r == Err(UnexpectedCharacter(input[0]))
    ensures r == ReadInput(input).result
  {
    var parser := new ShapeParser();
    var result := parser.Parse(input);
    if result.Err? {
      r := Err(result.error);
    } else {
      r := Ok(result.value.shapes);
    }
  }

  /**
   * Parsing is repeatable: the cursor is reset at the start of every
   * parse, so a second parse of the same input on the same parser gives
   * the same outcome as the first.
   */
  method ParseTwice(input: string) returns (first: Result<seq<Shape>>, second: Result<seq<Shape>>)
    ensures first == second
    ensures first == ReadInput(input).result
  {
    var parser := new ShapeParser();
    var a := parser.Parse(input);
    first := if a.Ok? then Ok(a.value.shapes) else Err(a.error);
    var b := parser.Parse(input);
    second := if b.Ok? then Ok(b.value.shapes) else Err(b.error);
  }

  // ---------------------------------------------------------------------
  // Inputs that parse
  // ---------------------------------------------------------------------

  /** "[13]" is one Square labelled "13". */
  method ValidSquare() returns (r: Result<seq<Shape>>)
    ensures r == Ok([Sq(Square("13", []))])
  {
    ValidSquareText();
    r := ParseWithFreshParser("[13]");
  }

  /** "[13]" is the text of the forest holding the one Square "13". */
  lemma ValidSquareText()
    ensures ForestOf("[13]", [Sq(Square("13", []))])
  {
    var s := Square("13", []);
    assert SquareText(s) == "[13]";
    assert ShapesText([Sq(s)]) == SquareText(s) + ShapesText([]);
  }

  /** "(DOG)" is one Circle labelled "DOG". */
  method ValidCircle() returns (r: Result<seq<Shape>>)
    ensures r == Ok([Ci(Circle("DOG", []))])
  {
    ValidCircleText();
    r := ParseWithFreshParser("(DOG)");
  }

  /** "(DOG)" is the text of the forest holding the one Circle "DOG". */
  lemma ValidCircleText()
    ensures ForestOf("(DOG)", [Ci(Circle("DOG", []))])
  {
    var c := Circle("DOG", []);
    assert CircleText(c) == "(DOG)";
    assert ShapesText([Ci(c)]) == CircleText(c) + ShapesText([]);
    assert IsUpperLetter("DOG"[0]) && IsUpperLetter("DOG"[1]) && IsUpperLetter("DOG"[2]);
  }

  /** "(DOG[15])" is a Circle "DOG" holding exactly one Square "15". */
  method CircleWithSquare() returns (r: Result<seq<Shape>>)
    ensures r == Ok([Ci(Circle("DOG", [Sq(Square("15", []))]))])
  {
    CircleWithSquareText();
    r := ParseWithFreshParser("(DOG[15])");
  }

  /** "(DOG[15])" is the text of the forest holding a Circle "DOG" around a Square "15". */
  lemma CircleWithSquareText()
    ensures ForestOf("(DOG[15])", [Ci(Circle("DOG", [Sq(Square("15", []))]))])
  {
    var s := Square("15", []);
    var c := Circle("DOG", [Sq(s)]);
    assert SquareText(s) == "[15]";
    assert ShapesText([Sq(s)]) == SquareText(s) + ShapesText([]);
    assert CircleText(c) == "(DOG[15])";
    assert ShapesText([Ci(c)]) == CircleText(c) + ShapesText([]);
    assert IsUpperLetter("DOG"[0]) && IsUpperLetter("DOG"[1]) && IsUpperLetter("DOG"[2]);
    assert IsDigit("15"[0]) && IsDigit("15"[1]);
    assert WellFormedShape(c.inner[0]);
    assert WellFormedCircle(c);
  }

  /** Squares nest: "[1[2[3]]]" is one Square holding a chain of two more. */
  method NestedSquares() returns (r: Result<seq<Shape>>)
    ensures r == Ok([Sq(Square("1", [Square("2", [Square("3", [])])]))])
  {
    NestedSquaresText();
    r := ParseWithFreshParser("[1[2[3]]]");
  }

  /** "[1[2[3]]]" is the text of the forest holding that chain of Squares. */
  lemma NestedSquaresText()
    ensures ForestOf("[1[2[3]]]", [Sq(Square("1", [Square("2", [Square("3", [])])]))])
  {
    var s3 := Square("3", []);
    var s2 := Square("2", [s3]);
    var s1 := Square("1", [s2]);
    assert SquareText(s3) == "[3]";
    assert SquaresText([s3]) == SquareText(s3) + SquaresText([]);
    assert SquareText(s2) == "[2[3]]";
    assert SquaresText([s2]) == SquareText(s2) + SquaresText([]);
    assert SquareText(s1) == "[1[2[3]]]";
    assert ShapesText([Sq(s1)]) == SquareText(s1) + ShapesText([]);
    assert WellFormedSquare(s3) && WellFormedSquare(s2);
  }

  // ---------------------------------------------------------------------
  // Inputs that fail
  // ---------------------------------------------------------------------

  /** "$@#" fails at once on its first character. */
  method InvalidInput() returns (r: Result<seq<Shape>>)
    ensures r == Err(UnexpectedCharacter('$'))
  {
    r := ParseWithFreshParser("$@#");
  }

  /** No forest is written "[13)": its square would need a `]`. */
  lemma NoForestMismatchedCloser()
    ensures forall c {:trigger ForestOf("[13)", c)} :: !ForestOf("[13)", c)
  {
    forall c: seq<Shape> | WellFormedShapes(c) && |ShapesText(c)| > 0 && ShapesText(c)[0] == '['
      ensures ShapesText(c) != "[13)"
    {
      LeadingSquare(c);
      var m := |SquareText(c[0].square)|;
      assert ShapesText(c) == "[13)" ==> m == 3 || m == 4;
    }
  }

  /** "[13)" fails where the `)` stands: a square is closed with `]` only. */
  method MalformedInput() returns (r: Result<seq<Shape>>)
    ensures r == Err(InvalidSquareContent)
  {
    var input := "[13)";
    assert Spells(input, 1, "13") && IsDigit('1') && IsDigit('3');
    SquareContentRejected(input, 0, "13", [], 3);
    ForestShapeRejected(input, [], 0);
    r := ParseWithFreshParser(input);
  }

  /** No forest is written "[72(HELLO)]": a square holds no circle. */
  lemma NoForestCircleInSquare()
    ensures forall c {:trigger ForestOf("[72(HELLO)]", c)} :: !ForestOf("[72(HELLO)]", c)
  {
    forall c: seq<Shape> | WellFormedShapes(c) && |ShapesText(c)| > 0 && ShapesText(c)[0] == '['
      ensures ShapesText(c) != "[72(HELLO)]"
    {
      LeadingSquare(c);
      var m := |SquareText(c[0].square)|;
      assert "[72(HELLO)]"[3] == '(';
      assert ShapesText(c) == "[72(HELLO)]" ==> m != 3;
    }
  }

  /** "[72(HELLO)]" fails where the `(` stands: a Circle may not appear inside a Square. */
  method InvalidInnerShape() returns (r: Result<seq<Shape>>)
    ensures r == Err(InvalidSquareContent)
  {
    var input := "[72(HELLO)]";
    assert Spells(input, 1, "72") && IsDigit('7') && IsDigit('2');
    SquareContentRejected(input, 0, "72", [], 3);
    ForestShapeRejected(input, [], 0);
    r := ParseWithFreshParser(input);
  }

  /** No forest is written "[allow]": a square's label starts with a digit. */
  lemma NoForestLowerCaseSquareLabel()
    ensures forall c {:trigger ForestOf("[allow]", c)} :: !ForestOf("[allow]", c)
  {
    forall c: seq<Shape> | WellFormedShapes(c) && |ShapesText(c)| > 0 && ShapesText(c)[0] == '['
      ensures ShapesText(c) != "[allow]"
    {
      LeadingSquare(c);
    }
  }

  /** "[allow]" fails on its label: a Square label must be numeric. */
  method InvalidSquareLabelInput() returns (r: Result<seq<Shape>>)
    ensures r == Err(InvalidSquareLabel("allow"))
  {
    var input := "[allow]";
    assert Spells(input, 1, "allow") && AllAlnum("allow") && !IsDigit("allow"[0]);
    SquareLabelRejected(input, 0, "allow");
    ForestShapeRejected(input, [], 0);
    r := ParseWithFreshParser(input);
  }

  /** "[]" and "()" fail on their labels: the empty label is rejected for either kind. */
  method EmptyLabels() returns (square: Result<seq<Shape>>, circle: Result<seq<Shape>>)
    ensures square == Err(InvalidSquareLabel(""))
    ensures circle == Err(InvalidCircleLabel(""))
  {
    assert Spells("[]", 1, "") && Spells("()", 1, "");
    SquareLabelRejected("[]", 0, "");
    ForestShapeRejected("[]", [], 0);
    CircleLabelRejected("()", 0, "");
    ForestShapeRejected("()", [], 0);
    square := ParseWithFreshParser("[]");
    circle := ParseWithFreshParser("()");
  }

  /** "[1]x" fails on the `x` after a complete square: it opens no shape. */
  method TrailingCharacter() returns (r: Result<seq<Shape>>)
    ensures r == Err(UnexpectedCharacter('x'))
  {
    var input := "[1]x";
    var c := [Sq(Square("1", []))];
    assert SquareText(c[0].square) == "[1]";
    assert ShapesText(c) == SquareText(c[0].square) + ShapesText([]);
    assert WellFormedShape(c[0]);
    assert Spells(input, 0, ShapesText(c));
    ShapesTextWritten(input, 0, c);
    ShapesLaidOut(input, 0, c, 3);
    StrayCharacterRejected(input, c, 3);
    r := ParseWithFreshParser(input);
  }
}
