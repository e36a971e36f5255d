/**
 * The reading of `Reading` agrees with the text form of `Serial`, in both
 * directions:
 *   - sound: whatever a read returns is well-formed, and the characters
 *     it consumed are exactly its text;
 *   - complete: when the text of a well-formed tree starts at the
 *     cursor, the read returns that very tree and stops right after it.
 * The proofs follow the reads' recursion; each step is one of the
 * `Progress` lemmas.
 */
module Agreement {
  import opened Shapes
  import opened Serial
  import opened Progress
  import opened Reading

  // ---------------------------------------------------------------------
  // Squares
  // ---------------------------------------------------------------------

  /** Reading a square at its `[` is sound and complete. */
  lemma ReadSquareAgrees(input: string, i: nat)
    requires i < |input| && input[i] == '['
    ensures var o := ReadSquare(input, i);
      o.result.Ok? ==> WellFormedSquare(o.result.value) && input[i..o.cursor] == SquareText(o.result.value)
    ensures forall t {:trigger SquareAt(input, i, t)} :: SquareAt(input, i, t) ==>
              ReadSquare(input, i) == Outcome(Ok(t), i + |SquareText(t)|)
    decreases |input| - i, 0
  {
    var name := ReadLabel(input, i + 1, true);
    LabelEndRun(input, i + 1);
    LabelRunIsSlice(input, i + 1);
    SquareLabelRead(input, i, name.cursor, name.result);
    if name.result.Ok? {
      var square := Square(name.result.value, []);
      assert input[i..name.cursor] == [input[i]] + input[i + 1..name.cursor];
      SquareBodyAgrees(input, i, name.cursor, square);
    }
  }

  /**
   * The rest of a square is sound and complete once `square` has been
   * read, from the `[` at `start`, up to `index`.
   */
  lemma SquareBodyAgrees(input: string, start: nat, index: nat, square: Square)
    requires start < index <= |input|
    requires WellFormedSquare(square)
    requires input[start..index] == "[" + square.name + SquaresText(square.inner)
    requires SquareSoFar(input, start, index, square)
    ensures var o := SquareBody(input, index, square);
      o.result.Ok? ==> WellFormedSquare(o.result.value) && input[start..o.cursor] == SquareText(o.result.value)
    ensures forall t {:trigger SquareAt(input, start, t)} :: SquareAt(input, start, t) ==>
              SquareBody(input, index, square) == Outcome(Ok(t), start + |SquareText(t)|)
    decreases |input| - index, 1
  {
    SquareAtCursor(input, start, index, square);
    SquareBodyStop(input, index, square);
    if index < |input| && input[index] == ']' {
      SquareTextClosed(input, start, index, square);
    } else if index < |input| && input[index] == '[' {
      ReadSquareAgrees(input, index);
      SquareBodyChild(input, index, square);
      var child := ReadSquare(input, index);
      SquareStep(input, start, index, child.cursor, square, child.result);
      if child.result.Ok? {
        SquareTextGrows(input, start, index, child.cursor, square, child.result.value);
        SquareBodyAgrees(input, start, child.cursor, square.AddInnerSquare(child.result.value));
      }
    }
  }

  // ---------------------------------------------------------------------
  // Circles
  // ---------------------------------------------------------------------

  /** Reading a circle at its `(` is sound and complete. */
  lemma ReadCircleAgrees(input: string, i: nat)
    requires i < |input| && input[i] == '('
    ensures var o := ReadCircle(input, i);
      o.result.Ok? ==> WellFormedCircle(o.result.value) && input[i..o.cursor] == CircleText(o.result.value)
    ensures forall t {:trigger CircleAt(input, i, t)} :: CircleAt(input, i, t) ==>
              ReadCircle(input, i) == Outcome(Ok(t), i + |CircleText(t)|)
    decreases |input| - i, 0
  {
    var name := ReadLabel(input, i + 1, false);
    LabelEndRun(input, i + 1);
    LabelRunIsSlice(input, i + 1);
    CircleLabelRead(input, i, name.cursor, name.result);
    if name.result.Ok? {
      var circle := Circle(name.result.value, []);
      assert input[i..name.cursor] == [input[i]] + input[i + 1..name.cursor];
      CircleBodyAgrees(input, i, name.cursor, circle);
    }
  }

  /**
   * The rest of a circle is sound and complete once `circle` has been
   * read, from the `(` at `start`, up to `index`.
   */
  lemma CircleBodyAgrees(input: string, start: nat, index: nat, circle: Circle)
    requires start < index <= |input|
    requires WellFormedCircle(circle)
    requires input[start..index] == "(" + circle.name + ShapesText(circle.inner)
    requires CircleSoFar(input, start, index, circle)
    ensures var o := CircleBody(input, index, circle);
      o.result.Ok? ==> WellFormedCircle(o.result.value) && input[start..o.cursor] == CircleText(o.result.value)
    ensures forall t {:trigger CircleAt(input, start, t)} :: CircleAt(input, start, t) ==>
              CircleBody(input, index, circle) == Outcome(Ok(t), start + |CircleText(t)|)
    decreases |input| - index, 1
  {
    CircleAtCursor(input, start, index, circle);
    CircleBodyStop(input, index, circle);
    if index < |input| && input[index] == ')' {
      CircleTextClosed(input, start, index, circle);
    } else if index < |input| && input[index] == '[' {
      ReadSquareAgrees(input, index);
      CircleBodySquare(input, index, circle);
      var child := ReadSquare(input, index);
      CircleStepSquare(input, start, index, child.cursor, circle, child.result);
      if child.result.Ok? {
        CircleTextGrows(input, start, index, child.cursor, circle, Sq(child.result.value));
        CircleBodyAgrees(input, start, child.cursor, circle.AddInnerShape(Sq(child.result.value)));
      }
    } else if index < |input| && input[index] == '(' {
      ReadCircleAgrees(input, index);
      CircleBodyCircle(input, index, circle);
      var child := ReadCircle(input, index);
      CircleStepCircle(input, start, index, child.cursor, circle, child.result);
      if child.result.Ok? {
        CircleTextGrows(input, start, index, child.cursor, circle, Ci(child.result.value));
        CircleBodyAgrees(input, start, child.cursor, circle.AddInnerShape(Ci(child.result.value)));
      }
    }
  }

  // ---------------------------------------------------------------------
  // The top level
  // ---------------------------------------------------------------------

  /**
   * The rest of the top level is sound and complete once `shapes` have
   * been read up to `index`.
   */
  lemma ForestBodyAgrees(input: string, index: nat, shapes: seq<Shape>)
    requires index <= |input|
    requires WellFormedShapes(shapes) && input[..index] == ShapesText(shapes)
    requires ForestSoFar(input, index, shapes)
    ensures var o := ForestBody(input, index, shapes);
      o.result.Ok? ==> ForestOf(input, o.result.value)
    ensures forall c {:trigger ForestOf(input, c)} :: ForestOf(input, c) ==>
              ForestBody(input, index, shapes).result == Ok(c)
    decreases |input| - index
  {
    ForestAtCursor(input, index, shapes);
    if index < |input| && input[index] == '[' {
      ReadSquareAgrees(input, index);
      var child := ReadSquare(input, index);
      ForestStepSquare(input, index, child.cursor, shapes, child.result);
      if child.result.Ok? {
        ForestTextGrows(input, index, child.cursor, shapes, Sq(child.result.value));
        ForestBodyAgrees(input, child.cursor, shapes + [Sq(child.result.value)]);
      }
    } else if index < |input| && input[index] == '(' {
      ReadCircleAgrees(input, index);
      var child := ReadCircle(input, index);
      ForestStepCircle(input, index, child.cursor, shapes, child.result);
      if child.result.Ok? {
        ForestTextGrows(input, index, child.cursor, shapes, Ci(child.result.value));
        ForestBodyAgrees(input, child.cursor, shapes + [Ci(child.result.value)]);
      }
    }
  }

  /**
   * Reading a whole input succeeds exactly on the texts of well-formed
   * forests, and then returns the forest that was written.
   */
  lemma ReadInputAgrees(input: string)
    ensures ReadInput(input).result.Ok? ==> ForestOf(input, ReadInput(input).result.value)
    ensures forall c {:trigger ForestOf(input, c)} :: ForestOf(input, c) ==> ReadInput(input).result == Ok(c)
  {
    ForestStart(input);
    ForestBodyAgrees(input, 0, []);
  }
}
