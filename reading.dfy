/**
 * The reading of an input as a recursive function: from a cursor, what the
 * recursive-descent parser returns and where it leaves the cursor, on
 * success and on failure alike. It follows the parser branch by branch,
 * so it fixes which error is reported for a malformed input and at which
 * position the parse gives up; `Parser.ShapeParser` is proved to return
 * exactly this outcome.
 */
module Reading {
  import opened Shapes

  /** What a read returns, and the cursor it leaves behind. */
  datatype Outcome<+T> = Outcome(result: Result<T>, cursor: nat)

  /** The end of the maximal run of `[A-Za-z0-9]` that starts at `i`. */
  function LabelEnd(input: string, i: nat): (e: nat)
    requires i <= |input|
    ensures i <= e <= |input|
    ensures e < |input| ==> !IsAlnum(input[e])
    decreases |input| - i
  {
    if i < |input| && IsAlnum(input[i]) then LabelEnd(input, i + 1) else i
  }

  /** Every character the label scan passes over is a label character. */
  lemma {:induction false} LabelEndRun(input: string, i: nat)
    requires i <= |input|
    ensures forall k :: i <= k < LabelEnd(input, i) ==> IsAlnum(input[k])
    decreases |input| - i
  {
    if i < |input| && IsAlnum(input[i]) {
      LabelEndRun(input, i + 1);
    }
  }

  /** The maximal run of `[A-Za-z0-9]` that starts at `i`, character by character. */
  function LabelRun(input: string, i: nat): (run: string)
    requires i <= |input|
    ensures |run| == LabelEnd(input, i) - i
    decreases |input| - i
  {
    if i < |input| && IsAlnum(input[i]) then [input[i]] + LabelRun(input, i + 1) else []
  }

  /** The run is the text between `i` and the end of the scan. */
  lemma {:induction false} LabelRunIsSlice(input: string, i: nat)
    requires i <= |input|
    ensures LabelRun(input, i) == input[i..LabelEnd(input, i)]
    decreases |input| - i
  {
    if i < |input| && IsAlnum(input[i]) {
      LabelRunIsSlice(input, i + 1);
      assert input[i..LabelEnd(input, i)] == [input[i]] + input[i + 1..LabelEnd(input, i)];
    }
  }

  /**
   * The label read at `i`: the end of the input when the run reaches it,
   * otherwise the label check of the run.
   */
  function ReadLabel(input: string, i: nat, isSquare: bool): (o: Outcome<string>)
    requires i <= |input|
    ensures o.cursor == LabelEnd(input, i)
    ensures o.cursor == |input| ==> o.result == Err(UnexpectedEndOfInput)
    ensures o.cursor < |input| ==> o.result == CheckLabel(LabelRun(input, i), isSquare)
  {
    var e := LabelEnd(input, i);
    if e == |input| then Outcome(Err(UnexpectedEndOfInput), e)
    else Outcome(CheckLabel(LabelRun(input, i), isSquare), e)
  }

  /**
   * The label reading in terms of the input: it passes over label
   * characters only, stops on the first other character or at the end,
   * and checks exactly the text it passed over.
   */
  lemma ReadLabelIsRun(input: string, i: nat, isSquare: bool)
    requires i <= |input|
    ensures var o := ReadLabel(input, i, isSquare);
      i <= o.cursor <= |input| && forall k :: i <= k < o.cursor ==> IsAlnum(input[k])
    ensures var o := ReadLabel(input, i, isSquare);
      o.cursor < |input| ==> !IsAlnum(input[o.cursor]) && o.result == CheckLabel(input[i..o.cursor], isSquare)
    ensures var o := ReadLabel(input, i, isSquare);
      o.cursor == |input| ==> o.result == Err(UnexpectedEndOfInput)
  {
    LabelEndRun(input, i);
    LabelRunIsSlice(input, i);
  }

  /** Reading a square whose `[` is at `i`. */
  function ReadSquare(input: string, i: nat): (o: Outcome<Square>)
    requires i < |input| && input[i] == '['
    ensures i < o.cursor <= |input|
    decreases |input| - i, 0
  {
    var name := ReadLabel(input, i + 1, true);
    if name.result.Err? then Outcome(Err(name.result.error), name.cursor)
    else SquareBody(input, name.cursor, Square(name.result.value, []))
  }

  /** The rest of a square once `square` has been read up to `i`. */
  function SquareBody(input: string, i: nat, square: Square): (o: Outcome<Square>)
    requires i <= |input|
    ensures i <= o.cursor <= |input|
    decreases |input| - i, 1
  {
    if i == |input| then Outcome(Err(UnexpectedEndOfInput), i)
    else if input[i] == ']' then Outcome(Ok(square), i + 1)
    else if input[i] != '[' then Outcome(Err(InvalidSquareContent), i)
    else
      var child := ReadSquare(input, i);
      if child.result.Err? then Outcome(Err(child.result.error), child.cursor)
      else SquareBody(input, child.cursor, square.AddInnerSquare(child.result.value))
  }

  /** Reading a circle whose `(` is at `i`. */
  function ReadCircle(input: string, i: nat): (o: Outcome<Circle>)
    requires i < |input| && input[i] == '('
    ensures i < o.cursor <= |input|
    decreases |input| - i, 0
  {
    var name := ReadLabel(input, i + 1, false);
    if name.result.Err? then Outcome(Err(name.result.error), name.cursor)
    else CircleBody(input, name.cursor, Circle(name.result.value, []))
  }

  /** The rest of a circle once `circle` has been read up to `i`. */
  function CircleBody(input: string, i: nat, circle: Circle): (o: Outcome<Circle>)
    requires i <= |input|
    ensures i <= o.cursor <= |input|
    decreases |input| - i, 1
  {
    if i == |input| then Outcome(Err(UnexpectedEndOfInput), i)
    else if input[i] == ')' then Outcome(Ok(circle), i + 1)
    else if input[i] == '[' then
      var child := ReadSquare(input, i);
      if child.result.Err? then Outcome(Err(child.result.error), child.cursor)
      else CircleBody(input, child.cursor, circle.AddInnerShape(Sq(child.result.value)))
    else if input[i] == '(' then
      var child := ReadCircle(input, i);
      if child.result.Err? then Outcome(Err(child.result.error), child.cursor)
      else CircleBody(input, child.cursor, circle.AddInnerShape(Ci(child.result.value)))
    else Outcome(Err(InvalidCircleContent), i)
  }

  /** The rest of the top level once `shapes` have been read up to `i`. */
  function ForestBody(input: string, i: nat, shapes: seq<Shape>): (o: Outcome<seq<Shape>>)
    requires i <= |input|
    ensures i <= o.cursor <= |input|
    ensures o.result.Ok? ==> o.cursor == |input|
    decreases |input| - i
  {
    if i == |input| then Outcome(Ok(shapes), i)
    else if input[i] == '[' then
      var child := ReadSquare(input, i);
      if child.result.Err? then Outcome(Err(child.result.error), child.cursor)
      else ForestBody(input, child.cursor, shapes + [Sq(child.result.value)])
    else if input[i] == '(' then
      var child := ReadCircle(input, i);
      if child.result.Err? then Outcome(Err(child.result.error), child.cursor)
      else ForestBody(input, child.cursor, shapes + [Ci(child.result.value)])
    else Outcome(Err(UnexpectedCharacter(input[i])), i)
  }

  /** The top level only appends: a successful reading keeps the shapes read before `i`, in order. */
  lemma {:induction false} ForestBodyKeeps(input: string, i: nat, shapes: seq<Shape>)
    requires i <= |input|
    ensures var o := ForestBody(input, i, shapes);
      o.result.Ok? ==> |shapes| <= |o.result.value| && o.result.value[..|shapes|] == shapes
    decreases |input| - i
  {
    if i < |input| && input[i] == '[' && ReadSquare(input, i).result.Ok? {
      var child := ReadSquare(input, i);
      ForestBodyKeeps(input, child.cursor, shapes + [Sq(child.result.value)]);
      assert (shapes + [Sq(child.result.value)])[..|shapes|] == shapes;
    } else if i < |input| && input[i] == '(' && ReadCircle(input, i).result.Ok? {
      var child := ReadCircle(input, i);
      ForestBodyKeeps(input, child.cursor, shapes + [Ci(child.result.value)]);
      assert (shapes + [Ci(child.result.value)])[..|shapes|] == shapes;
    }
  }

  /** Reading a whole input from its first character. */
  function ReadInput(input: string): (o: Outcome<seq<Shape>>)
    ensures o.cursor <= |input|
    ensures o.result.Ok? ==> o.cursor == |input|
  {
    ForestBody(input, 0, [])
  }

  // ---------------------------------------------------------------------
  // One step of each reading, for the parser's loops
  // ---------------------------------------------------------------------

  /** A square's body at a nested `[`: the child read there, then the rest. */
  lemma SquareBodyChild(input: string, i: nat, square: Square)
    requires i < |input| && input[i] == '['
    ensures var child := ReadSquare(input, i);
      SquareBody(input, i, square) ==
        if child.result.Err? then Outcome(Err(child.result.error), child.cursor)
        else SquareBody(input, child.cursor, square.AddInnerSquare(child.result.value))
  {
  }

  /** A square's body where the square ends or the reading of it stops. */
  lemma SquareBodyStop(input: string, i: nat, square: Square)
    requires i <= |input|
    ensures i == |input| ==> SquareBody(input, i, square) == Outcome(Err(UnexpectedEndOfInput), i)
    ensures i < |input| && input[i] == ']' ==> SquareBody(input, i, square) == Outcome(Ok(square), i + 1)
    ensures i < |input| && input[i] != ']' && input[i] != '[' ==>
              SquareBody(input, i, square) == Outcome(Err(InvalidSquareContent), i)
  {
  }

  /** A circle's body at a nested `[`: the square read there, then the rest. */
  lemma CircleBodySquare(input: string, i: nat, circle: Circle)
    requires i < |input| && input[i] == '['
    ensures var child := ReadSquare(input, i);
      CircleBody(input, i, circle) ==
        if child.result.Err? then Outcome(Err(child.result.error), child.cursor)
        else CircleBody(input, child.cursor, circle.AddInnerShape(Sq(child.result.value)))
  {
  }

  /** A circle's body at a nested `(`: the circle read there, then the rest. */
  lemma CircleBodyCircle(input: string, i: nat, circle: Circle)
    requires i < |input| && input[i] == '('
    ensures var child := ReadCircle(input, i);
      CircleBody(input, i, circle) ==
        if child.result.Err? then Outcome(Err(child.result.error), child.cursor)
        else CircleBody(input, child.cursor, circle.AddInnerShape(Ci(child.result.value)))
  {
  }

  /** A circle's body where the circle ends or the reading of it stops. */
  lemma CircleBodyStop(input: string, i: nat, circle: Circle)
    requires i <= |input|
    ensures i == |input| ==> CircleBody(input, i, circle) == Outcome(Err(UnexpectedEndOfInput), i)
    ensures i < |input| && input[i] == ')' ==> CircleBody(input, i, circle) == Outcome(Ok(circle), i + 1)
    ensures i < |input| && input[i] != ')' && input[i] != '[' && input[i] != '(' ==>
              CircleBody(input, i, circle) == Outcome(Err(InvalidCircleContent), i)
  {
  }

  /** The top level at a `[`: the square read there, then the rest. */
  lemma ForestBodySquare(input: string, i: nat, shapes: seq<Shape>)
    requires i < |input| && input[i] == '['
    ensures var child := ReadSquare(input, i);
      ForestBody(input, i, shapes) ==
        if child.result.Err? then Outcome(Err(child.result.error), child.cursor)
        else ForestBody(input, child.cursor, shapes + [Sq(child.result.value)])
  {
  }

  /** The top level at a `(`: the circle read there, then the rest. */
  lemma ForestBodyCircle(input: string, i: nat, shapes: seq<Shape>)
    requires i < |input| && input[i] == '('
    ensures var child := ReadCircle(input, i);
      ForestBody(input, i, shapes) ==
        if child.result.Err? then Outcome(Err(child.result.error), child.cursor)
        else ForestBody(input, child.cursor, shapes + [Ci(child.result.value)])
  {
  }

  /** The top level at the end of the input, or at a character that opens no shape. */
  lemma ForestBodyStop(input: string, i: nat, shapes: seq<Shape>)
    requires i <= |input|
    ensures i == |input| ==> ForestBody(input, i, shapes) == Outcome(Ok(shapes), i)
    ensures i < |input| && input[i] != '[' && input[i] != '(' ==>
              ForestBody(input, i, shapes) == Outcome(Err(UnexpectedCharacter(input[i])), i)
  {
  }
}
