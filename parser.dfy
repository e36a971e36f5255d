/**
 * The recursive-descent parser. One mutable cursor, `index`, walks the
 * input; `Parse` reads the top level, `ParseSquare` and `ParseCircle`
 * read one shape each and recurse into nested ones, and `ParseLabel`
 * reads a label and checks it for the kind of shape it belongs to.
 *
 * `ParseSquare` and `ParseCircle` are proved against the text form of
 * `Serial`:
 *   - sound: the characters a successful call consumes are exactly the
 *     text of the well-formed tree it returns;
 *   - complete: when the input at the cursor starts with the text of a
 *     well-formed tree, the call returns that very tree.
 * `Parse` succeeds exactly when the whole input is the text of a
 * well-formed forest, and then returns that forest. `ParseLabel` stops
 * right after the maximal run of label characters and checks that run.
 * Reading past the end of the input is an explicit error everywhere.
 */
module Parser {
  import opened Shapes
  import opened Serial
  import opened Progress
  import opened Reading
  import opened Agreement
  import opened Failures

  class ShapeParser {
    /** The cursor: the position of the next character to read. */
    var index: nat

    constructor ()
      ensures index == 0
    {
      index := 0;
    }

    /**
     * Parses a whole input into a Container. Succeeds exactly when the
     * input is the text of a forest of well-formed shapes, and then
     * returns that forest in source order with the cursor at the end.
     */
    method Parse(input: string) returns (r: Result<Container>)
      modifies this
      ensures r.Ok? ==> fresh(r.value) && index == |input|
      ensures r.Ok? ==> WellFormedShapes(r.value.shapes) && ShapesText(r.value.shapes) == input
      ensures forall c {:trigger ForestOf(input, c)} :: ForestOf(input, c) ==> r.Ok? && r.value.shapes == c
      ensures |input| > 0 && input[0] != '[' && input[0] != '(' ==> r == Err(UnexpectedCharacter(input[0]))
      ensures r.Err? ==> ErrorAt(input, index, r.error)
      ensures index == ReadInput(input).cursor
      ensures r.Ok? <==> ReadInput(input).result.Ok?
      ensures r.Ok? ==> r.value.shapes == ReadInput(input).result.value
      ensures r.Err? ==> r.error == ReadInput(input).result.error
    {
      index := 0;
      ReadInputAgrees(input);
      ForestBodyStops(input, 0, []);
      ForestBodyStop(input, 0, []);
      var container := new Container();
      while index < |input|
        invariant index <= |input|
        invariant fresh(container)
        invariant ForestBody(input, index, container.shapes) == ReadInput(input)
        decreases |input| - index
      {
        var shape: Shape;
        if input[index] == '[' {
          ForestBodySquare(input, index, container.shapes);
          var child := ParseSquare(input);
          if child.Err? {
            r := Err(child.error);
            return;
          }
          shape := Sq(child.value);
        } else if input[index] == '(' {
          ForestBodyCircle(input, index, container.shapes);
          var child := ParseCircle(input);
          if child.Err? {
            r := Err(child.error);
            return;
          }
          shape := Ci(child.value);
        } else {
          ForestBodyStop(input, index, container.shapes);
          r := Err(UnexpectedCharacter(input[index]));
          return;
        }
        container.AddShape(shape);
      }
      ForestBodyStop(input, index, container.shapes);
      r := Ok(container);
    }

    /**
     * Parses one Square; the cursor is on its `[`. Inside, only nested
     * Squares may appear before the closing `]`.
     */
    method ParseSquare(input: string) returns (r: Result<Square>)
      requires index < |input| && input[index] == '['
      modifies this
      decreases |input| - index
      ensures r.Ok? ==> old(index) < index <= |input|
      ensures r.Ok? ==> WellFormedSquare(r.value) && input[old(index)..index] == SquareText(r.value)
      ensures forall t {:trigger SquareAt(input, old(index), t)} :: SquareAt(input, old(index), t) ==>
                r == Ok(t) && index == old(index) + |SquareText(t)|
      ensures r.Err? ==> ErrorAt(input, index, r.error) && !r.error.UnexpectedCharacter?
      ensures r == ReadSquare(input, old(index)).result && index == ReadSquare(input, old(index)).cursor
    {
      ghost var start := index;
      ReadSquareAgrees(input, start);
      ReadSquareStops(input, start);
      index := index + 1;  // skip the '['
      var name := ParseLabel(input, true);
      if name.Err? {
        r := Err(name.error);
        return;
      }
      var square := NewSquare(name.value).value;
      while index == |input| || input[index] != ']'
        invariant start < index <= |input|
        invariant SquareBody(input, index, square) == ReadSquare(input, start)
        decreases |input| - index
      {
        SquareBodyStop(input, index, square);
        if index == |input| {
          r := Err(UnexpectedEndOfInput);
          return;
        }
        if input[index] != '[' {
          r := Err(InvalidSquareContent);
          return;
        }
        SquareBodyChild(input, index, square);
        var child := ParseSquare(input);
        if child.Err? {
          r := Err(child.error);
          return;
        }
        square := square.AddInnerSquare(child.value);
      }
      SquareBodyStop(input, index, square);
      index := index + 1;  // skip the closing ']'
      r := Ok(square);
    }

    /**
     * Parses one Circle; the cursor is on its `(`. Inside, nested Squares
     * and Circles may appear, in any order, before the closing `)`.
     */
    method ParseCircle(input: string) returns (r: Result<Circle>)
      requires index < |input| && input[index] == '('
      modifies this
      decreases |input| - index
      ensures r.Ok? ==> old(index) < index <= |input|
      ensures r.Ok? ==> WellFormedCircle(r.value) && input[old(index)..index] == CircleText(r.value)
      ensures forall t {:trigger CircleAt(input, old(index), t)} :: CircleAt(input, old(index), t) ==>
                r == Ok(t) && index == old(index) + |CircleText(t)|
      ensures r.Err? ==> ErrorAt(input, index, r.error) && !r.error.UnexpectedCharacter?
      ensures r == ReadCircle(input, old(index)).result && index == ReadCircle(input, old(index)).cursor
    {
      ghost var start := index;
      ReadCircleAgrees(input, start);
      ReadCircleStops(input, start);
      index := index + 1;  // skip the '('
      var name := ParseLabel(input, false);
      if name.Err? {
        r := Err(name.error);
        return;
      }
      var circle := NewCircle(name.value).value;
      while index == |input| || input[index] != ')'
        invariant start < index <= |input|
        invariant CircleBody(input, index, circle) == ReadCircle(input, start)
        decreases |input| - index
      {
        CircleBodyStop(input, index, circle);
        if index == |input| {
          r := Err(UnexpectedEndOfInput);
          return;
        }
        var shape: Shape;
        if input[index] == '[' {
          CircleBodySquare(input, index, circle);
          var child := ParseSquare(input);
          if child.Err? {
            r := Err(child.error);
            return;
          }
          shape := Sq(child.value);
        } else if input[index] == '(' {
          CircleBodyCircle(input, index, circle);
          var child := ParseCircle(input);
          if child.Err? {
            r := Err(child.error);
            return;
          }
          shape := Ci(child.value);
        } else {
          r := Err(InvalidCircleContent);
          return;
        }
        circle := circle.AddInnerShape(shape);
      }
      CircleBodyStop(input, index, circle);
      index := index + 1;  // skip the closing ')'
      r := Ok(circle);
    }

    /**
     * Reads the maximal run of `[A-Za-z0-9]` at the cursor, moves the
     * cursor past it and checks it for the kind of shape. The run must be
     * followed by some character: an input that ends inside the run is an
     * error.
     */
    method ParseLabel(input: string, isSquare: bool) returns (r: Result<string>)
      requires index <= |input|
      modifies this
      ensures old(index) <= index <= |input|
      ensures forall k :: old(index) <= k < index ==> IsAlnum(input[k])
      ensures index < |input| ==> !IsAlnum(input[index]) && r == CheckLabel(input[old(index)..index], isSquare)
      ensures index == |input| ==> r == Err(UnexpectedEndOfInput)
      ensures index == LabelEnd(input, old(index)) && r == ReadLabel(input, old(index), isSquare).result
    {
      var start := index;
      while index < |input| && IsAlnum(input[index])
        invariant start <= index <= |input|
        invariant forall k :: start <= k < index ==> IsAlnum(input[k])
        invariant LabelEnd(input, index) == LabelEnd(input, start)
        decreases |input| - index
      {
        index := index + 1;
      }
      if index == |input| {
        r := Err(UnexpectedEndOfInput);
        return;
      }
      LabelRunIsSlice(input, start);
      r := CheckLabel(input[start..index], isSquare);
    }
  }
}
