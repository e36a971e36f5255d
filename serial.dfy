/**
 * The text form of a shape tree: the reference the parser is proved
 * against. A Square is written `[` label children `]`, a Circle
 * `(` label children `)`, and a forest is its shapes written one after
 * the other with nothing in between.
 */
module Serial {
  import opened Shapes

  function SquareText(s: Square): string {
    "[" + s.name + SquaresText(s.inner) + "]"
  }

  function SquaresText(ss: seq<Square>): string {
    if ss == [] then "" else SquareText(ss[0]) + SquaresText(ss[1..])
  }

  function CircleText(c: Circle): string {
    "(" + c.name + ShapesText(c.inner) + ")"
  }

  function ShapeText(s: Shape): string {
    match s
    case Sq(q) => SquareText(q)
    case Ci(c) => CircleText(c)
  }

  function ShapesText(ss: seq<Shape>): string {
    if ss == [] then "" else ShapeText(ss[0]) + ShapesText(ss[1..])
  }

  /** `text` occurs in `input` starting at position `i`. */
  predicate Spells(input: string, i: nat, text: string) {
    i + |text| <= |input| && input[i..i + |text|] == text
  }

  /** The text of the well-formed square `t` occurs in `input` at `start`. */
  predicate SquareAt(input: string, start: nat, t: Square) {
    WellFormedSquare(t) && Spells(input, start, SquareText(t))
  }

  /** The text of the well-formed circle `t` occurs in `input` at `start`. */
  predicate CircleAt(input: string, start: nat, t: Circle) {
    WellFormedCircle(t) && Spells(input, start, CircleText(t))
  }

  /** `input` is exactly the text of the well-formed forest `c`. */
  predicate ForestOf(input: string, c: seq<Shape>) {
    WellFormedShapes(c) && ShapesText(c) == input
  }

  // ---------------------------------------------------------------------
  // Writing a forest piece by piece
  // ---------------------------------------------------------------------

  /** Writing two lists of squares one after the other writes their concatenation. */
  lemma {:induction false} SquaresTextAppend(a: seq<Square>, b: seq<Square>)
    ensures SquaresText(a + b) == SquaresText(a) + SquaresText(b)
  {
    if a == [] {
      assert a + b == b;
    } else {
      assert (a + b)[0] == a[0];
      assert (a + b)[1..] == a[1..] + b;
      SquaresTextAppend(a[1..], b);
    }
  }

  /** Writing two lists of shapes one after the other writes their concatenation. */
  lemma {:induction false} ShapesTextAppend(a: seq<Shape>, b: seq<Shape>)
    ensures ShapesText(a + b) == ShapesText(a) + ShapesText(b)
  {
    if a == [] {
      assert a + b == b;
    } else {
      assert (a + b)[0] == a[0];
      assert (a + b)[1..] == a[1..] + b;
      ShapesTextAppend(a[1..], b);
    }
  }

  /** Appending one square to a list appends its text. */
  lemma SquaresTextSnoc(a: seq<Square>, x: Square)
    ensures SquaresText(a + [x]) == SquaresText(a) + SquareText(x)
  {
    SquaresTextAppend(a, [x]);
    assert SquaresText([x]) == SquareText(x) + SquaresText([]);
  }

  /** Appending one shape to a list appends its text. */
  lemma ShapesTextSnoc(a: seq<Shape>, x: Shape)
    ensures ShapesText(a + [x]) == ShapesText(a) + ShapeText(x)
  {
    ShapesTextAppend(a, [x]);
    assert ShapesText([x]) == ShapeText(x) + ShapesText([]);
  }

  /** A square's text opens with `[` and closes with `]`, around its label and children. */
  lemma SquareTextShape(s: Square)
    ensures |SquareText(s)| == |s.name| + |SquaresText(s.inner)| + 2
    ensures SquareText(s)[0] == '[' && SquareText(s)[|SquareText(s)| - 1] == ']'
    ensures SquareText(s)[1..1 + |s.name|] == s.name
    ensures SquareText(s)[1 + |s.name|..|SquareText(s)| - 1] == SquaresText(s.inner)
  {
  }

  /** A circle's text opens with `(` and closes with `)`, around its label and children. */
  lemma CircleTextShape(c: Circle)
    ensures |CircleText(c)| == |c.name| + |ShapesText(c.inner)| + 2
    ensures CircleText(c)[0] == '(' && CircleText(c)[|CircleText(c)| - 1] == ')'
    ensures CircleText(c)[1..1 + |c.name|] == c.name
    ensures CircleText(c)[1 + |c.name|..|CircleText(c)| - 1] == ShapesText(c.inner)
  {
  }

  /** The text of a non-empty list of squares starts with `[`. */
  lemma SquaresTextHead(ss: seq<Square>)
    requires ss != []
    ensures |SquaresText(ss)| > 0 && SquaresText(ss)[0] == '['
  {
    SquareTextShape(ss[0]);
  }

  /** The text of a non-empty list of shapes starts with `[` or `(`, matching the first shape's kind. */
  lemma ShapesTextHead(ss: seq<Shape>)
    requires ss != []
    ensures |ShapeText(ss[0])| > 0 && |ShapesText(ss)| > 0
    ensures ShapeText(ss[0])[0] == ShapesText(ss)[0] == (if ss[0].Sq? then '[' else '(')
  {
    match ss[0]
    case Sq(q) => SquareTextShape(q);
    case Ci(c) => CircleTextShape(c);
  }

  /** A square's text opens with `[`. */
  lemma SquareTextFirst(s: Square)
    ensures |SquareText(s)| > 0 && SquareText(s)[0] == '['
  {
  }

  /** A shape's text opens with the delimiter of its kind. */
  lemma ShapeTextFirst(s: Shape)
    ensures |ShapeText(s)| > 0 && ShapeText(s)[0] == (if s.Sq? then '[' else '(')
  {
    match s
    case Sq(q) => SquareTextShape(q);
    case Ci(c) => CircleTextShape(c);
  }

  /** Every shape writes at least its two delimiters and one label character. */
  lemma ShapeTextLength(s: Shape)
    requires WellFormedShape(s)
    ensures |ShapeText(s)| >= 3
  {
    match s
    case Sq(q) => SquareTextShape(q);
    case Ci(c) => CircleTextShape(c);
  }

  /**
   * A well-formed square never writes `(` or `)`: the text of a Square
   * can hold no Circle anywhere inside it.
   */
  lemma {:induction false} SquareTextHasNoParens(s: Square)
    requires WellFormedSquare(s)
    ensures '(' !in SquareText(s) && ')' !in SquareText(s)
  {
    assert '(' !in s.name && ')' !in s.name by {
      forall i | 0 <= i < |s.name| ensures s.name[i] != '(' && s.name[i] != ')' {
        assert IsDigit(s.name[i]);
      }
    }
    SquaresTextHasNoParens(s.inner);
  }

  lemma {:induction false} SquaresTextHasNoParens(ss: seq<Square>)
    requires forall i :: 0 <= i < |ss| ==> WellFormedSquare(ss[i])
    ensures '(' !in SquaresText(ss) && ')' !in SquaresText(ss)
  {
    if ss != [] {
      SquareTextHasNoParens(ss[0]);
      SquaresTextHasNoParens(ss[1..]);
    }
  }

  // ---------------------------------------------------------------------
  // Where the pieces of a shape's text lie in a longer input
  // ---------------------------------------------------------------------

  lemma SpellsSplit(input: string, i: nat, a: string, b: string)
    requires Spells(input, i, a + b)
    ensures Spells(input, i, a) && Spells(input, i + |a|, b)
  {
    assert input[i..i + |a|] == (a + b)[..|a|];
    assert input[i + |a|..i + |a| + |b|] == (a + b)[|a|..];
  }

  lemma SpellsChar(input: string, i: nat, text: string, j: nat)
    requires Spells(input, i, text) && j < |text|
    ensures input[i + j] == text[j]
  {
    assert input[i..i + |text|][j] == input[i + j];
  }

  /** A text found at `i` that opens with `c` puts `c` at `i`. */
  lemma SpellsOpens(input: string, i: nat, text: string, c: char)
    requires Spells(input, i, text) && |text| > 0 && text[0] == c
    ensures i < |input| && input[i] == c
  {
    SpellsChar(input, i, text, 0);
  }

  /** A delimited text `o name kids c` found at `i`, taken apart. */
  lemma FramedSpells(input: string, i: nat, o: char, name: string, kids: string, c: char)
    requires Spells(input, i, [o] + name + kids + [c])
    ensures input[i] == o && input[i + 1 + |name| + |kids|] == c
    ensures Spells(input, i + 1, name) && Spells(input, i + 1 + |name|, kids + [c])
    ensures Spells(input, i + 1 + |name|, kids)
  {
    var tail := kids + [c];
    assert [o] + name + kids + [c] == [o] + (name + tail);
    SpellsSplit(input, i, [o], name + tail);
    SpellsChar(input, i, [o], 0);
    SpellsSplit(input, i + 1, name, tail);
    SpellsSplit(input, i + 1 + |name|, kids, [c]);
    SpellsChar(input, i + 1 + |name| + |kids|, [c], 0);
  }

  /** The text of a well-formed square, found at `i`, laid out piece by piece. */
  lemma SquareLaidOut(input: string, i: nat, t: Square)
    requires Spells(input, i, SquareText(t))
    ensures |SquareText(t)| == |t.name| + |SquaresText(t.inner)| + 2
    ensures input[i] == '[' && input[i + |SquareText(t)| - 1] == ']'
    ensures Spells(input, i + 1, t.name)
    ensures i + 1 + |t.name| < |input| && !IsAlnum(input[i + 1 + |t.name|])
    ensures Spells(input, i + 1 + |t.name|, SquaresText(t.inner))
  {
    var kids := SquaresText(t.inner);
    FramedSpells(input, i, '[', t.name, kids, ']');
    var tail := kids + "]";
    if t.inner != [] {
      SquaresTextHead(t.inner);
    }
    assert tail[0] == '[' || tail[0] == ']';
    SpellsChar(input, i + 1 + |t.name|, tail, 0);
  }

  /** The text of a well-formed circle, found at `i`, laid out piece by piece. */
  lemma CircleLaidOut(input: string, i: nat, t: Circle)
    requires Spells(input, i, CircleText(t))
    ensures |CircleText(t)| == |t.name| + |ShapesText(t.inner)| + 2
    ensures input[i] == '(' && input[i + |CircleText(t)| - 1] == ')'
    ensures Spells(input, i + 1, t.name)
    ensures i + 1 + |t.name| < |input| && !IsAlnum(input[i + 1 + |t.name|])
    ensures Spells(input, i + 1 + |t.name|, ShapesText(t.inner))
  {
    var kids := ShapesText(t.inner);
    FramedSpells(input, i, '(', t.name, kids, ')');
    var tail := kids + ")";
    if t.inner != [] {
      ShapesTextHead(t.inner);
    }
    assert tail[0] == '[' || tail[0] == '(' || tail[0] == ')';
    SpellsChar(input, i + 1 + |t.name|, tail, 0);
  }

  /**
   * Where a square's parse stands after its label and its first `k`
   * children: at the next child, which opens with `[`, or, once all
   * children are read, at the closing `]`, the last character of its text.
   */
  predicate SquareResumesAt(input: string, start: nat, index: nat, t: Square, k: nat) {
    k <= |t.inner| && index < |input| &&
    (k < |t.inner| ==> input[index] == '[' && Spells(input, index, SquareText(t.inner[k]))) &&
    (k == |t.inner| ==> input[index] == ']' && index + 1 == start + |SquareText(t)|)
  }

  /** Where a circle's parse stands after its label and its first `k` children. */
  predicate CircleResumesAt(input: string, start: nat, index: nat, t: Circle, k: nat) {
    k <= |t.inner| && index < |input| &&
    (k < |t.inner| ==>
       input[index] == (if t.inner[k].Sq? then '[' else '(') &&
       Spells(input, index, ShapeText(t.inner[k]))) &&
    (k == |t.inner| ==> input[index] == ')' && index + 1 == start + |CircleText(t)|)
  }

  /** Where the top-level parse stands after the first `k` shapes of a forest. */
  predicate ForestResumesAt(input: string, index: nat, c: seq<Shape>, k: nat) {
    k <= |c| &&
    (k < |c| ==>
       index < |input| &&
       input[index] == (if c[k].Sq? then '[' else '(') &&
       Spells(input, index, ShapeText(c[k]))) &&
    (k == |c| ==> index == |input|)
  }

  /** In the text of a list of squares, the `k`-th square's text follows that of the first `k`. */
  lemma SquaresSplitAt(input: string, q0: nat, ss: seq<Square>, k: nat)
    requires Spells(input, q0, SquaresText(ss)) && k <= |ss|
    ensures k < |ss| ==> Spells(input, q0 + |SquaresText(ss[..k])|, SquareText(ss[k]))
    ensures k == |ss| ==> ss[..k] == ss
  {
    assert ss == ss[..k] + ss[k..];
    SquaresTextAppend(ss[..k], ss[k..]);
    SpellsSplit(input, q0, SquaresText(ss[..k]), SquaresText(ss[k..]));
    if k < |ss| {
      var rest := ss[k..];
      assert rest[0] == ss[k] && rest[1..] == ss[k + 1..];
      SpellsSplit(input, q0 + |SquaresText(ss[..k])|, SquareText(ss[k]), SquaresText(ss[k + 1..]));
    }
  }

  /** In the text of a list of shapes, the `k`-th shape's text follows that of the first `k`. */
  lemma ShapesSplitAt(input: string, q0: nat, ss: seq<Shape>, k: nat)
    requires Spells(input, q0, ShapesText(ss)) && k <= |ss|
    ensures k < |ss| ==> Spells(input, q0 + |ShapesText(ss[..k])|, ShapeText(ss[k]))
    ensures k == |ss| ==> ss[..k] == ss
  {
    assert ss == ss[..k] + ss[k..];
    ShapesTextAppend(ss[..k], ss[k..]);
    SpellsSplit(input, q0, ShapesText(ss[..k]), ShapesText(ss[k..]));
    if k < |ss| {
      var rest := ss[k..];
      assert rest[0] == ss[k] && rest[1..] == ss[k + 1..];
      SpellsSplit(input, q0 + |ShapesText(ss[..k])|, ShapeText(ss[k]), ShapesText(ss[k + 1..]));
    }
  }

  /** The children's text of a square found at `start` follows its `[` and label. */
  lemma SquareKidsAt(input: string, start: nat, t: Square)
    requires Spells(input, start, SquareText(t))
    ensures Spells(input, start + 1 + |t.name|, SquaresText(t.inner))
  {
    var kids := SquaresText(t.inner);
    assert SquareText(t) == ("[" + t.name) + (kids + "]");
    SpellsSplit(input, start, "[" + t.name, kids + "]");
    SpellsSplit(input, start + 1 + |t.name|, kids, "]");
  }

  /** The children's text of a circle found at `start` follows its `(` and label. */
  lemma CircleKidsAt(input: string, start: nat, t: Circle)
    requires Spells(input, start, CircleText(t))
    ensures Spells(input, start + 1 + |t.name|, ShapesText(t.inner))
  {
    var kids := ShapesText(t.inner);
    assert CircleText(t) == ("(" + t.name) + (kids + ")");
    SpellsSplit(input, start, "(" + t.name, kids + ")");
    SpellsSplit(input, start + 1 + |t.name|, kids, ")");
  }

  /** The `k`-th child of a square found at `start` lies right after its label and first `k` children. */
  lemma SquareChildAt(input: string, start: nat, t: Square, k: nat)
    requires Spells(input, start, SquareText(t))
    requires k < |t.inner|
    ensures var q := start + 1 + |t.name| + |SquaresText(t.inner[..k])|;
            q < |input| && input[q] == '[' && Spells(input, q, SquareText(t.inner[k]))
  {
    var p := start + 1 + |t.name|;
    SquareKidsAt(input, start, t);
    SquaresSplitAt(input, p, t.inner, k);
    SquareTextFirst(t.inner[k]);
    SpellsOpens(input, p + |SquaresText(t.inner[..k])|, SquareText(t.inner[k]), '[');
  }

  /** After its label and all of its children, a square found at `start` has its closing `]`. */
  lemma SquareCloseAt(input: string, start: nat, t: Square)
    requires Spells(input, start, SquareText(t))
    ensures var q := start + 1 + |t.name| + |SquaresText(t.inner[..|t.inner|])|;
            q < |input| && input[q] == ']' && q + 1 == start + |SquareText(t)|
  {
    SquareLaidOut(input, start, t);
    assert t.inner[..|t.inner|] == t.inner;
  }

  /** The `k`-th child of a circle found at `start` lies right after its label and first `k` children. */
  lemma CircleChildAt(input: string, start: nat, t: Circle, k: nat)
    requires Spells(input, start, CircleText(t))
    requires k < |t.inner|
    ensures var q := start + 1 + |t.name| + |ShapesText(t.inner[..k])|;
            q < |input| && input[q] == (if t.inner[k].Sq? then '[' else '(') &&
            Spells(input, q, ShapeText(t.inner[k]))
  {
    var p := start + 1 + |t.name|;
    CircleKidsAt(input, start, t);
    ShapesSplitAt(input, p, t.inner, k);
    ShapeTextFirst(t.inner[k]);
    SpellsOpens(input, p + |ShapesText(t.inner[..k])|, ShapeText(t.inner[k]), if t.inner[k].Sq? then '[' else '(');
  }

  /** After its label and all of its children, a circle found at `start` has its closing `)`. */
  lemma CircleCloseAt(input: string, start: nat, t: Circle)
    requires Spells(input, start, CircleText(t))
    ensures var q := start + 1 + |t.name| + |ShapesText(t.inner[..|t.inner|])|;
            q < |input| && input[q] == ')' && q + 1 == start + |CircleText(t)|
  {
    CircleLaidOut(input, start, t);
    assert t.inner[..|t.inner|] == t.inner;
  }

  lemma SquareNext(input: string, start: nat, t: Square, k: nat)
    requires Spells(input, start, SquareText(t))
    requires k <= |t.inner|
    ensures SquareResumesAt(input, start, start + 1 + |t.name| + |SquaresText(t.inner[..k])|, t, k)
  {
    if k < |t.inner| {
      SquareChildAt(input, start, t, k);
    } else {
      SquareCloseAt(input, start, t);
    }
  }

  lemma CircleNext(input: string, start: nat, t: Circle, k: nat)
    requires Spells(input, start, CircleText(t))
    requires k <= |t.inner|
    ensures CircleResumesAt(input, start, start + 1 + |t.name| + |ShapesText(t.inner[..k])|, t, k)
  {
    if k < |t.inner| {
      CircleChildAt(input, start, t, k);
    } else {
      CircleCloseAt(input, start, t);
    }
  }

  lemma ForestNext(input: string, c: seq<Shape>, k: nat)
    requires ShapesText(c) == input
    requires k <= |c|
    ensures ForestResumesAt(input, |ShapesText(c[..k])|, c, k)
  {
    assert Spells(input, 0, input);
    ShapesSplitAt(input, 0, c, k);
    if k < |c| {
      ShapeTextFirst(c[k]);
      SpellsChar(input, |ShapesText(c[..k])|, ShapeText(c[k]), 0);
    }
  }

  lemma PrefixExtend<T>(s: seq<T>, k: nat)
    requires k < |s|
    ensures s[..k + 1] == s[..k] + [s[k]]
  {
  }

  /** After one more child of a square, the parse resumes right behind it. */
  lemma SquareNextChild(input: string, start: nat, t: Square, done: seq<Square>, index: nat)
    requires Spells(input, start, SquareText(t))
    requires |done| < |t.inner| && done == t.inner[..|done|]
    requires index == start + 1 + |t.name| + |SquaresText(done)| + |SquareText(t.inner[|done|])|
    ensures done + [t.inner[|done|]] == t.inner[..|done| + 1]
    ensures SquareResumesAt(input, start, index, t, |done| + 1)
  {
    var k := |done|;
    PrefixExtend(t.inner, k);
    SquaresTextSnoc(done, t.inner[k]);
    assert index == start + 1 + |t.name| + |SquaresText(t.inner[..k + 1])|;
    SquareNext(input, start, t, k + 1);
  }

  /** After one more child of a circle, the parse resumes right behind it. */
  lemma CircleNextChild(input: string, start: nat, t: Circle, done: seq<Shape>, index: nat)
    requires Spells(input, start, CircleText(t))
    requires |done| < |t.inner| && done == t.inner[..|done|]
    requires index == start + 1 + |t.name| + |ShapesText(done)| + |ShapeText(t.inner[|done|])|
    ensures done + [t.inner[|done|]] == t.inner[..|done| + 1]
    ensures CircleResumesAt(input, start, index, t, |done| + 1)
  {
    var k := |done|;
    PrefixExtend(t.inner, k);
    ShapesTextSnoc(done, t.inner[k]);
    assert index == start + 1 + |t.name| + |ShapesText(t.inner[..k + 1])|;
    CircleNext(input, start, t, k + 1);
  }

  /** After one more top-level shape, the parse resumes right behind it. */
  lemma ForestNextShape(input: string, c: seq<Shape>, done: seq<Shape>, index: nat)
    requires ShapesText(c) == input
    requires |done| < |c| && done == c[..|done|]
    requires index == |ShapesText(done)| + |ShapeText(c[|done|])|
    ensures done + [c[|done|]] == c[..|done| + 1]
    ensures ForestResumesAt(input, index, c, |done| + 1)
  {
    var k := |done|;
    PrefixExtend(c, k);
    ShapesTextSnoc(done, c[k]);
    assert index == |ShapesText(c[..k + 1])|;
    ForestNext(input, c, k + 1);
  }

  // ---------------------------------------------------------------------
  // What the text of a forest reveals about its first shape
  // ---------------------------------------------------------------------

  /**
   * A forest whose text opens with `[` opens with a square. Its text
   * (the first `m` characters) has a digit right after the `[`, ends with
   * `]`, and has no `(` or `)` anywhere, since a square holds no circle.
   */
  lemma LeadingSquare(c: seq<Shape>)
    requires WellFormedShapes(c) && |ShapesText(c)| > 0 && ShapesText(c)[0] == '['
    ensures c != [] && c[0].Sq?
    ensures var s := ShapesText(c); var m := |SquareText(c[0].square)|;
            3 <= m <= |s| && IsDigit(s[1]) && s[m - 1] == ']' &&
            forall j :: 0 <= j < m ==> s[j] != '(' && s[j] != ')'
  {
    ShapesTextHead(c);
    var q := c[0].square;
    var s := ShapesText(c);
    assert WellFormedShape(c[0]);
    SquareTextShape(q);
    SquareTextHasNoParens(q);
    assert s == SquareText(q) + ShapesText(c[1..]);
    assert s[1] == q.name[0];
    forall j | 0 <= j < |SquareText(q)|
      ensures s[j] != '(' && s[j] != ')'
    {
      assert s[j] == SquareText(q)[j];
    }
  }

  /** Every shape writes at least three characters, so no forest writes one or two. */
  lemma ShortTextIsNoForest(input: string)
    requires 0 < |input| < 3
    ensures forall c {:trigger ForestOf(input, c)} :: !ForestOf(input, c)
  {
    forall c: seq<Shape> | ForestOf(input, c)
      ensures false
    {
      assert c != [];
      assert WellFormedShape(c[0]);
      ShapeTextLength(c[0]);
    }
  }
}
