# Shape parser — a verified model

The Shape-Parser repository reads a small bracket language of nested shapes
and builds a tree of shape objects. It ships twice: once in Python
(`shapes_parser.py`) and once as a line-for-line JavaScript port
(`shapesParser.js`).

- A **Square** is written `[` label children `]`. Its label is a non-empty
  run of digits, and it may hold only Squares.
- A **Circle** is written `(` label children `)`. Its label is a non-empty
  run of upper-case letters, and it may hold Squares and Circles in any
  order.
- A **Container** holds the top-level shapes of one input, in source order.
- The **ShapeParser** walks the input with one mutable cursor, `index`:
  - `parse` dispatches on `[` and `(` at the top level;
  - `parse_square` and `parse_circle` read a label, then nested shapes up
    to the closing delimiter, recursing for each;
  - `parse_label` reads the maximal run of `[A-Za-z0-9]` and checks it
    against the rule for the shape's kind.

The model has nine modules:

- `Shapes` (shapes.dfy) holds the shapes as datatypes, the label rules, the
  constructors and the Container class.
- `Serial` (serial.dfy) writes a tree back to text. This is the reference
  the parser is proved against.
- `Reading` (reading.dfy) states what the parser computes as recursive
  functions over the input: `ReadSquare`, `ReadCircle` and `ReadInput`
  return the result and the cursor a parse call leaves behind, error
  cases included.
- `Progress` (progress.dfy) holds the invariants of a reading in
  progress, with one lemma per step of a parse loop.
- `Agreement` (agreement.dfy) proves the readings sound and complete
  against the text form.
- `Failures` (failures.dfy) proves which error a malformed input gives,
  and where.
- `Parser` (parser.dfy) is the ShapeParser class. `index` is a field, and
  each parse method is a `while` loop that advances it. Each method is
  proved to return exactly the result and cursor of its reading.
- `Findings` (findings.dfy) models two places where the source as written
  departs from its intent.
- `Scenarios` (scenarios.dfy) holds the repository's test inputs, with the
  outcomes they expect proved from the parser's contracts.

`ParseSquare` and `ParseCircle` are proved in both directions against
the text form:

- **sound**: on success, the characters consumed are exactly the text of
  the returned tree, and every label and nesting rule holds throughout
  the tree;
- **complete**: whenever the text of a well-formed tree starts at the
  cursor, the method returns that tree and stops right after its text.

`ParseLabel` is proved to stop exactly after the maximal run of label
characters and to return the label check of that run.

For a whole input this gives a round trip:
- `Parse` succeeds exactly on the texts of well-formed forests;
- it returns the forest that was written;
- every forest it returns writes back to the input.

On failure, each parse method returns exactly the error and the cursor
of its reading. The `Failures` lemmas then say which error that is for
an input that starts with well-formed text:
- the character that stands where the well-formed text stops;
- the label run that breaks its kind's rule;
- or the end of the input.

The two copies of the source disagree on circle labels:
- Python's `isupper()` accepts `"AB1"`;
- JavaScript requires `^[A-Z]+$`.

The model follows the stricter JavaScript rule, which matches the class
comment (`shapes_parser.py:20`) and the error text. It checks labels
against ASCII classes.

Reading past the end of the input is a separate error,
`UnexpectedEndOfInput`, everywhere. On such inputs the two copies
disagree:
- Python raises `IndexError`;
- the JavaScript label scan never terminates;
- the JavaScript square and circle loops report invalid content.

## Model

| member | source | states |
|---|---|---|
| Shapes.NewSquare | shapes_parser.py:8-12 | construction succeeds exactly when the label is a non-empty run of digits; the new Square has that label and no children; otherwise the error names the label; the empty label is rejected |
| Shapes.NewCircle | shapesParser.js:28-34 | construction succeeds exactly when the label is a non-empty run of `A`–`Z`; the new Circle has that label and no children; the empty label and labels with digits or lower-case letters are rejected |
| Shapes.Square.AddInnerSquare | shapes_parser.py:14-18 | exactly one child is appended at the end; the label and the earlier children are unchanged; well-formedness is kept |
| Shapes.Circle.AddInnerShape | shapes_parser.py:28-32 | exactly one Square or Circle is appended at the end; the label and the earlier children are unchanged; well-formedness is kept |
| Shapes.CheckLabel | shapes_parser.py:109-115 | a label passes exactly when it meets its kind's rule (digits for a square, upper-case letters for a circle) and is returned unchanged; otherwise the error names the label and its kind |
| Shapes.Container.constructor | shapes_parser.py:36-37 | a new Container holds no shapes |
| Shapes.Container.AddShape | shapes_parser.py:39-40 | the shape is appended at the end of the Container's shapes, and nothing else changes |
| Parser.ShapeParser.constructor | shapes_parser.py:44-45 | a new parser's cursor is at 0 |
| Parser.ShapeParser.Parse | shapes_parser.py:48-63 | returns exactly the result of `ReadInput`, the reading of the whole input, and leaves the cursor where that reading stops; on success the cursor is at the end of the input, the Container is new, its shapes are well-formed and write back to exactly the input; every well-formed forest whose text is the input is returned as it is, in source order; a first character other than `[` or `(` fails with that character; on failure the error describes what the input holds at the cursor |
| Parser.ShapeParser.ParseSquare | shapes_parser.py:66-79 | returns exactly the result of `ReadSquare` at the `[` and leaves the cursor where that reading stops; on success it consumes exactly the text of the returned well-formed Square; any well-formed square written at the cursor is returned, with the cursor just past it; on failure the error describes what the input holds at the cursor and is never an unexpected top-level character |
| Parser.ShapeParser.ParseCircle | shapes_parser.py:82-97 | returns exactly the result of `ReadCircle` at the `(` and leaves the cursor where that reading stops; on success it consumes exactly the text of the returned well-formed Circle, whose nested Squares and Circles are in source order; any well-formed circle written at the cursor is returned, with the cursor just past it; on failure the error describes what the input holds at the cursor and is never an unexpected top-level character |
| Parser.ShapeParser.ParseLabel | shapes_parser.py:100-115 | moves the cursor exactly past the maximal run of `[A-Za-z0-9]`, every character of which is a label character, and returns the label check of that run; at the end of the input it stops with `UnexpectedEndOfInput`; its result is that of `ReadLabel` |
| Reading.LabelEnd | shapes_parser.py:104-105 | the label scan stops at or after its start, never past the end of the input, and only on a character that is not `[A-Za-z0-9]` |
| Reading.LabelEndRun | shapes_parser.py:104-105 | every character the label scan passes over is in `[A-Za-z0-9]` |
| Reading.LabelRunIsSlice | shapes_parser.py:107 | the run read character by character is the slice of the input from the start of the scan to where it stops |
| Reading.ReadLabelIsRun | shapes_parser.py:100-115 | the label reading passes over characters of `[A-Za-z0-9]` only and never runs past the end of the input; when it stops inside the input, it stops on a character outside that class and its result is the label check of exactly the slice it passed over; when it reaches the end of the input it fails with `UnexpectedEndOfInput` |
| Reading.ForestBodyKeeps | shapes_parser.py:53-59 | the top-level loop only appends: a successful reading keeps the shapes read before, in order, as a prefix of its result |
| Agreement.ReadSquareAgrees | shapes_parser.py:66-79 | reading a square is sound (a success is a well-formed Square whose text is exactly what was consumed) and complete (any well-formed square written at the `[` is read as itself, with the cursor right after its text) |
| Agreement.ReadCircleAgrees | shapes_parser.py:82-97 | the same for reading a circle at its `(` |
| Agreement.ReadInputAgrees | shapes_parser.py:48-63 | reading a whole input succeeds with a forest that writes back to the input, and every forest written as the input is what the reading returns |
| Failures.SquaresTextWritten | shapes_parser.py:72-74 | the text of well-formed squares at a position writes them one after the other, the last ending where that text ends |
| Failures.ShapesTextWritten | shapes_parser.py:88-92 | the same for the text of well-formed shapes |
| Failures.SquaresLaidOut | shapes_parser.py:72-74 | well-formed squares written one after the other are read one after the other, each starting where the one before stopped and the last stopping where its text ends |
| Failures.ShapesLaidOut | shapes_parser.py:88-92 | the same for well-formed squares and circles written one after the other |
| Failures.SquareKidsRead | shapes_parser.py:72-74 | squares read one after the other inside a square become its next children, in order, and the square's loop resumes after the last of them |
| Failures.CircleKidsRead | shapes_parser.py:88-92 | shapes read one after the other inside a circle become its next children, in order, and the circle's loop resumes after the last of them |
| Failures.ForestShapesRead | shapes_parser.py:53-59 | shapes read one after the other at the top level become the next shapes of the Container, in order, and the top-level loop resumes after the last of them |
| Failures.SquareOpens | shapes_parser.py:66-74 | a square with a valid label, whose children are read in turn up to a position, is read up to that position holding exactly those children |
| Failures.CircleOpens | shapes_parser.py:82-92 | the same for a circle |
| Failures.SquareContentRejected | shapes_parser.py:72-76 | after a valid label and children read in turn, a character other than `[` or `]` makes the square fail with `InvalidSquareContent`, with the cursor on that character |
| Failures.SquareEndsEarly | shapes_parser.py:72 | a square whose label and children run to the end of the input, unclosed, fails with `UnexpectedEndOfInput` at the end |
| Failures.SquareChildRejected | shapes_parser.py:73-74 | a nested square that fails after the label and the children read so far makes the enclosing square fail with the same error and cursor |
| Failures.SquareLabelRejected | shapes_parser.py:104-111 | a run of label characters after `[` that is not all digits, followed by some other character, makes the square fail with `InvalidSquareLabel` naming the run, with the cursor right after it |
| Failures.CircleContentRejected | shapes_parser.py:88-94 | after a valid label and children read in turn, a character other than `[`, `(` or `)` makes the circle fail with `InvalidCircleContent`, with the cursor on that character |
| Failures.CircleEndsEarly | shapes_parser.py:88 | a circle whose label and children run to the end of the input, unclosed, fails with `UnexpectedEndOfInput` at the end |
| Failures.CircleChildRejected | shapes_parser.py:89-92 | a nested square or circle that fails after the label and the children read so far makes the enclosing circle fail with the same error and cursor |
| Failures.CircleLabelRejected | shapes_parser.py:104-113 | a run of label characters after `(` that is not all upper-case letters, followed by some other character, makes the circle fail with `InvalidCircleLabel` naming the run, with the cursor right after it |
| Failures.StrayCharacterRejected | shapes_parser.py:60-61 | after shapes read in turn from the start of the input, a character other than `[` or `(` makes the whole reading fail with `UnexpectedCharacter` of that character, at its position |
| Failures.ForestShapeRejected | shapes_parser.py:56-59 | a square or circle that fails after shapes read in turn from the start of the input makes the whole reading fail with the same error and cursor |
| Failures.ReadSquareStops | shapes_parser.py:66-79 | every error of a square reading describes what the input holds where it stopped (the end of the input, a stray character inside the square, or a bad label right before the cursor), and it is never an unexpected top-level character |
| Failures.SquareBodyStops | shapes_parser.py:72-78 | the same for the rest of a square after its label |
| Failures.ReadCircleStops | shapes_parser.py:82-97 | the same for a circle reading |
| Failures.CircleBodyStops | shapes_parser.py:88-96 | the same for the rest of a circle after its label |
| Failures.ForestBodyStops | shapes_parser.py:53-61 | every error of the top-level reading describes what the input holds where it stopped |
| Serial.SquareTextHasNoParens | shapes_parser.py:72-76 | the text of a well-formed Square has no `(` or `)` anywhere, so a Square never holds a Circle |
| Serial.ShapeTextLength | shapes_parser.py:9-10 | every well-formed shape writes at least three characters, because its label is never empty |
| Serial.SquaresTextAppend | shapes_parser.py:71-74 | writing the children one after the other writes the concatenation of their texts; this is the order in which the square loop appends them |
| Serial.ShapesTextAppend | shapes_parser.py:87-92 | the same for the shapes of a circle or a container |
| Serial.LeadingSquare | shapes_parser.py:56-57 | a forest whose text opens with `[` opens with a Square; that Square's text has a digit after the `[`, ends in `]` and holds no `(` or `)` |
| Serial.ShortTextIsNoForest | shapes_parser.py:110-113 | no well-formed forest writes one or two characters |
| Progress.SquareLabelRead | shapes_parser.py:67-69 | after the `[`, the label scan reads exactly the label of any well-formed square written there |
| Progress.CircleLabelRead | shapes_parser.py:83-85 | after the `(`, the label scan reads exactly the label of any well-formed circle written there |
| Progress.SquareStep | shapes_parser.py:73-74 | a square read at a nested `[` is the next child of any well-formed square being read; the partial square stays a prefix of it |
| Progress.CircleStepSquare | shapes_parser.py:89-90 | a square read at a nested `[` inside a circle is that circle's next child |
| Progress.CircleStepCircle | shapes_parser.py:91-92 | a circle read at a nested `(` inside a circle is that circle's next child |
| Progress.ForestStepSquare | shapes_parser.py:56-57 | a square read at a top-level `[` is the next shape of any forest written as the input |
| Progress.ForestStepCircle | shapes_parser.py:58-59 | a circle read at a top-level `(` is the next shape of any forest written as the input |
| Progress.SquareAtCursor | shapes_parser.py:72-78 | inside a well-formed square, the cursor is on a `[` or on the closing `]`, where the square read so far is the whole square |
| Progress.CircleAtCursor | shapes_parser.py:88-96 | inside a well-formed circle, the cursor is on a `[`, a `(` or the closing `)`, where the circle read so far is the whole circle |
| Progress.ForestAtCursor | shapes_parser.py:53-63 | at the top level of a forest's text, the cursor is on a `[` or `(`, or at the end, where the shapes read so far are the whole forest |
| Findings.PyCheckCircleLabel | shapes_parser.py:112-113 | the Python circle-label check as written: it passes exactly the labels with an upper-case letter and no lower-case one |
| Findings.PyCheckAcceptsCircleLabels | shapes_parser.py:23-24 | every label the intended rule accepts, the Python check accepts too |
| Findings.PyCheckAcceptsDigitInCircleLabel | shapes_parser.py:112 | the Python check accepts `"AB1"`, which the intended rule rejects |
| Findings.JsLabelCharTest | shapesParser.js:127 | inside the input, the JavaScript scan test is the label-character class; past the end it always passes |
| Findings.JsLabelScan | shapesParser.js:127-129 | the JavaScript scan never moves backwards or by more than one place per round, and it exits only on a character that fails the test |
| Findings.JsLabelScanNeverExits | shapesParser.js:123-129 | when the rest of the input is label characters, the JavaScript scan has not exited after any number of rounds |
| Findings.JsLabelScanHangsOnUnclosedSquare | shapesParser.js:127 | on `"[13"` the JavaScript scan, started after the `[`, never exits |
| Scenarios.ParseWithFreshParser | test_shapes_parser.py:6-7 | a fresh parser returns the reading of the input; its result is a forest that writes the input, and it is the forest written there when there is one |
| Scenarios.ParseTwice | shapes_parser.py:48-50 | `parse` starts every call from position 0 with a new Container, so parsing the same input twice on one parser gives the same outcome both times: the reading of that input |
| Scenarios.ValidSquare | test_shapes_parser.py:10-16 | `"[13]"` yields exactly one Square labelled `"13"` |
| Scenarios.ValidCircle | test_shapes_parser.py:19-25 | `"(DOG)"` yields exactly one Circle labelled `"DOG"` |
| Scenarios.CircleWithSquare | test_shapes_parser.py:28-36 | `"(DOG[15])"` yields a Circle `"DOG"` holding exactly one Square `"15"` |
| Scenarios.NestedSquares | shapes_parser.py:72-74 | `"[1[2[3]]]"` yields one Square holding a chain of two nested Squares |
| Scenarios.InvalidInput | test_shapes_parser.py:39-41 | `"$@#"` fails with an unexpected `$` |
| Scenarios.NoForestMismatchedCloser | test_shapes_parser.py:44-46 | no well-formed forest is written `"[13)"` |
| Scenarios.MalformedInput | test_shapes_parser.py:44-46 | parsing `"[13)"` fails with `InvalidSquareContent`: the `)` stands where the square needs `[` or `]` |
| Scenarios.NoForestCircleInSquare | test_shapes_parser.py:49-51 | no well-formed forest is written `"[72(HELLO)]"` |
| Scenarios.InvalidInnerShape | test_shapes_parser.py:49-51 | parsing `"[72(HELLO)]"` fails with `InvalidSquareContent`: a square may not hold the `(` of a circle |
| Scenarios.NoForestLowerCaseSquareLabel | test_shapes_parser.py:54-56 | no well-formed forest is written `"[allow]"` |
| Scenarios.InvalidSquareLabelInput | test_shapes_parser.py:54-56 | parsing `"[allow]"` fails with `InvalidSquareLabel("allow")` |
| Scenarios.EmptyLabels | shapes_parser.py:110-113 | `"[]"` fails with `InvalidSquareLabel("")` and `"()"` with `InvalidCircleLabel("")`, because an empty label is rejected for either kind |
| Scenarios.TrailingCharacter | shapes_parser.py:60-61 | parsing `"[1]x"` fails with `UnexpectedCharacter('x')`: after a complete square, `x` opens no shape |

## Left out

- Unicode semantics of Python's `str.isdigit`, `str.isupper` and `str.isalnum`. Labels are checked against the ASCII classes `[0-9]`, `[A-Z]` and `[A-Za-z0-9]`.
- Python's `IndexError` and the JavaScript behaviour past the end of the input. Both are replaced by the explicit `UnexpectedEndOfInput`:
  - the JavaScript label scan never terminating is exhibited under Findings;
  - the JavaScript square and circle loops report "Invalid content" at the end of the input, where the model reports `UnexpectedEndOfInput`.
- Exception classes and message texts. Every error is a `ParseError` value.
- The runtime `isinstance` and `instanceof` guards. The datatypes make a Square holding a Circle unrepresentable, and the parser never passes anything else.
- Sharing between nodes. `add_inner_square` and `add_inner_shape` append in place to lists held by reference, and the model makes them value updates. The parser itself never shares a node: each node it builds is reachable only from the call building it until that call returns it. A caller of the public `add_inner_*` methods, however, can add one node to two parents, or add a node to its own descendant and build a cycle. Values cannot express that sharing or those cycles, so the model leaves them out. The Container keeps its in-place append as a method.
- Recursion depth. The Python parser recurses once per nesting level and raises `RecursionError` past the interpreter's limit, about 1000 levels by default. The JavaScript port raises `RangeError` when its stack runs out. The model has no depth bound, so it reads inputs nested arbitrarily deep.
- The unittest and Jest harness and `module.exports`. The test inputs are stated under Scenarios.

## Findings

| source | as written | input that shows it | evidently intended | confidence | as-written member | corrected member |
|---|---|---|---|---|---|---|
| shapes_parser.py:112 | `label.isupper()` passes any label with an upper-case letter and no lower-case one, digits included | `"(AB1)"` gives a Circle labelled `"AB1"` | circle labels are upper-case letters only, `^[A-Z]+$`, as in shapesParser.js:137 and the comment at shapes_parser.py:20 | high, not executed | Findings.PyCheckAcceptsDigitInCircleLabel | Shapes.CheckLabel |
| shapesParser.js:127 | past the end of the input, `inputString[this.index]` is `undefined`; the regular expression tests it as the text "undefined", which matches, so the scan never stops | `"[13"`, or just `"("` | stop at the end of the input with an error | high, not executed | Findings.JsLabelScanHangsOnUnclosedSquare | Parser.ShapeParser.ParseLabel |
