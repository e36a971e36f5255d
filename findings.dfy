/**
 * Two places where the source, as written, departs from what it evidently
 * means. Each is modelled here as written, next to a lemma that exhibits
 * the departure on a concrete input; the rest of the model uses the
 * intended behaviour (`Shapes.CheckLabel` with `Shapes.IsCircleLabel`,
 * and `Parser.ShapeParser.ParseLabel`).
 */
module Findings {
  import opened Shapes

  // ---------------------------------------------------------------------
  // The Python circle-label check
  // ---------------------------------------------------------------------

  /**
   * Python's `str.isupper` on text over `[A-Za-z0-9]`: at least one
   * upper-case letter and no lower-case one. Digits have no case, so they
   * neither count nor hurt.
   */
  predicate PyIsUpper(s: string) {
    (exists i :: 0 <= i < |s| && IsUpperLetter(s[i])) &&
    forall i :: 0 <= i < |s| ==> !IsLowerLetter(s[i])
  }

  /** The circle-label check of the Python parser, as written. */
  function PyCheckCircleLabel(text: string): (r: Result<string>)
    ensures r.Ok? <==> PyIsUpper(text)
    ensures r.Ok? ==> r.value == text
    ensures r.Err? ==> r.error == InvalidCircleLabel(text)
  {
    if PyIsUpper(text) then Ok(text) else Err(InvalidCircleLabel(text))
  }

  /** Every label the intended rule `^[A-Z]+$` accepts, the Python check accepts too. */
  lemma PyCheckAcceptsCircleLabels(text: string)
    requires IsCircleLabel(text)
    ensures PyCheckCircleLabel(text) == CheckLabel(text, false) == Ok(text)
  {
    assert IsUpperLetter(text[0]);
  }

  /**
   * The converse fails: the Python check takes "AB1", so the Python
   * parser builds a Circle labelled "AB1" from "(AB1)", while the
   * intended rule rejects the label for its digit.
   */
  lemma PyCheckAcceptsDigitInCircleLabel()
    ensures PyCheckCircleLabel("AB1") == Ok("AB1")
    ensures CheckLabel("AB1", false) == Err(InvalidCircleLabel("AB1"))
  {
    assert IsUpperLetter("AB1"[0]);
    assert !IsUpperLetter("AB1"[2]);
  }

  // ---------------------------------------------------------------------
  // The JavaScript label scan at the end of the input
  // ---------------------------------------------------------------------

  /** `/^[a-zA-Z0-9]+$/.test(x)` for a string `x`. */
  predicate JsAlnumRunTest(x: string) {
    |x| > 0 && AllAlnum(x)
  }

  /**
   * The loop test of the JavaScript label scan at position `i`. Inside the
   * input it tests the one-character string there; past the end
   * `inputString[i]` is `undefined`, which the regular expression reads as
   * the text "undefined".
   */
  function JsLabelCharTest(s: string, i: nat): (r: bool)
    ensures i < |s| ==> (r <==> IsAlnum(s[i]))
    ensures i >= |s| ==> r
  {
    if i < |s| then
      var x := [s[i]];
      assert AllAlnum(x) <==> IsAlnum(x[0]);
      JsAlnumRunTest(x)
    else
      JsAlnumRunTest("undefined")
  }

  /**
   * The JavaScript label scan from position `i`, run for at most `steps`
   * rounds: the cursor it reaches and whether the loop has exited.
   */
  function JsLabelScan(s: string, i: nat, steps: nat): (r: (nat, bool))
    ensures i <= r.0 <= i + steps
    ensures r.1 ==> !JsLabelCharTest(s, r.0)
    decreases steps
  {
    if !JsLabelCharTest(s, i) then (i, true)
    else if steps == 0 then (i, false)
    else JsLabelScan(s, i + 1, steps - 1)
  }

  /**
   * When everything from the cursor to the end of the input is a label
   * character, the JavaScript scan never exits: after any number of rounds
   * it is still running, with the cursor that many places further on,
   * past the end of the input.
   */
  lemma {:induction false} JsLabelScanNeverExits(s: string, i: nat, steps: nat)
    requires forall k :: i <= k < |s| ==> IsAlnum(s[k])
    ensures JsLabelScan(s, i, steps) == (i + steps, false)
    decreases steps
  {
    if i < |s| {
      assert IsAlnum(s[i]);
    }
    assert JsLabelCharTest(s, i);
    if steps > 0 {
      JsLabelScanNeverExits(s, i + 1, steps - 1);
    }
  }

  /** On "[13" the JavaScript parser's label scan, started after the `[`, never exits. */
  lemma JsLabelScanHangsOnUnclosedSquare(steps: nat)
    ensures JsLabelScan("[13", 1, steps) == (1 + steps, false)
  {
    JsLabelScanNeverExits("[13", 1, steps);
  }
}
