/** The new-canvas dialog: two digit-only text fields for the width and
    height, kept parseable and within the maximum size, and an OK button
    that asks for a canvas of the entered size, capped at the maximum. */
module NewCanvasDialog {
  import opened Wrappers
  import opened Pixels

  const InitialWidth := 640
  const InitialHeight := 400
  const MaxSide := 4096

  predicate IsDigit(c: char) {
    '0' <= c <= '9'
  }

  predicate IsDigits(s: string) {
    forall k :: 0 <= k < |s| ==> IsDigit(s[k])
  }

  /** The value of a string of decimal digits, most significant first. */
  function DigitsValue(s: string): nat
    requires IsDigits(s)
  {
    if |s| == 0 then 0 else 10 * DigitsValue(s[..|s| - 1]) + (s[|s| - 1] - '0') as nat
  }

  /** `int(text)` on what a digits-only field can hold: a non-empty run of
      digits parses, anything else fails. */
  function ParseInt(s: string): (r: Option<nat>)
    ensures r.Some? <==> |s| > 0 && IsDigits(s)
  {
    if |s| > 0 && IsDigits(s) then Some(DigitsValue(s)) else None
  }

  /** `str(n)` for a natural number. */
  function ToDecimal(n: nat): (s: string)
    ensures |s| > 0 && IsDigits(s)
    decreases n
  {
    var last := ['0' + (n % 10) as char];
    if n < 10 then last else ToDecimal(n / 10) + last
  }

  /** Printing a number and parsing it back gives the number. */
  lemma {:induction false} ParseToDecimal(n: nat)
    ensures ParseInt(ToDecimal(n)) == Some(n)
    decreases n
  {
    var s := ToDecimal(n);
    assert s[|s| - 1] - '0' == (n % 10) as char;
    if n >= 10 {
      ParseToDecimal(n / 10);
      assert s[..|s| - 1] == ToDecimal(n / 10);
      assert DigitsValue(s) == 10 * (n / 10) + n % 10;
    } else {
      assert DigitsValue(s[..|s| - 1]) == 0;
    }
  }

  datatype Field = WidthField | HeightField

  datatype Dialog = Dialog(widthText: string, heightText: string, colour: Color,
                           maxWidth: nat, maxHeight: nat, alive: bool)

  /** Both fields hold parseable text. */
  predicate Valid(d: Dialog) {
    ParseInt(d.widthText).Some? && ParseInt(d.heightText).Some?
  }

  /** The dialog as it opens: 640 by 400, white, each side capped at 4096. */
  function Init(): (d: Dialog)
    ensures Valid(d) && d.alive
    ensures ParseInt(d.widthText) == Some(InitialWidth) && ParseInt(d.heightText) == Some(InitialHeight)
    ensures d.colour == Color(255, 255, 255, 255) && d.maxWidth == MaxSide && d.maxHeight == MaxSide
  {
    ParseToDecimal(InitialWidth);
    ParseToDecimal(InitialHeight);
    Dialog(ToDecimal(InitialWidth), ToDecimal(InitialHeight), Color(255, 255, 255, 255), MaxSide, MaxSide, true)
  }

  datatype DialogEvent =
    | CancelPressed
    | OkPressed
    | TextEntryFinished(field: Field)
    | TextEntryChanged(field: Field, text: string)   // the field now holds `text`

  /** What the dialog asks for: nothing, a new canvas of the given colour
      and size, or nothing because a field did not parse. */
  datatype Outcome = NoOutput | CreateCanvas(colour: Color, width: nat, height: nat) | ParseFailure

  datatype Step = Step(dialog: Dialog, outcome: Outcome)

  function FieldText(d: Dialog, f: Field): string {
    match f
    case WidthField => d.widthText
    case HeightField => d.heightText
  }

  function FieldMax(d: Dialog, f: Field): nat {
    match f
    case WidthField => d.maxWidth
    case HeightField => d.maxHeight
  }

  function SetFieldText(d: Dialog, f: Field, text: string): (r: Dialog)
    ensures FieldText(r, f) == text
    ensures forall g :: g != f ==> FieldText(r, g) == FieldText(d, g)
    ensures r.alive == d.alive && r.maxWidth == d.maxWidth && r.maxHeight == d.maxHeight && r.colour == d.colour
  {
    match f
    case WidthField => d.(widthText := text)
    case HeightField => d.(heightText := text)
  }

  /** The text-finished handler for one field: unparseable text becomes
      "0", and a value above the maximum becomes the maximum. */
  function Finish(d: Dialog, f: Field): (r: Dialog)
    ensures ParseInt(FieldText(r, f)).Some? && ParseInt(FieldText(r, f)).value <= FieldMax(d, f)
    ensures ParseInt(FieldText(d, f)).None? ==> FieldText(r, f) == "0"
    ensures ParseInt(FieldText(d, f)).Some? && ParseInt(FieldText(d, f)).value <= FieldMax(d, f) ==> r == d
    ensures ParseInt(FieldText(d, f)).Some? && ParseInt(FieldText(d, f)).value > FieldMax(d, f) ==>
              ParseInt(FieldText(r, f)) == Some(FieldMax(d, f))
    ensures forall g :: g != f ==> FieldText(r, g) == FieldText(d, g)
    ensures r.alive == d.alive && r.maxWidth == d.maxWidth && r.maxHeight == d.maxHeight && r.colour == d.colour
  {
    ParseToDecimal(0);
    ParseToDecimal(FieldMax(d, f));
    var parsed := ParseInt(FieldText(d, f));
    var d1 := if parsed.None? then SetFieldText(d, f, ToDecimal(0)) else d;
    var value := if parsed.None? then 0 else parsed.value;
    if value > FieldMax(d, f) then SetFieldText(d1, f, ToDecimal(FieldMax(d, f))) else d1
  }

  /** The handled part of `process_event`: Cancel closes the dialog; OK
      asks for a canvas of `min(int(text), max)` on each side and closes
      it; text-finished repairs the field; text-changed replaces
      unparseable text with "0". */
  function ProcessEvent(d: Dialog, e: DialogEvent): (r: Step)
    ensures e.CancelPressed? ==> r == Step(d.(alive := false), NoOutput)
    ensures e.OkPressed? && Valid(d) ==>
              && r.dialog == d.(alive := false)
              && r.outcome.CreateCanvas? && r.outcome.colour == d.colour
              && r.outcome.width == Min(ParseInt(d.widthText).value, d.maxWidth)
              && r.outcome.height == Min(ParseInt(d.heightText).value, d.maxHeight)
              && r.outcome.width <= d.maxWidth && r.outcome.height <= d.maxHeight
    ensures e.OkPressed? && !Valid(d) ==> r.outcome == ParseFailure
    ensures e.TextEntryFinished? ==>
              && r.outcome == NoOutput
              && ParseInt(FieldText(r.dialog, e.field)).Some?
              && ParseInt(FieldText(r.dialog, e.field)).value <= FieldMax(d, e.field)
    ensures e.TextEntryFinished? ==> r == Step(Finish(d, e.field), NoOutput)
    ensures e.TextEntryChanged? ==> r.outcome == NoOutput && ParseInt(FieldText(r.dialog, e.field)).Some?
    ensures e.TextEntryChanged? ==>
              && r.dialog.alive == d.alive && r.dialog.colour == d.colour
              && forall g :: g != e.field ==> FieldText(r.dialog, g) == FieldText(d, g)
    ensures e.TextEntryChanged? && ParseInt(e.text).Some? ==> FieldText(r.dialog, e.field) == e.text
    ensures e.TextEntryChanged? && ParseInt(e.text).None? ==> FieldText(r.dialog, e.field) == "0"
    ensures Valid(d) ==> Valid(r.dialog)
    ensures r.dialog.maxWidth == d.maxWidth && r.dialog.maxHeight == d.maxHeight
  {
    match e
    case CancelPressed => Step(d.(alive := false), NoOutput)
    case OkPressed =>
      var w := ParseInt(d.widthText);
      var h := ParseInt(d.heightText);
      if w.None? || h.None? then Step(d, ParseFailure)
      else Step(d.(alive := false), CreateCanvas(d.colour, Min(w.value, d.maxWidth), Min(h.value, d.maxHeight)))
    case TextEntryFinished(f) =>
      var r := Finish(d, f);
      assert Valid(d) ==> forall g :: ParseInt(FieldText(r, g)).Some? by {
        assert ParseInt(FieldText(r, f)).Some?;
      }
      assert Valid(d) ==> ParseInt(FieldText(d, WidthField)).Some? && ParseInt(FieldText(d, HeightField)).Some?;
      Step(r, NoOutput)
    case TextEntryChanged(f, text) =>
      ParseToDecimal(0);
      var d1 := SetFieldText(d, f, text);
      var r := if ParseInt(text).None? then SetFieldText(d1, f, ToDecimal(0)) else d1;
      Step(r, NoOutput)
  }

  /** Starting from the initial dialog, whatever events arrive, both fields
      keep parsing and OK never asks for a side above 4096. */
  lemma {:induction false} EventsKeepDialogValid(d: Dialog, es: seq<DialogEvent>)
    requires Valid(d) && d.maxWidth == MaxSide && d.maxHeight == MaxSide
    ensures Valid(Run(d, es).dialog)
    ensures Run(d, es).outcome.CreateCanvas? ==>
              Run(d, es).outcome.width <= MaxSide && Run(d, es).outcome.height <= MaxSide
    decreases |es|
  {
    if |es| > 0 {
      var s := ProcessEvent(d, es[0]);
      if |es| > 1 {
        EventsKeepDialogValid(s.dialog, es[1..]);
      }
    }
  }

  /** The dialog after a sequence of events, with the last event's outcome. */
  function Run(d: Dialog, es: seq<DialogEvent>): Step
    decreases |es|
  {
    if |es| == 0 then Step(d, NoOutput)
    else
      var s := ProcessEvent(d, es[0]);
      if |es| == 1 then s else Run(s.dialog, es[1..])
  }
}
