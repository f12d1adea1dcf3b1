/** Worksheet cell values as openpyxl hands them over, and the rule that turns
    a cell into the string an image basename is compared with (new.py lines
    71-73; the same rule renders the barcode, lines 79-81). */
module Cells {
  import opened Wrappers
  import opened Decimal

  /** A cell value. Python's `bool` is a subclass of `int`, so it is kept apart
      from text; a float carries its truncation `int(x)`, whether it equals
      that truncation, and `str(x)` as given text (float formatting is not
      modelled); `OtherC` stands for any other value (dates, times) by its
      `str()`. */
  datatype Cell =
    | IntC(i: int)
    | BoolC(b: bool)
    | FloatC(intVal: int, isIntegral: bool, repr: string)
    | TextC(s: string)
    | Empty
    | OtherC(text: string)

  type Row = seq<Cell>

  /** `isinstance(cell, (int, float)) and cell == int(cell)`. */
  predicate IsIntegralNumber(c: Cell) {
    c.IntC? || c.BoolC? || (c.FloatC? && c.isIntegral)
  }

  /** `int(cell)` for an integral number: `True` is 1 and `False` is 0. */
  function IntegralValue(c: Cell): int
    requires IsIntegralNumber(c)
  {
    match c
    case IntC(i) => i
    case BoolC(b) => if b then 1 else 0
    case FloatC(v, _, _) => v
  }

  /** `str(cell)` for a cell that is not an integral number. */
  function Str(c: Cell): string {
    match c
    case IntC(i) => DecimalString(i)
    case BoolC(b) => if b then "True" else "False"
    case FloatC(_, _, r) => r
    case TextC(s) => s
    case Empty => "None"
    case OtherC(t) => t
  }

  /** The comparable form of a cell: integral numbers render as their
      integer's decimal spelling, everything else as `str(cell)`. */
  function Normalize(c: Cell): string {
    if IsIntegralNumber(c) then DecimalString(IntegralValue(c)) else Str(c)
  }

  /** What a normalised cell means: an integral number reads back as its
      integer value (so 1023.0 and 1023 both become "1023"), a text cell is
      itself, an empty cell is Python's "None", and any other value is its
      own string form. */
  lemma NormalizeMeaning(c: Cell)
    ensures IsIntegralNumber(c) ==> ParseDecimal(Normalize(c)) == Some(IntegralValue(c))
    ensures c.TextC? ==> Normalize(c) == c.s
    ensures c.Empty? ==> Normalize(c) == "None"
    ensures c.FloatC? && !c.isIntegral ==> Normalize(c) == c.repr
    ensures c.OtherC? ==> Normalize(c) == c.text
  {
    if IsIntegralNumber(c) {
      DecimalRoundTrip(IntegralValue(c));
    }
  }

  /** Two integral numbers normalise alike exactly when they are equal as
      integers, whatever their Python type. */
  lemma IntegralNormalizeInjective(a: Cell, b: Cell)
    requires IsIntegralNumber(a) && IsIntegralNumber(b)
    ensures Normalize(a) == Normalize(b) <==> IntegralValue(a) == IntegralValue(b)
  {
    DecimalInjective(IntegralValue(a), IntegralValue(b));
  }

  /** The worked example: a float cell holding 1023.0 normalises to "1023",
      the same string as the int cell 1023 and the text cell "1023". */
  lemma IntegralFloatExample()
    ensures Normalize(FloatC(1023, true, "1023.0")) == "1023"
    ensures Normalize(FloatC(1023, true, "1023.0")) == Normalize(IntC(1023))
    ensures Normalize(IntC(1023)) == Normalize(TextC("1023"))
  {
    assert NatString(1023) == NatString(102) + ['3'];
    assert NatString(102) == NatString(10) + ['2'];
    assert NatString(10) == NatString(1) + ['0'];
  }

  /** A non-integral float keeps its own string form: 10.5 is "10.5". */
  lemma NonIntegralFloatExample()
    ensures Normalize(FloatC(10, false, "10.5")) == "10.5"
  {
  }

  /** Boolean cells count as integers: `True` normalises to "1", not "True". */
  lemma BoolExample()
    ensures Normalize(BoolC(true)) == "1" && Normalize(BoolC(false)) == "0"
  {
  }
}
