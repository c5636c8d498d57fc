/** One cell of the input table as pandas hands it to the builder. A missing
    cell (`pd.isna`) is `None`; a present one holds the Python value pandas
    inferred for its column. */
module Cells {
  import opened Wrappers
  import opened PyText

  /** A Python scalar read from the CSV. A float is kept opaque: the model
      keeps the text `str()` gives for it and the integer `int()` truncates it
      to, or `None` for `inf` and `-inf`, which `int()` cannot convert. */
  datatype Scalar =
    | Str(s: string)
    | Int(i: int)
    | Bool(b: bool)
    | Float(repr: string, whole: Option<int>)

  type Cell = Option<Scalar>

  /** `str(v)`. */
  function Show(v: Scalar): string {
    match v
    case Str(s) => s
    case Int(i) => DecimalText(i)
    case Bool(b) => if b then "True" else "False"
    case Float(repr, _) => repr
  }

  /** `f"{c}"`: a missing cell is the float NaN and formats as `nan`. */
  function FieldText(c: Cell): string {
    if c.None? then "nan" else Show(c.value)
  }

  /** `int(v)`; `None` is the exception Python raises: a `ValueError` on a
      text that is not an integer, an `OverflowError` on an infinite float. */
  function IntOf(v: Scalar): (r: Option<int>)
    ensures v.Int? ==> r == Some(v.i)
    ensures v.Float? ==> (r.None? <==> v.whole.None?)
    ensures v.Str? && r.Some? ==>
      forall k :: 0 <= k < |v.s| ==> IsAsciiDigit(v.s[k]) || IsSpace(v.s[k]) || v.s[k] == '+' || v.s[k] == '-'
  {
    match v
    case Str(s) => ParseIntCharset(s); ParseInt(s)
    case Int(i) => Some(i)
    case Bool(b) => Some(if b then 1 else 0)
    case Float(_, whole) => whole
  }

  /** A cell that holds the text of an integer coerces back to that integer. */
  lemma IntOfPrintedInt(n: int)
    ensures IntOf(Str(Show(Int(n)))) == Some(n)
  {
    ParseIntDecimalText(n);
  }
}
