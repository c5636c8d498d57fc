/** Value normalisation: `convert_boolean`, and the rdflib `Literal` the
    builder makes of a cell. */
module Coercion {
  import opened Wrappers
  import opened PyText
  import opened Cells
  import opened Rdf

  /** The spellings `convert_boolean` reads as true, already lowercased. */
  const TRUTHY_TOKENS: set<string> := {"sí", "si", "yes", "true", "1"}

  /** `convert_boolean`: a missing value is false; otherwise the lowercased
      `str()` of the value must be one of the truthy tokens. */
  function ConvertBoolean(c: Cell): (b: bool)
    ensures c.None? ==> !b
    ensures b ==> 1 <= |Show(c.value)| <= 4
  {
    c.Some? && LowerText(Show(c.value)) in TRUTHY_TOKENS
  }

  /** Letter case never matters. */
  lemma ConvertBooleanIgnoresCase(s: string, t: string)
    requires LowerText(s) == LowerText(t)
    ensures ConvertBoolean(Some(Str(s))) == ConvertBoolean(Some(Str(t)))
  {
  }

  /** A present text is true exactly when some truthy token spells it up to
      letter case. */
  lemma ConvertBooleanSpelling(s: string)
    ensures ConvertBoolean(Some(Str(s))) <==> exists tok :: tok in TRUTHY_TOKENS && LowerText(s) == LowerText(tok)
  {
    if ConvertBoolean(Some(Str(s))) {
      LowerTextIdempotent(s);
    }
    forall tok | tok in TRUTHY_TOKENS
      ensures LowerText(tok) == tok
    {
      assert forall i :: 0 <= i < |tok| ==> !IsUpper(tok[i]);
    }
  }

  /** The spellings the source's data uses. */
  lemma ConvertBooleanExamples()
    ensures ConvertBoolean(Some(Str("YES")))
    ensures ConvertBoolean(Some(Str("Sí")))
    ensures ConvertBoolean(Some(Str("True")))
    ensures !ConvertBoolean(Some(Str("No")))
    ensures !ConvertBoolean(Some(Str("")))
    ensures !ConvertBoolean(Some(Str(" yes")))
  {
    assert LowerText("YES") == "yes";
    assert LowerText("Sí") == "sí";
    assert LowerText("True") == "true";
    assert LowerText("No") == "no";
    assert LowerText(" yes") == " yes";
  }

  /** A pandas boolean cell converts to itself: `str(True).lower()` is `true`. */
  lemma ConvertBooleanOfBool(b: bool)
    ensures ConvertBoolean(Some(Bool(b))) == b
  {
    if b {
      assert LowerText("True") == "true";
    } else {
      assert LowerText("False") == "false";
    }
  }

  /** An integer cell is true only when it is 1. */
  lemma ConvertBooleanOfInt(n: int)
    ensures ConvertBoolean(Some(Int(n))) <==> n == 1
  {
    var t := DecimalText(n);
    assert t != [] && (IsAsciiDigit(t[0]) || t[0] == '-');
    assert forall i :: 0 <= i < |t| ==> IsAsciiDigit(t[i]) || t[i] == '-';
    assert LowerText(t) == t;
    if t == "1" {
      ParseIntDecimalText(n);
      assert ParseInt("1") == Some(1);
    }
    if n == 1 {
      assert t == "1";
    }
  }

  /** `Literal(v, lang=lang)` for a present value: rdflib keeps the language
      tag only on a `str`. */
  function ValueLiteral(v: Scalar, lang: Option<string>): (l: Literal)
    ensures l.LStr? <==> v.Str?
    ensures l.LStr? ==> l.text == v.s && l.lang == lang
  {
    match v
    case Str(s) => LStr(s, lang)
    case Int(i) => LInt(i)
    case Bool(b) => LBool(b)
    case Float(_, _) => LFloat(v)
  }

  /** `Literal(row[col], lang=lang)`: a missing cell is the float NaN. */
  function CellLiteral(c: Cell, lang: Option<string>): (l: Literal)
    ensures c.None? <==> l.LNaN?
  {
    if c.None? then LNaN else ValueLiteral(c.value, lang)
  }
}
