/** Reading back the literals that `bindSql` writes (packages/npm/index.js). */
module LiteralReader {
  import opened Text
  import opened BindSql
  import opened LiteralScan

  /** A value as SQL sees it. */
  datatype SqlValue = SqlNull | SqlBool(truth: bool) | SqlNumber(numeral: string) | SqlText(text: string)

  /** Takes every two adjacent quotes for one. */
  function Undoubled(t: string): string {
    if t == "" then ""
    else if t[0] == '\'' && Next(t, '\'') then "'" + Undoubled(t[2..])
    else [t[0]] + Undoubled(t[1..])
  }

  /** A SQL literal: a keyword, a quoted text, or a numeral. */
  function Read(t: string): SqlValue {
    if t == "NULL" then SqlNull
    else if t == "TRUE" then SqlBool(true)
    else if t == "FALSE" then SqlBool(false)
    else if |t| >= 2 && t[0] == '\'' then SqlText(Undoubled(t[1..|t| - 1]))
    else SqlNumber(t)
  }

  /** What a bound value means in SQL: nothing, a truth value, a number, or a text. */
  function Meaning(v: JsValue): SqlValue {
    match v
    case Null => SqlNull
    case Undefined => SqlNull
    case Number(_, text) => SqlNumber(text)
    case BigInt(text) => SqlNumber(text)
    case Boolean(value) => SqlBool(value)
    case Date(iso) => SqlText(if iso.Some? then iso.value else "")
    case Other(printed) => SqlText(if printed.Some? then printed.value else "")
  }

  lemma {:induction false} UndoubledUndoes(x: string)
    ensures Undoubled(Doubled(x)) == x
  {
    if x != "" {
      UndoubledUndoes(x[1..]);
      var head := if x[0] == '\'' then "''" else [x[0]];
      var s := head + Doubled(x[1..]);
      assert s[|head|..] == Doubled(x[1..]);
      assert x == [x[0]] + x[1..];
    }
  }

  lemma QuotedReadsBack(x: string)
    ensures Read(Quoted(x)) == SqlText(x)
  {
    var t := Quoted(x);
    assert t[0] == '\'' && t[1..|t| - 1] == Doubled(x);
    UndoubledUndoes(x);
  }

  /** Every literal that is written reads back as the value it was written for. */
  lemma LiteralReadsBack(v: JsValue)
    requires Literal(v).Ok? && ((v.Number? || v.BigInt?) ==> IsNumeral(v.text))
    ensures Read(Literal(v).value) == Meaning(v)
  {
    match v
    case Date(iso) => QuotedReadsBack(iso.value);
    case Other(printed) => QuotedReadsBack(printed.value);
    case Number(_, text) => assert IsNumeral(text);
    case BigInt(text) => assert IsNumeral(text);
    case _ =>
  }

  /** A value has no literal exactly when it is an infinite or undefined number, or cannot be printed. */
  lemma UnbindableIff(v: JsValue)
    ensures Literal(v).Err? <==> (v.Number? && !v.finite) || (v.Date? && v.iso.None?) || (v.Other? && v.printed.None?)
  {
  }
}
