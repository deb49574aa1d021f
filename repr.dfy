/** `repr` of field values and of records: `Typename(f1=repr(v1), f2=repr(v2), ...)`. */
module Repr {
  import opened Errors
  import opened Values
  import opened Names

  predicate AllDigits(s: string)
  {
    forall i :: 0 <= i < |s| ==> IsDigit(s[i])
  }

  function DigitChar(d: nat): (c: char)
    requires d < 10
    ensures IsDigit(c) && c as int - '0' as int == d
  {
    ('0' as int + d) as char
  }

  /** The decimal digits of `n`, most significant first, without leading zeros. */
  function Digits(n: nat): (s: string)
    ensures |s| >= 1 && AllDigits(s)
    ensures n >= 1 ==> s[0] != '0'
    ensures |s| == 1 || s[0] != '0'
    decreases n
  {
    if n < 10 then [DigitChar(n)] else Digits(n / 10) + [DigitChar(n % 10)]
  }

  function DigitsValue(s: string): (n: nat)
    requires AllDigits(s)
    decreases |s|
  {
    if s == [] then 0 else DigitsValue(s[..|s| - 1]) * 10 + (s[|s| - 1] as int - '0' as int)
  }

  lemma {:induction false} DigitsRoundTrip(n: nat)
    ensures DigitsValue(Digits(n)) == n
    decreases n
  {
    if n >= 10 {
      var s := Digits(n);
      assert s[..|s| - 1] == Digits(n / 10);
      DigitsRoundTrip(n / 10);
    }
  }

  /** `repr(i)` for an integer: a minus sign exactly when `i` is negative, then
      at least one decimal digit. */
  function IntRepr(i: int): (r: string)
    ensures |r| >= 1 && (r[0] == '-' <==> i < 0)
    ensures var d := if i < 0 then r[1..] else r; |d| >= 1 && AllDigits(d) && (|d| == 1 || d[0] != '0')
  {
    if i < 0 then "-" + Digits(-i) else Digits(i)
  }

  /** Python quotes with `'` unless the text holds a `'` and no `"`. */
  function QuoteFor(s: string): (q: char)
  {
    if '\'' in s && '"' !in s then '"' else '\''
  }

  function HexDigit(d: nat): (c: char)
    requires d < 16
  {
    "0123456789abcdef"[d]
  }

  predicate IsHexDigit(c: char)
  {
    '0' <= c <= '9' || 'a' <= c <= 'f'
  }

  function HexValue(c: char): (d: nat)
    requires IsHexDigit(c)
    ensures d < 16
  {
    if c <= '9' then c as int - '0' as int else c as int - 'a' as int + 10
  }

  lemma HexRoundTrip(d: nat)
    requires d < 16
    ensures IsHexDigit(HexDigit(d)) && HexValue(HexDigit(d)) == d
  {
  }

  /** How one character appears inside the quotes `q`: the quote itself and the
      backslash are escaped, tab, newline and return get their letter escapes,
      other ASCII control characters `\xhh`, everything else stands as itself. */
  function EscapeChar(c: char, q: char): (e: string)
  {
    if c == q || c == '\\' then ['\\', c]
    else if c == '\t' then "\\t"
    else if c == '\n' then "\\n"
    else if c == '\r' then "\\r"
    else if c < ' ' || c == '\U{7f}' then ['\\', 'x', HexDigit(c as int / 16), HexDigit(c as int % 16)]
    else [c]
  }

  function Escape(s: string, q: char): (e: string)
  {
    if s == [] then "" else EscapeChar(s[0], q) + Escape(s[1..], q)
  }

  /** `repr(s)` for a string: the escaped text between two equal quotes, which
      are double quotes exactly when `s` holds a single quote and no double
      quote. */
  function StrRepr(s: string): (r: string)
    ensures |r| >= 2 && r[0] == r[|r| - 1] && (r[0] == '\'' || r[0] == '"')
    ensures r[0] == '"' <==> '\'' in s && '"' !in s
  {
    var q := QuoteFor(s);
    [q] + Escape(s, q) + [q]
  }

  function Prepend(c: char, r: Option<(string, string)>): Option<(string, string)>
  {
    match r
    case Some((s, rest)) => Some(([c] + s, rest))
    case None => None
  }

  /** Reads the body of a string literal quoted with `q` up to its closing quote;
      returns the string and the text after the quote. */
  function UnescapeUntil(t: string, q: char): (r: Option<(string, string)>)
    decreases |t|
  {
    if t == [] then None
    else if t[0] == q then Some(([], t[1..]))
    else if t[0] != '\\' then Prepend(t[0], UnescapeUntil(t[1..], q))
    else if |t| < 2 then None
    else if t[1] == '\\' || t[1] == '\'' || t[1] == '"' then Prepend(t[1], UnescapeUntil(t[2..], q))
    else if t[1] == 't' then Prepend('\t', UnescapeUntil(t[2..], q))
    else if t[1] == 'n' then Prepend('\n', UnescapeUntil(t[2..], q))
    else if t[1] == 'r' then Prepend('\r', UnescapeUntil(t[2..], q))
    else if t[1] == 'x' && |t| >= 4 && IsHexDigit(t[2]) && IsHexDigit(t[3]) then
      Prepend((HexValue(t[2]) * 16 + HexValue(t[3])) as char, UnescapeUntil(t[4..], q))
    else None
  }

  /** A control character escaped as `\xhh` reads back as itself. */
  lemma UnescapeHex(c: char, q: char, rest: string)
    requires q == '\'' || q == '"'
    requires c < ' ' || c == '\U{7f}'
    ensures UnescapeUntil(['\\', 'x', HexDigit(c as int / 16), HexDigit(c as int % 16)] + rest, q)
      == Prepend(c, UnescapeUntil(rest, q))
  {
    var hi, lo := c as int / 16, c as int % 16;
    var t := ['\\', 'x', HexDigit(hi), HexDigit(lo)] + rest;
    HexRoundTrip(hi);
    HexRoundTrip(lo);
    assert t[2] == HexDigit(hi) && t[3] == HexDigit(lo);
    assert (HexValue(t[2]) * 16 + HexValue(t[3])) as char == c;
    assert t[4..] == rest;
  }

  /** A character escaped with a backslash and one letter reads back as itself. */
  lemma UnescapeLetter(c: char, e: char, q: char, rest: string)
    requires q == '\'' || q == '"'
    requires (e == c && (c == q || c == '\\')) || (c == '\t' && e == 't') || (c == '\n' && e == 'n') || (c == '\r' && e == 'r')
    ensures UnescapeUntil(['\\', e] + rest, q) == Prepend(c, UnescapeUntil(rest, q))
  {
    assert (['\\', e] + rest)[2..] == rest;
  }

  lemma UnescapeChar(c: char, q: char, rest: string)
    requires q == '\'' || q == '"'
    ensures UnescapeUntil(EscapeChar(c, q) + rest, q) == Prepend(c, UnescapeUntil(rest, q))
  {
    if c == q || c == '\\' {
      UnescapeLetter(c, c, q, rest);
    } else if c == '\t' {
      UnescapeLetter(c, 't', q, rest);
    } else if c == '\n' {
      UnescapeLetter(c, 'n', q, rest);
    } else if c == '\r' {
      UnescapeLetter(c, 'r', q, rest);
    } else if c < ' ' || c == '\U{7f}' {
      UnescapeHex(c, q, rest);
    } else {
      assert ([c] + rest)[1..] == rest;
    }
  }

  /** The escaped body of a string, followed by its closing quote, reads back as
      that string, and reading stops right after the quote. */
  lemma {:induction false} UnescapeEscape(s: string, q: char, rest: string)
    requires q == '\'' || q == '"'
    ensures UnescapeUntil(Escape(s, q) + [q] + rest, q) == Some((s, rest))
  {
    if s == [] {
      assert Escape(s, q) + [q] + rest == [q] + rest;
      assert ([q] + rest)[1..] == rest;
    } else {
      assert Escape(s, q) + [q] + rest == EscapeChar(s[0], q) + (Escape(s[1..], q) + [q] + rest);
      UnescapeChar(s[0], q, Escape(s[1..], q) + [q] + rest);
      UnescapeEscape(s[1..], q, rest);
      assert [s[0]] + s[1..] == s;
    }
  }

  /** `repr(v)` for a field value: its first character tells the kind of value. */
  function ValueRepr(v: Value): (r: string)
    ensures |r| >= 1
    ensures r[0] == 'N' <==> v.NoneVal?
    ensures r[0] == '\'' || r[0] == '"' <==> v.StrVal?
    ensures r[0] == '-' || IsDigit(r[0]) <==> v.IntVal?
  {
    match v
    case NoneVal => "None"
    case IntVal(i) => IntRepr(i)
    case StrVal(s) => StrRepr(s)
  }

  /** The length of the run of decimal digits at the front of `t`. */
  function DigitRun(t: string): (n: nat)
    ensures n <= |t| && AllDigits(t[..n])
    ensures n < |t| ==> !IsDigit(t[n])
  {
    if t == [] || !IsDigit(t[0]) then 0 else 1 + DigitRun(t[1..])
  }

  lemma {:induction false} DigitRunOf(d: string, rest: string)
    requires AllDigits(d)
    requires rest == [] || !IsDigit(rest[0])
    ensures DigitRun(d + rest) == |d|
  {
    if d == [] {
      assert d + rest == rest;
    } else {
      assert (d + rest)[1..] == d[1..] + rest;
      DigitRunOf(d[1..], rest);
    }
  }

  /** Reads the text of one value from the front of `t`; returns the value and
      what follows it. The first character tells which kind of value it is. */
  function ParseValue(t: string): (r: Option<(Value, string)>)
  {
    if t == [] then None
    else if t[0] == 'N' then (if |t| >= 4 && t[..4] == "None" then Some((NoneVal, t[4..])) else None)
    else if t[0] == '\'' || t[0] == '"' then ParseStr(t[1..], t[0])
    else if t[0] == '-' then
      match ParseNatural(t[1..])
      case Some((n, rest)) => Some((IntVal(0 - n), rest))
      case None => None
    else
      match ParseNatural(t)
      case Some((n, rest)) => Some((IntVal(n), rest))
      case None => None
  }

  function ParseStr(t: string, q: char): (r: Option<(Value, string)>)
  {
    match UnescapeUntil(t, q)
    case Some((s, rest)) => Some((StrVal(s), rest))
    case None => None
  }

  function ParseNatural(t: string): (r: Option<(nat, string)>)
  {
    var n := DigitRun(t);
    if n == 0 then None else Some((DigitsValue(t[..n]), t[n..]))
  }

  lemma ParseNaturalOf(d: string, rest: string)
    requires |d| >= 1 && AllDigits(d)
    requires rest == [] || !IsDigit(rest[0])
    ensures ParseNatural(d + rest) == Some((DigitsValue(d), rest))
  {
    DigitRunOf(d, rest);
    assert (d + rest)[..|d|] == d && (d + rest)[|d|..] == rest;
  }

  /** A run of digits reads back as the number it spells. */
  lemma ParseValueOfDigits(d: string, rest: string, n: nat)
    requires |d| >= 1 && AllDigits(d) && n == DigitsValue(d)
    requires rest == [] || !IsDigit(rest[0])
    ensures ParseValue(d + rest) == Some((IntVal(n), rest))
  {
    ParseNaturalOf(d, rest);
    assert IsDigit((d + rest)[0]);
  }

  /** Text after a minus sign is read as a natural number, then negated. */
  lemma ParseValueAfterMinus(d: string, rest: string, n: nat)
    requires ParseNatural(d + rest) == Some((n, rest))
    ensures ParseValue("-" + d + rest) == Some((IntVal(0 - n), rest))
  {
    assert ("-" + d + rest)[1..] == d + rest;
  }

  /** A minus sign and a run of digits read back as the negated number. */
  lemma ParseValueOfMinus(d: string, rest: string, n: nat)
    requires |d| >= 1 && AllDigits(d) && n == DigitsValue(d)
    requires rest == [] || !IsDigit(rest[0])
    ensures ParseValue("-" + d + rest) == Some((IntVal(0 - n), rest))
  {
    ParseNaturalOf(d, rest);
    ParseValueAfterMinus(d, rest, n);
  }

  lemma IntReprRoundTrip(i: int, rest: string)
    requires rest == [] || !IsDigit(rest[0])
    ensures ParseValue(IntRepr(i) + rest) == Some((IntVal(i), rest))
  {
    if i < 0 {
      DigitsRoundTrip(-i);
      ParseValueOfMinus(Digits(-i), rest, -i);
    } else {
      DigitsRoundTrip(i);
      ParseValueOfDigits(Digits(i), rest, i);
    }
  }

  lemma StrReprRoundTrip(s: string, rest: string)
    ensures ParseValue(StrRepr(s) + rest) == Some((StrVal(s), rest))
  {
    var q := QuoteFor(s);
    var t := StrRepr(s) + rest;
    assert t == [q] + (Escape(s, q) + [q] + rest);
    assert t[1..] == Escape(s, q) + [q] + rest;
    assert t[0] == q;
    UnescapeEscape(s, q, rest);
  }

  /** The text of a value reads back as that value, whatever follows it (short
      of a digit glued to an integer): distinct values have distinct text. */
  lemma ValueReprRoundTrip(v: Value, rest: string)
    requires rest == [] || !IsDigit(rest[0])
    ensures ParseValue(ValueRepr(v) + rest) == Some((v, rest))
  {
    match v
    case NoneVal =>
      var t := ValueRepr(v) + rest;
      assert t[..4] == "None" && t[4..] == rest;
    case IntVal(i) =>
      IntReprRoundTrip(i, rest);
    case StrVal(s) =>
      StrReprRoundTrip(s, rest);
  }

  /** `f1=repr(v1), f2=repr(v2), ...` */
  function FieldsRepr(names: seq<string>, vals: seq<Value>): (text: string)
    requires |names| == |vals|
  {
    if names == [] then ""
    else
      var item := names[0] + "=" + ValueRepr(vals[0]);
      if |names| == 1 then item else item + ", " + FieldsRepr(names[1..], vals[1..])
  }

  /** `repr(record)`: the type name, then the items between parentheses. */
  function RecordRepr(typename: string, names: seq<string>, vals: seq<Value>): (r: string)
    requires |names| == |vals|
    ensures |r| >= |typename| + 2 && r[..|typename| + 1] == typename + "(" && r[|r| - 1] == ')'
  {
    typename + "(" + FieldsRepr(names, vals) + ")"
  }

  /** Reads `f1=<v1>, f2=<v2>, ...)` back for the given field names. */
  function ParseItems(names: seq<string>, t: string): (r: Option<seq<Value>>)
    decreases |names|
  {
    if names == [] then (if t == ")" then Some([]) else None)
    else
      match ParseItem(names[0], t)
      case None => None
      case Some((v, rest)) =>
        if |names| == 1 then (if rest == ")" then Some([v]) else None)
        else if |rest| >= 2 && rest[..2] == ", " then
          match ParseItems(names[1..], rest[2..])
          case Some(vs) => Some([v] + vs)
          case None => None
        else None
  }

  /** Reads `name=<value>` from the front of `t`. */
  function ParseItem(name: string, t: string): (r: Option<(Value, string)>)
  {
    var key := name + "=";
    if |t| < |key| || t[..|key|] != key then None else ParseValue(t[|key|..])
  }

  lemma ParseItemRoundTrip(name: string, v: Value, rest: string)
    requires rest == [] || !IsDigit(rest[0])
    ensures ParseItem(name, name + "=" + ValueRepr(v) + rest) == Some((v, rest))
  {
    var key := name + "=";
    var t := name + "=" + ValueRepr(v) + rest;
    assert t == key + (ValueRepr(v) + rest);
    assert t[..|key|] == key && t[|key|..] == ValueRepr(v) + rest;
    ValueReprRoundTrip(v, rest);
  }

  /** Reads the text of a record of the named type with the given fields back. */
  function ParseRecord(typename: string, names: seq<string>, t: string): (r: Option<seq<Value>>)
  {
    var head := typename + "(";
    if |t| >= |head| && t[..|head|] == head then ParseItems(names, t[|head|..]) else None
  }

  /** After the first item and its `, ` separator, the rest of the items are
      read for the remaining names. */
  lemma ParseItemsCons(names: seq<string>, t: string, v: Value, tail: string)
    requires |names| > 1
    requires ParseItem(names[0], t) == Some((v, ", " + tail))
    ensures ParseItems(names, t) ==
      if ParseItems(names[1..], tail).Some? then Some([v] + ParseItems(names[1..], tail).value) else None
  {
    assert (", " + tail)[..2] == ", " && (", " + tail)[2..] == tail;
  }

  lemma {:induction false} ParseItemsRoundTrip(names: seq<string>, vals: seq<Value>)
    requires |names| == |vals|
    ensures ParseItems(names, FieldsRepr(names, vals) + ")") == Some(vals)
    decreases |names|
  {
    if names != [] {
      var item := names[0] + "=" + ValueRepr(vals[0]);
      var t := FieldsRepr(names, vals) + ")";
      if |names| == 1 {
        assert t == item + ")";
        ParseItemRoundTrip(names[0], vals[0], ")");
        assert vals == [vals[0]];
      } else {
        var tail := FieldsRepr(names[1..], vals[1..]) + ")";
        assert t == item + (", " + tail);
        ParseItemRoundTrip(names[0], vals[0], ", " + tail);
        ParseItemsRoundTrip(names[1..], vals[1..]);
        ParseItemsCons(names, t, vals[0], tail);
        assert [vals[0]] + vals[1..] == vals;
      }
    }
  }

  /** The text of a record reads back, given its type's name and fields, as its
      values in declared order. */
  lemma RecordReprRoundTrip(typename: string, names: seq<string>, vals: seq<Value>)
    requires |names| == |vals|
    ensures ParseRecord(typename, names, RecordRepr(typename, names, vals)) == Some(vals)
  {
    var head := typename + "(";
    var t := RecordRepr(typename, names, vals);
    assert t == head + (FieldsRepr(names, vals) + ")");
    assert t[..|head|] == head && t[|head|..] == FieldsRepr(names, vals) + ")";
    ParseItemsRoundTrip(names, vals);
  }

  /** Two records of one type with the same text hold the same values. */
  lemma ReprInjective(typename: string, names: seq<string>, xs: seq<Value>, ys: seq<Value>)
    requires |names| == |xs| == |ys|
    requires RecordRepr(typename, names, xs) == RecordRepr(typename, names, ys)
    ensures xs == ys
  {
    RecordReprRoundTrip(typename, names, xs);
    RecordReprRoundTrip(typename, names, ys);
  }
}
