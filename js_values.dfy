/**
 * The JavaScript values the interpreter handles and the host conversions it relies on:
 * `String(v)`, `parseInt(s, 10)`, `parseFloat(s)`, the string-to-number conversion used by
 * loose comparison, `String.prototype.trim`, the lowercase test of boolean reads, and
 * `iter += inc`.
 *
 * Numbers are mathematical integers; `NaN` is a value of its own.  The only array value that
 * arises is the empty array that `Tableau` variables start with.
 */
module JsValues {

  import opened Wrappers

  datatype Value =
    | Undef
    | NaN
    | Num(n: int)
    | Bool(b: bool)
    | Str(s: string)
    | EmptyArray

  /** `typeof v === "number"`: NaN is a number too. */
  predicate IsNumber(v: Value) {
    v.Num? || v.NaN?
  }

  /** `Math.trunc` on a number; on integers it is the identity. */
  function Trunc(v: Value): (r: Value)
    requires IsNumber(v)
    ensures IsNumber(r) && (v.NaN? <==> r.NaN?)
    ensures v.Num? ==> r.n == v.n
  {
    v
  }

  // ---------------------------------------------------------------------------
  // Decimal digits

  predicate IsDigit(c: char) {
    '0' <= c <= '9'
  }

  predicate AllDigits(s: string) {
    forall i :: 0 <= i < |s| ==> IsDigit(s[i])
  }

  function DigitChar(d: nat): (c: char)
    requires d < 10
    ensures IsDigit(c) && c as int - '0' as int == d
  {
    ['0', '1', '2', '3', '4', '5', '6', '7', '8', '9'][d]
  }

  function DigitValue(c: char): nat
    requires IsDigit(c)
  {
    c as int - '0' as int
  }

  /** The number a string of decimal digits denotes, most significant digit first. */
  function DigitsValue(ds: string): nat
    requires AllDigits(ds)
  {
    if ds == [] then 0 else DigitsValue(ds[..|ds| - 1]) * 10 + DigitValue(ds[|ds| - 1])
  }

  /** `String(n)` for a non-negative integer. */
  function NatToString(n: nat): (s: string)
    ensures s != [] && AllDigits(s)
  {
    if n < 10 then [DigitChar(n)] else NatToString(n / 10) + [DigitChar(n % 10)]
  }

  /** `String(n)` for an integer. */
  function IntToString(n: int): (s: string)
    ensures s != []
  {
    if n < 0 then "-" + NatToString(-n) else NatToString(n)
  }

  /** `String(v)`, which is also what a template literal `${v}` produces. */
  function ToString(v: Value): string {
    match v
    case Undef => "undefined"
    case NaN => "NaN"
    case Num(n) => IntToString(n)
    case Bool(b) => if b then "true" else "false"
    case Str(s) => s
    case EmptyArray => ""
  }

  // ---------------------------------------------------------------------------
  // Whitespace and trimming

  /**
   * The characters ECMAScript strips in `trim` and skips before `parseInt`: the WhiteSpace
   * characters (tab, vertical tab, form feed, space, no-break space, the byte-order mark and
   * the Unicode space separators) and the LineTerminator characters.
   */
  predicate IsWhitespace(c: char) {
    || c == '\t' || c == '\n' || c == '\U{000B}' || c == '\U{000C}' || c == '\r' || c == ' '
    || c == '\U{00A0}' || c == '\U{1680}' || ('\U{2000}' <= c <= '\U{200A}')
    || c == '\U{2028}' || c == '\U{2029}' || c == '\U{202F}' || c == '\U{205F}'
    || c == '\U{3000}' || c == '\U{FEFF}'
  }

  function TrimStart(s: string): (r: string)
    ensures |r| <= |s|
    ensures r != [] ==> !IsWhitespace(r[0])
  {
    if s != [] && IsWhitespace(s[0]) then TrimStart(s[1..]) else s
  }

  function TrimEnd(s: string): (r: string)
    ensures |r| <= |s|
    ensures r != [] ==> !IsWhitespace(r[|r| - 1])
  {
    if s != [] && IsWhitespace(s[|s| - 1]) then TrimEnd(s[..|s| - 1]) else s
  }

  /** `s.trim()`. */
  function Trim(s: string): (r: string)
    ensures r != [] ==> !IsWhitespace(r[0]) && !IsWhitespace(r[|r| - 1])
  {
    var t := TrimEnd(TrimStart(s));
    assert t != [] ==> t[0] == TrimStart(s)[0] by {
      if t != [] {
        TrimEndKeepsPrefix(TrimStart(s));
      }
    }
    t
  }

  /** `trimStart` drops a run of whitespace and keeps the rest. */
  lemma {:induction false} TrimStartSkips(s: string)
    ensures s[|s| - |TrimStart(s)|..] == TrimStart(s)
    ensures forall i :: 0 <= i < |s| - |TrimStart(s)| ==> IsWhitespace(s[i])
  {
    if s != [] && IsWhitespace(s[0]) {
      TrimStartSkips(s[1..]);
      assert s[1..][|s| - 1 - |TrimStart(s)|..] == s[|s| - |TrimStart(s)|..];
    }
  }

  lemma {:induction false} TrimEndKeepsPrefix(s: string)
    ensures s[..|TrimEnd(s)|] == TrimEnd(s)
  {
    if s != [] && IsWhitespace(s[|s| - 1]) {
      TrimEndKeepsPrefix(s[..|s| - 1]);
    }
  }

  /** `trimEnd` drops a run of whitespace from the end and keeps the rest. */
  lemma {:induction false} TrimEndSkips(s: string)
    ensures s[..|TrimEnd(s)|] == TrimEnd(s)
    ensures forall i :: |TrimEnd(s)| <= i < |s| ==> IsWhitespace(s[i])
  {
    TrimEndKeepsPrefix(s);
    if s != [] && IsWhitespace(s[|s| - 1]) {
      TrimEndSkips(s[..|s| - 1]);
    }
  }

  /** A text that starts with a non-whitespace character keeps it through `trimEnd`. */
  lemma {:induction false} TrimEndKeepsHead(u: string)
    requires u != [] && !IsWhitespace(u[0])
    ensures TrimEnd(u) != []
    decreases |u|
  {
    if IsWhitespace(u[|u| - 1]) {
      assert |u| >= 2;
      TrimEndKeepsHead(u[..|u| - 1]);
    }
  }

  /** A text trims to nothing exactly when all of it is whitespace. */
  lemma TrimBlank(s: string)
    ensures Trim(s) == [] <==> forall i :: 0 <= i < |s| ==> IsWhitespace(s[i])
  {
    var u := TrimStart(s);
    TrimStartSkips(s);
    TrimEndSkips(u);
    if Trim(s) == [] {
      if u != [] {
        TrimEndKeepsHead(u);
      }
    } else {
      assert !IsWhitespace(u[0]);
      assert s[|s| - |u|] == u[0];
    }
  }

  /** ASCII lowering; for the test `raw.toLowerCase() === "vrai"` it agrees with the full
      Unicode mapping, since no other character lowers to one of the letters of "vrai". */
  function LowerAscii(s: string): (r: string)
    ensures |r| == |s|
  {
    if s == [] then []
    else [if 'A' <= s[0] <= 'Z' then (s[0] as int + 32) as char else s[0]] + LowerAscii(s[1..])
  }

  // ---------------------------------------------------------------------------
  // Number parsing

  /** The longest prefix of `s` made of decimal digits. */
  function LeadingDigits(s: string): (ds: string)
    ensures AllDigits(ds) && ds <= s
    ensures |ds| < |s| ==> !IsDigit(s[|ds|])
  {
    if s != [] && IsDigit(s[0]) then [s[0]] + LeadingDigits(s[1..]) else []
  }

  /** `parseInt(s, 10)`: skip leading whitespace, an optional sign, then the longest run of
      digits; NaN when there is none.  Whatever follows the digits is ignored. */
  function ParseInt(s: string): Value {
    var t := TrimStart(s);
    var neg := t != [] && t[0] == '-';
    var rest := if t != [] && (t[0] == '-' || t[0] == '+') then t[1..] else t;
    var ds := LeadingDigits(rest);
    if ds == [] then NaN
    else if neg then Num(-(DigitsValue(ds) as int))
    else Num(DigitsValue(ds))
  }

  /** `parseFloat(s)`, truncated toward zero since numbers are integers here: skip leading
      whitespace and an optional sign, then read the longest prefix that is a decimal literal;
      NaN when there is none.  Whatever follows that prefix is ignored. */
  function ParseFloat(s: string): Value {
    var t := TrimStart(s);
    var neg := t != [] && t[0] == '-';
    var rest := if t != [] && (t[0] == '-' || t[0] == '+') then t[1..] else t;
    match FloatPrefix(rest)
    case None => NaN
    case Some(m) => Num(if neg then -(m as int) else m)
  }

  /** The truncated value of the longest unsigned decimal literal at the start of `s`:
      digits, an optional point followed by digits, at least one digit in all, then an
      optional exponent.  None when `s` starts with no such literal. */
  function FloatPrefix(s: string): Option<nat> {
    var whole := LeadingDigits(s);
    var r := s[|whole|..];
    if r != [] && r[0] == '.' then
      var frac := LeadingDigits(r[1..]);
      FloatDigits(whole, frac, LeadingExponent(r[1 + |frac|..]))
    else FloatDigits(whole, [], LeadingExponent(r))
  }

  /** The literal with digits `whole` and `frac` around the point and exponent `e`; none
      when it has no digit. */
  function FloatDigits(whole: string, frac: string, e: int): Option<nat>
    requires AllDigits(whole) && AllDigits(frac)
  {
    if whole == [] && frac == [] then None else Some(Truncated(whole, frac, e))
  }

  /** The exponent `parseFloat` reads at the start of `s`: `e` or `E`, an optional sign and
      at least one digit.  Without them nothing is read and the exponent is 0. */
  function LeadingExponent(s: string): int {
    if s == [] || (s[0] != 'e' && s[0] != 'E') then 0
    else
      var t := s[1..];
      var neg := t != [] && t[0] == '-';
      var ds := LeadingDigits(if t != [] && (t[0] == '-' || t[0] == '+') then t[1..] else t);
      if ds == [] then 0 else if neg then -(DigitsValue(ds) as int) else DigitsValue(ds)
  }

  /** The digits `whole` and `frac` around the point, times ten to `e`, truncated toward
      zero: the digits that stand before the point once it has moved `e` places right. */
  function Truncated(whole: string, frac: string, e: int): nat
    requires AllDigits(whole) && AllDigits(frac)
  {
    var ds := whole + frac;
    var point := |whole| + e;
    if point <= 0 then 0
    else if point >= |ds| then DigitsValue(ds) * Pow10(point - |ds|)
    else DigitsValue(ds[..point])
  }

  /** The value of a digit in base 2, 8 or 16 (either case for the letters); none when `c` is
      not a digit of that base. */
  function RadixDigit(c: char, base: nat): (d: Option<nat>)
    ensures d.Some? ==> d.value < base
  {
    var v: int :=
      if '0' <= c <= '9' then c as int - '0' as int
      else if 'a' <= c <= 'f' then c as int - 'a' as int + 10
      else if 'A' <= c <= 'F' then c as int - 'A' as int + 10
      else base;
    if 0 <= v < base then Some(v) else None
  }

  /** The number a non-empty run of base-`base` digits denotes; none when a character is not
      such a digit. */
  function RadixValue(ds: string, base: nat): Option<nat>
    requires ds != []
  {
    var last := RadixDigit(ds[|ds| - 1], base);
    if last.None? then None
    else if |ds| == 1 then last
    else
      match RadixValue(ds[..|ds| - 1], base)
      case None => None
      case Some(high) => Some(high * base + last.value)
  }

  function Pow10(k: nat): (r: nat)
    ensures r >= 1
  {
    if k == 0 then 1 else 10 * Pow10(k - 1)
  }

  /** The exponent part of a decimal literal, `e` or `E` then an optionally signed run of
      digits; an empty tail is exponent 0. */
  function ExponentPart(s: string): Option<int> {
    if s == [] then Some(0)
    else if s[0] != 'e' && s[0] != 'E' then None
    else
      var t := s[1..];
      var neg := t != [] && t[0] == '-';
      var ds := if t != [] && (t[0] == '-' || t[0] == '+') then t[1..] else t;
      if ds != [] && AllDigits(ds) then Some(if neg then -(DigitsValue(ds) as int) else DigitsValue(ds))
      else None
  }

  /** An unsigned decimal literal: digits, an optional point with digits, an optional
      exponent, with at least one digit before the exponent.  The value when it is an
      integer; none when the text is no decimal literal (NaN) or its value has a fraction. */
  function DecimalValue(s: string): Option<int> {
    var whole := LeadingDigits(s);
    AfterWhole(whole, s[|whole|..])
  }

  /** The part of a decimal literal after its integer digits `whole`. */
  function AfterWhole(whole: string, r: string): Option<int>
    requires AllDigits(whole)
  {
    if r != [] && r[0] == '.' then
      var frac := LeadingDigits(r[1..]);
      Scaled(whole, frac, ExponentPart(r[1 + |frac|..]))
    else Scaled(whole, [], ExponentPart(r))
  }

  /** The value of the digits `whole` and `frac` around the point, times ten to `e`. */
  function Scaled(whole: string, frac: string, e: Option<int>): Option<int>
    requires AllDigits(whole) && AllDigits(frac)
  {
    if whole == [] && frac == [] then None
    else if e.None? then None
    else
      var m := DigitsValue(whole + frac);
      var scale := |frac| - e.value;
      if scale <= 0 then Some(m * Pow10(-scale))
      else if m % Pow10(scale) == 0 then Some(m / Pow10(scale))
      else None
  }

  /** The string-to-number conversion of loose comparison, `Number(s)`: surrounding
      whitespace is ignored and the empty text is 0; `0x`, `0o` and `0b` (either case)
      introduce an unsigned hexadecimal, octal or binary integer; otherwise an optional sign
      and a decimal literal.  None stands for NaN and also for a value with a fraction or an
      infinite one (`Infinity`), which no integer equals. */
  function StringToNumber(s: string): Option<int> {
    var t := Trim(s);
    if t == [] then Some(0)
    else if |t| > 2 && t[0] == '0' && (t[1] == 'x' || t[1] == 'X') then Widen(RadixValue(t[2..], 16))
    else if |t| > 2 && t[0] == '0' && (t[1] == 'o' || t[1] == 'O') then Widen(RadixValue(t[2..], 8))
    else if |t| > 2 && t[0] == '0' && (t[1] == 'b' || t[1] == 'B') then Widen(RadixValue(t[2..], 2))
    else
      var neg := t[0] == '-';
      var rest := if t[0] == '-' || t[0] == '+' then t[1..] else t;
      match DecimalValue(rest)
      case None => None
      case Some(n) => Some(if neg then -n else n)
  }

  function Widen(n: Option<nat>): Option<int> {
    match n
    case None => None
    case Some(v) => Some(v)
  }

  /** `iter += inc` with a number on the right: numbers add, a string concatenates the decimal
      text, booleans count as 0 or 1, undefined gives NaN, the empty array gives the text. */
  function AddNumber(v: Value, inc: int): Value {
    match v
    case Num(n) => Num(n + inc)
    case NaN => NaN
    case Undef => NaN
    case Bool(b) => Num((if b then 1 else 0) + inc)
    case Str(s) => Str(s + IntToString(inc))
    case EmptyArray => Str(IntToString(inc))
  }

  // ---------------------------------------------------------------------------
  // Round trips

  lemma {:induction false} DigitsValueOfNatToString(n: nat)
    ensures DigitsValue(NatToString(n)) == n
  {
    if n >= 10 {
      var s := NatToString(n);
      assert s[..|s| - 1] == NatToString(n / 10);
      DigitsValueOfNatToString(n / 10);
    }
  }

  lemma {:induction false} LeadingDigitsOfAllDigits(s: string, tail: string)
    requires AllDigits(s)
    requires tail == [] || !IsDigit(tail[0])
    ensures LeadingDigits(s + tail) == s
  {
    if s != [] {
      assert (s + tail)[1..] == s[1..] + tail;
      LeadingDigitsOfAllDigits(s[1..], tail);
    } else {
      assert s + tail == tail;
    }
  }

  lemma DigitIsNotWhitespace(c: char)
    requires IsDigit(c) || c == '-'
    ensures !IsWhitespace(c)
  {
  }

  /** A text that starts with a digit or a minus sign has no leading whitespace to skip. */
  lemma TrimStartOfNumber(s: string)
    requires s != [] && (IsDigit(s[0]) || s[0] == '-')
    ensures TrimStart(s) == s
  {
    DigitIsNotWhitespace(s[0]);
  }

  /** The text of an integer starts with a digit or a minus sign and ends with a digit. */
  lemma NoWhitespaceInNumber(n: int)
    ensures !IsWhitespace(IntToString(n)[0])
    ensures !IsWhitespace(IntToString(n)[|IntToString(n)| - 1])
  {
    var s := IntToString(n);
    var ds := NatToString(if n < 0 then -n else n);
    assert s[|s| - 1] == ds[|ds| - 1];
    DigitIsNotWhitespace(s[|s| - 1]);
    if n < 0 {
      assert s[0] == '-';
    } else {
      assert s[0] == ds[0];
    }
    DigitIsNotWhitespace(s[0]);
  }

  lemma TrimKeeps(s: string)
    requires s != [] && !IsWhitespace(s[0]) && !IsWhitespace(s[|s| - 1])
    ensures TrimStart(s) == s && TrimEnd(s) == s && Trim(s) == s
  {
  }

  /** The digits `String` writes for a non-negative integer, and the value they denote. */
  lemma DigitsOfNat(m: nat)
    ensures LeadingDigits(NatToString(m)) == NatToString(m)
    ensures DigitsValue(NatToString(m)) == m
  {
    var ds := NatToString(m);
    assert ds + [] == ds;
    LeadingDigitsOfAllDigits(ds, []);
    DigitsValueOfNatToString(m);
  }

  /** parseInt reads back what String writes for a non-negative integer. */
  lemma ParseIntOfNatToString(m: nat)
    ensures ParseInt(NatToString(m)) == Num(m)
  {
    var ds := NatToString(m);
    TrimStartOfNumber(ds);
    assert ds[0] != '-' && ds[0] != '+';
    DigitsOfNat(m);
  }

  /** parseInt reads back what String writes for a negative integer. */
  lemma ParseIntOfNegative(s: string, m: nat)
    requires s != [] && s[0] == '-' && s[1..] == NatToString(m)
    ensures ParseInt(s) == Num(-(m as int))
  {
    TrimStartOfNumber(s);
    DigitsOfNat(m);
  }

  /** parseInt reads back what String writes. */
  lemma ParseIntOfIntToString(n: int)
    ensures ParseInt(IntToString(n)) == Num(n)
  {
    var s := IntToString(n);
    if n < 0 {
      assert s[1..] == NatToString(-n);
      ParseIntOfNegative(s, -n);
    } else {
      assert s == NatToString(n);
      ParseIntOfNatToString(n);
    }
  }

  /** Distinct integers print differently (so `blk_n` ids never collide). */
  lemma IntToStringInjective(a: int, b: int)
    requires IntToString(a) == IntToString(b)
    ensures a == b
  {
    ParseIntOfIntToString(a);
    ParseIntOfIntToString(b);
  }

  /** Loose comparison converts a printed integer back to the same integer. */
  lemma StringToNumberOfIntToString(n: int)
    ensures StringToNumber(IntToString(n)) == Some(n)
  {
    var s := IntToString(n);
    NoWhitespaceInNumber(n);
    TrimKeeps(s);
    if n < 0 {
      assert s[1..] == NatToString(-n);
      StringToNumberOfNegative(s, -n);
    } else {
      assert s == NatToString(n);
      StringToNumberOfNat(n);
    }
  }

  /** A run of decimal digits is a decimal literal denoting its digits' value. */
  lemma DecimalValueOfDigits(ds: string)
    requires ds != [] && AllDigits(ds)
    ensures DecimalValue(ds) == Some(DigitsValue(ds) as int)
  {
    LeadingDigitsOfAllDigits(ds, []);
    assert ds + [] == ds;
    assert ds[|ds|..] == [];
  }

  lemma StringToNumberOfNat(m: nat)
    requires Trim(NatToString(m)) == NatToString(m)
    ensures StringToNumber(NatToString(m)) == Some(m)
  {
    var ds := NatToString(m);
    assert IsDigit(ds[0]) && IsDigit(ds[|ds| - 1]);
    DigitIsNotWhitespace(ds[|ds| - 1]);
    assert |ds| > 2 ==> IsDigit(ds[1]);
    StringToNumberOfDecimal(ds);
    DecimalValueOfDigits(ds);
    DigitsValueOfNatToString(m);
  }

  lemma StringToNumberOfNegative(s: string, m: nat)
    requires s != [] && s[0] == '-' && s[1..] == NatToString(m) && Trim(s) == s
    ensures StringToNumber(s) == Some(-(m as int))
  {
    DecimalValueOfDigits(s[1..]);
    DigitsValueOfNatToString(m);
  }

  /** Past the trimming and the radix prefixes, a text that starts with a digit is read as a
      decimal literal. */
  lemma StringToNumberOfDecimal(s: string)
    requires s != [] && IsDigit(s[0]) && !IsWhitespace(s[|s| - 1])
    requires |s| > 2 ==> s[1] != 'x' && s[1] != 'X' && s[1] != 'o' && s[1] != 'O' && s[1] != 'b' && s[1] != 'B'
    ensures StringToNumber(s) == DecimalValue(s)
  {
    DigitIsNotWhitespace(s[0]);
    TrimKeeps(s);
  }

  lemma DecimalValueOfExponent(ds: string, ks: string)
    requires ds != [] && AllDigits(ds) && ks != [] && AllDigits(ks)
    ensures DecimalValue(ds + "e" + ks) == Some(DigitsValue(ds) * Pow10(DigitsValue(ks)))
  {
    var s := ds + "e" + ks;
    assert s == ds + ("e" + ks);
    LeadingDigitsOfAllDigits(ds, "e" + ks);
    assert s[|ds|..] == "e" + ks;
    ExponentOfDigits(ks);
    assert ds + [] == ds;
    assert Scaled(ds, [], Some(DigitsValue(ks) as int)) == Some(DigitsValue(ds) * Pow10(DigitsValue(ks)));
  }

  lemma ExponentOfDigits(ks: string)
    requires ks != [] && AllDigits(ks)
    ensures ExponentPart("e" + ks) == Some(DigitsValue(ks) as int)
  {
    assert ("e" + ks)[1..] == ks;
  }

  lemma DecimalValueOfPointZero(ds: string)
    requires ds != [] && AllDigits(ds)
    ensures DecimalValue(ds + ".0") == Some(DigitsValue(ds) as int)
  {
    var s := ds + ".0";
    LeadingDigitsOfAllDigits(ds, ".0");
    assert s[|ds|..] == ".0";
    assert DecimalValue(s) == AfterWhole(ds, ".0");
    PointZero();
    assert AfterWhole(ds, ".0") == Scaled(ds, "0", Some(0));
    ScaledPointZero(ds);
  }

  lemma ScaledPointZero(ds: string)
    requires ds != [] && AllDigits(ds)
    ensures Scaled(ds, "0", Some(0)) == Some(DigitsValue(ds) as int)
  {
    var m := DigitsValue(ds);
    assert (ds + "0")[..|ds|] == ds;
    assert DigitsValue(ds + "0") == m * 10;
    assert Pow10(1) == 10;
    assert (m * 10) % 10 == 0 && (m * 10) / 10 == m;
  }

  lemma PointZero()
    ensures LeadingDigits(".0"[1..]) == "0" && ExponentPart(".0"[2..]) == Some(0)
  {
    assert ".0"[1..] == "0" && ".0"[2..] == [];
    assert LeadingDigits("0") == "0";
  }
  /** A decimal text followed by an exponent `e k` denotes the number times ten to the `k`. */
  lemma StringToNumberOfExponent(n: nat, k: nat)
    ensures StringToNumber(NatToString(n) + "e" + NatToString(k)) == Some(n * Pow10(k))
  {
    var ds, ks := NatToString(n), NatToString(k);
    var s := ds + "e" + ks;
    assert s[0] == ds[0] && s[|s| - 1] == ks[|ks| - 1];
    DigitIsNotWhitespace(s[|s| - 1]);
    assert |s| > 2 ==> IsDigit(s[1]) || s[1] == 'e';
    StringToNumberOfDecimal(s);
    DecimalValueOfExponent(ds, ks);
    DigitsValueOfNatToString(n);
    DigitsValueOfNatToString(k);
  }

  /** A decimal text followed by `.0` denotes the same number. */
  lemma StringToNumberOfPointZero(n: nat)
    ensures StringToNumber(NatToString(n) + ".0") == Some(n)
  {
    var ds := NatToString(n);
    var s := ds + ".0";
    assert s[0] == ds[0] && s[|s| - 1] == '0';
    DigitIsNotWhitespace(s[|s| - 1]);
    assert |s| > 2 ==> IsDigit(s[1]) || s[1] == '.';
    StringToNumberOfDecimal(s);
    DecimalValueOfPointZero(ds);
    DigitsValueOfNatToString(n);
  }

  /** A hexadecimal text: `Number("0x10")` is 16. */
  lemma StringToNumberOfHex()
    ensures StringToNumber("0x10") == Some(16)
  {
    TrimKeeps("0x10");
    assert "0x10"[2..] == "10";
    assert RadixValue("10", 16) == Some(16) by {
      assert "10"[..1] == "1";
    }
  }

  /** A binary text: `Number("0b101")` is 5. */
  lemma StringToNumberOfBinary()
    ensures StringToNumber("0b101") == Some(5)
  {
    TrimKeeps("0b101");
    assert "0b101"[2..] == "101";
    assert RadixValue("101", 2) == Some(5) by {
      assert "101"[..2] == "10" && "10"[..1] == "1";
    }
  }

  /** No sign may precede a radix prefix: `Number("-0x10")` is NaN. */
  lemma StringToNumberOfSignedHex()
    ensures StringToNumber("-0x10") == None
  {
    TrimKeeps("-0x10");
    assert "-0x10"[1..] == "0x10";
    assert LeadingDigits("0x10") == "0" by {
      assert "0x10"[1..] == "x10";
    }
    assert "0x10"[1..] == "x10";
  }

  /** A proper fraction is no integer: `Number("2.5")` equals none. */
  lemma StringToNumberOfFraction()
    ensures StringToNumber("2.5") == None
  {
    TrimKeeps("2.5");
    assert LeadingDigits("2.5") == "2" by {
      assert "2.5"[1..] == ".5";
    }
    assert "2.5"[1..] == ".5" && ".5"[1..] == "5" && ".5"[2..] == [];
    assert LeadingDigits("5") == "5";
    assert DigitsValue("25") == 25 by {
      assert "25"[..1] == "2";
    }
  }

  // ---------------------------------------------------------------------------
  // parseFloat

  /** A text that starts with a digit is read by parseFloat as the literal it starts with. */
  lemma ParseFloatOfUnsigned(s: string, m: nat)
    requires s != [] && IsDigit(s[0]) && FloatPrefix(s) == Some(m)
    ensures ParseFloat(s) == Num(m)
  {
    TrimStartOfNumber(s);
  }

  /** A text that starts with a minus sign is read as the negated literal after it. */
  lemma ParseFloatOfMinus(s: string, m: nat)
    requires s != [] && s[0] == '-' && FloatPrefix(s[1..]) == Some(m)
    ensures ParseFloat(s) == Num(-(m as int))
  {
    TrimStartOfNumber(s);
  }

  /** The digits `ws` followed by `tail`: FloatPrefix reads `ws` and goes on with `tail`. */
  lemma FloatPrefixOfDigits(ws: string, tail: string)
    requires ws != [] && AllDigits(ws) && (tail == [] || !IsDigit(tail[0]))
    ensures
      var r := tail;
      FloatPrefix(ws + tail) ==
        if r != [] && r[0] == '.' then
          FloatDigits(ws, LeadingDigits(r[1..]), LeadingExponent(r[1 + |LeadingDigits(r[1..])|..]))
        else FloatDigits(ws, [], LeadingExponent(r))
  {
    LeadingDigitsOfAllDigits(ws, tail);
    assert (ws + tail)[|ws|..] == tail;
  }

  /** The digits String writes for a natural are a literal denoting it. */
  lemma FloatPrefixOfNat(m: nat)
    ensures FloatPrefix(NatToString(m)) == Some(m)
  {
    var ws := NatToString(m);
    assert ws + [] == ws;
    FloatPrefixOfDigits(ws, []);
    DigitsValueOfNatToString(m);
    assert Truncated(ws, [], 0) == m;
  }

  /** parseFloat reads back what String writes. */
  lemma ParseFloatOfIntToString(n: int)
    ensures ParseFloat(IntToString(n)) == Num(n)
  {
    var s := IntToString(n);
    if n < 0 {
      assert s[1..] == NatToString(-n);
      FloatPrefixOfNat(-n);
      ParseFloatOfMinus(s, -n);
    } else {
      assert s == NatToString(n);
      FloatPrefixOfNat(n);
      ParseFloatOfUnsigned(s, n);
    }
  }

  /** Without an exponent the literal `ws.ds` truncates to the digits before the point. */
  lemma TruncatedOfWhole(ws: string, ds: string)
    requires AllDigits(ws) && AllDigits(ds)
    ensures Truncated(ws, ds, 0) == DigitsValue(ws)
  {
    if |ds| == 0 {
      assert ws + ds == ws;
    } else {
      assert (ws + ds)[..|ws|] == ws;
    }
  }

  /** Digits, a point and more digits with nothing after them. */
  lemma FloatPrefixOfPoint(ws: string, ds: string)
    requires ws != [] && AllDigits(ws) && AllDigits(ds)
    ensures FloatPrefix(ws + ("." + ds)) == FloatDigits(ws, ds, 0)
  {
    var r := "." + ds;
    FloatPrefixOfDigits(ws, r);
    assert r[1..] == ds;
    LeadingDigitsOfAllDigits(ds, []);
    assert ds + [] == ds;
    assert r[1 + |ds|..] == [];
  }

  /** The digits of `n`, a point and more digits `ds`: the literal truncates to `n`. */
  lemma FloatPrefixOfFraction(n: nat, ds: string)
    requires AllDigits(ds)
    ensures FloatPrefix(NatToString(n) + ("." + ds)) == Some(n)
  {
    var ws := NatToString(n);
    FloatPrefixOfPoint(ws, ds);
    TruncatedOfWhole(ws, ds);
    DigitsValueOfNatToString(n);
  }

  /** parseFloat drops the fraction of a decimal text: `n.ds` reads as `n`. */
  lemma ParseFloatTruncates(n: nat, ds: string)
    requires AllDigits(ds)
    ensures ParseFloat(NatToString(n) + "." + ds) == Num(n)
  {
    var ws := NatToString(n);
    var s := ws + ("." + ds);
    assert ws + "." + ds == s;
    assert s[0] == ws[0];
    FloatPrefixOfFraction(n, ds);
    ParseFloatOfUnsigned(s, n);
  }

  /** The exponent `e` followed by digits is their value. */
  lemma LeadingExponentOfDigits(ks: string)
    requires ks != [] && AllDigits(ks)
    ensures LeadingExponent("e" + ks) == DigitsValue(ks) as int
  {
    var r := "e" + ks;
    assert r[1..] == ks;
    LeadingDigitsOfAllDigits(ks, []);
    assert ks + [] == ks;
  }

  /** Digits with no fraction and a non-negative exponent `k`. */
  lemma TruncatedOfExponent(ws: string, k: nat)
    requires AllDigits(ws)
    ensures Truncated(ws, [], k) == DigitsValue(ws) * Pow10(k)
  {
    assert ws + [] == ws;
  }

  /** Digits, `e` and more digits: the literal's value times ten to the exponent. */
  lemma FloatPrefixOfExponent(ws: string, ks: string)
    requires ws != [] && AllDigits(ws) && ks != [] && AllDigits(ks)
    ensures FloatPrefix(ws + ("e" + ks)) == Some(DigitsValue(ws) * Pow10(DigitsValue(ks)))
  {
    FloatPrefixOfDigits(ws, "e" + ks);
    LeadingExponentOfDigits(ks);
    TruncatedOfExponent(ws, DigitsValue(ks));
  }

  /** parseFloat reads an exponent: `n e k` denotes n times ten to the `k`. */
  lemma ParseFloatOfExponent(n: nat, k: nat)
    ensures ParseFloat(NatToString(n) + "e" + NatToString(k)) == Num(n * Pow10(k))
  {
    var ws, ks := NatToString(n), NatToString(k);
    var s := ws + ("e" + ks);
    assert ws + "e" + ks == s;
    assert s[0] == ws[0];
    FloatPrefixOfExponent(ws, ks);
    DigitsValueOfNatToString(n);
    DigitsValueOfNatToString(k);
    ParseFloatOfUnsigned(s, n * Pow10(k));
  }

  /** A leading point gives integer part 0: `parseFloat(".5")` and `parseFloat("-.5")`
      truncate to 0. */
  lemma ParseFloatOfPointFraction(ds: string)
    requires ds != [] && AllDigits(ds)
    ensures ParseFloat("." + ds) == Num(0)
    ensures ParseFloat("-." + ds) == Num(0)
  {
    var s := "." + ds;
    assert s[1..] == ds;
    assert TrimStart(s) == s;
    assert LeadingDigits(s) == [] && s[0..] == s;
    LeadingDigitsOfAllDigits(ds, []);
    assert ds + [] == ds;
    assert s[1 + |ds|..] == [];
    assert Truncated([], ds, 0) == 0;
    assert FloatPrefix(s) == Some(0);
    var t := "-." + ds;
    assert t[0] == '-' && t[1..] == s;
    TrimStartOfNumber(t);
  }

  /** An exponent needs a digit: `parseFloat("7e")` and `parseFloat("7e+")` read 7. */
  lemma ParseFloatOfBareExponent(n: nat, tail: string)
    requires tail == "e" || tail == "e+"
    ensures ParseFloat(NatToString(n) + tail) == Num(n)
  {
    var ws := NatToString(n);
    var s := ws + tail;
    assert s[0] == ws[0];
    FloatPrefixOfDigits(ws, tail);
    assert tail[1..] == [] || tail[1..] == "+";
    assert LeadingExponent(tail) == 0;
    assert ws + [] == ws;
    DigitsValueOfNatToString(n);
    assert Truncated(ws, [], 0) == n;
    ParseFloatOfUnsigned(s, n);
  }

  /** A text that starts with neither whitespace, a sign, a digit nor a point followed by a
      digit reads as NaN; a lone point, for instance, is no number. */
  lemma ParseFloatOfNoDigits(s: string)
    requires s != [] && !IsWhitespace(s[0]) && !IsDigit(s[0]) && s[0] != '-' && s[0] != '+'
    requires s[0] == '.' ==> |s| == 1 || !IsDigit(s[1])
    ensures ParseFloat(s) == NaN
  {
    assert TrimStart(s) == s;
    assert LeadingDigits(s) == [] && s[0..] == s;
    if s[0] == '.' {
      assert LeadingDigits(s[1..]) == [];
    }
  }

  /** `parseFloat("1e3")` is 1000. */
  lemma ParseFloatOfThousand()
    ensures ParseFloat("1e3") == Num(1000)
  {
    var one, three := NatToString(1), NatToString(3);
    assert one == "1" && three == "3";
    ParseFloatOfExponent(1, 3);
    assert one + "e" + three == "1e3";
    assert Pow10(3) == 1000;
  }

  /** `parseFloat("2.5")` truncates to 2, and `".5"` and `"-.5"` truncate to 0. */
  lemma ParseFloatOfHalves()
    ensures ParseFloat("2.5") == Num(2)
    ensures ParseFloat(".5") == Num(0) && ParseFloat("-.5") == Num(0)
  {
    var two, five := NatToString(2), "5";
    assert two == "2";
    ParseFloatTruncates(2, five);
    assert two + "." + five == "2.5";
    ParseFloatOfPointFraction(five);
    assert "." + five == ".5" && "-." + five == "-.5";
  }
}
