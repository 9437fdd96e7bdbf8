/**
 * `compareValues(lv, op, rv)`: the six relational operators with JavaScript's loose
 * semantics, over the value domain of JsValues.
 */
module Comparator {

  import opened Wrappers
  import opened JsValues

  /** The operators the comparator knows, as the condition editor offers them. */
  const Operators: set<string> := {"<", "<=", ">", ">=", "==", "!="}

  /** ToNumber: None stands for NaN. */
  function ToNumber(v: Value): Option<int> {
    match v
    case Undef => None
    case NaN => None
    case Num(n) => Some(n)
    case Bool(b) => Some(if b then 1 else 0)
    case Str(s) => StringToNumber(s)
    case EmptyArray => Some(0)
  }

  /** Lexicographic order on strings by character, a proper prefix first.  A character here is
      a Unicode scalar value, while JavaScript compares UTF-16 code units: the two orders agree
      except between a character beyond U+FFFF and one from U+E000 to U+FFFF. */
  predicate StrLess(a: string, b: string) {
    if a == [] then b != []
    else if b == [] then false
    else if a[0] != b[0] then a[0] < b[0]
    else StrLess(a[1..], b[1..])
  }

  /** The abstract relational comparison `a < b`: None is its "undefined" outcome, which
      arises when a side converts to NaN. An array converts to its (empty) text first. */
  function Less(a: Value, b: Value): Option<bool> {
    var x := if a.EmptyArray? then Str("") else a;
    var y := if b.EmptyArray? then Str("") else b;
    if x.Str? && y.Str? then Some(StrLess(x.s, y.s))
    else
      match (ToNumber(x), ToNumber(y))
      case (Some(m), Some(n)) => Some(m < n)
      case _ => None
  }

  /** Loose equality `a == b`. Two arrays are two distinct objects, hence unequal. */
  predicate LooseEquals(a: Value, b: Value) {
    if a.Undef? || b.Undef? then a.Undef? && b.Undef?
    else if a.EmptyArray? && b.EmptyArray? then false
    else
      var x := Normalize(a);
      var y := Normalize(b);
      match (x, y)
      case (Str(s), Str(t)) => s == t
      case (Num(m), Num(n)) => m == n
      case (Num(m), Str(t)) => StringToNumber(t) == Some(m)
      case (Str(s), Num(n)) => StringToNumber(s) == Some(n)
      case _ => false
  }

  /** Booleans compare as 0 and 1, an array as its text. */
  function Normalize(v: Value): Value {
    match v
    case Bool(b) => Num(if b then 1 else 0)
    case EmptyArray => Str("")
    case _ => v
  }

  /** JavaScript's `a <= b`: true when `b < a` is false, not when it is undefined. */
  predicate AtMost(a: Value, b: Value) {
    Less(b, a) == Some(false)
  }

  /** `compareValues`: any operator other than the six yields false. */
  predicate CompareValues(lv: Value, op: string, rv: Value) {
    if op == "<" then Less(lv, rv) == Some(true)
    else if op == "<=" then AtMost(lv, rv)
    else if op == ">" then Less(rv, lv) == Some(true)
    else if op == ">=" then Less(lv, rv) == Some(false)
    else if op == "==" then LooseEquals(lv, rv)
    else if op == "!=" then !LooseEquals(lv, rv)
    else false
  }

  // ---------------------------------------------------------------------------

  lemma UnknownOperatorIsFalse(lv: Value, op: string, rv: Value)
    requires op !in Operators
    ensures !CompareValues(lv, op, rv)
  {
  }

  lemma NotEqualIsNegatedEqual(lv: Value, rv: Value)
    ensures CompareValues(lv, "!=", rv) == !CompareValues(lv, "==", rv)
  {
  }

  /** Loose equality does not depend on the side an operand is on. */
  lemma LooseEqualsSymmetric(a: Value, b: Value)
    ensures LooseEquals(a, b) == LooseEquals(b, a)
  {
  }

  /** On two integers the six operators are the integer relations. */
  lemma CompareIntegers(m: int, n: int)
    ensures CompareValues(Num(m), "<", Num(n)) == (m < n)
    ensures CompareValues(Num(m), "<=", Num(n)) == (m <= n) && AtMost(Num(m), Num(n)) == (m <= n)
    ensures CompareValues(Num(m), ">", Num(n)) == (m > n)
    ensures CompareValues(Num(m), ">=", Num(n)) == (m >= n)
    ensures CompareValues(Num(m), "==", Num(n)) == (m == n)
    ensures CompareValues(Num(m), "!=", Num(n)) == (m != n)
  {
  }

  /** `<` and `>=` are complementary exactly when the comparison is defined: with a NaN side
      both are false. */
  lemma LessAndAtLeastComplementary(lv: Value, rv: Value)
    ensures Less(lv, rv).Some? ==> CompareValues(lv, "<", rv) != CompareValues(lv, ">=", rv)
    ensures Less(lv, rv).None? ==> !CompareValues(lv, "<", rv) && !CompareValues(lv, ">=", rv)
  {
  }

  /** A number equals its own decimal text under loose comparison. */
  lemma NumberEqualsItsText(n: int)
    ensures CompareValues(Num(n), "==", Str(IntToString(n)))
    ensures !CompareValues(Num(n), "!=", Str(IntToString(n)))
  {
    var s := IntToString(n);
    StringToNumberOfIntToString(n);
    NumberEqualsTextIff(n, s);
    NotEqualIsNegatedEqual(Num(n), Str(s));
  }

  /** The loose comparison examples: 5 == "5" holds and 5 != 5 does not. */
  lemma LooseComparisonExamples()
    ensures CompareValues(Num(5), "==", Str("5"))
    ensures !CompareValues(Num(5), "!=", Num(5))
  {
    NumberEqualsItsText(5);
    assert IntToString(5) == "5";
  }

  /** A number loosely equals a text exactly when the text converts to that number. */
  lemma NumberEqualsTextIff(n: int, s: string)
    ensures CompareValues(Num(n), "==", Str(s)) <==> StringToNumber(s) == Some(n)
  {
  }

  /** Loose equality reads every numeric form of a text: 16 == "0x10", 5 == "5.0" and
      1000 == "1e3" hold, while 2 == "2.5" does not. */
  lemma LooseEqualsNumericTexts()
    ensures CompareValues(Num(16), "==", Str("0x10"))
    ensures CompareValues(Num(5), "==", Str("5.0"))
    ensures CompareValues(Num(1000), "==", Str("1e3"))
    ensures !CompareValues(Num(2), "==", Str("2.5"))
  {
    StringToNumberOfHex();
    NumberEqualsTextIff(16, "0x10");
    PointZeroFive();
    NumberEqualsTextIff(5, "5.0");
    OneEThree();
    NumberEqualsTextIff(1000, "1e3");
    StringToNumberOfFraction();
    NumberEqualsTextIff(2, "2.5");
  }

  lemma PointZeroFive()
    ensures StringToNumber("5.0") == Some(5)
  {
    assert NatToString(5) + ".0" == "5.0";
    StringToNumberOfPointZero(5);
  }

  lemma OneEThree()
    ensures StringToNumber("1e3") == Some(1000)
  {
    assert NatToString(1) + "e" + NatToString(3) == "1e3";
    StringToNumberOfExponent(1, 3);
    assert Pow10(3) == 1000;
  }

  // ---------------------------------------------------------------------------
  // The order on texts

  /** The order on texts is a strict order: never both ways and never reflexive. */
  lemma {:induction false} StrLessAsymmetric(a: string, b: string)
    requires StrLess(a, b)
    ensures !StrLess(b, a) && a != b
    decreases |a|
  {
    if a != [] && b != [] && a[0] == b[0] {
      StrLessAsymmetric(a[1..], b[1..]);
    }
  }

  /** A proper prefix comes first. */
  lemma {:induction false} StrLessOfPrefix(a: string, t: string)
    requires t != []
    ensures StrLess(a, a + t)
    decreases |a|
  {
    if a != [] {
      assert (a + t)[0] == a[0] && (a + t)[1..] == a[1..] + t;
      StrLessOfPrefix(a[1..], t);
    }
  }

  /** The `iter <= end` of a `for` compares two texts as texts: `"10" <= "9"` holds, while
      `10 <= 9` does not; and nothing is at most NaN. */
  lemma AtMostOfTexts()
    ensures AtMost(Str("10"), Str("9")) && !AtMost(Num(10), Num(9))
    ensures forall v :: !AtMost(v, NaN) && !AtMost(NaN, v)
  {
    var ten, nine := "10", "9";
    assert ten[0] == '1' && nine[0] == '9';
    assert !StrLess(nine, ten);
  }
}
