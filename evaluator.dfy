/**
 * `evaluateExpr(expr, memory)`: textual substitution of the variables, longest name first,
 * then rewriting of the French logical keywords, then evaluation by the host.
 *
 * The host's `Function('"use strict"; return (' + text + ')')()` is an oracle: a total
 * function from the prepared text to the value it returns or to the fact that it threw.
 */
module Evaluator {

  import opened JsValues
  import opened Memory
  import opened Text

  datatype HostResult = Returned(v: Value) | Threw

  type Host = string -> HostResult

  /** `memory[v]?.value`. */
  function Lookup(mem: map<string, Entry>, name: string): Value {
    if name in mem then mem[name].value else Undef
  }

  /** The literal a value is substituted as: strings in double quotes, others as `String`. */
  function Render(v: Value): (t: string)
    ensures v.Str? ==> t == "\"" + v.s + "\""
    ensures !v.Str? ==> t == ToString(v)
  {
    if v.Str? then "\"" + v.s + "\"" else ToString(v)
  }

  // ---------------------------------------------------------------------------
  // `Object.keys(memory).sort((a, b) => b.length - a.length)`: a stable sort by length,
  // longest first.

  /** Insert `x` before the first name that is not longer than it. */
  function InsertByLength(x: string, t: seq<string>): (r: seq<string>)
    ensures multiset(r) == multiset(t) + multiset{x}
    ensures r[0] == x || (t != [] && r[0] == t[0])
  {
    if t == [] || |x| >= |t[0]| then [x] + t
    else
      assert t == [t[0]] + t[1..];
      [t[0]] + InsertByLength(x, t[1..])
  }

  function SortByLength(names: seq<string>): (r: seq<string>)
    ensures multiset(r) == multiset(names)
  {
    if names == [] then []
    else
      assert names == [names[0]] + names[1..];
      InsertByLength(names[0], SortByLength(names[1..]))
  }

  /** No name is longer than the one before it. */
  predicate LongestFirst(s: seq<string>) {
    forall i :: 0 < i < |s| ==> |s[i - 1]| >= |s[i]|
  }

  /** The names of length `k`, in the order they appear. */
  function OfLength(s: seq<string>, k: nat): seq<string> {
    if s == [] then []
    else if |s[0]| == k then [s[0]] + OfLength(s[1..], k)
    else OfLength(s[1..], k)
  }

  lemma {:induction false} InsertByLengthSorted(x: string, t: seq<string>)
    requires LongestFirst(t)
    ensures LongestFirst(InsertByLength(x, t))
  {
    if t != [] && |x| < |t[0]| {
      var rest := InsertByLength(x, t[1..]);
      assert LongestFirst(t[1..]) by {
        forall i | 0 < i < |t[1..]| ensures |t[1..][i - 1]| >= |t[1..][i]| {
          assert t[1..][i - 1] == t[i] && t[1..][i] == t[i + 1];
        }
      }
      InsertByLengthSorted(x, t[1..]);
      var r := [t[0]] + rest;
      forall i | 0 < i < |r| ensures |r[i - 1]| >= |r[i]| {
        if i > 1 {
          assert r[i - 1] == rest[i - 2] && r[i] == rest[i - 1];
        } else {
          assert r[1] == rest[0];
          assert |t| > 1 ==> t[1..][0] == t[1];
        }
      }
    }
  }

  lemma {:induction false} InsertByLengthStable(x: string, t: seq<string>, k: nat)
    ensures OfLength(InsertByLength(x, t), k) == if k == |x| then [x] + OfLength(t, k) else OfLength(t, k)
  {
    if t == [] || |x| >= |t[0]| {
      assert ([x] + t)[1..] == t;
    } else {
      var rest := InsertByLength(x, t[1..]);
      InsertByLengthStable(x, t[1..], k);
      assert ([t[0]] + rest)[1..] == rest;
    }
  }

  /** The sort puts longer names first and keeps names of equal length in their original
      order: the two facts that determine the order of substitution. */
  lemma {:induction false} SortByLengthOrder(names: seq<string>)
    ensures LongestFirst(SortByLength(names))
    ensures forall k: nat :: OfLength(SortByLength(names), k) == OfLength(names, k)
  {
    if names != [] {
      SortByLengthOrder(names[1..]);
      InsertByLengthSorted(names[0], SortByLength(names[1..]));
      forall k: nat ensures OfLength(SortByLength(names), k) == OfLength(names, k) {
        InsertByLengthStable(names[0], SortByLength(names[1..]), k);
      }
    }
  }

  /** Consequently, a name is never substituted after a shorter one. */
  lemma {:induction false} LongestFirstPairwise(s: seq<string>, i: int, j: int)
    requires LongestFirst(s) && 0 <= i <= j < |s|
    ensures |s[i]| >= |s[j]|
    decreases j - i
  {
    if i < j {
      LongestFirstPairwise(s, i, j - 1);
    }
  }

  // ---------------------------------------------------------------------------
  // Substitution, keywords, host

  /** Replace every variable of `vars`, in that order, by the literal of its value. */
  function Substitute(text: string, vars: seq<string>, mem: map<string, Entry>): string
    decreases vars
  {
    if vars == [] then text
    else Substitute(ReplaceAll(text, vars[0], Render(Lookup(mem, vars[0]))), vars[1..], mem)
  }

  /** " ET " becomes " && ", then " OU " becomes " || ", then "NON " becomes "!". */
  function RewriteKeywords(text: string): string {
    ReplaceAll(ReplaceAll(ReplaceAll(text, " ET ", " && "), " OU ", " || "), "NON ", "!")
  }

  /** The text handed to the host for `expr`, given the memory's keys in insertion order. */
  function Prepare(expr: string, names: seq<string>, mem: map<string, Entry>): string {
    RewriteKeywords(Substitute(expr, SortByLength(names), mem))
  }

  /** The value of the expression: undefined for the empty text and whenever the host throws. */
  function EvalExpr(expr: string, names: seq<string>, mem: map<string, Entry>, host: Host): (r: Value)
    ensures expr == "" ==> r.Undef?
    ensures expr != "" && host(Prepare(expr, names, mem)).Threw? ==> r.Undef?
    ensures expr != "" && host(Prepare(expr, names, mem)).Returned? ==> r == host(Prepare(expr, names, mem)).v
  {
    if expr == "" then Undef
    else
      match host(Prepare(expr, names, mem))
      case Returned(v) => v
      case Threw => Undef
  }

  /** `evaluateExpr`, with the substitution loop over the sorted names. */
  method EvaluateExpr(expr: string, names: seq<string>, mem: map<string, Entry>, host: Host) returns (r: Value)
    ensures r == EvalExpr(expr, names, mem, host)
  {
    if expr == "" {
      return Undef;
    }
    var replaced := expr;
    var vars := SortByLength(names);
    for i := 0 to |vars|
      invariant Substitute(replaced, vars[i..], mem) == Substitute(expr, vars, mem)
    {
      var v := vars[i];
      var safe := Render(Lookup(mem, v));
      assert vars[i..][1..] == vars[i + 1..];
      replaced := ReplaceAll(replaced, v, safe);
    }
    replaced := ReplaceAll(replaced, " ET ", " && ");
    replaced := ReplaceAll(replaced, " OU ", " || ");
    replaced := ReplaceAll(replaced, "NON ", "!");
    match host(replaced)
    case Returned(v) => r := v;
    case Threw => r := Undef;
  }

  /** A text with no variable name and no keyword in it reaches the host unchanged. */
  lemma {:induction false} SubstituteAbsent(text: string, vars: seq<string>, mem: map<string, Entry>)
    requires forall i :: 0 <= i < |vars| ==> vars[i] != [] && !Occurs(text, vars[i])
    ensures Substitute(text, vars, mem) == text
  {
    if vars != [] {
      ReplaceAllAbsent(text, vars[0], Render(Lookup(mem, vars[0])));
      SubstituteAbsent(text, vars[1..], mem);
    }
  }

  /** The keywords are rewritten only where they occur: a text without ` ET `, ` OU ` and
      `NON ` reaches the host as it is. */
  lemma RewriteKeywordsAbsent(text: string)
    requires !Occurs(text, " ET ") && !Occurs(text, " OU ") && !Occurs(text, "NON ")
    ensures RewriteKeywords(text) == text
  {
    ReplaceAllAbsent(text, " ET ", " && ");
    ReplaceAllAbsent(text, " OU ", " || ");
    ReplaceAllAbsent(text, "NON ", "!");
  }

  /** In particular a text without the capitals `E`, `O` and `N` has no keyword. */
  lemma NoKeywordLetters(text: string)
    requires 'E' !in text && 'O' !in text && 'N' !in text
    ensures RewriteKeywords(text) == text
  {
    AbsentWhenCharMissing(text, " ET ", 'E');
    AbsentWhenCharMissing(text, " OU ", 'O');
    AbsentWhenCharMissing(text, "NON ", 'N');
    RewriteKeywordsAbsent(text);
  }

  /** An expression that mentions no variable and no keyword is evaluated as written: the host
      receives the expression itself. */
  lemma EvalExprOfPlainText(expr: string, names: seq<string>, mem: map<string, Entry>, host: Host)
    requires expr != []
    requires forall i :: 0 <= i < |names| ==> names[i] != [] && !Occurs(expr, names[i])
    requires !Occurs(expr, " ET ") && !Occurs(expr, " OU ") && !Occurs(expr, "NON ")
    ensures Prepare(expr, names, mem) == expr
    ensures EvalExpr(expr, names, mem, host) == if host(expr).Returned? then host(expr).v else Undef
  {
    var sorted := SortByLength(names);
    forall i | 0 <= i < |sorted| ensures sorted[i] != [] && !Occurs(expr, sorted[i]) {
      assert sorted[i] in multiset(names);
      var j :| 0 <= j < |names| && names[j] == sorted[i];
    }
    SubstituteAbsent(expr, sorted, mem);
    RewriteKeywordsAbsent(expr);
  }

  /** The one occurrence of `p` in `a + p + b`, neither part holding the first character of
      `p`, is replaced by `r`. */
  lemma ReplaceSole(a: string, p: string, b: string, r: string)
    requires p != [] && '$' !in r && p[0] !in a && p[0] !in b
    ensures ReplaceAll(a + p + b, p, r) == a + r + b
  {
    ReplaceAllAt(a, p, b, r);
    AbsentWhenCharMissing(b, p, p[0]);
    ReplaceAllAbsent(b, p, r);
  }

  lemma SubstituteStep(text: string, v: string, rest: seq<string>, mem: map<string, Entry>, replaced: string)
    requires ReplaceAll(text, v, Render(Lookup(mem, v))) == replaced
    ensures Substitute(text, [v] + rest, mem) == Substitute(replaced, rest, mem)
  {
    assert ([v] + rest)[0] == v && ([v] + rest)[1..] == rest;
  }

  /** Preparing with two names, once both replacements are known. */
  lemma PrepareTwo(expr: string, names: seq<string>, u: string, v: string, mem: map<string, Entry>,
                   mid: string, out: string)
    requires SortByLength(names) == [u, v]
    requires ReplaceAll(expr, u, Render(Lookup(mem, u))) == mid
    requires ReplaceAll(mid, v, Render(Lookup(mem, v))) == out
    ensures Prepare(expr, names, mem) == RewriteKeywords(out)
  {
    SubstituteTwo(expr, u, v, mem, mid, out);
  }

  lemma SubstituteTwo(expr: string, u: string, v: string, mem: map<string, Entry>, mid: string, out: string)
    requires ReplaceAll(expr, u, Render(Lookup(mem, u))) == mid
    requires ReplaceAll(mid, v, Render(Lookup(mem, v))) == out
    ensures Substitute(expr, [u, v], mem) == out
  {
    assert [u, v] == [u] + [v];
    SubstituteStep(expr, u, [v], mem, mid);
    SubstituteLast(mid, v, mem, out);
  }

  lemma SubstituteLast(text: string, v: string, mem: map<string, Entry>, out: string)
    requires ReplaceAll(text, v, Render(Lookup(mem, v))) == out
    ensures Substitute(text, [v], mem) == out
  {
    assert [v][0] == v && [v][1..] == [];
  }

  /** The text of a number holds none of the letters and signs the examples below rely on. */
  lemma NumberText(n: int)
    ensures '$' !in Render(Num(n)) && 'a' !in Render(Num(n)) && 'b' !in Render(Num(n))
    ensures 'E' !in Render(Num(n)) && 'O' !in Render(Num(n)) && 'N' !in Render(Num(n))
  {
    var ds := NatToString(if n < 0 then -n else n);
    forall c | c in Render(Num(n)) ensures IsDigit(c) || c == '-' {
      if c in ds {
        var i :| 0 <= i < |ds| && ds[i] == c;
      }
    }
  }

  lemma StepA(x: string)
    requires '$' !in x
    ensures ReplaceAll("a + b", "a", x) == x + " + b"
  {
    assert "a + b" == "" + "a" + " + b";
    ReplaceSole("", "a", " + b", x);
  }

  lemma StepB(x: string, y: string)
    requires '$' !in y && 'b' !in x
    ensures ReplaceAll(x + " + b", "b", y) == x + " + " + y
  {
    assert x + " + b" == (x + " + ") + "b" + "";
    ReplaceSole(x + " + ", "b", "", y);
  }

  /** `a + b` with numbers `a = m` and `b = n` reaches the host as `m + n`. */
  lemma PrepareSubstitutesValues(m: int, n: int)
    ensures Prepare("a + b", ["a", "b"], map["a" := Entry(Entier, Num(m)), "b" := Entry(Entier, Num(n))])
         == Render(Num(m)) + " + " + Render(Num(n))
  {
    var mem := map["a" := Entry(Entier, Num(m)), "b" := Entry(Entier, Num(n))];
    var x, y := Render(Num(m)), Render(Num(n));
    NumberText(m);
    NumberText(n);
    assert SortByLength(["a", "b"]) == ["a", "b"];
    StepA(x);
    StepB(x, y);
    assert 'E' !in x + " + " + y && 'O' !in x + " + " + y && 'N' !in x + " + " + y;
    NoKeywordLetters(x + " + " + y);
    PrepareTwo("a + b", ["a", "b"], "a", "b", mem, x + " + b", x + " + " + y);
  }

  lemma StepAb(y: string)
    requires '$' !in y
    ensures ReplaceAll("ab + a", "ab", y) == y + " + a"
  {
    assert "ab + a" == "" + "ab" + " + a";
    ReplaceAllAt("", "ab", " + a", y);
    AbsentWhenCharMissing(" + a", "ab", 'b');
    ReplaceAllAbsent(" + a", "ab", y);
  }

  lemma StepAAfterAb(x: string, y: string)
    requires '$' !in x && 'a' !in y
    ensures ReplaceAll(y + " + a", "a", x) == y + " + " + x
  {
    assert y + " + a" == (y + " + ") + "a" + "";
    ReplaceSole(y + " + ", "a", "", x);
  }

  lemma StepAFirst(x: string)
    requires '$' !in x
    ensures ReplaceAll("ab + a", "a", x) == x + "b + " + x
  {
    assert "ab + a" == "" + "a" + "b + a";
    ReplaceAllAt("", "a", "b + a", x);
    StepATail(x);
  }

  lemma StepATail(x: string)
    requires '$' !in x
    ensures ReplaceAll("b + a", "a", x) == "b + " + x
  {
    var before := "b + ";
    assert 'a' !in before;
    assert "b + a" == before + "a" + "";
    ReplaceSole(before, "a", "", x);
  }

  lemma StepAbAfterA(x: string, y: string)
    requires 'a' !in x
    ensures ReplaceAll(x + "b + " + x, "ab", y) == x + "b + " + x
  {
    AbsentWhenCharMissing(x + "b + " + x, "ab", 'a');
    ReplaceAllAbsent(x + "b + " + x, "ab", y);
  }

  lemma LongestFirstOrder()
    ensures SortByLength(["a", "ab"]) == ["ab", "a"]
  {
    assert SortByLength(["ab"]) == ["ab"];
  }

  /** Longest name first: with numbers `a = m` and `ab = n`, `ab + a` becomes `n + m`; taking
      the names in insertion order instead would have turned it into `mb + m`. */
  lemma PrepareLongestNameFirst(m: int, n: int)
    ensures Prepare("ab + a", ["a", "ab"], map["a" := Entry(Entier, Num(m)), "ab" := Entry(Entier, Num(n))])
         == Render(Num(n)) + " + " + Render(Num(m))
    ensures Substitute("ab + a", ["a", "ab"], map["a" := Entry(Entier, Num(m)), "ab" := Entry(Entier, Num(n))])
         == Render(Num(m)) + "b + " + Render(Num(m))
  {
    var mem := map["a" := Entry(Entier, Num(m)), "ab" := Entry(Entier, Num(n))];
    LongestFirstPrepared(mem, Render(Num(m)), Render(Num(n)), m, n);
    InsertionOrder(mem, Render(Num(m)), Render(Num(n)), m, n);
  }

  lemma LongestFirstPrepared(mem: map<string, Entry>, x: string, y: string, m: int, n: int)
    requires mem == map["a" := Entry(Entier, Num(m)), "ab" := Entry(Entier, Num(n))]
    requires x == Render(Num(m)) && y == Render(Num(n))
    ensures Prepare("ab + a", ["a", "ab"], mem) == y + " + " + x
  {
    NumberText(m);
    NumberText(n);
    LongestFirstOrder();
    StepAb(y);
    StepAAfterAb(x, y);
    assert 'E' !in y + " + " + x && 'O' !in y + " + " + x && 'N' !in y + " + " + x;
    NoKeywordLetters(y + " + " + x);
    PrepareTwo("ab + a", ["a", "ab"], "ab", "a", mem, y + " + a", y + " + " + x);
  }

  lemma InsertionOrder(mem: map<string, Entry>, x: string, y: string, m: int, n: int)
    requires mem == map["a" := Entry(Entier, Num(m)), "ab" := Entry(Entier, Num(n))]
    requires x == Render(Num(m)) && y == Render(Num(n))
    ensures Substitute("ab + a", ["a", "ab"], mem) == x + "b + " + x
  {
    NumberText(m);
    StepAFirst(x);
    StepAbAfterA(x, y);
    assert ["a", "ab"] == ["a"] + ["ab"] && ["ab"] == ["ab"] + [];
    SubstituteStep("ab + a", "a", ["ab"], mem, x + "b + " + x);
    SubstituteStep(x + "b + " + x, "ab", [], mem, x + "b + " + x);
  }

  lemma StepX(x: string)
    requires '$' !in x
    ensures ReplaceAll("x ET NON y", "x", x) == x + " ET NON y"
  {
    assert "x ET NON y" == "x" + " ET NON y";
    FirstName("x", " ET NON y", x);
  }

  /** A text starting with a one-letter name that does not occur again. */
  lemma FirstName(v: string, rest: string, x: string)
    requires |v| == 1 && v[0] !in rest && '$' !in x
    ensures ReplaceAll(v + rest, v, x) == x + rest
  {
    assert v + rest == "" + v + rest;
    ReplaceSole("", v, rest, x);
  }

  lemma StepY(x: string, y: string)
    requires '$' !in y && 'y' !in x
    ensures ReplaceAll(x + " ET NON y", "y", y) == x + " ET NON " + y
  {
    var before := x + " ET NON ";
    assert 'y' !in before;
    assert x + " ET NON y" == before + "y" + "";
    ReplaceSole(before, "y", "", y);
  }

  lemma StepEt(x: string, y: string)
    requires ' ' !in x && 'E' !in y
    ensures ReplaceAll(x + " ET NON " + y, " ET ", " && ") == x + " && NON " + y
  {
    assert x + " ET NON " + y == x + " ET " + ("NON " + y);
    ReplaceAllAt(x, " ET ", "NON " + y, " && ");
    AbsentWhenCharMissing("NON " + y, " ET ", 'E');
    ReplaceAllAbsent("NON " + y, " ET ", " && ");
  }

  lemma StepOu(x: string, y: string)
    requires 'U' !in x && 'U' !in y
    ensures ReplaceAll(x + " && NON " + y, " OU ", " || ") == x + " && NON " + y
  {
    AbsentWhenCharMissing(x + " && NON " + y, " OU ", 'U');
    ReplaceAllAbsent(x + " && NON " + y, " OU ", " || ");
  }

  lemma StepNon(x: string, y: string)
    requires 'N' !in x && 'N' !in y
    ensures ReplaceAll(x + " && NON " + y, "NON ", "!") == x + " && !" + y
  {
    assert x + " && NON " + y == (x + " && ") + "NON " + y;
    ReplaceSole(x + " && ", "NON ", y, "!");
  }

  /** The text of a boolean holds none of the letters and signs the example below relies on. */
  lemma BoolText(p: bool)
    ensures '$' !in Render(Bool(p)) && ' ' !in Render(Bool(p))
    ensures 'x' !in Render(Bool(p)) && 'y' !in Render(Bool(p))
    ensures 'E' !in Render(Bool(p)) && 'U' !in Render(Bool(p)) && 'N' !in Render(Bool(p))
  {
  }

  /** The three keyword rewrites on `x ET NON y` once both names are replaced. */
  lemma KeywordSteps(x: string, y: string)
    requires ' ' !in x && 'U' !in x && 'N' !in x
    requires 'E' !in y && 'U' !in y && 'N' !in y
    ensures RewriteKeywords(x + " ET NON " + y) == x + " && !" + y
  {
    StepEt(x, y);
    StepOu(x, y);
    StepNon(x, y);
  }

  /** The French keywords become JavaScript operators: with booleans `x` and `y`,
      `x ET NON y` reaches the host as `x && !y`. */
  lemma PrepareRewritesKeywords(p: bool, q: bool)
    ensures Prepare("x ET NON y", ["x", "y"], map["x" := Entry(Booleen, Bool(p)), "y" := Entry(Booleen, Bool(q))])
         == Render(Bool(p)) + " && !" + Render(Bool(q))
  {
    var mem := map["x" := Entry(Booleen, Bool(p)), "y" := Entry(Booleen, Bool(q))];
    var x, y := Render(Bool(p)), Render(Bool(q));
    BoolText(p);
    BoolText(q);
    assert SortByLength(["x", "y"]) == ["x", "y"];
    StepX(x);
    StepY(x, y);
    PrepareTwo("x ET NON y", ["x", "y"], "x", "y", mem, x + " ET NON y", x + " ET NON " + y);
    KeywordSteps(x, y);
  }

  /** A string value is substituted through the replacement template of `replaceAll`: when
      the text `s` holds `u$$w` it reaches the host as `"u$w"`, and when it holds `u$&w` as
      `"usw"`, with the name itself in place of `$&`. */
  lemma PrepareExpandsDollarPatterns(u: string, w: string)
    requires '$' !in u && '$' !in w
    requires 'E' !in u && 'O' !in u && 'N' !in u && 'E' !in w && 'O' !in w && 'N' !in w
    ensures Prepare("s", ["s"], map["s" := Entry(Chaine, Str(u + "$$" + w))]) == "\"" + u + "$" + w + "\""
    ensures Prepare("s", ["s"], map["s" := Entry(Chaine, Str(u + "$&" + w))]) == "\"" + u + "s" + w + "\""
  {
    PrepareQuoted(u, "$$", w, "$");
    PrepareQuoted(u, "$&", w, "s");
  }

  lemma PrepareQuoted(u: string, d: string, w: string, e: string)
    requires '$' !in u && '$' !in w
    requires (d == "$$" && e == "$") || (d == "$&" && e == "s")
    requires 'E' !in u && 'O' !in u && 'N' !in u && 'E' !in w && 'O' !in w && 'N' !in w
    ensures Prepare("s", ["s"], map["s" := Entry(Chaine, Str(u + d + w))]) == "\"" + u + e + w + "\""
  {
    var q := "\"";
    var a, b := q + u, w + q;
    assert q + (u + d + w) + q == a + d + b;
    assert q + u + e + w + q == a + e + b;
    ExpandAround(a, d, b, e);
    assert 'E' !in a + e + b && 'O' !in a + e + b && 'N' !in a + e + b;
    PrepareDollarOne(map["s" := Entry(Chaine, Str(u + d + w))], a + d + b, a + e + b);
  }

  /** A `$$` or `$&` between two texts without `$`, expanded for a match of `s`. */
  lemma ExpandAround(a: string, d: string, b: string, e: string)
    requires '$' !in a && '$' !in b
    requires (d == "$$" && e == "$") || (d == "$&" && e == "s")
    ensures Expand(a + d + b, "", "s", "") == a + e + b
  {
    assert a + d + b == a + (d + b);
    ExpandAppend(a, d + b, "", "s", "");
    assert Expand(d + b, "", "s", "") == e + b by {
      ExpandAppend([], b, "", "s", "");
      ExpandLiteral(b, "", "s", "");
    }
    assert a + (e + b) == a + e + b;
  }

  lemma PrepareDollarOne(mem: map<string, Entry>, literal: string, prepared: string)
    requires Render(Lookup(mem, "s")) == literal && Expand(literal, "", "s", "") == prepared
    requires 'E' !in prepared && 'O' !in prepared && 'N' !in prepared
    ensures Prepare("s", ["s"], mem) == prepared
  {
    assert SortByLength(["s"]) == ["s"];
    assert ReplaceAll("s", "s", literal) == prepared by {
      assert "s" == "" + "s" + "";
      ReplaceAllLeftmost("", "s", "", literal);
      assert ScanFrom("s", "s", literal, 1) == [];
    }
    assert ["s"] == ["s"] + [];
    SubstituteStep("s", "s", [], mem, prepared);
    NoKeywordLetters(prepared);
  }
}
