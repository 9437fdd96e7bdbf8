/** `String.prototype.replaceAll` with a string pattern and a string replacement, and what it
    does to a text. */
module Text {

  /** `p` occurs in `s` starting at index `i`. */
  predicate OccursAt(s: string, p: string, i: int) {
    0 <= i && i + |p| <= |s| && s[i..i + |p|] == p
  }

  predicate Occurs(s: string, p: string) {
    exists i :: 0 <= i <= |s| && OccursAt(s, p, i)
  }

  /**
   * The replacement template, expanded for one match (GetSubstitution in ECMAScript): `$$` is
   * a dollar sign, `$&` the matched text, `` $` `` the text before the match and `$'` the text
   * after it. A string pattern has no capture groups, so every other `$` (`$1`, `$<`, a final
   * `$`) stands for itself.
   */
  function Expand(r: string, before: string, matched: string, after: string): string
    decreases |r|
  {
    if r == [] then []
    else if r[0] == '$' && |r| >= 2 && r[1] in "$&`'" then
      (if r[1] == '$' then "$" else if r[1] == '&' then matched else if r[1] == '`' then before else after)
      + Expand(r[2..], before, matched, after)
    else [r[0]] + Expand(r[1..], before, matched, after)
  }

  /** The empty pattern matches at every index from `i` on: before each character and once
      more at the end. */
  function InsertFrom(s: string, r: string, i: nat): string
    requires i <= |s|
    decreases |s| - i
  {
    Expand(r, s[..i], "", s[i..]) + (if i == |s| then [] else [s[i]] + InsertFrom(s, r, i + 1))
  }

  /** A non-empty pattern: scan left to right from `i` and replace each non-overlapping
      occurrence. */
  function ScanFrom(s: string, p: string, r: string, i: nat): string
    requires p != [] && i <= |s|
    decreases |s| - i
  {
    if i + |p| > |s| then s[i..]
    else if OccursAt(s, p, i) then Expand(r, s[..i], p, s[i + |p|..]) + ScanFrom(s, p, r, i + |p|)
    else [s[i]] + ScanFrom(s, p, r, i + 1)
  }

  /** `s.replaceAll(p, r)`. */
  function ReplaceAll(s: string, p: string, r: string): string {
    if p == [] then InsertFrom(s, r, 0) else ScanFrom(s, p, r, 0)
  }

  // ---------------------------------------------------------------------------
  // The literal replacement, for templates without `$`

  /** The literal insertion of `r` into every gap of `s`: before each character and at the
      end. */
  function InsertEverywhere(s: string, r: string): (t: string)
    ensures |t| == |s| + (|s| + 1) * |r|
  {
    if s == [] then r else r + [s[0]] + InsertEverywhere(s[1..], r)
  }

  /** Replacing each non-overlapping occurrence by `r` as written. */
  function LiteralReplace(s: string, p: string, r: string): string
    decreases |s|
  {
    if p == [] then InsertEverywhere(s, r)
    else if |s| < |p| then s
    else if s[..|p|] == p then r + LiteralReplace(s[|p|..], p, r)
    else [s[0]] + LiteralReplace(s[1..], p, r)
  }

  /** A template without a dollar sign is inserted as written. */
  lemma {:induction false} ExpandLiteral(r: string, before: string, matched: string, after: string)
    requires '$' !in r
    ensures Expand(r, before, matched, after) == r
  {
    if r != [] {
      assert r[0] != '$' && r == [r[0]] + r[1..];
      ExpandLiteral(r[1..], before, matched, after);
    }
  }

  /** A prefix without `$` is copied, and `$$` and `$&` expand on their own. */
  lemma {:induction false} ExpandAppend(x: string, y: string, before: string, matched: string, after: string)
    requires '$' !in x
    ensures Expand(x + y, before, matched, after) == x + Expand(y, before, matched, after)
    ensures Expand("$$" + y, before, matched, after) == "$" + Expand(y, before, matched, after)
    ensures Expand("$&" + y, before, matched, after) == matched + Expand(y, before, matched, after)
  {
    assert ("$$" + y)[2..] == y && ("$&" + y)[2..] == y;
    if x != [] {
      assert (x + y)[1..] == x[1..] + y && x[0] != '$';
      ExpandAppend(x[1..], y, before, matched, after);
    } else {
      assert x + y == y;
    }
  }

  lemma {:induction false} InsertFromLiteral(s: string, r: string, i: nat)
    requires '$' !in r && i <= |s|
    ensures InsertFrom(s, r, i) == InsertEverywhere(s[i..], r)
    decreases |s| - i
  {
    ExpandLiteral(r, s[..i], "", s[i..]);
    if i < |s| {
      InsertFromLiteral(s, r, i + 1);
      assert s[i..][0] == s[i] && s[i..][1..] == s[i + 1..];
    }
  }

  lemma {:induction false} ScanFromLiteral(s: string, p: string, r: string, i: nat)
    requires '$' !in r && p != [] && i <= |s|
    ensures ScanFrom(s, p, r, i) == LiteralReplace(s[i..], p, r)
    decreases |s| - i
  {
    if i + |p| > |s| {
      LiteralShort(s, p, r, i);
    } else if OccursAt(s, p, i) {
      ScanFromLiteral(s, p, r, i + |p|);
      LiteralHit(s, p, r, i);
    } else {
      ScanFromLiteral(s, p, r, i + 1);
      LiteralMiss(s, p, r, i);
    }
  }

  lemma LiteralShort(s: string, p: string, r: string, i: nat)
    requires p != [] && i <= |s| && i + |p| > |s|
    ensures ScanFrom(s, p, r, i) == LiteralReplace(s[i..], p, r)
  {
  }

  lemma LiteralHit(s: string, p: string, r: string, i: nat)
    requires '$' !in r && p != [] && OccursAt(s, p, i)
    requires ScanFrom(s, p, r, i + |p|) == LiteralReplace(s[i + |p|..], p, r)
    ensures ScanFrom(s, p, r, i) == LiteralReplace(s[i..], p, r)
  {
    var t := s[i..];
    assert t[..|p|] == s[i..i + |p|] && t[|p|..] == s[i + |p|..];
    ExpandLiteral(r, s[..i], p, s[i + |p|..]);
  }

  lemma LiteralMiss(s: string, p: string, r: string, i: nat)
    requires p != [] && i + |p| <= |s| && !OccursAt(s, p, i)
    requires ScanFrom(s, p, r, i + 1) == LiteralReplace(s[i + 1..], p, r)
    ensures ScanFrom(s, p, r, i) == LiteralReplace(s[i..], p, r)
  {
    var t := s[i..];
    assert t[..|p|] == s[i..i + |p|] && t[0] == s[i] && t[1..] == s[i + 1..];
  }

  /** With a template without `$`, `replaceAll` is the literal replacement. */
  lemma ReplaceAllLiteral(s: string, p: string, r: string)
    requires '$' !in r
    ensures ReplaceAll(s, p, r) == LiteralReplace(s, p, r)
  {
    assert s[0..] == s;
    if p == [] {
      InsertFromLiteral(s, r, 0);
    } else {
      ScanFromLiteral(s, p, r, 0);
    }
  }

  /** With the empty pattern and a template without `$`, JavaScript inserts the replacement
      before every character and once more at the end. */
  lemma ReplaceAllEmptyPattern(s: string, r: string)
    requires '$' !in r
    ensures ReplaceAll(s, [], r) == InsertEverywhere(s, r)
    ensures |ReplaceAll(s, [], r)| == |s| + (|s| + 1) * |r|
  {
    ReplaceAllLiteral(s, [], r);
  }

  // ---------------------------------------------------------------------------
  // Properties of `replaceAll`

  lemma {:induction false} ScanFromAbsent(s: string, p: string, r: string, i: nat)
    requires p != [] && i <= |s|
    requires forall j :: i <= j <= |s| ==> !OccursAt(s, p, j)
    ensures ScanFrom(s, p, r, i) == s[i..]
    decreases |s| - i
  {
    if i + |p| <= |s| {
      ScanFromAbsent(s, p, r, i + 1);
      assert s[i..] == [s[i]] + s[i + 1..];
    }
  }

  /** A pattern holding a character the text lacks does not occur in it. */
  lemma AbsentWhenCharMissing(s: string, p: string, c: char)
    requires c in p && c !in s
    ensures !Occurs(s, p)
  {
    forall i | 0 <= i <= |s| ensures !OccursAt(s, p, i) {
      if i + |p| <= |s| {
        var w := s[i..i + |p|];
        forall k | 0 <= k < |w| ensures w[k] in s {
          assert w[k] == s[i + k];
        }
      }
    }
  }

  /** A text without the pattern comes back unchanged, whatever the template. */
  lemma ReplaceAllAbsent(s: string, p: string, r: string)
    requires p != [] && !Occurs(s, p)
    ensures ReplaceAll(s, p, r) == s
  {
    ScanFromAbsent(s, p, r, 0);
    assert s[0..] == s;
  }

  lemma {:induction false} LiteralReplaceSelf(s: string, p: string)
    requires p != []
    ensures LiteralReplace(s, p, p) == s
  {
    if |s| >= |p| {
      if s[..|p|] == p {
        LiteralReplaceSelf(s[|p|..], p);
        assert s == s[..|p|] + s[|p|..];
      } else {
        LiteralReplaceSelf(s[1..], p);
        assert s == [s[0]] + s[1..];
      }
    }
  }

  /** Replacing a pattern without `$` by itself changes nothing. */
  lemma ReplaceAllSelf(s: string, p: string)
    requires p != [] && '$' !in p
    ensures ReplaceAll(s, p, p) == s
  {
    ReplaceAllLiteral(s, p, p);
    LiteralReplaceSelf(s, p);
  }

  /** The first occurrence at or after `i` is the one replaced, and the scan resumes behind
      it. */
  lemma {:induction false} ScanFromLeftmost(s: string, p: string, r: string, i: nat, j: nat)
    requires p != [] && i <= j && OccursAt(s, p, j)
    requires forall k :: i <= k < j ==> !OccursAt(s, p, k)
    ensures ScanFrom(s, p, r, i)
         == s[i..j] + Expand(r, s[..j], p, s[j + |p|..]) + ScanFrom(s, p, r, j + |p|)
    decreases j - i
  {
    if i < j {
      assert !OccursAt(s, p, i);
      ScanFromLeftmost(s, p, r, i + 1, j);
      LeftmostTurn(s, p, r, i, j, Expand(r, s[..j], p, s[j + |p|..]), ScanFrom(s, p, r, j + |p|));
    } else {
      assert s[i..j] == [];
    }
  }

  lemma LeftmostTurn(s: string, p: string, r: string, i: nat, j: nat, e: string, b: string)
    requires p != [] && i < j && j + |p| <= |s| && !OccursAt(s, p, i)
    requires ScanFrom(s, p, r, i + 1) == s[i + 1..j] + e + b
    ensures ScanFrom(s, p, r, i) == s[i..j] + e + b
  {
    assert ScanFrom(s, p, r, i) == [s[i]] + ScanFrom(s, p, r, i + 1);
    assert s[i..j] == [s[i]] + s[i + 1..j];
  }

  lemma OccursAtTail(s: string, p: string, i: nat)
    requires s != []
    ensures OccursAt(s[1..], p, i) == OccursAt(s, p, i + 1)
  {
    if i + 1 + |p| <= |s| {
      assert s[1..][i..i + |p|] == s[i + 1..i + 1 + |p|];
    }
  }

  lemma {:induction false} LiteralReplaceLeftmost(a: string, p: string, b: string, r: string)
    requires p != []
    requires forall i :: 0 <= i < |a| ==> !OccursAt(a + p + b, p, i)
    ensures LiteralReplace(a + p + b, p, r) == a + r + LiteralReplace(b, p, r)
  {
    var s := a + p + b;
    if a == [] {
      assert s == p + b && s[..|p|] == p && s[|p|..] == b;
    } else {
      assert !OccursAt(s, p, 0);
      var s' := a[1..] + p + b;
      assert s[1..] == s';
      forall i | 0 <= i < |a[1..]| ensures !OccursAt(s', p, i) {
        OccursAtTail(s, p, i);
      }
      LiteralReplaceLeftmost(a[1..], p, b, r);
      assert LiteralReplace(s, p, r) == [s[0]] + LiteralReplace(s', p, r);
      assert a + r + LiteralReplace(b, p, r) == [a[0]] + (a[1..] + r + LiteralReplace(b, p, r));
    }
  }

  /** The leftmost occurrence is the one replaced: when `p` first occurs right after `a`, the
      result is `a`, then the expanded template, then the scan of what follows. A template
      without `$` lands as written, and the rest is replaced on its own. */
  lemma ReplaceAllLeftmost(a: string, p: string, b: string, r: string)
    requires p != []
    requires forall i :: 0 <= i < |a| ==> !OccursAt(a + p + b, p, i)
    ensures ReplaceAll(a + p + b, p, r) == a + Expand(r, a, p, b) + ScanFrom(a + p + b, p, r, |a| + |p|)
    ensures '$' !in r ==> ReplaceAll(a + p + b, p, r) == a + r + ReplaceAll(b, p, r)
  {
    LeftmostExpanded(a, p, b, r);
    if '$' !in r {
      LeftmostLiteral(a, p, b, r);
    }
  }

  lemma LeftmostExpanded(a: string, p: string, b: string, r: string)
    requires p != []
    requires forall i :: 0 <= i < |a| ==> !OccursAt(a + p + b, p, i)
    ensures ReplaceAll(a + p + b, p, r) == a + Expand(r, a, p, b) + ScanFrom(a + p + b, p, r, |a| + |p|)
  {
    var s := a + p + b;
    assert OccursAt(s, p, |a|) by {
      assert s[|a|..|a| + |p|] == p;
    }
    assert s[..|a|] == a && s[|a| + |p|..] == b && s[0..|a|] == a;
    ScanFromLeftmost(s, p, r, 0, |a|);
  }

  lemma LeftmostLiteral(a: string, p: string, b: string, r: string)
    requires p != [] && '$' !in r
    requires forall i :: 0 <= i < |a| ==> !OccursAt(a + p + b, p, i)
    ensures ReplaceAll(a + p + b, p, r) == a + r + ReplaceAll(b, p, r)
  {
    ReplaceAllLiteral(a + p + b, p, r);
    ReplaceAllLiteral(b, p, r);
    LiteralReplaceLeftmost(a, p, b, r);
  }

  /** The first occurrence, when the pattern's first character does not occur before it,
      with a template without `$`. */
  lemma ReplaceAllAt(a: string, p: string, b: string, r: string)
    requires p != [] && '$' !in r && p[0] !in a
    ensures ReplaceAll(a + p + b, p, r) == a + r + ReplaceAll(b, p, r)
  {
    var s := a + p + b;
    forall i | 0 <= i < |a| ensures !OccursAt(s, p, i) {
      assert s[i] == a[i] && a[i] in a;
      assert i + |p| <= |s| ==> s[i..i + |p|][0] == s[i];
    }
    ReplaceAllLeftmost(a, p, b, r);
  }

  /** The dollar patterns at work: `"$$".replaceAll("$$", "$$")` is `"$"`, `$&` repeats the
      match, `` $` `` and `$'` insert what surrounds it. */
  lemma ReplacementPatterns()
    ensures ReplaceAll("$$", "$$", "$$") == "$"
    ensures ReplaceAll("ab", "b", "[$&]") == "a[b]"
    ensures ReplaceAll("ab", "b", "$`") == "aa"
    ensures ReplaceAll("ab", "a", "$'") == "bb"
  {
    DollarDollar();
    SecondLetter("[$&]", "[b]");
    SecondLetter("$`", "a");
    FirstLetter();
  }

  lemma DollarDollar()
    ensures ReplaceAll("$$", "$$", "$$") == "$"
  {
    assert OccursAt("$$", "$$", 0);
    assert Expand("$$", "", "$$", "") == "$" by {
      assert "$$"[2..] == [];
    }
    assert ScanFrom("$$", "$$", "$$", 2) == [];
  }

  /** `"ab".replaceAll("b", r)`, for a template that expands to `e` at the match. */
  lemma SecondLetter(r: string, e: string)
    requires Expand(r, "a", "b", "") == e
    ensures ReplaceAll("ab", "b", r) == "a" + e
  {
    assert "ab"[..1] == "a" && "ab"[2..] == [];
    assert !OccursAt("ab", "b", 0) by {
      assert "ab"[0..1] == "a";
    }
    assert OccursAt("ab", "b", 1) by {
      assert "ab"[1..2] == "b";
    }
    assert ScanFrom("ab", "b", r, 2) == [];
    assert ScanFrom("ab", "b", r, 1) == e;
  }

  lemma FirstLetter()
    ensures ReplaceAll("ab", "a", "$'") == "bb"
  {
    assert "ab"[..0] == [] && "ab"[1..] == "b";
    assert OccursAt("ab", "a", 0);
    assert Expand("$'", "", "a", "b") == "b" by {
      assert "$'"[2..] == [];
    }
    assert ScanFrom("ab", "a", "$'", 2) == [];
    assert !OccursAt("ab", "a", 1) by {
      assert "ab"[1..2] == "b";
    }
    assert ScanFrom("ab", "a", "$'", 1) == "b";
  }
}
