/**
 * `generatePseudoCode`: the listing of a forest, one line per statement and one per
 * closing keyword, each indented by two spaces per level of nesting.
 */
module PseudoCode {

  import opened Blocks

  /** `"  ".repeat(depth)`. */
  function Pad(depth: nat): (r: string)
    ensures |r| == 2 * depth
    ensures forall i :: 0 <= i < |r| ==> r[i] == ' '
  {
    if depth == 0 then "" else Pad(depth - 1) + "  "
  }

  function Condition(left: string, op: string, right: string): string {
    "(" + left + " " + op + " " + right + ")"
  }

  /** The lines of a forest at nesting depth `depth`. */
  function Lines(bs: seq<Block>, depth: nat): seq<string>
    decreases SizeF(bs), 1
  {
    if bs == [] then [] else BlockLines(bs[0], depth) + Lines(bs[1..], depth)
  }

  /** The lines of one block: its header, the lines of its nested lists one level deeper,
      and its closing keyword.  A block of an unknown type has none. */
  function BlockLines(b: Block, depth: nat): seq<string>
    decreases Size(b), 0
  {
    var pad := Pad(depth);
    match b.kind
    case Comment(text) => [pad + "// " + text]
    case Declare(name, dataType) => [pad + "DÉCLARER " + name + " : " + dataType]
    case Assign(varName, expression) => [pad + varName + " <- " + expression]
    case Display(value) => [pad + "AFFICHER " + value]
    case Read(varName) => [pad + "LIRE " + varName]
    case If(l, op, r, t, e) =>
      [pad + "SI " + Condition(l, op, r) + " ALORS"] + Lines(t, depth + 1)
      + (if |e| > 0 then [pad + "SINON"] + Lines(e, depth + 1) else [])
      + [pad + "FIN SI"]
    case For(v, from, to, step, body) =>
      [pad + "POUR " + v + " DE " + from + " A " + to + " PAS " + step + " FAIRE"]
      + Lines(body, depth + 1) + [pad + "FIN POUR"]
    case While(l, op, r, body) =>
      [pad + "TANT QUE " + Condition(l, op, r) + " FAIRE"] + Lines(body, depth + 1)
      + [pad + "FIN TANT QUE"]
    case Repeat(body, l, op, r) =>
      [pad + "RÉPÉTER"] + Lines(body, depth + 1) + [pad + "JUSQU'A " + Condition(l, op, r)]
    case Unknown(_) => []
  }

  lemma {:induction false} LinesAppend(a: seq<Block>, b: seq<Block>, depth: nat)
    ensures Lines(a + b, depth) == Lines(a, depth) + Lines(b, depth)
    decreases |a|
  {
    if a == [] {
      assert a + b == b;
    } else {
      assert (a + b)[0] == a[0] && (a + b)[1..] == a[1..] + b;
      LinesAppend(a[1..], b, depth);
    }
  }

  // ---------------------------------------------------------------------------
  // The generator

  /** `generatePseudoCode(blocks, indent)`: a loop over the blocks that pushes each
      block's lines, recursing into the nested lists. */
  method GeneratePseudoCode(bs: seq<Block>, depth: nat) returns (lines: seq<string>)
    ensures lines == Lines(bs, depth)
    decreases SizeF(bs), 1
  {
    lines := [];
    for i := 0 to |bs|
      invariant lines == Lines(bs[..i], depth)
    {
      SizeOfElement(bs, i);
      var own := BlockCode(bs[i], depth);
      lines := lines + own;
      LinesAppend(bs[..i], [bs[i]], depth);
      assert bs[..i + 1] == bs[..i] + [bs[i]];
      assert Lines([bs[i]], depth) == BlockLines(bs[i], depth) by {
        assert [bs[i]][1..] == [];
      }
    }
    assert bs[..|bs|] == bs;
  }

  /** The `switch` on the block type, one case of the loop above. */
  method BlockCode(b: Block, depth: nat) returns (lines: seq<string>)
    ensures lines == BlockLines(b, depth)
    decreases Size(b), 0
  {
    var pad := Pad(depth);
    match b.kind {
      case Comment(text) =>
        lines := [pad + "// " + text];
      case Declare(name, dataType) =>
        lines := [pad + "DÉCLARER " + name + " : " + dataType];
      case Assign(varName, expression) =>
        lines := [pad + varName + " <- " + expression];
      case Display(value) =>
        lines := [pad + "AFFICHER " + value];
      case Read(varName) =>
        lines := [pad + "LIRE " + varName];
      case If(l, op, r, t, e) =>
        lines := [pad + "SI " + Condition(l, op, r) + " ALORS"];
        var inner := GeneratePseudoCode(t, depth + 1);
        lines := lines + inner;
        if |e| > 0 {
          lines := lines + [pad + "SINON"];
          var other := GeneratePseudoCode(e, depth + 1);
          lines := lines + other;
        }
        lines := lines + [pad + "FIN SI"];
      case For(v, from, to, step, body) =>
        lines := [pad + "POUR " + v + " DE " + from + " A " + to + " PAS " + step + " FAIRE"];
        var inner := GeneratePseudoCode(body, depth + 1);
        lines := lines + inner + [pad + "FIN POUR"];
      case While(l, op, r, body) =>
        lines := [pad + "TANT QUE " + Condition(l, op, r) + " FAIRE"];
        var inner := GeneratePseudoCode(body, depth + 1);
        lines := lines + inner + [pad + "FIN TANT QUE"];
      case Repeat(body, l, op, r) =>
        lines := [pad + "RÉPÉTER"];
        var inner := GeneratePseudoCode(body, depth + 1);
        lines := lines + inner + [pad + "JUSQU'A " + Condition(l, op, r)];
      case Unknown(_) =>
        lines := [];
    }
  }

  // ---------------------------------------------------------------------------
  // Properties of the listing

  /** A deeper pad extends a shallower one. */
  lemma PadGrows(d: nat, e: nat)
    requires d <= e
    ensures Pad(d) <= Pad(e)
  {
    assert Pad(d) == Pad(e)[..2 * d];
  }

  predicate AllPrefixed(lines: seq<string>, pad: string) {
    forall k :: 0 <= k < |lines| ==> pad <= lines[k]
  }

  lemma PrefixedConcat(a: seq<string>, b: seq<string>, pad: string)
    requires AllPrefixed(a, pad) && AllPrefixed(b, pad)
    ensures AllPrefixed(a + b, pad)
  {
  }

  lemma PrefixedWeaken(lines: seq<string>, shorter: string, pad: string)
    requires AllPrefixed(lines, pad) && shorter <= pad
    ensures AllPrefixed(lines, shorter)
  {
  }

  /** Every line at depth `d` starts with the pad of depth `d`. */
  lemma {:induction false} LinesIndented(bs: seq<Block>, d: nat)
    ensures AllPrefixed(Lines(bs, d), Pad(d))
    decreases SizeF(bs), 2
  {
    if bs != [] {
      BlockLinesIndented(bs[0], d);
      LinesIndented(bs[1..], d);
      PrefixedConcat(BlockLines(bs[0], d), Lines(bs[1..], d), Pad(d));
    }
  }

  lemma {:induction false} BlockLinesIndented(b: Block, d: nat)
    ensures AllPrefixed(BlockLines(b, d), Pad(d))
    decreases Size(b), 1
  {
    var pad := Pad(d);
    match b.kind
    case If(l, op, r, t, e) =>
      IfIndented(b, d);
    case For(v, from, to, step, body) =>
      LinesIndented(body, d + 1);
      NestedIndented(body, d);
      Framed(pad, pad + "POUR " + v + " DE " + from + " A " + to + " PAS " + step + " FAIRE",
             Lines(body, d + 1), pad + "FIN POUR");
    case While(l, op, r, body) =>
      LinesIndented(body, d + 1);
      NestedIndented(body, d);
      Framed(pad, pad + "TANT QUE " + Condition(l, op, r) + " FAIRE", Lines(body, d + 1),
             pad + "FIN TANT QUE");
    case Repeat(body, l, op, r) =>
      LinesIndented(body, d + 1);
      NestedIndented(body, d);
      Framed(pad, pad + "RÉPÉTER", Lines(body, d + 1), pad + "JUSQU'A " + Condition(l, op, r));
    case _ =>
  }

  lemma {:induction false} IfIndented(b: Block, d: nat)
    requires b.kind.If?
    ensures AllPrefixed(BlockLines(b, d), Pad(d))
    decreases Size(b), 0
  {
    var pad := Pad(d);
    var t, e := b.kind.thenBlocks, b.kind.elseBlocks;
    LinesIndented(t, d + 1);
    NestedIndented(t, d);
    LinesIndented(e, d + 1);
    NestedIndented(e, d);
    var tail := if |e| > 0 then [pad + "SINON"] + Lines(e, d + 1) else [];
    PrefixedConcat([pad + "SINON"], Lines(e, d + 1), pad);
    PrefixedConcat(Lines(t, d + 1), tail, pad);
    Framed(pad, pad + "SI " + Condition(b.kind.left, b.kind.op, b.kind.right) + " ALORS",
           Lines(t, d + 1) + tail, pad + "FIN SI");
  }

  /** The lines one level deeper start with the pad of this level, too. */
  lemma NestedIndented(bs: seq<Block>, d: nat)
    requires AllPrefixed(Lines(bs, d + 1), Pad(d + 1))
    ensures AllPrefixed(Lines(bs, d + 1), Pad(d))
  {
    PadGrows(d, d + 1);
  }

  lemma Framed(pad: string, head: string, nested: seq<string>, close: string)
    requires pad <= head && pad <= close && AllPrefixed(nested, pad)
    ensures AllPrefixed([head] + nested + [close], pad)
  {
  }

  /** An `if` opens with its condition and always ends with `FIN SI`. */
  lemma IfListing(id: string, l: string, op: string, r: string, t: seq<Block>, e: seq<Block>, d: nat)
    ensures var lines := BlockLines(Block(id, If(l, op, r, t, e)), d);
            lines[0] == Pad(d) + "SI " + Condition(l, op, r) + " ALORS" &&
            lines[|lines| - 1] == Pad(d) + "FIN SI"
  {
  }

  /** The line `SINON` of an `if` appears exactly when its `elseBlocks` is non-empty. */
  lemma IfElseLine(id: string, l: string, op: string, r: string, t: seq<Block>, e: seq<Block>, d: nat)
    ensures Pad(d) + "SINON" in BlockLines(Block(id, If(l, op, r, t, e)), d) <==> |e| > 0
  {
    var pad := Pad(d);
    var lines := BlockLines(Block(id, If(l, op, r, t, e)), d);
    var head := pad + "SI " + Condition(l, op, r) + " ALORS";
    if |e| == 0 {
      assert lines == [head] + Lines(t, d + 1) + [pad + "FIN SI"];
      LinesIndented(t, d + 1);
      NoElseLine(head, Lines(t, d + 1), pad + "FIN SI", d);
    } else {
      assert lines == [head] + Lines(t, d + 1) + ([pad + "SINON"] + Lines(e, d + 1)) + [pad + "FIN SI"];
      assert lines[1 + |Lines(t, d + 1)|] == pad + "SINON";
    }
  }

  /** Neither the header, the closing line nor a line one level deeper is the `SINON` of
      this level: each has another character where that line has its `S`. */
  lemma NoElseLine(head: string, nested: seq<string>, close: string, d: nat)
    requires Pad(d) + "SI " <= head && close == Pad(d) + "FIN SI"
    requires AllPrefixed(nested, Pad(d + 1))
    ensures Pad(d) + "SINON" !in [head] + nested + [close]
  {
    var pad := Pad(d);
    var target := pad + "SINON";
    assert target[2 * d] == 'S' && target[2 * d + 1] == 'I' && target[2 * d + 2] == 'N';
    assert head[2 * d + 2] == (Pad(d) + "SI ")[2 * d + 2] == ' ';
    assert close[2 * d] == 'F';
    forall k | 0 <= k < |nested|
      ensures nested[k] != target
    {
      assert Pad(d + 1) <= nested[k];
      assert nested[k][2 * d] == Pad(d + 1)[2 * d] == ' ';
    }
    var lines := [head] + nested + [close];
    forall k | 0 <= k < |lines|
      ensures lines[k] != target
    {
      if 0 < k < |lines| - 1 {
        assert lines[k] == nested[k - 1];
      }
    }
  }

  /** The three loops always close: `FIN POUR`, `FIN TANT QUE`, and `JUSQU'A` with the
      exit condition for `repeat`. */
  lemma LoopsClose(b: Block, d: nat)
    requires b.kind.For? || b.kind.While? || b.kind.Repeat?
    ensures var lines := BlockLines(b, d);
            |lines| >= 2 &&
            lines[|lines| - 1] == Pad(d) + match b.kind
              case For(_, _, _, _, _) => "FIN POUR"
              case While(_, _, _, _) => "FIN TANT QUE"
              case Repeat(_, l, op, r) => "JUSQU'A " + Condition(l, op, r)
              case _ => ""
  {
  }

  // ---------------------------------------------------------------------------
  // How many lines

  /** The lines a block contributes itself, apart from those of its nested blocks. */
  function OwnLines(b: Block): nat {
    match b.kind
    case If(_, _, _, _, e) => if |e| > 0 then 3 else 2
    case For(_, _, _, _, _) => 2
    case While(_, _, _, _) => 2
    case Repeat(_, _, _, _) => 2
    case Unknown(_) => 0
    case _ => 1
  }

  function TotalOwnLines(nodes: seq<Block>): nat {
    if nodes == [] then 0 else OwnLines(nodes[0]) + TotalOwnLines(nodes[1..])
  }

  lemma {:induction false} TotalOwnLinesAppend(a: seq<Block>, b: seq<Block>)
    ensures TotalOwnLines(a + b) == TotalOwnLines(a) + TotalOwnLines(b)
    decreases |a|
  {
    if a == [] {
      assert a + b == b;
    } else {
      assert (a + b)[0] == a[0] && (a + b)[1..] == a[1..] + b;
      TotalOwnLinesAppend(a[1..], b);
    }
  }

  /** The listing has one line per known node and one per closing keyword, summed over
      every node at every depth; in particular unknown blocks add nothing. */
  lemma {:induction false} LineCount(bs: seq<Block>, d: nat)
    ensures |Lines(bs, d)| == TotalOwnLines(Flatten(bs))
    decreases SizeF(bs), 1
  {
    if bs != [] {
      BlockLineCount(bs[0], d);
      LineCount(bs[1..], d);
      TotalOwnLinesAppend(FlattenBlock(bs[0]), Flatten(bs[1..]));
    }
  }

  lemma {:induction false} BlockLineCount(b: Block, d: nat)
    ensures |BlockLines(b, d)| == TotalOwnLines(FlattenBlock(b))
    decreases Size(b), 0
  {
    assert TotalOwnLines(FlattenBlock(b)) == OwnLines(b) + TotalOwnLines(FlattenBlock(b)[1..]);
    match b.kind
    case If(_, _, _, t, e) =>
      LineCount(t, d + 1);
      LineCount(e, d + 1);
      TotalOwnLinesAppend(Flatten(t), Flatten(e));
      assert FlattenBlock(b)[1..] == Flatten(t) + Flatten(e);
      if |e| == 0 {
        assert Flatten(e) == [];
      }
    case For(_, _, _, _, body) =>
      LineCount(body, d + 1);
      assert FlattenBlock(b)[1..] == Flatten(body);
    case While(_, _, _, body) =>
      LineCount(body, d + 1);
      assert FlattenBlock(b)[1..] == Flatten(body);
    case Repeat(body, _, _, _) =>
      LineCount(body, d + 1);
      assert FlattenBlock(b)[1..] == Flatten(body);
    case _ =>
      assert FlattenBlock(b)[1..] == [];
  }
}
