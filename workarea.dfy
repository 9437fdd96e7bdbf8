/**
 * Two pieces of logic from the work area: the list of declared variables offered to the
 * editors of the blocks, and the check that turns a drop of a dragged block into a move.
 */
module WorkArea {

  import opened Wrappers
  import opened JsValues
  import opened Blocks

  /** `{ name, dataType }`: a variable as the editors offer it. */
  datatype VarDecl = VarDecl(name: string, dataType: string)

  // ---------------------------------------------------------------------------
  // `extractDeclaredVars`

  /** A declaration is collected when its name is not blank. */
  predicate Qualifies(b: Block) {
    b.kind.Declare? && Trim(b.kind.name) != []
  }

  /** What a single node contributes, apart from its nested blocks. */
  function OwnDecl(b: Block): seq<VarDecl> {
    if Qualifies(b) then [VarDecl(Trim(b.kind.name), b.kind.dataType)] else []
  }

  /** The declarations of a forest: each block's own, then those of its `thenBlocks`, of
      its `elseBlocks` and of its `body`. */
  function DeclaredVars(bs: seq<Block>): seq<VarDecl>
    decreases SizeF(bs), 1
  {
    if bs == [] then [] else DeclaredIn(bs[0]) + DeclaredVars(bs[1..])
  }

  function DeclaredIn(b: Block): seq<VarDecl>
    decreases Size(b), 0
  {
    OwnDecl(b) + match b.kind
                 case If(_, _, _, t, e) => DeclaredVars(t) + DeclaredVars(e)
                 case For(_, _, _, _, body) => DeclaredVars(body)
                 case While(_, _, _, body) => DeclaredVars(body)
                 case Repeat(body, _, _, _) => DeclaredVars(body)
                 case _ => []
  }

  lemma {:induction false} DeclaredVarsAppend(a: seq<Block>, b: seq<Block>)
    ensures DeclaredVars(a + b) == DeclaredVars(a) + DeclaredVars(b)
    decreases |a|
  {
    if a == [] {
      assert a + b == b;
    } else {
      assert (a + b)[0] == a[0] && (a + b)[1..] == a[1..] + b;
      DeclaredVarsAppend(a[1..], b);
    }
  }

  /** `extractDeclaredVars(blocks)`: a loop that pushes what each block declares. */
  method ExtractDeclaredVars(bs: seq<Block>) returns (vars: seq<VarDecl>)
    ensures vars == DeclaredVars(bs)
    decreases SizeF(bs), 1
  {
    vars := [];
    for i := 0 to |bs|
      invariant vars == DeclaredVars(bs[..i])
    {
      SizeOfElement(bs, i);
      var own := DeclarationsOf(bs[i]);
      vars := vars + own;
      DeclaredVarsAppend(bs[..i], [bs[i]]);
      assert bs[..i + 1] == bs[..i] + [bs[i]];
      assert DeclaredVars([bs[i]]) == DeclaredIn(bs[i]) by {
        assert [bs[i]][1..] == [];
      }
    }
    assert bs[..|bs|] == bs;
  }

  /** One turn of the loop above: the block's own declaration, if it qualifies, then the
      recursive calls on `thenBlocks`, `elseBlocks` and `body`. */
  method DeclarationsOf(b: Block) returns (vars: seq<VarDecl>)
    ensures vars == DeclaredIn(b)
    decreases Size(b), 0
  {
    vars := [];
    if b.kind.Declare? && Trim(b.kind.name) != [] {
      vars := vars + [VarDecl(Trim(b.kind.name), b.kind.dataType)];
    }
    match b.kind {
      case If(_, _, _, t, e) =>
        var inThen := ExtractDeclaredVars(t);
        vars := vars + inThen;
        var inElse := ExtractDeclaredVars(e);
        vars := vars + inElse;
      case For(_, _, _, _, body) =>
        var inBody := ExtractDeclaredVars(body);
        vars := vars + inBody;
      case While(_, _, _, body) =>
        var inBody := ExtractDeclaredVars(body);
        vars := vars + inBody;
      case Repeat(body, _, _, _) =>
        var inBody := ExtractDeclaredVars(body);
        vars := vars + inBody;
      case _ =>
    }
  }

  // ---------------------------------------------------------------------------
  // Properties of the collected list

  /** The own declarations of a list of nodes, in order. */
  function Collect(nodes: seq<Block>): seq<VarDecl> {
    if nodes == [] then [] else OwnDecl(nodes[0]) + Collect(nodes[1..])
  }

  /** How many nodes of a list are qualifying declarations. */
  function CountQualifying(nodes: seq<Block>): nat {
    if nodes == [] then 0 else (if Qualifies(nodes[0]) then 1 else 0) + CountQualifying(nodes[1..])
  }

  lemma {:induction false} CollectAppend(a: seq<Block>, b: seq<Block>)
    ensures Collect(a + b) == Collect(a) + Collect(b)
    decreases |a|
  {
    if a == [] {
      assert a + b == b;
    } else {
      assert (a + b)[0] == a[0] && (a + b)[1..] == a[1..] + b;
      CollectAppend(a[1..], b);
    }
  }

  /** The walk is pre-order: its result is the declarations of the nodes in the order of
      `Flatten`, which visits a block, then its `thenBlocks`, `elseBlocks` and `body`. */
  lemma {:induction false} DeclaredVarsIsPreorder(bs: seq<Block>)
    ensures DeclaredVars(bs) == Collect(Flatten(bs))
    decreases SizeF(bs), 1
  {
    if bs != [] {
      DeclaredInIsPreorder(bs[0]);
      DeclaredVarsIsPreorder(bs[1..]);
      CollectAppend(FlattenBlock(bs[0]), Flatten(bs[1..]));
    }
  }

  lemma {:induction false} DeclaredInIsPreorder(b: Block)
    ensures DeclaredIn(b) == Collect(FlattenBlock(b))
    decreases Size(b), 0
  {
    assert Collect(FlattenBlock(b)) == OwnDecl(b) + Collect(FlattenBlock(b)[1..]);
    match b.kind
    case If(_, _, _, t, e) =>
      DeclaredVarsIsPreorder(t);
      DeclaredVarsIsPreorder(e);
      CollectAppend(Flatten(t), Flatten(e));
      assert FlattenBlock(b)[1..] == Flatten(t) + Flatten(e);
    case For(_, _, _, _, body) =>
      DeclaredVarsIsPreorder(body);
      assert FlattenBlock(b)[1..] == Flatten(body);
    case While(_, _, _, body) =>
      DeclaredVarsIsPreorder(body);
      assert FlattenBlock(b)[1..] == Flatten(body);
    case Repeat(body, _, _, _) =>
      DeclaredVarsIsPreorder(body);
      assert FlattenBlock(b)[1..] == Flatten(body);
    case _ =>
      assert FlattenBlock(b)[1..] == [];
  }

  /** Every name is non-blank and already trimmed. */
  predicate Clean(vars: seq<VarDecl>) {
    forall k :: 0 <= k < |vars| ==> vars[k].name != [] && Trim(vars[k].name) == vars[k].name
  }

  lemma OwnDeclClean(b: Block)
    ensures Clean(OwnDecl(b))
  {
    if Qualifies(b) {
      var t := Trim(b.kind.name);
      TrimKeeps(t);
      assert OwnDecl(b) == [VarDecl(t, b.kind.dataType)];
    }
  }

  lemma CleanConcat(a: seq<VarDecl>, b: seq<VarDecl>)
    requires Clean(a) && Clean(b)
    ensures Clean(a + b)
  {
  }

  /** Every collected name is non-blank and already trimmed, and there is one entry per
      qualifying declaration: duplicates are kept. */
  lemma {:induction false} CollectShape(nodes: seq<Block>)
    ensures |Collect(nodes)| == CountQualifying(nodes)
    ensures Clean(Collect(nodes))
  {
    if nodes != [] {
      CollectShape(nodes[1..]);
      OwnDeclClean(nodes[0]);
      CleanConcat(OwnDecl(nodes[0]), Collect(nodes[1..]));
    }
  }

  /** `CollectShape` for the forest the work area shows: one entry per qualifying
      declaration at any depth. */
  lemma DeclaredVarsShape(bs: seq<Block>)
    ensures |DeclaredVars(bs)| == CountQualifying(Flatten(bs))
    ensures Clean(DeclaredVars(bs))
  {
    DeclaredVarsIsPreorder(bs);
    CollectShape(Flatten(bs));
  }

  /** Two declarations of the same name give two entries. */
  lemma DuplicatesKept()
    ensures DeclaredVars([Block("a", Declare("x", "Entier")), Block("b", Declare("x", "Réel"))])
         == [VarDecl("x", "Entier"), VarDecl("x", "Réel")]
  {
    var a := Block("a", Declare("x", "Entier"));
    var b := Block("b", Declare("x", "Réel"));
    assert !IsWhitespace("x"[0]);
    TrimKeeps("x");
    assert DeclaredIn(a) == [VarDecl("x", "Entier")];
    assert DeclaredIn(b) == [VarDecl("x", "Réel")];
    assert [a, b][1..] == [b];
    assert DeclaredVars([b]) == DeclaredIn(b) + DeclaredVars([]);
  }

  // ---------------------------------------------------------------------------
  // `handleBlockDrop`

  /** The move a drop on the block at `target` requests: the data set by the drag start,
      `raw` (absent or empty when the drag did not come from a block), must parse as an
      integer different from `target`. */
  function DropRequest(raw: Option<string>, target: int): (r: Option<(int, int)>)
    ensures r.Some? <==> raw.Some? && raw.value != "" && ParseInt(raw.value).Num?
                         && ParseInt(raw.value).n != target
    ensures r.Some? ==> r.value == (ParseInt(raw.value).n, target)
  {
    match raw
    case None => None
    case Some(text) =>
      if text == "" then None
      else
        var from := ParseInt(text);
        if from.Num? && from.n != target then Some((from.n, target)) else None
  }

  /** A block dragged from position `i` (the drag start writes `String(i)`) and dropped on
      position `t` moves exactly when the two positions differ. */
  lemma DropOfDraggedBlock(i: int, t: int)
    ensures DropRequest(Some(IntToString(i)), t) == if i != t then Some((i, t)) else None
  {
    ParseIntOfIntToString(i);
  }
}
