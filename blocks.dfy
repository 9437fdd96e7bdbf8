/**
 * The statement blocks of an algorithm: a forest whose nodes carry an id, a type and the
 * props of that type.  `if` nests two lists of blocks, the three loops nest one.
 */
module Blocks {

  import opened JsValues

  datatype Block = Block(id: string, kind: Kind)

  /** The block type together with its props; every prop the editor fills is a text. */
  datatype Kind =
    | Comment(text: string)
    | Declare(name: string, dataType: string)
    | Assign(varName: string, expression: string)
    | Display(value: string)
    | Read(varName: string)
    | If(left: string, op: string, right: string, thenBlocks: seq<Block>, elseBlocks: seq<Block>)
    | For(varName: string, from: string, to: string, step: string, body: seq<Block>)
    | While(left: string, op: string, right: string, body: seq<Block>)
    | Repeat(body: seq<Block>, left: string, op: string, right: string)
    | Unknown(typeName: string)

  /** The number of nodes of a block. */
  function Size(b: Block): nat {
    1 + match b.kind
        case If(_, _, _, t, e) => SizeF(t) + SizeF(e)
        case For(_, _, _, _, body) => SizeF(body)
        case While(_, _, _, body) => SizeF(body)
        case Repeat(body, _, _, _) => SizeF(body)
        case _ => 0
  }

  /** The number of nodes of a forest. */
  function SizeF(bs: seq<Block>): nat {
    if bs == [] then 0 else Size(bs[0]) + SizeF(bs[1..])
  }

  lemma {:induction false} SizeOfElement(bs: seq<Block>, i: int)
    requires 0 <= i < |bs|
    ensures Size(bs[i]) <= SizeF(bs)
  {
    if i > 0 {
      SizeOfElement(bs[1..], i - 1);
    }
  }

  /** Every node of a forest in pre-order: a block, then the blocks of its `thenBlocks`,
      of its `elseBlocks` and of its `body`. */
  function Flatten(bs: seq<Block>): seq<Block>
    decreases SizeF(bs), 1
  {
    if bs == [] then [] else FlattenBlock(bs[0]) + Flatten(bs[1..])
  }

  function FlattenBlock(b: Block): seq<Block>
    decreases Size(b), 0
  {
    [b] + match b.kind
          case If(_, _, _, t, e) => Flatten(t) + Flatten(e)
          case For(_, _, _, _, body) => Flatten(body)
          case While(_, _, _, body) => Flatten(body)
          case Repeat(body, _, _, _) => Flatten(body)
          case _ => []
  }

  /** The pre-order lists every node once: its length is the size of the forest. */
  lemma {:induction false} FlattenSize(bs: seq<Block>)
    ensures |Flatten(bs)| == SizeF(bs)
    decreases SizeF(bs), 1
  {
    if bs != [] {
      FlattenBlockSize(bs[0]);
      FlattenSize(bs[1..]);
    }
  }

  lemma {:induction false} FlattenBlockSize(b: Block)
    ensures |FlattenBlock(b)| == Size(b)
    decreases Size(b), 0
  {
    match b.kind
    case If(_, _, _, t, e) => FlattenSize(t); FlattenSize(e);
    case For(_, _, _, _, body) => FlattenSize(body);
    case While(_, _, _, body) => FlattenSize(body);
    case Repeat(body, _, _, _) => FlattenSize(body);
    case _ =>
  }

  lemma {:induction false} FlattenAppend(a: seq<Block>, b: seq<Block>)
    ensures Flatten(a + b) == Flatten(a) + Flatten(b)
    decreases |a|
  {
    if a == [] {
      assert a + b == b;
    } else {
      assert (a + b)[0] == a[0] && (a + b)[1..] == a[1..] + b;
      FlattenAppend(a[1..], b);
    }
  }

  // ---------------------------------------------------------------------------
  // `newId` and `createBlock`

  /** The id `blk_n`. */
  function BlockId(n: nat): string {
    "blk_" + NatToString(n)
  }

  /** Different counter values give different ids. */
  lemma BlockIdInjective(m: nat, n: nat)
    requires BlockId(m) == BlockId(n)
    ensures m == n
  {
    assert NatToString(m) == BlockId(m)[4..];
    assert NatToString(n) == BlockId(n)[4..];
    DigitsValueOfNatToString(m);
    DigitsValueOfNatToString(n);
  }

  /** The module-level counter behind `newId`. */
  class IdSource {
    var counter: nat

    constructor ()
      ensures counter == 0
    {
      counter := 0;
    }

    /** `blk_${++_counter}`. */
    method NewId() returns (id: string)
      modifies this
      ensures counter == old(counter) + 1
      ensures id == BlockId(counter)
    {
      counter := counter + 1;
      id := BlockId(counter);
    }
  }

  /** A toolbox entry: a caption and the type and default props of the blocks it creates. */
  datatype Template = Template(caption: string, defaults: Kind)

  /** `createBlock`: a fresh id, the template's type and a copy of its default props. */
  method CreateBlock(ids: IdSource, template: Template) returns (b: Block)
    modifies ids
    ensures ids.counter == old(ids.counter) + 1
    ensures b == Block(BlockId(ids.counter), template.defaults)
  {
    var id := ids.NewId();
    b := Block(id, template.defaults);
  }
}
