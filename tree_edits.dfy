/**
 * The edits the store applies to the forest of blocks: replacing a block by id at any
 * depth, removing a block by id at any depth, and moving a top-level block from one
 * position to another.  Each edit builds a new forest; none changes the old one.
 */
module TreeEdits {

  import opened Blocks

  // ---------------------------------------------------------------------------
  // Ids

  /** The test `list.some(x => x?.id)` that decides whether a prop holding a list is
      treated as a list of blocks: some element carries a non-empty id. */
  predicate AnyId(bs: seq<Block>) {
    exists i :: 0 <= i < |bs| && bs[i].id != ""
  }

  /** The ids of every node of a forest. */
  function IdsOf(bs: seq<Block>): set<string>
    decreases SizeF(bs), 1
  {
    if bs == [] then {} else IdsOfBlock(bs[0]) + IdsOf(bs[1..])
  }

  function IdsOfBlock(b: Block): set<string>
    decreases Size(b), 0
  {
    {b.id} + match b.kind
             case If(_, _, _, t, e) => IdsOf(t) + IdsOf(e)
             case For(_, _, _, _, body) => IdsOf(body)
             case While(_, _, _, body) => IdsOf(body)
             case Repeat(body, _, _, _) => IdsOf(body)
             case _ => {}
  }

  /** Every node carries an id, as every block made by `createBlock` does. */
  predicate AllNamed(bs: seq<Block>) {
    "" !in IdsOf(bs)
  }

  /** The ids of the top-level blocks, in order. */
  function TopIds(bs: seq<Block>): (r: seq<string>)
    ensures |r| == |bs|
    ensures forall i :: 0 <= i < |bs| ==> r[i] == bs[i].id
  {
    if bs == [] then [] else [bs[0].id] + TopIds(bs[1..])
  }

  /** `xs.filter(x => x !== y)`. */
  function Without(xs: seq<string>, y: string): (r: seq<string>)
    ensures y !in r
    ensures forall x :: x in r <==> x in xs && x != y
  {
    if xs == [] then [] else (if xs[0] == y then [] else [xs[0]]) + Without(xs[1..], y)
  }

  /** The props of a kind with its lists of blocks left out: what an edit deeper down
      must not touch. */
  function Scalars(k: Kind): Kind {
    match k
    case If(l, op, r, _, _) => If(l, op, r, [], [])
    case For(v, f, t, s, _) => For(v, f, t, s, [])
    case While(l, op, r, _) => While(l, op, r, [])
    case Repeat(_, l, op, r) => Repeat([], l, op, r)
    case _ => k
  }

  /** A list of blocks is never empty of ids when its nodes all carry one. */
  lemma AllNamedHasId(bs: seq<Block>)
    requires bs != [] && AllNamed(bs)
    ensures AnyId(bs)
  {
    assert bs[0].id in IdsOfBlock(bs[0]);
  }

  // ---------------------------------------------------------------------------
  // `replaceById`

  /** `replaceById(blocks, id, updated)`: every block with this id becomes `updated`;
      any other block is kept, with its lists of blocks edited the same way when they
      pass `AnyId`. */
  function ReplaceById(bs: seq<Block>, id: string, updated: Block): (r: seq<Block>)
    ensures |r| == |bs|
    decreases SizeF(bs), 1
  {
    if bs == [] then [] else [ReplaceInBlock(bs[0], id, updated)] + ReplaceById(bs[1..], id, updated)
  }

  function ReplaceInBlock(b: Block, id: string, updated: Block): Block
    decreases Size(b), 0
  {
    if b.id == id then updated
    else
      match b.kind
      case If(l, op, r, t, e) =>
        Block(b.id, If(l, op, r, ReplaceInList(t, id, updated), ReplaceInList(e, id, updated)))
      case For(v, f, to, s, body) => Block(b.id, For(v, f, to, s, ReplaceInList(body, id, updated)))
      case While(l, op, r, body) => Block(b.id, While(l, op, r, ReplaceInList(body, id, updated)))
      case Repeat(body, l, op, r) => Block(b.id, Repeat(ReplaceInList(body, id, updated), l, op, r))
      case _ => b
  }

  function ReplaceInList(bs: seq<Block>, id: string, updated: Block): seq<Block>
    decreases SizeF(bs), 2
  {
    if AnyId(bs) then ReplaceById(bs, id, updated) else bs
  }

  /** What `replaceById` does at the top level: a block with the id is replaced, any
      other keeps its id and every prop that is not a list of blocks. */
  lemma {:induction false} ReplaceByIdTopLevel(bs: seq<Block>, id: string, updated: Block)
    ensures forall i :: 0 <= i < |bs| && bs[i].id == id ==> ReplaceById(bs, id, updated)[i] == updated
    ensures forall i :: 0 <= i < |bs| && bs[i].id != id ==>
              ReplaceById(bs, id, updated)[i].id == bs[i].id &&
              Scalars(ReplaceById(bs, id, updated)[i].kind) == Scalars(bs[i].kind)
  {
    if bs != [] {
      ReplaceByIdTopLevel(bs[1..], id, updated);
      var r := ReplaceById(bs, id, updated);
      assert r[0] == ReplaceInBlock(bs[0], id, updated);
      forall i | 1 <= i < |bs|
        ensures r[i] == ReplaceById(bs[1..], id, updated)[i - 1] && bs[i] == bs[1..][i - 1]
      {
      }
    }
  }

  /** A forest in which no node has the id comes back unchanged. */
  lemma {:induction false} ReplaceAbsentIsIdentity(bs: seq<Block>, id: string, updated: Block)
    requires id !in IdsOf(bs)
    ensures ReplaceById(bs, id, updated) == bs
    decreases SizeF(bs), 1
  {
    if bs != [] {
      ReplaceInBlockAbsent(bs[0], id, updated);
      ReplaceAbsentIsIdentity(bs[1..], id, updated);
      assert bs == [bs[0]] + bs[1..];
    }
  }

  lemma {:induction false} ReplaceInBlockAbsent(b: Block, id: string, updated: Block)
    requires id !in IdsOfBlock(b)
    ensures ReplaceInBlock(b, id, updated) == b
    decreases Size(b), 0
  {
    match b.kind
    case If(_, _, _, t, e) =>
      ReplaceAbsentIsIdentity(t, id, updated);
      ReplaceAbsentIsIdentity(e, id, updated);
    case For(_, _, _, _, body) => ReplaceAbsentIsIdentity(body, id, updated);
    case While(_, _, _, body) => ReplaceAbsentIsIdentity(body, id, updated);
    case Repeat(body, _, _, _) => ReplaceAbsentIsIdentity(body, id, updated);
    case _ =>
  }

  /** In a forest whose nodes all carry an id, the old block is gone at every depth once
      replaced by a block that does not carry that id itself. */
  lemma {:induction false} ReplaceReachesEveryDepth(bs: seq<Block>, id: string, updated: Block)
    requires AllNamed(bs) && id !in IdsOfBlock(updated)
    ensures id !in IdsOf(ReplaceById(bs, id, updated))
    ensures IdsOf(ReplaceById(bs, id, updated)) <= IdsOf(bs) + IdsOfBlock(updated)
    decreases SizeF(bs), 1
  {
    if bs != [] {
      ReplaceInBlockReaches(bs[0], id, updated);
      ReplaceReachesEveryDepth(bs[1..], id, updated);
    }
  }

  lemma {:induction false} ReplaceInBlockReaches(b: Block, id: string, updated: Block)
    requires "" !in IdsOfBlock(b) && id !in IdsOfBlock(updated)
    ensures id !in IdsOfBlock(ReplaceInBlock(b, id, updated))
    ensures IdsOfBlock(ReplaceInBlock(b, id, updated)) <= IdsOfBlock(b) + IdsOfBlock(updated)
    decreases Size(b), 0
  {
    if b.id != id {
      match b.kind
      case If(_, _, _, t, e) =>
        ReplaceInListReaches(t, id, updated);
        ReplaceInListReaches(e, id, updated);
      case For(_, _, _, _, body) => ReplaceInListReaches(body, id, updated);
      case While(_, _, _, body) => ReplaceInListReaches(body, id, updated);
      case Repeat(body, _, _, _) => ReplaceInListReaches(body, id, updated);
      case _ =>
    }
  }

  lemma {:induction false} ReplaceInListReaches(bs: seq<Block>, id: string, updated: Block)
    requires AllNamed(bs) && id !in IdsOfBlock(updated)
    ensures id !in IdsOf(ReplaceInList(bs, id, updated))
    ensures IdsOf(ReplaceInList(bs, id, updated)) <= IdsOf(bs) + IdsOfBlock(updated)
    decreases SizeF(bs), 2
  {
    if bs != [] {
      AllNamedHasId(bs);
      ReplaceReachesEveryDepth(bs, id, updated);
    }
  }

  // ---------------------------------------------------------------------------
  // `removeById`

  /** `removeById(blocks, id)`: the top-level blocks with the id are dropped, and every
      other block has its lists of blocks edited the same way when they pass `AnyId`. */
  function RemoveById(bs: seq<Block>, id: string): (r: seq<Block>)
    ensures |r| <= |bs|
    decreases SizeF(bs), 1
  {
    if bs == [] then []
    else if bs[0].id == id then assert Size(bs[0]) >= 1; RemoveById(bs[1..], id)
    else [RemoveInBlock(bs[0], id)] + RemoveById(bs[1..], id)
  }

  function RemoveInBlock(b: Block, id: string): Block
    decreases Size(b), 0
  {
    match b.kind
    case If(l, op, r, t, e) => Block(b.id, If(l, op, r, RemoveInList(t, id), RemoveInList(e, id)))
    case For(v, f, to, s, body) => Block(b.id, For(v, f, to, s, RemoveInList(body, id)))
    case While(l, op, r, body) => Block(b.id, While(l, op, r, RemoveInList(body, id)))
    case Repeat(body, l, op, r) => Block(b.id, Repeat(RemoveInList(body, id), l, op, r))
    case _ => b
  }

  function RemoveInList(bs: seq<Block>, id: string): seq<Block>
    decreases SizeF(bs), 2
  {
    if AnyId(bs) then RemoveById(bs, id) else bs
  }

  /** At the top level the survivors are the blocks with another id, in their order. */
  lemma {:induction false} RemoveByIdTopLevel(bs: seq<Block>, id: string)
    ensures TopIds(RemoveById(bs, id)) == Without(TopIds(bs), id)
  {
    if bs != [] {
      RemoveByIdTopLevel(bs[1..], id);
      assert TopIds(bs)[0] == bs[0].id && TopIds(bs)[1..] == TopIds(bs[1..]);
      if bs[0].id != id {
        var r := RemoveById(bs, id);
        assert r[1..] == RemoveById(bs[1..], id);
        assert TopIds(r) == [bs[0].id] + TopIds(r[1..]);
      }
    }
  }

  /** Each survivor keeps its props apart from its lists of blocks. */
  lemma {:induction false} RemoveByIdKeepsProps(bs: seq<Block>, id: string)
    ensures forall i :: 0 <= i < |RemoveById(bs, id)| ==>
              Scalars(RemoveById(bs, id)[i].kind) == Scalars(Survivor(bs, id, i).kind)
  {
    if bs != [] {
      RemoveByIdKeepsProps(bs[1..], id);
      var r := RemoveById(bs, id);
      var rest := RemoveById(bs[1..], id);
      if bs[0].id == id {
        forall i | 0 <= i < |r| ensures Scalars(r[i].kind) == Scalars(Survivor(bs, id, i).kind) {
          assert Survivor(bs, id, i) == Survivor(bs[1..], id, i);
        }
      } else {
        assert r == [RemoveInBlock(bs[0], id)] + rest;
        forall i | 0 <= i < |r| ensures Scalars(r[i].kind) == Scalars(Survivor(bs, id, i).kind) {
          if i > 0 {
            assert r[i] == rest[i - 1];
            assert Survivor(bs, id, i) == Survivor(bs[1..], id, i - 1);
          }
        }
      }
    }
  }

  /** The block of `bs` that ends up at position `i` once the blocks with the id are
      dropped from the top level. */
  function Survivor(bs: seq<Block>, id: string, i: nat): Block
    decreases |bs|
  {
    if bs == [] then Block("", Unknown(""))
    else if bs[0].id == id then Survivor(bs[1..], id, i)
    else if i == 0 then bs[0]
    else Survivor(bs[1..], id, i - 1)
  }

  /** In a forest whose nodes all carry an id, no node with the id is left at any depth,
      and no new id appears. */
  lemma {:induction false} RemoveReachesEveryDepth(bs: seq<Block>, id: string)
    requires AllNamed(bs)
    ensures id !in IdsOf(RemoveById(bs, id))
    ensures IdsOf(RemoveById(bs, id)) <= IdsOf(bs)
    decreases SizeF(bs), 1
  {
    if bs != [] {
      if bs[0].id != id {
        RemoveInBlockReaches(bs[0], id);
      }
      assert SizeF(bs[1..]) < SizeF(bs);
      RemoveReachesEveryDepth(bs[1..], id);
    }
  }

  lemma {:induction false} RemoveInBlockReaches(b: Block, id: string)
    requires "" !in IdsOfBlock(b) && b.id != id
    ensures id !in IdsOfBlock(RemoveInBlock(b, id))
    ensures IdsOfBlock(RemoveInBlock(b, id)) <= IdsOfBlock(b)
    decreases Size(b), 0
  {
    match b.kind
    case If(_, _, _, t, e) =>
      RemoveInListReaches(t, id);
      RemoveInListReaches(e, id);
    case For(_, _, _, _, body) => RemoveInListReaches(body, id);
    case While(_, _, _, body) => RemoveInListReaches(body, id);
    case Repeat(body, _, _, _) => RemoveInListReaches(body, id);
    case _ =>
  }

  lemma {:induction false} RemoveInListReaches(bs: seq<Block>, id: string)
    requires AllNamed(bs)
    ensures id !in IdsOf(RemoveInList(bs, id))
    ensures IdsOf(RemoveInList(bs, id)) <= IdsOf(bs)
    decreases SizeF(bs), 2
  {
    if bs != [] {
      AllNamedHasId(bs);
      RemoveReachesEveryDepth(bs, id);
    }
  }

  /** The `AnyId` test skips a nested list whose blocks carry no id, together with
      everything below it, so a block with the id can survive there. */
  lemma NamelessListHidesNested()
    ensures var inner := Block("x", Comment(""));
            var hidden := Block("", While("", "", "", [inner]));
            var outer := Block("a", If("", "", "", [hidden], []));
            "x" in IdsOf(RemoveById([outer], "x"))
  {
    var inner := Block("x", Comment(""));
    var hidden := Block("", While("", "", "", [inner]));
    var outer := Block("a", If("", "", "", [hidden], []));
    assert !AnyId([hidden]) by {
      assert forall i :: 0 <= i < |[hidden]| ==> [hidden][i] == hidden;
    }
    assert RemoveInBlock(outer, "x") == outer;
    assert RemoveById([outer], "x") == [outer];
    assert "x" in IdsOfBlock(inner);
    assert IdsOf([inner]) == IdsOfBlock(inner);
    assert IdsOfBlock(hidden) == {""} + IdsOf([inner]);
    assert IdsOf([hidden]) == IdsOfBlock(hidden);
    assert IdsOfBlock(outer) == {"a"} + IdsOf([hidden]) + IdsOf([]);
  }

  // ---------------------------------------------------------------------------
  // `reorderBlocks`

  /** Where `Array.prototype.splice` starts on a list of `len` elements: a negative index
      counts from the end, and the result is clamped to `0..len`. */
  function SpliceStart(k: int, len: nat): (r: nat)
    ensures r <= len
    ensures 0 <= k <= len ==> r == k
    ensures k > len ==> r == len
    ensures k < 0 ==> r == if len + k < 0 then 0 else len + k
  {
    if k < 0 then (if len + k < 0 then 0 else len + k) else if k > len then len else k
  }

  /** `reorderBlocks(fromIndex, toIndex)` on a copy of the forest: `splice(fromIndex, 1)`
      takes one block out, `splice(toIndex, 0, moved)` puts it back in. */
  function Reorder(bs: seq<Block>, from: int, to: int): seq<Block>
    requires |bs| > 0 && from < |bs|
  {
    var f := SpliceStart(from, |bs|);
    var rest := bs[..f] + bs[f + 1..];
    var t := SpliceStart(to, |rest|);
    rest[..t] + [bs[f]] + rest[t..]
  }

  /** The moved block lands at the position the second splice starts at; taking it out
      again leaves the other blocks in their old order, and none is lost or duplicated. */
  lemma ReorderMoves(bs: seq<Block>, from: int, to: int)
    requires |bs| > 0 && from < |bs|
    ensures var f := SpliceStart(from, |bs|);
            var t := SpliceStart(to, |bs| - 1);
            var r := Reorder(bs, from, to);
            |r| == |bs| && f < |bs| && t < |r| && r[t] == bs[f] &&
            r[..t] + r[t + 1..] == bs[..f] + bs[f + 1..] &&
            multiset(r) == multiset(bs)
  {
    var f := SpliceStart(from, |bs|);
    var rest := bs[..f] + bs[f + 1..];
    assert |rest| == |bs| - 1;
    var t := SpliceStart(to, |rest|);
    var r := rest[..t] + [bs[f]] + rest[t..];
    assert Reorder(bs, from, to) == r;
    InsertAt(rest, t, bs[f]);
    TakeOut(bs, f);
  }

  /** `splice(f, 1)` on a list: what is left, with the element taken out, is all of it. */
  lemma TakeOut(bs: seq<Block>, f: nat)
    requires f < |bs|
    ensures multiset(bs[..f] + bs[f + 1..]) + multiset{bs[f]} == multiset(bs)
  {
    assert bs == bs[..f] + [bs[f]] + bs[f + 1..];
  }

  /** `splice(t, 0, x)` on a list: `x` sits at `t` between the two unchanged halves. */
  lemma InsertAt(rest: seq<Block>, t: nat, x: Block)
    requires t <= |rest|
    ensures var r := rest[..t] + [x] + rest[t..];
            |r| == |rest| + 1 && r[t] == x && r[..t] + r[t + 1..] == rest &&
            multiset(r) == multiset(rest) + multiset{x}
  {
    var r := rest[..t] + [x] + rest[t..];
    assert r[..t] == rest[..t];
    assert r[t + 1..] == rest[t..];
    assert rest[..t] + rest[t..] == rest;
  }

  /** Moving a block back where it came from restores the forest. */
  lemma ReorderUndo(bs: seq<Block>, from: int, to: int)
    requires 0 <= from < |bs| && 0 <= to < |bs|
    ensures Reorder(Reorder(bs, from, to), to, from) == bs
  {
    var rest := bs[..from] + bs[from + 1..];
    var r := Reorder(bs, from, to);
    assert r == rest[..to] + [bs[from]] + rest[to..];
    assert r[to] == bs[from];
    assert r[..to] + r[to + 1..] == rest;
    assert bs == rest[..from] + [bs[from]] + rest[from..];
  }

  /** A move onto its own position changes nothing, which is why a drop onto the dragged
      block is ignored. */
  lemma ReorderOntoItself(bs: seq<Block>, i: int)
    requires 0 <= i < |bs|
    ensures Reorder(bs, i, i) == bs
  {
    var rest := bs[..i] + bs[i + 1..];
    assert rest[..i] == bs[..i];
    assert rest[i..] == bs[i + 1..];
    assert bs == bs[..i] + [bs[i]] + bs[i + 1..];
  }
}
