/** How the edits of the editor show in the Markdown preview. */
module Preview {
  import opened Tree
  import opened Edits
  import opened Markdown

  /** Changing one component of a list for one that renders the same lines leaves the
      lines of the list as they were. */
  lemma {:induction false} CompsSlot(list: seq<Comp>, i: nat, c: Comp, depth: int)
    requires i < |list| && CompLines(c, depth) == CompLines(list[i], depth)
    ensures CompsLines(list[i := c], depth) == CompsLines(list, depth)
    decreases |list|
  {
    if i == |list| - 1 {
      LastSlot(list, c, depth);
    } else {
      CompsSlot(list[..|list| - 1], i, c, depth);
      FrontSlot(list, i, c, depth);
    }
  }

  lemma LastSlot(list: seq<Comp>, c: Comp, depth: int)
    requires |list| >= 1 && CompLines(c, depth) == CompLines(list[|list| - 1], depth)
    ensures CompsLines(list[|list| - 1 := c], depth) == CompsLines(list, depth)
  {
    var updated := list[|list| - 1 := c];
    assert updated[..|list| - 1] == list[..|list| - 1];
  }

  lemma FrontSlot(list: seq<Comp>, i: nat, c: Comp, depth: int)
    requires i < |list| - 1
    requires CompsLines(list[..|list| - 1][i := c], depth) == CompsLines(list[..|list| - 1], depth)
    ensures CompsLines(list[i := c], depth) == CompsLines(list, depth)
  {
    var updated := list[i := c];
    assert updated[..|list| - 1] == list[..|list| - 1][i := c];
    assert updated[|list| - 1] == list[|list| - 1];
  }

  /** Changing one top-level block for one that renders the same lines leaves the lines
      of the document as they were. */
  lemma {:induction false} DocSlot(blocks: seq<Comp>, i: nat, c: Comp)
    requires i < |blocks| && BlockLines(c, 1) == BlockLines(blocks[i], 1)
    ensures DocLines(blocks[i := c]) == DocLines(blocks)
    decreases |blocks|
  {
    var updated := blocks[i := c];
    var front := blocks[..|blocks| - 1];
    if |blocks| > 1 {
      if i == |blocks| - 1 {
        assert updated[..|blocks| - 1] == front;
      } else {
        assert updated[..|blocks| - 1] == front[i := c];
        DocSlot(front, i, c);
      }
    }
  }

  /** A list of components rendered at `depth` keeps its lines when the list at `addr`
      below it is replaced by one with the same lines; that list is rendered `|addr|`
      levels deeper. */
  lemma {:induction false} CompsWithList(list: seq<Comp>, addr: Path, n: seq<Comp>, depth: int)
    requires IsContainer(list, addr)
    requires CompsLines(n, depth + |addr|) == CompsLines(ListAt(list, addr), depth + |addr|)
    ensures CompsLines(WithListAt(list, addr, n), depth) == CompsLines(list, depth)
    decreases |addr|
  {
    if addr != [] {
      var b := list[addr[0]];
      var inner := WithListAt(b.comps, addr[1..], n);
      CompsWithList(b.comps, addr[1..], n, depth + 1);
      assert CompLines(Block(b.name, inner), depth) == CompLines(b, depth);
      CompsSlot(list, addr[0], Block(b.name, inner), depth);
    }
  }

  /** The document keeps its lines when a nested list is replaced by one with the same
      lines; the list at a non-empty address is rendered at depth `|addr|`. */
  lemma DocWithList(blocks: seq<Comp>, addr: Path, n: seq<Comp>)
    requires IsContainer(blocks, addr) && addr != []
    requires CompsLines(n, |addr|) == CompsLines(ListAt(blocks, addr), |addr|)
    ensures DocLines(WithListAt(blocks, addr, n)) == DocLines(blocks)
  {
    var b := blocks[addr[0]];
    var inner := WithListAt(b.comps, addr[1..], n);
    CompsWithList(b.comps, addr[1..], n, 1);
    assert BlockLines(Block(b.name, inner), 1) == BlockLines(b, 1);
    DocSlot(blocks, addr[0], Block(b.name, inner));
  }

  /** A placeholder at the end of a list of components renders nothing. */
  lemma PlaceholderShowsNothing(comps: seq<Comp>, choice: string, depth: int)
    ensures CompsLines(comps + [Select(choice)], depth) == CompsLines(comps, depth)
  {
    assert (comps + [Select(choice)])[..|comps|] == comps;
  }

  /** Putting a block that renders the same lines in place of the block at `path` leaves
      the preview as it was. */
  lemma ReplaceNodeSameRender(blocks: seq<Comp>, path: Path, node: Comp)
    requires IsBlockPath(blocks, path) && node.Block?
    requires BlockLines(node, |path|) == BlockLines(NodeAt(blocks, path), |path|)
    ensures Render(ReplaceNode(blocks, path, node)) == Render(blocks)
  {
    NodeIsParentSlot(blocks, path);
    var parent := ParentList(blocks, path);
    var k := Last(path);
    if |path| == 1 {
      assert Init(path) == [];
      DocSlot(blocks, k, node);
    } else {
      NestedSameLines(parent, k, node, |path| - 1);
      DocWithList(blocks, Init(path), parent[k := node]);
    }
  }

  lemma NestedSameLines(parent: seq<Comp>, k: nat, node: Comp, depth: int)
    requires k < |parent| && parent[k].Block? && node.Block?
    requires BlockLines(node, depth + 1) == BlockLines(parent[k], depth + 1)
    ensures CompsLines(parent[k := node], depth) == CompsLines(parent, depth)
  {
    assert CompLines(node, depth) == CompLines(parent[k], depth);
    CompsSlot(parent, k, node, depth);
  }

  /** Adding a component leaves the preview as it was: the new component is a
      placeholder, and placeholders are not shown. */
  lemma AddComponentKeepsPreview(blocks: seq<Comp>, path: Path)
    requires IsBlockPath(blocks, path)
    ensures Render(AddComponentAt(blocks, path)) == Render(blocks)
  {
    var b := NodeAt(blocks, path);
    PlaceholderShowsNothing(b.comps, TextChoice, |path|);
    ReplaceNodeSameRender(blocks, path, Block(b.name, b.comps + [Select(TextChoice)]));
  }
}
