/** The structural edits of the block editor, stated on tree values: what each mutation
    turns the top-level list into. */
module Edits {
  import opened Tree

  /** The choice that makes a placeholder a text leaf, and the default choice of a new placeholder. */
  const TextChoice: string := "텍스트"
  /** The choice that makes a placeholder a nested block; it is also the new block's name. */
  const NestedChoice: string := "내부 블록"
  /** The content a new text leaf starts with. */
  const DefaultText: string := "여기에 텍스트를 입력하세요..."
  /** Top-level block names are this prefix followed by a decimal number. */
  const BlockPrefix: string := "블록"

  /** The invariant of the top-level list: never empty, and all of its entries are blocks. */
  predicate TopLevelOk(blocks: seq<Comp>)
  {
    |blocks| >= 1 && forall i | 0 <= i < |blocks| :: blocks[i].Block?
  }

  /** `s` without its entry `i`; the others keep their order. */
  function RemoveAt<T>(s: seq<T>, i: nat): (r: seq<T>)
    requires i < |s|
    ensures |r| == |s| - 1
    ensures forall j | 0 <= j < i :: r[j] == s[j]
    ensures forall j | i <= j < |r| :: r[j] == s[j + 1]
    ensures multiset(r) + multiset{s[i]} == multiset(s)
  {
    assert s == s[..i] + [s[i]] + s[i + 1..];
    s[..i] + s[i + 1..]
  }

  /** `s` with the entries `i` and `j` exchanged. */
  function Swap<T>(s: seq<T>, i: nat, j: nat): (r: seq<T>)
    requires i < |s| && j < |s|
    ensures |r| == |s| && r[i] == s[j] && r[j] == s[i]
    ensures forall k | 0 <= k < |s| && k != i && k != j :: r[k] == s[k]
  {
    s[i := s[j]][j := s[i]]
  }

  /** Exchanging two entries keeps the multiset of entries. */
  lemma SwapPermutes<T>(s: seq<T>, i: nat, j: nat)
    requires i < |s| && j < |s|
    ensures multiset(Swap(s, i, j)) == multiset(s)
  {
  }

  /** Exchanging two entries of the top-level list keeps it a non-empty list of blocks. */
  lemma SwapKeepsTop(blocks: seq<Comp>, i: nat, j: nat)
    requires i < |blocks| && j < |blocks| && TopLevelOk(blocks)
    ensures TopLevelOk(Swap(blocks, i, j))
  {
    var r := Swap(blocks, i, j);
    forall k | 0 <= k < |r|
      ensures r[k].Block?
    {
      if k != i && k != j {
        assert r[k] == blocks[k];
      }
    }
  }

  /** Writing a list back below the top level keeps the top-level list as it was but for
      one block that stays a block; writing the top-level list itself keeps the invariant
      when the new list does. */
  lemma WriteKeepsTop(blocks: seq<Comp>, a: Path, n: seq<Comp>)
    requires IsContainer(blocks, a) && TopLevelOk(blocks)
    requires a == [] ==> TopLevelOk(n)
    ensures TopLevelOk(WithListAt(blocks, a, n))
  {
    var r := WithListAt(blocks, a, n);
    if a != [] {
      forall k | 0 <= k < |r|
        ensures r[k].Block?
      {
        if k != a[0] {
          assert r[k] == blocks[k];
        }
      }
    }
  }

  /** Exchanging two entries of any list of the tree keeps the invariant. */
  lemma SwapWriteKeepsTop(blocks: seq<Comp>, a: Path, i: nat, j: nat)
    requires IsContainer(blocks, a) && i < |ListAt(blocks, a)| && j < |ListAt(blocks, a)|
    ensures TopLevelOk(blocks) ==> TopLevelOk(WithListAt(blocks, a, Swap(ListAt(blocks, a), i, j)))
  {
    if TopLevelOk(blocks) {
      if a == [] {
        SwapKeepsTop(blocks, i, j);
      }
      WriteKeepsTop(blocks, a, Swap(ListAt(blocks, a), i, j));
    }
  }

  /** The tree with two entries of a path's parent list exchanged: the parent list
      becomes the swap, and the invariant is kept. */
  function SwapAt(blocks: seq<Comp>, path: Path, i: nat, j: nat): (r: seq<Comp>)
    requires ParentResolves(blocks, path)
    requires i < |ParentList(blocks, path)| && j < |ParentList(blocks, path)|
    ensures ParentResolves(r, path)
    ensures ParentList(r, path) == Swap(ParentList(blocks, path), i, j)
    ensures TopLevelOk(blocks) ==> TopLevelOk(r)
  {
    SwapWriteKeepsTop(blocks, Init(path), i, j);
    WithListAt(blocks, Init(path), Swap(ParentList(blocks, path), i, j))
  }

  /** Exchanging the same two entries twice restores the sequence. */
  lemma SwapTwice<T>(s: seq<T>, i: nat, j: nat)
    requires i < |s| && j < |s|
    ensures Swap(Swap(s, i, j), i, j) == s
  {
  }

  /** The guard under which deletion does nothing: the path is top-level and the
      top-level list holds at most one block. */
  predicate KeepsLastTop(blocks: seq<Comp>, path: Path)
  {
    |path| == 1 && |blocks| <= 1
  }

  /** What deletion demands: a resolvable parent, and a last index in range unless the
      guard stops deletion before the list is touched. */
  predicate CanDelete(blocks: seq<Comp>, path: Path)
  {
    ParentResolves(blocks, path) && (KeepsLastTop(blocks, path) || Last(path) < |ParentList(blocks, path)|)
  }

  function DeleteAt(blocks: seq<Comp>, path: Path): (r: seq<Comp>)
    requires CanDelete(blocks, path)
    ensures ParentResolves(r, path)
    ensures |blocks| >= 1 ==> |r| >= 1
    ensures TopLevelOk(blocks) ==> TopLevelOk(r)
    ensures KeepsLastTop(blocks, path) ==> r == blocks
    ensures !KeepsLastTop(blocks, path) ==>
              ParentList(r, path) == RemoveAt(ParentList(blocks, path), Last(path))
  {
    if KeepsLastTop(blocks, path) then blocks
    else WithListAt(blocks, Init(path), RemoveAt(ParentList(blocks, path), Last(path)))
  }

  /** Deleting the only top-level block leaves the tree as it was. */
  lemma DeleteSoleTopBlock(blocks: seq<Comp>, i: nat)
    requires |blocks| == 1
    ensures CanDelete(blocks, [i]) && DeleteAt(blocks, [i]) == blocks
  {
    assert Init([i]) == [];
  }

  /** Deletion other than of the only top-level block removes exactly one entry of the
      parent list, keeps the others in order, and leaves every container whose address
      parts from the parent's untouched. */
  lemma DeleteRemovesOne(blocks: seq<Comp>, path: Path, other: Path)
    requires CanDelete(blocks, path) && !KeepsLastTop(blocks, path)
    requires IsContainer(blocks, other) && Diverge(Init(path), other)
    ensures var was, now := ParentList(blocks, path), ParentList(DeleteAt(blocks, path), path);
      && |now| == |was| - 1
      && (forall j | 0 <= j < Last(path) :: now[j] == was[j])
      && (forall j | Last(path) <= j < |now| :: now[j] == was[j + 1])
    ensures IsContainer(DeleteAt(blocks, path), other)
    ensures ListAt(DeleteAt(blocks, path), other) == ListAt(blocks, other)
  {
    WithListAtElsewhere(blocks, Init(path), RemoveAt(ParentList(blocks, path), Last(path)), other);
  }

  /** Deletion other than of the only top-level block keeps every list above the parent
      list as it was, but for the slot on the way down, which stays a block with its name. */
  lemma DeleteKeepsAncestors(blocks: seq<Comp>, path: Path, above: Path)
    requires CanDelete(blocks, path) && !KeepsLastTop(blocks, path)
    requires IsPrefix(above, Init(path)) && |above| < |Init(path)|
    ensures IsContainer(blocks, above) && IsContainer(DeleteAt(blocks, path), above)
    ensures var was, now, k := ListAt(blocks, above), ListAt(DeleteAt(blocks, path), above), path[|above|];
      && |now| == |was| && k < |was|
      && now[k].Block? && was[k].Block? && now[k].name == was[k].name
      && forall i | 0 <= i < |was| && i != k :: now[i] == was[i]
  {
    WithListAtAbove(blocks, Init(path), RemoveAt(ParentList(blocks, path), Last(path)), above);
  }

  /** What moving up demands: a resolvable parent, and a last index in range unless it is 0. */
  predicate CanMoveUp(blocks: seq<Comp>, path: Path)
  {
    ParentResolves(blocks, path) && (Last(path) == 0 || Last(path) < |ParentList(blocks, path)|)
  }

  function MoveUpAt(blocks: seq<Comp>, path: Path): (r: seq<Comp>)
    requires CanMoveUp(blocks, path)
    ensures ParentResolves(r, path)
    ensures TopLevelOk(blocks) ==> TopLevelOk(r)
    ensures Last(path) == 0 ==> r == blocks
    ensures Last(path) > 0 ==>
              ParentList(r, path) == Swap(ParentList(blocks, path), Last(path) - 1, Last(path))
  {
    var parent, idx := ParentList(blocks, path), Last(path);
    if idx > 0 then SwapAt(blocks, path, idx - 1, idx) else blocks
  }

  function MoveDownAt(blocks: seq<Comp>, path: Path): (r: seq<Comp>)
    requires ParentResolves(blocks, path)
    ensures ParentResolves(r, path)
    ensures TopLevelOk(blocks) ==> TopLevelOk(r)
    ensures Last(path) + 1 >= |ParentList(blocks, path)| ==> r == blocks
    ensures Last(path) + 1 < |ParentList(blocks, path)| ==>
              ParentList(r, path) == Swap(ParentList(blocks, path), Last(path), Last(path) + 1)
  {
    var parent, idx := ParentList(blocks, path), Last(path);
    if idx + 1 < |parent| then SwapAt(blocks, path, idx, idx + 1) else blocks
  }

  /** Moving up only reorders the siblings: the parent list keeps its multiset of entries. */
  lemma MoveUpKeepsSiblings(blocks: seq<Comp>, path: Path)
    requires CanMoveUp(blocks, path)
    ensures multiset(ParentList(MoveUpAt(blocks, path), path)) == multiset(ParentList(blocks, path))
  {
    if Last(path) > 0 {
      SwapPermutes(ParentList(blocks, path), Last(path) - 1, Last(path));
    }
  }

  /** Moving down only reorders the siblings: the parent list keeps its multiset of entries. */
  lemma MoveDownKeepsSiblings(blocks: seq<Comp>, path: Path)
    requires ParentResolves(blocks, path)
    ensures multiset(ParentList(MoveDownAt(blocks, path), path)) == multiset(ParentList(blocks, path))
  {
    if Last(path) + 1 < |ParentList(blocks, path)| {
      SwapPermutes(ParentList(blocks, path), Last(path), Last(path) + 1);
    }
  }

  /** Moving an entry that is not last down, then moving it up from its new position,
      restores the tree. */
  lemma MoveDownThenUp(blocks: seq<Comp>, path: Path)
    requires ParentResolves(blocks, path) && Last(path) + 1 < |ParentList(blocks, path)|
    ensures var next := Init(path) + [Last(path) + 1];
      CanMoveUp(MoveDownAt(blocks, path), next) && MoveUpAt(MoveDownAt(blocks, path), next) == blocks
  {
    var i := Last(path);
    var next := Init(path) + [i + 1];
    assert Init(next) == Init(path) && Last(next) == i + 1;
    var mid := MoveDownAt(blocks, path);
    MoveDownIsSwap(blocks, path);
    SwapAtTwice(blocks, path, next, i, i + 1);
    MoveUpIsSwap(mid, next);
  }

  lemma MoveDownIsSwap(blocks: seq<Comp>, path: Path)
    requires ParentResolves(blocks, path) && Last(path) + 1 < |ParentList(blocks, path)|
    ensures MoveDownAt(blocks, path) == SwapAt(blocks, path, Last(path), Last(path) + 1)
  {
  }

  lemma MoveUpIsSwap(blocks: seq<Comp>, path: Path)
    requires ParentResolves(blocks, path) && 0 < Last(path) < |ParentList(blocks, path)|
    ensures CanMoveUp(blocks, path)
    ensures MoveUpAt(blocks, path) == SwapAt(blocks, path, Last(path) - 1, Last(path))
  {
  }

  /** Exchanging the same two entries of a parent list twice, the second time through a
      path with the same parent, restores the tree. */
  lemma SwapAtTwice(blocks: seq<Comp>, path: Path, other: Path, i: nat, j: nat)
    requires ParentResolves(blocks, path) && i < |ParentList(blocks, path)| && j < |ParentList(blocks, path)|
    requires |other| >= 1 && Init(other) == Init(path)
    ensures var mid := SwapAt(blocks, path, i, j);
      && ParentResolves(mid, other) && |ParentList(mid, other)| == |ParentList(blocks, path)|
      && SwapAt(mid, other, i, j) == blocks
  {
    var a, parent := Init(path), ParentList(blocks, path);
    var swapped := Swap(parent, i, j);
    SwappedBack(blocks, a, parent, swapped, i, j);
  }

  /** Writing a swap of a container's list, then the same swap of the result: the tree is restored. */
  lemma SwappedBack(blocks: seq<Comp>, a: Path, parent: seq<Comp>, swapped: seq<Comp>, i: nat, j: nat)
    requires IsContainer(blocks, a) && parent == ListAt(blocks, a)
    requires i < |parent| && j < |parent| && swapped == Swap(parent, i, j)
    ensures var mid := WithListAt(blocks, a, swapped);
      IsContainer(mid, a) && ListAt(mid, a) == swapped && WithListAt(mid, a, Swap(swapped, i, j)) == blocks
  {
    SwapTwice(parent, i, j);
    WithListAtTwice(blocks, a, swapped, parent);
    WithListAtSame(blocks, a);
  }

  /** Moving an entry that is not first up, then moving it down from its new position,
      restores the tree. */
  lemma MoveUpThenDown(blocks: seq<Comp>, path: Path)
    requires ParentResolves(blocks, path) && 0 < Last(path) < |ParentList(blocks, path)|
    ensures var prev := Init(path) + [Last(path) - 1];
      ParentResolves(MoveUpAt(blocks, path), prev) && MoveDownAt(MoveUpAt(blocks, path), prev) == blocks
  {
    var i := Last(path);
    var prev := Init(path) + [i - 1];
    assert Init(prev) == Init(path) && Last(prev) == i - 1;
    var mid := MoveUpAt(blocks, path);
    MoveUpIsSwap(blocks, path);
    SwapAtTwice(blocks, path, prev, i - 1, i);
    MoveDownIsSwap(mid, prev);
  }

  /** `path` names a block. */
  predicate IsBlockPath(blocks: seq<Comp>, path: Path)
  {
    Resolves(blocks, path) && NodeAt(blocks, path).Block?
  }

  /** The tree with the node at `path` replaced by `node`: only that slot of its parent
      list changes. */
  function ReplaceNode(blocks: seq<Comp>, path: Path, node: Comp): (r: seq<Comp>)
    requires Resolves(blocks, path)
    ensures Resolves(r, path) && NodeAt(r, path) == node
    ensures ParentResolves(blocks, path) && ParentResolves(r, path)
    ensures var was, now := ParentList(blocks, path), ParentList(r, path);
      |now| == |was| && forall i | 0 <= i < |was| && i != Last(path) :: now[i] == was[i]
    ensures TopLevelOk(blocks) && (node.Block? || |path| > 1) ==> TopLevelOk(r)
  {
    NodeIsParentSlot(blocks, path);
    var parent := ParentList(blocks, path);
    var r := WithListAt(blocks, Init(path), parent[Last(path) := node]);
    ResolvesViaParent(r, path);
    assert |path| == 1 ==> Init(path) == [];
    r
  }

  function AddComponentAt(blocks: seq<Comp>, path: Path): (r: seq<Comp>)
    requires IsBlockPath(blocks, path)
    ensures IsBlockPath(r, path)
    ensures NodeAt(r, path).name == NodeAt(blocks, path).name
    ensures NodeAt(r, path).comps == NodeAt(blocks, path).comps + [Select(TextChoice)]
    ensures TopLevelOk(blocks) ==> TopLevelOk(r)
  {
    var b := NodeAt(blocks, path);
    ReplaceNode(blocks, path, Block(b.name, b.comps + [Select(TextChoice)]))
  }

  /** The component a retyping puts in place, whatever the slot held before. */
  function Retyped(choice: string): Comp
  {
    if choice == TextChoice then Text(DefaultText)
    else if choice == NestedChoice then MakeBlock(NestedChoice)
    else Select(TextChoice)
  }

  function SetComponentTypeAt(blocks: seq<Comp>, path: Path, k: nat, choice: string): (r: seq<Comp>)
    requires IsBlockPath(blocks, path) && k < |NodeAt(blocks, path).comps|
    ensures IsBlockPath(r, path)
    ensures var was, now := NodeAt(blocks, path), NodeAt(r, path);
      && now.name == was.name && |now.comps| == |was.comps|
      && (forall j | 0 <= j < |was.comps| && j != k :: now.comps[j] == was.comps[j])
      && (choice == TextChoice ==> now.comps[k] == Text(DefaultText))
      && (choice == NestedChoice ==> now.comps[k] == Block(NestedChoice, []))
      && (choice != TextChoice && choice != NestedChoice ==> now.comps[k] == Select(TextChoice))
    ensures TopLevelOk(blocks) ==> TopLevelOk(r)
  {
    var b := NodeAt(blocks, path);
    ReplaceNode(blocks, path, Block(b.name, b.comps[k := Retyped(choice)]))
  }

  function SetNameAt(blocks: seq<Comp>, path: Path, name: string): (r: seq<Comp>)
    requires IsBlockPath(blocks, path)
    ensures IsBlockPath(r, path)
    ensures NodeAt(r, path).name == name && NodeAt(r, path).comps == NodeAt(blocks, path).comps
    ensures TopLevelOk(blocks) ==> TopLevelOk(r)
  {
    ReplaceNode(blocks, path, Block(name, NodeAt(blocks, path).comps))
  }

  function SetContentAt(blocks: seq<Comp>, path: Path, k: nat, content: string): (r: seq<Comp>)
    requires IsBlockPath(blocks, path)
    requires k < |NodeAt(blocks, path).comps| && NodeAt(blocks, path).comps[k].Text?
    ensures IsBlockPath(r, path)
    ensures NodeAt(r, path).name == NodeAt(blocks, path).name
    ensures NodeAt(r, path).comps == NodeAt(blocks, path).comps[k := Text(content)]
    ensures TopLevelOk(blocks) ==> TopLevelOk(r)
  {
    var b := NodeAt(blocks, path);
    ReplaceNode(blocks, path, Block(b.name, b.comps[k := Text(content)]))
  }

  /** A component added to a block is a placeholder at the end of it; giving that
      placeholder a kind puts the component of that kind there, the rest of the block
      as it was before the addition. */
  lemma AddThenRetype(blocks: seq<Comp>, path: Path, choice: string)
    requires IsBlockPath(blocks, path)
    ensures var added, k := AddComponentAt(blocks, path), |NodeAt(blocks, path).comps|;
      && IsBlockPath(added, path) && k < |NodeAt(added, path).comps|
      && NodeAt(added, path).comps[k] == Select(TextChoice)
      && NodeAt(SetComponentTypeAt(added, path, k, choice), path).comps
           == NodeAt(blocks, path).comps + [Retyped(choice)]
  {
    var added, k := AddComponentAt(blocks, path), |NodeAt(blocks, path).comps|;
    var now := NodeAt(SetComponentTypeAt(added, path, k, choice), path).comps;
    assert now == NodeAt(added, path).comps[k := Retyped(choice)];
  }

  /** Replacing a node leaves every container whose address parts from the parent's
      untouched. */
  lemma ReplaceNodeFrame(blocks: seq<Comp>, path: Path, node: Comp, other: Path)
    requires Resolves(blocks, path) && IsContainer(blocks, other)
    requires Diverge(Init(path), other)
    ensures IsContainer(ReplaceNode(blocks, path, node), other)
    ensures ListAt(ReplaceNode(blocks, path, node), other) == ListAt(blocks, other)
  {
    NodeIsParentSlot(blocks, path);
    var parent := ParentList(blocks, path);
    WithListAtElsewhere(blocks, Init(path), parent[Last(path) := node], other);
  }

  /** Adding a component leaves every list whose address parts from the block's parent
      list untouched. */
  lemma AddComponentFrame(blocks: seq<Comp>, path: Path, other: Path)
    requires IsBlockPath(blocks, path) && IsContainer(blocks, other) && Diverge(Init(path), other)
    ensures IsContainer(AddComponentAt(blocks, path), other)
    ensures ListAt(AddComponentAt(blocks, path), other) == ListAt(blocks, other)
  {
    var b := NodeAt(blocks, path);
    ReplaceNodeFrame(blocks, path, Block(b.name, b.comps + [Select(TextChoice)]), other);
  }

  /** Retyping a component leaves every list whose address parts from the block's parent
      list untouched. */
  lemma SetComponentTypeFrame(blocks: seq<Comp>, path: Path, k: nat, choice: string, other: Path)
    requires IsBlockPath(blocks, path) && k < |NodeAt(blocks, path).comps|
    requires IsContainer(blocks, other) && Diverge(Init(path), other)
    ensures IsContainer(SetComponentTypeAt(blocks, path, k, choice), other)
    ensures ListAt(SetComponentTypeAt(blocks, path, k, choice), other) == ListAt(blocks, other)
  {
    var b := NodeAt(blocks, path);
    ReplaceNodeFrame(blocks, path, Block(b.name, b.comps[k := Retyped(choice)]), other);
  }

  /** Renaming a block leaves every list whose address parts from its parent list untouched. */
  lemma SetNameFrame(blocks: seq<Comp>, path: Path, name: string, other: Path)
    requires IsBlockPath(blocks, path) && IsContainer(blocks, other) && Diverge(Init(path), other)
    ensures IsContainer(SetNameAt(blocks, path, name), other)
    ensures ListAt(SetNameAt(blocks, path, name), other) == ListAt(blocks, other)
  {
    ReplaceNodeFrame(blocks, path, Block(name, NodeAt(blocks, path).comps), other);
  }

  /** Editing a text leaves every list whose address parts from the block's parent list
      untouched. */
  lemma SetContentFrame(blocks: seq<Comp>, path: Path, k: nat, content: string, other: Path)
    requires IsBlockPath(blocks, path)
    requires k < |NodeAt(blocks, path).comps| && NodeAt(blocks, path).comps[k].Text?
    requires IsContainer(blocks, other) && Diverge(Init(path), other)
    ensures IsContainer(SetContentAt(blocks, path, k, content), other)
    ensures ListAt(SetContentAt(blocks, path, k, content), other) == ListAt(blocks, other)
  {
    var b := NodeAt(blocks, path);
    ReplaceNodeFrame(blocks, path, Block(b.name, b.comps[k := Text(content)]), other);
  }

  /** A swap in a parent list leaves every list whose address parts from it untouched. */
  lemma SwapAtFrame(blocks: seq<Comp>, path: Path, i: nat, j: nat, other: Path)
    requires ParentResolves(blocks, path)
    requires i < |ParentList(blocks, path)| && j < |ParentList(blocks, path)|
    requires IsContainer(blocks, other) && Diverge(Init(path), other)
    ensures IsContainer(SwapAt(blocks, path, i, j), other)
    ensures ListAt(SwapAt(blocks, path, i, j), other) == ListAt(blocks, other)
  {
    WithListAtElsewhere(blocks, Init(path), Swap(ParentList(blocks, path), i, j), other);
  }

  /** Moving up leaves every list whose address parts from the parent list untouched. */
  lemma MoveUpFrame(blocks: seq<Comp>, path: Path, other: Path)
    requires CanMoveUp(blocks, path) && IsContainer(blocks, other) && Diverge(Init(path), other)
    ensures IsContainer(MoveUpAt(blocks, path), other)
    ensures ListAt(MoveUpAt(blocks, path), other) == ListAt(blocks, other)
  {
    if Last(path) > 0 {
      SwapAtFrame(blocks, path, Last(path) - 1, Last(path), other);
    }
  }

  /** Moving down leaves every list whose address parts from the parent list untouched. */
  lemma MoveDownFrame(blocks: seq<Comp>, path: Path, other: Path)
    requires ParentResolves(blocks, path) && IsContainer(blocks, other) && Diverge(Init(path), other)
    ensures IsContainer(MoveDownAt(blocks, path), other)
    ensures ListAt(MoveDownAt(blocks, path), other) == ListAt(blocks, other)
  {
    if Last(path) + 1 < |ParentList(blocks, path)| {
      SwapAtFrame(blocks, path, Last(path), Last(path) + 1, other);
    }
  }

  /** Replacing a node keeps every list above its parent list as it was, but for the slot
      on the way down, which stays a block with its name. */
  lemma ReplaceNodeKeepsAncestors(blocks: seq<Comp>, path: Path, node: Comp, above: Path)
    requires Resolves(blocks, path)
    requires IsPrefix(above, Init(path)) && |above| < |Init(path)|
    ensures IsContainer(blocks, above) && IsContainer(ReplaceNode(blocks, path, node), above)
    ensures var was, now, k := ListAt(blocks, above), ListAt(ReplaceNode(blocks, path, node), above), path[|above|];
      && |now| == |was| && k < |was|
      && now[k].Block? && was[k].Block? && now[k].name == was[k].name
      && forall i | 0 <= i < |was| && i != k :: now[i] == was[i]
  {
    NodeIsParentSlot(blocks, path);
    WithListAtAbove(blocks, Init(path), ParentList(blocks, path)[Last(path) := node], above);
  }
}
