/** The editing session: the tree of blocks as one mutable object, with the callbacks
    the editor's controls invoke and the queries that enable or disable them. */
module Session {
  import opened Tree
  import opened Strings
  import opened Edits

  /** The name of the block a new session starts with. */
  const FirstBlockName: string := "블록1"

  class Editor {
    /** The top-level list of blocks. */
    var blocks: seq<Comp>

    ghost predicate Valid()
      reads this
    {
      TopLevelOk(blocks)
    }

    /** A session starts with one empty block. */
    constructor ()
      ensures Valid() && blocks == [MakeBlock(FirstBlockName)]
    {
      blocks := [MakeBlock(FirstBlockName)];
    }

    /** Run before every redraw: an empty top-level list gets one fresh block, any other
        list is kept as it is. */
    method EnsureInitialState()
      modifies this
      ensures blocks == (if old(blocks) == [] then [MakeBlock(FirstBlockName)] else old(blocks))
      ensures old(blocks) == [] ==> Valid()
    {
      if |blocks| == 0 {
        blocks := blocks + [MakeBlock(FirstBlockName)];
      }
    }

    /** Walks all indices but the last and gives the list they lead to, with the last index. */
    method GetParentListAndIndex(path: Path) returns (parent: seq<Comp>, idx: nat)
      requires ParentResolves(blocks, path)
      ensures parent == ParentList(blocks, path) && idx == Last(path)
    {
      if |path| == 1 {
        assert Init(path) == [];
        return blocks, path[0];
      }
      ContainerPrefix(blocks, Init(path), 1);
      assert Init(path)[..1] == path[..1] == [path[0]];
      var cur := blocks[path[0]];
      var i := 1;
      while i < |path| - 1
        invariant 1 <= i <= |path| - 1
        invariant IsContainer(blocks, path[..i])
        invariant cur.Block? && cur.comps == ListAt(blocks, path[..i])
      {
        ContainerPrefix(blocks, Init(path), i + 1);
        assert Init(path)[..i + 1] == path[..i + 1] == path[..i] + [path[i]];
        ContainerSnoc(blocks, path[..i], path[i]);
        cur := cur.comps[path[i]];
        i := i + 1;
      }
      assert path[..i] == Init(path);
      return cur.comps, path[|path| - 1];
    }

    /** Walks every index of the path and gives the node it reaches. */
    method GetBlockByPath(path: Path) returns (node: Comp)
      requires Resolves(blocks, path)
      ensures node == NodeAt(blocks, path)
    {
      if |path| == 1 {
        return blocks[path[0]];
      }
      assert path[..1] == [path[0]];
      var cur := blocks[path[0]];
      var i := 1;
      while i < |path|
        invariant 1 <= i <= |path|
        invariant Resolves(blocks, path[..i]) && cur == NodeAt(blocks, path[..i])
      {
        ResolvesPrefix(blocks, path, i);
        assert path[..i + 1] == path[..i] + [path[i]];
        if i + 1 < |path| {
          ResolvesPrefix(blocks, path, i + 1);
        } else {
          assert path[..i + 1] == path;
        }
        NodeSnoc(blocks, path[..i], path[i]);
        cur := cur.comps[path[i]];
        i := i + 1;
      }
      assert path[..i] == path;
      return cur;
    }

    /** Appends a new empty block named after the new length of the top-level list. */
    method AddTopBlock()
      requires Valid()
      modifies this
      ensures Valid()
      ensures blocks == old(blocks) + [MakeBlock(BlockPrefix + Decimal(|old(blocks)| + 1))]
    {
      blocks := blocks + [MakeBlock(BlockPrefix + Decimal(|blocks| + 1))];
    }

    /** Removes the entry the path names from its list, unless it is the only top-level block. */
    method DeleteBlockByPath(path: Path)
      requires Valid() && CanDelete(blocks, path)
      modifies this
      ensures Valid() && blocks == DeleteAt(old(blocks), path)
    {
      var parent, idx := GetParentListAndIndex(path);
      if |path| == 1 && |parent| <= 1 {
        assert Init(path) == [];
        return;
      }
      blocks := WithListAt(blocks, Init(path), RemoveAt(parent, idx));
    }

    /** Exchanges the entry with its predecessor; nothing happens to the first entry. */
    method MoveBlockUpByPath(path: Path)
      requires Valid() && CanMoveUp(blocks, path)
      modifies this
      ensures Valid() && blocks == MoveUpAt(old(blocks), path)
    {
      var parent, idx := GetParentListAndIndex(path);
      if idx > 0 {
        blocks := WithListAt(blocks, Init(path), parent[idx - 1 := parent[idx]][idx := parent[idx - 1]]);
      }
    }

    /** Exchanges the entry with its successor; nothing happens to the last entry. */
    method MoveBlockDownByPath(path: Path)
      requires Valid() && ParentResolves(blocks, path)
      modifies this
      ensures Valid() && blocks == MoveDownAt(old(blocks), path)
    {
      var parent, idx := GetParentListAndIndex(path);
      if idx < |parent| - 1 {
        blocks := WithListAt(blocks, Init(path), parent[idx := parent[idx + 1]][idx + 1 := parent[idx]]);
      }
    }

    /** Appends a placeholder to the components of the block the path names. */
    method AddComponentToBlock(path: Path)
      requires Valid() && IsBlockPath(blocks, path)
      modifies this
      ensures Valid() && blocks == AddComponentAt(old(blocks), path)
    {
      var blk := GetBlockByPath(path);
      blocks := ReplaceNode(blocks, path, Block(blk.name, blk.comps + [Select(TextChoice)]));
    }

    /** Replaces component `compIdx` of the block the path names by a fresh component of
        the chosen kind. */
    method SetComponentType(path: Path, compIdx: nat, choice: string)
      requires Valid() && IsBlockPath(blocks, path) && compIdx < |NodeAt(blocks, path).comps|
      modifies this
      ensures Valid() && blocks == SetComponentTypeAt(old(blocks), path, compIdx, choice)
    {
      var blk := GetBlockByPath(path);
      var comp: Comp;
      if choice == TextChoice {
        comp := Text(DefaultText);
      } else if choice == NestedChoice {
        comp := MakeBlock(NestedChoice);
      } else {
        comp := Select(TextChoice);
      }
      blocks := ReplaceNode(blocks, path, Block(blk.name, blk.comps[compIdx := comp]));
    }

    /** Writes the name the user typed into the block the path names. */
    method SetName(path: Path, newName: string)
      requires Valid() && IsBlockPath(blocks, path)
      modifies this
      ensures Valid() && blocks == SetNameAt(old(blocks), path, newName)
    {
      var blk := GetBlockByPath(path);
      blocks := ReplaceNode(blocks, path, Block(newName, blk.comps));
    }

    /** Writes the text the user typed into text component `j` of the block the path names. */
    method SetContent(path: Path, j: nat, newVal: string)
      requires Valid() && IsBlockPath(blocks, path)
      requires j < |NodeAt(blocks, path).comps| && NodeAt(blocks, path).comps[j].Text?
      modifies this
      ensures Valid() && blocks == SetContentAt(old(blocks), path, j, newVal)
    {
      var blk := GetBlockByPath(path);
      blocks := ReplaceNode(blocks, path, Block(blk.name, blk.comps[j := Text(newVal)]));
    }

    /** Disables deletion: true exactly when deleting would leave the tree as it is,
        because the path is top-level and there is one top-level block. */
    method IsTopLevelAndSingle(path: Path) returns (r: bool)
      requires Valid()
      ensures r ==> CanDelete(blocks, path) && DeleteAt(blocks, path) == blocks
      ensures !r && CanDelete(blocks, path) ==>
                |ParentList(DeleteAt(blocks, path), path)| + 1 == |ParentList(blocks, path)|
    {
      r := |path| == 1 && |blocks| == 1;
      if r {
        assert Init(path) == [];
      }
    }

    /** Disables moving up: true exactly when the entry is the first of its parent list,
        where moving up does nothing; when false, moving up really brings the entry one
        place forward. */
    method IsFirstInParent(path: Path) returns (r: bool)
      requires ParentResolves(blocks, path)
      ensures r <==> Last(path) == 0
      ensures r ==> CanMoveUp(blocks, path) && MoveUpAt(blocks, path) == blocks
      ensures !r && CanMoveUp(blocks, path) ==>
                Last(path) > 0 &&
                ParentList(MoveUpAt(blocks, path), path)[Last(path) - 1] == ParentList(blocks, path)[Last(path)]
    {
      var parent, idx := GetParentListAndIndex(path);
      r := idx == 0;
    }

    /** Disables moving down: true exactly when the entry is the last of its parent list
        (never for an index past the end), where moving down does nothing; when false and
        the index is in range, moving down really brings the entry one place back. */
    method IsLastInParent(path: Path) returns (r: bool)
      requires ParentResolves(blocks, path)
      ensures r <==> Last(path) + 1 == |ParentList(blocks, path)|
      ensures r ==> MoveDownAt(blocks, path) == blocks
      ensures !r && Last(path) < |ParentList(blocks, path)| ==>
                Last(path) + 1 < |ParentList(blocks, path)| &&
                ParentList(MoveDownAt(blocks, path), path)[Last(path) + 1] == ParentList(blocks, path)[Last(path)]
    {
      var parent, idx := GetParentListAndIndex(path);
      r := idx == |parent| - 1;
    }
  }
}
