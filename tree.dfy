/** The node model of the block editor and the resolution of index paths through it. */
module Tree {

  /** A component of a block: a placeholder for a not yet chosen kind, a text leaf,
      or a nested block that holds components of its own. */
  datatype Comp =
    | Select(choice: string)
    | Text(content: string)
    | Block(name: string, comps: seq<Comp>)

  /** A path of indices: the first one indexes the top-level list, every later one the
      components of the block reached so far. */
  type Path = seq<nat>

  /** A fresh block with the given name and no components. */
  function MakeBlock(name: string): (b: Comp)
    ensures b.Block? && b.name == name && b.comps == []
  {
    Block(name, [])
  }

  function Init(path: Path): Path
    requires |path| >= 1
  {
    path[..|path| - 1]
  }

  function Last(path: Path): nat
    requires |path| >= 1
  {
    path[|path| - 1]
  }

  /** `path` names a node of `list`: every index is in range and every node walked
      through on the way is a block. */
  predicate Resolves(list: seq<Comp>, path: Path)
    decreases |path|
  {
    && |path| >= 1
    && path[0] < |list|
    && (|path| == 1 || (list[path[0]].Block? && Resolves(list[path[0]].comps, path[1..])))
  }

  /** The node that a resolvable path names. */
  function NodeAt(list: seq<Comp>, path: Path): Comp
    requires Resolves(list, path)
    decreases |path|
  {
    if |path| == 1 then list[path[0]] else NodeAt(list[path[0]].comps, path[1..])
  }

  /** `addr` leads from `list` through blocks only, and so names a list of components:
      `list` itself when `addr` is empty, otherwise the components of the block reached. */
  predicate IsContainer(list: seq<Comp>, addr: Path)
    decreases |addr|
  {
    || addr == []
    || (addr[0] < |list| && list[addr[0]].Block? && IsContainer(list[addr[0]].comps, addr[1..]))
  }

  /** The list of components that a container address names. */
  function ListAt(list: seq<Comp>, addr: Path): seq<Comp>
    requires IsContainer(list, addr)
    decreases |addr|
  {
    if addr == [] then list else ListAt(list[addr[0]].comps, addr[1..])
  }

  /** `list` with the list of components at `addr` replaced by `n`; the blocks on the
      way keep their names and every other slot of their lists is unchanged. */
  function WithListAt(list: seq<Comp>, addr: Path, n: seq<Comp>): (r: seq<Comp>)
    requires IsContainer(list, addr)
    ensures IsContainer(r, addr) && ListAt(r, addr) == n
    ensures addr == [] ==> r == n
    decreases |addr|
  {
    if addr == [] then n
    else
      var b := list[addr[0]];
      list[addr[0] := Block(b.name, WithListAt(b.comps, addr[1..], n))]
  }

  /** Below the top level, a write-back keeps the length of the top-level list and every
      entry but the first one on the way, which stays a block with the same name. */
  lemma WithListAtTop(list: seq<Comp>, addr: Path, n: seq<Comp>)
    requires IsContainer(list, addr) && addr != []
    ensures var r := WithListAt(list, addr, n);
      && |r| == |list|
      && r[addr[0]].Block? && r[addr[0]].name == list[addr[0]].name
      && forall i | 0 <= i < |list| && i != addr[0] :: r[i] == list[i]
  {
  }

  /** What the parent resolver needs: every index but the last walks through a block.
      The last index is not checked against its list. */
  predicate ParentResolves(list: seq<Comp>, path: Path)
  {
    |path| >= 1 && IsContainer(list, Init(path))
  }

  /** The list that holds the node a path names. */
  function ParentList(list: seq<Comp>, path: Path): seq<Comp>
    requires ParentResolves(list, path)
  {
    ListAt(list, Init(path))
  }

  /** `a` is a prefix of `b`. */
  predicate IsPrefix(a: Path, b: Path)
  {
    |a| <= |b| && b[..|a|] == a
  }

  /** Neither address is a prefix of the other: they part at some index. */
  predicate Diverge(a: Path, b: Path)
  {
    !IsPrefix(a, b) && !IsPrefix(b, a)
  }

  /** Extending a container address by one index: the extension is a container exactly
      when the index is in range and lands on a block, and it names that block's components. */
  lemma {:induction false} ContainerSnoc(list: seq<Comp>, addr: Path, k: nat)
    requires IsContainer(list, addr)
    ensures IsContainer(list, addr + [k]) <==>
              k < |ListAt(list, addr)| && ListAt(list, addr)[k].Block?
    ensures IsContainer(list, addr + [k]) ==>
              ListAt(list, addr + [k]) == ListAt(list, addr)[k].comps
    decreases |addr|
  {
    if addr == [] {
      assert [] + [k] == [k];
      assert [k][1..] == [];
    } else {
      assert (addr + [k])[0] == addr[0];
      assert (addr + [k])[1..] == addr[1..] + [k];
      ContainerSnoc(list[addr[0]].comps, addr[1..], k);
    }
  }

  /** A path resolves exactly when its parent resolves and its last index is in range
      of the parent list; the node it names is then that slot of the parent list. */
  lemma {:induction false} ResolvesViaParent(list: seq<Comp>, path: Path)
    requires |path| >= 1
    ensures Resolves(list, path) <==> ParentResolves(list, path) && Last(path) < |ParentList(list, path)|
    ensures Resolves(list, path) ==> NodeAt(list, path) == ParentList(list, path)[Last(path)]
    decreases |path|
  {
    if |path| == 1 {
      assert Init(path) == [];
    } else {
      var tail := path[1..];
      assert Init(path)[0] == path[0];
      assert Init(path)[1..] == Init(tail);
      assert Last(tail) == Last(path);
      ResolvesViaParent(list, [path[0]]);
      if path[0] < |list| && list[path[0]].Block? {
        ResolvesViaParent(list[path[0]].comps, tail);
      }
    }
  }

  /** The two resolvers agree: the node found by walking the whole path
      is the entry `idx` of the list found by walking all but the last index. */
  lemma NodeIsParentSlot(list: seq<Comp>, path: Path)
    requires Resolves(list, path)
    ensures ParentResolves(list, path)
    ensures Last(path) < |ParentList(list, path)|
    ensures NodeAt(list, path) == ParentList(list, path)[Last(path)]
    ensures |path| == 1 ==> NodeAt(list, path) == list[path[0]]
  {
    ResolvesViaParent(list, path);
    if |path| == 1 {
      assert Init(path) == [];
    }
  }

  /** A non-empty path names a block exactly when it is a container address, and the
      block's components are the list it names. */
  lemma {:induction false} BlockPathIsContainer(list: seq<Comp>, path: Path)
    requires |path| >= 1
    ensures IsContainer(list, path) <==> Resolves(list, path) && NodeAt(list, path).Block?
    ensures IsContainer(list, path) ==> ListAt(list, path) == NodeAt(list, path).comps
    decreases |path|
  {
    if |path| == 1 {
      assert path[1..] == [];
    } else if path[0] < |list| && list[path[0]].Block? {
      BlockPathIsContainer(list[path[0]].comps, path[1..]);
    }
  }

  /** Extending a path that names a block by one index into its components. */
  lemma NodeSnoc(list: seq<Comp>, path: Path, k: nat)
    requires Resolves(list, path) && NodeAt(list, path).Block?
    ensures Resolves(list, path + [k]) <==> k < |NodeAt(list, path).comps|
    ensures Resolves(list, path + [k]) ==> NodeAt(list, path + [k]) == NodeAt(list, path).comps[k]
  {
    var p := path + [k];
    assert Init(p) == path && Last(p) == k;
    BlockPathIsContainer(list, path);
    ResolvesViaParent(list, p);
  }

  /** Every prefix of a container address is a container address. */
  lemma {:induction false} ContainerPrefix(list: seq<Comp>, addr: Path, k: nat)
    requires IsContainer(list, addr) && k <= |addr|
    ensures IsContainer(list, addr[..k])
    decreases |addr|
  {
    if k > 0 {
      assert addr[..k][0] == addr[0];
      assert addr[..k][1..] == addr[1..][..k - 1];
      ContainerPrefix(list[addr[0]].comps, addr[1..], k - 1);
    }
  }

  /** Every proper non-empty prefix of a resolvable path resolves, to a block. */
  lemma {:induction false} ResolvesPrefix(list: seq<Comp>, path: Path, k: nat)
    requires Resolves(list, path) && 1 <= k < |path|
    ensures Resolves(list, path[..k]) && NodeAt(list, path[..k]).Block?
    decreases |path|
  {
    if k == 1 {
      assert path[..1] == [path[0]];
    } else {
      assert path[..k][0] == path[0];
      assert path[..k][1..] == path[1..][..k - 1];
      ResolvesPrefix(list[path[0]].comps, path[1..], k - 1);
    }
  }

  /** Writing back the list a container already holds changes nothing. */
  lemma {:induction false} WithListAtSame(list: seq<Comp>, addr: Path)
    requires IsContainer(list, addr)
    ensures WithListAt(list, addr, ListAt(list, addr)) == list
    decreases |addr|
  {
    if addr != [] {
      WithListAtSame(list[addr[0]].comps, addr[1..]);
    }
  }

  /** A second write to the same container overrides the first. */
  lemma {:induction false} WithListAtTwice(list: seq<Comp>, addr: Path, n: seq<Comp>, m: seq<Comp>)
    requires IsContainer(list, addr)
    ensures WithListAt(WithListAt(list, addr, n), addr, m) == WithListAt(list, addr, m)
    decreases |addr|
  {
    if addr != [] {
      WithListAtTwice(list[addr[0]].comps, addr[1..], n, m);
    }
  }

  /** Every container whose address parts from the written one is untouched. */
  lemma {:induction false} WithListAtElsewhere(list: seq<Comp>, addr: Path, n: seq<Comp>, other: Path)
    requires IsContainer(list, addr) && IsContainer(list, other)
    requires Diverge(addr, other)
    ensures IsContainer(WithListAt(list, addr, n), other)
    ensures ListAt(WithListAt(list, addr, n), other) == ListAt(list, other)
    decreases |addr|
  {
    assert IsPrefix([], other) && IsPrefix([], addr);
    if addr[0] == other[0] {
      var a, o := addr[1..], other[1..];
      assert |a| <= |o| ==> other[..|addr|] == [addr[0]] + o[..|a|];
      assert |o| <= |a| ==> addr[..|other|] == [other[0]] + a[..|o|];
      WithListAtElsewhere(list[addr[0]].comps, a, n, o);
    }
  }

  /** Every container strictly above the written one keeps its length, and all of its
      slots but the one on the way down; that slot is still a block with the same name. */
  lemma {:induction false} WithListAtAbove(list: seq<Comp>, addr: Path, n: seq<Comp>, above: Path)
    requires IsContainer(list, addr)
    requires IsPrefix(above, addr) && |above| < |addr|
    ensures IsContainer(list, above) && IsContainer(WithListAt(list, addr, n), above)
    ensures var was, now, k := ListAt(list, above), ListAt(WithListAt(list, addr, n), above), addr[|above|];
      && |now| == |was| && k < |was|
      && now[k].Block? && was[k].Block? && now[k].name == was[k].name
      && forall i | 0 <= i < |was| && i != k :: now[i] == was[i]
    decreases |addr|
  {
    if above != [] {
      assert above[1..] == addr[1..][..|above| - 1];
      WithListAtAbove(list[addr[0]].comps, addr[1..], n, above[1..]);
    }
  }
}
