# Recursive block editor: tree, edits and Markdown preview

This project models the logic of `editor.py`, a Streamlit page for editing a prompt as
a tree of blocks, and proves properties of that logic. Every top-level entry is a block.
A block has a name and a list of components. A component is one of three things:

- a placeholder (a `select` whose kind has not been chosen yet);
- a text leaf;
- a nested block.

Nodes are addressed by index paths. The editor's callbacks add, delete, move, retype and
rename nodes in place. A renderer turns the whole tree into a Markdown preview.

The model has six modules, one file each:

- `Tree` (`tree.dfy`): the node datatype `Comp` and the resolution of index paths:
  - `Resolves` and `NodeAt`: a path names a node;
  - `IsContainer` and `ListAt`: an address names a list of components;
  - `ParentResolves` and `ParentList`: a path's parent list.

  It also has `WithListAt`, a write-back that replaces the list at an address, with its
  frame lemmas.
- `Strings` (`strings.dfy`): the string library the renderer relies on: `str.strip`
  (`Trim`), `str.splitlines` (`SplitLines`), and `str(n)` for a natural number
  (`Decimal`).
- `Edits` (`edits.dfy`): each edit as a function from the old tree to the new one, with
  its guard and its frame:
  - `DeleteAt`, `MoveUpAt`, `MoveDownAt`;
  - `AddComponentAt`, `SetComponentTypeAt`, `SetNameAt`, `SetContentAt`.
- `Session` (`editor.dfy`): the session state as a class `Editor` holding the top-level
  list. Its methods are the callbacks, the two path-walking resolvers (written as loops)
  and the three predicates that disable buttons. Each mutator is proved to leave the tree
  in the state the matching `Edits` function describes.
- `Markdown` (`markdown.dfy`): the preview.
  - `Render`, `DocLines`, `BlockLines`, `CompsLines`, `CompLines` and `TextLines` specify
    the preview as recursive functions.
  - `BuildMarkdownFromBlocks`, `BlockToMdLines` and `TextToMdLines` are loop methods
    shaped like the source, proved to compute those functions.
  - Lemmas state what the preview looks like.
- `Preview` (`preview.dfy`): how one edit shows in the preview. For example, adding a
  component never changes the preview.

Design decisions:

- **The tree is a value.** The Python code shares dictionaries and mutates them in place.
  The model holds the tree as a `seq<Comp>` field of `Editor`. A mutator reads the parent
  list or node with the resolver methods, computes the new list, and writes it back along
  the path with `WithListAt`. The blocks on the way down keep their names and all their
  other slots.
- **Identity test.** `parent_list is st.session_state.blocks` in `delete_block_by_path`
  holds exactly when the path has one index. No nested list can be the top-level list,
  so the model uses `|path| == 1`.
- **Class invariant.** `Editor.Valid()` says the top-level list is non-empty and holds
  only blocks. `ensure_initial_state` and the callbacks establish and preserve it.
- **Preconditions follow the source.**
  - `_get_parent_list_and_index` walks all indices but the last and never checks the last
    one. Its model therefore requires only `ParentResolves`.
  - Move down, `_is_first_in_parent` and `_is_last_in_parent` read nothing at the last
    index, so they work with an out-of-range last index.
  - Move up and delete index the parent list at the last index. Python raises
    `IndexError` there when the index is out of range. `CanMoveUp` and `CanDelete` say
    when it does not. For delete this includes the one case `pop` is never reached: a
    one-index path when there is a single top-level block.

## Model

| member | source | states |
|---|---|---|
| Tree.MakeBlock | editor.py:10-11 | a new block has the given name and no components |
| Session.Editor.constructor | editor.py:13-17 | a session starts with one empty block named "블록1" and satisfies the invariant |
| Session.Editor.EnsureInitialState | editor.py:13-17 | an empty top-level list gets one fresh block "블록1" (restoring the invariant); a non-empty one is kept |
| Edits.TopLevelOk | editor.py:13-17 | the invariant of the top-level list: it is never empty and holds only blocks (established at 14-17, kept by the guard at 45) |
| Session.Editor.Valid | editor.py:13-17 | the class invariant: the `blocks` field satisfies `TopLevelOk` |
| Session.Editor.GetParentListAndIndex | editor.py:21-27 | the loop returns the list named by all indices but the last, and the last index; a one-index path gives the top-level list |
| Session.Editor.GetBlockByPath | editor.py:29-35 | the loop returns the node the whole path names |
| Tree.IsContainer | editor.py:21-27 | an address walks through blocks only, each index in range, so it names a list of components |
| Tree.ListAt | editor.py:21-27 | the list of components such an address names: the top-level list for the empty address, otherwise the components of the block reached |
| Tree.ParentResolves | editor.py:21-27 | what the parent resolver needs: at least one index, and every index but the last walks through a block; the last index is not examined |
| Tree.ParentList | editor.py:21-27 | the list the parent resolver returns: the list named by all indices but the last |
| Tree.Resolves | editor.py:29-35 | what the block resolver needs: at least one index, every index in range, and every node walked through a block |
| Tree.NodeAt | editor.py:29-35 | the node the block resolver returns: the entry the last index picks in the list the others name |
| Tree.NodeIsParentSlot | editor.py:21-35 | for a valid path, the node the block resolver returns is entry `idx` of the list the parent resolver returns; a one-index path resolves into the top-level list |
| Tree.ResolvesViaParent | editor.py:21-35 | a path is valid exactly when its parent resolves and its last index is in range of the parent list |
| Tree.BlockPathIsContainer | editor.py:25-26 | a path names a block exactly when it is an address of a list of components, namely that block's components |
| Tree.ContainerSnoc | editor.py:25-26 | one more step of the walk is valid exactly when the index is in range and lands on a block |
| Tree.NodeSnoc | editor.py:33-34 | one more step from a block reaches its component at that index |
| Tree.ContainerPrefix | editor.py:25-26 | every prefix of a valid walk is valid |
| Tree.ResolvesPrefix | editor.py:33-34 | every proper prefix of a valid path names a block |
| Tree.WithListAt | editor.py:44-47 | writing a list back at an address puts it there, and writing at the empty address replaces the whole top-level list |
| Tree.WithListAtTop | editor.py:44-47 | below the top level, a write-back keeps the top-level list's length and every entry but the first one on the way, which stays a block with its name |
| Tree.WithListAtSame | editor.py:44-47 | writing back the list already there changes nothing |
| Tree.WithListAtTwice | editor.py:44-47 | a second write at the same address overrides the first |
| Tree.WithListAtElsewhere | editor.py:44-47 | every list whose address diverges from the written one is untouched |
| Tree.WithListAtAbove | editor.py:44-47 | every list above the written one keeps its length and all slots but the one on the way down |
| Strings.Decimal | editor.py:41 | `str(n)`: digits only, no leading zero unless the numeral is the single digit `0`, and its decimal value is `n` |
| Session.Editor.AddTopBlock | editor.py:40-41 | appends exactly one empty block, named "블록" followed by the new length; the invariant is kept |
| Edits.RemoveAt | editor.py:47 | `pop(i)`: length one less, the entries before and after `i` keep their order, and the multiset loses exactly that entry |
| Edits.KeepsLastTop | editor.py:45-46 | the guard of delete: the path has one index and the top-level list holds at most one block |
| Edits.CanDelete | editor.py:43-47 | delete does not raise: the parent resolves, and the last index is in range unless the guard returns first |
| Edits.DeleteAt | editor.py:43-47 | the delete guard: the top-level list never drops below one block; with one index and one top-level block the tree is unchanged; otherwise the parent list loses entry `idx` |
| Edits.DeleteSoleTopBlock | editor.py:45-46 | deleting the only top-level block is allowed and leaves the tree unchanged |
| Edits.DeleteRemovesOne | editor.py:44-47 | otherwise the parent list is one shorter, keeps the other siblings in order, and every list whose address parts from the parent list's is untouched |
| Edits.DeleteKeepsAncestors | editor.py:44-47 | every list above the parent list keeps its length and all its slots but the one on the way down, which stays a block with its name |
| Session.Editor.DeleteBlockByPath | editor.py:43-47 | the callback leaves the tree as `DeleteAt` describes and keeps the invariant |
| Edits.Swap | editor.py:52 | the tuple swap: the two slots exchange their entries and the rest stay |
| Edits.SwapPermutes | editor.py:52 | the tuple swap keeps the multiset of entries |
| Edits.SwapAt | editor.py:50-52 | the swap written back into the parent list of a path: that list becomes the swap, and the top-level invariant is kept |
| Edits.SwapAtTwice | editor.py:49-57 | doing the same swap a second time through a path with the same parent restores the tree |
| Edits.SwapTwice | editor.py:52 | swapping twice restores the list |
| Edits.CanMoveUp | editor.py:49-52 | moving up does not raise: the parent resolves, and the last index is 0 or in range of the parent list |
| Edits.MoveUpAt | editor.py:49-52 | with `idx > 0` entries `idx-1` and `idx` are swapped, at `idx == 0` nothing changes; the invariant is kept |
| Edits.MoveUpKeepsSiblings | editor.py:49-52 | moving up keeps the multiset of siblings |
| Edits.MoveDownAt | editor.py:54-57 | with `idx < len-1` entries `idx` and `idx+1` are swapped, otherwise nothing changes; the invariant is kept |
| Edits.MoveDownKeepsSiblings | editor.py:54-57 | moving down keeps the multiset of siblings |
| Edits.MoveDownThenUp | editor.py:49-57 | moving down at a non-last position `i`, then up at `i+1`, restores the tree |
| Edits.MoveUpThenDown | editor.py:49-57 | moving up at a position `i > 0`, then down at `i-1`, restores the tree |
| Edits.SwapAtFrame | editor.py:50-57 | a swap in a parent list leaves every list whose address parts from it untouched |
| Edits.MoveUpFrame | editor.py:49-52 | moving up leaves every list whose address parts from the parent list untouched |
| Edits.MoveDownFrame | editor.py:54-57 | moving down leaves every list whose address parts from the parent list untouched |
| Session.Editor.MoveBlockUpByPath | editor.py:49-52 | the callback leaves the tree as `MoveUpAt` describes and keeps the invariant |
| Session.Editor.MoveBlockDownByPath | editor.py:54-57 | the callback leaves the tree as `MoveDownAt` describes and keeps the invariant |
| Edits.ReplaceNode | editor.py:69-79 | overwriting one slot: the path now names the new node, and its parent list keeps its length and every other slot |
| Edits.ReplaceNodeFrame | editor.py:69-79 | overwriting one slot leaves every list whose address parts from the parent list's untouched |
| Edits.ReplaceNodeKeepsAncestors | editor.py:69-79 | every list above the parent list keeps its length and all its slots but the one on the way down, which stays a block with its name |
| Edits.IsBlockPath | editor.py:59-61 | what the block edits need for `_get_block_by_path(path)["components"]` not to raise: the path resolves and names a block |
| Edits.AddComponentAt | editor.py:59-64 | the block the path names keeps its name and gains one placeholder with choice "텍스트" at the end |
| Session.Editor.AddComponentToBlock | editor.py:59-64 | the callback leaves the tree as `AddComponentAt` describes and keeps the invariant |
| Edits.AddComponentFrame | editor.py:59-64 | adding a component leaves every list whose address parts from the block's parent list untouched |
| Edits.Retyped | editor.py:69-79 | the component a retyping puts in the slot: a text leaf with the default text for "텍스트", an empty block named "내부 블록" for that choice, and a placeholder with choice "텍스트" for any other |
| Edits.SetComponentTypeAt | editor.py:66-79 | slot `comp_idx` is replaced wholesale and every other slot stays: "텍스트" gives a text leaf with the default text, "내부 블록" an empty block of that name, any other choice a placeholder with choice "텍스트" |
| Session.Editor.SetComponentType | editor.py:66-79 | the callback leaves the tree as `SetComponentTypeAt` describes and keeps the invariant |
| Edits.SetComponentTypeFrame | editor.py:66-79 | retyping a component leaves every list whose address parts from the block's parent list untouched |
| Edits.AddThenRetype | editor.py:59-79 | an added component is a placeholder at the end; retyping it gives the block's old components followed by the chosen kind |
| Edits.SetNameAt | editor.py:151 | the block gets the new name and keeps its components |
| Session.Editor.SetName | editor.py:151 | the name write leaves the tree as `SetNameAt` describes and keeps the invariant |
| Edits.SetNameFrame | editor.py:151 | renaming a block leaves every list whose address parts from its parent list untouched |
| Edits.SetContentAt | editor.py:187 | text component `j` of the block gets the new content; the block keeps its name and every other component |
| Session.Editor.SetContent | editor.py:187 | the content write leaves the tree as `SetContentAt` describes and keeps the invariant |
| Edits.SetContentFrame | editor.py:187 | editing a text leaves every list whose address parts from the block's parent list untouched |
| Session.Editor.IsTopLevelAndSingle | editor.py:194-195 | when true, delete is allowed and leaves the tree unchanged; when false, an allowed delete shortens the parent list by one |
| Session.Editor.IsFirstInParent | editor.py:197-199 | true exactly when the last index is 0; then moving up leaves the tree unchanged, and otherwise moving up brings the entry one place forward |
| Session.Editor.IsLastInParent | editor.py:201-203 | true exactly when the last index is the parent list's length minus one, so never for an index past the end; then moving down leaves the tree unchanged, and otherwise, with the index in range, moving down brings the entry one place back |
| Markdown.HeadingLevel | editor.py:95 | the level is the depth clamped to 1..6 |
| Markdown.Hashes | editor.py:96 | `"#" * n`: exactly `n` hash marks |
| Markdown.HeadingLine | editor.py:95-100 | the heading line: the hash marks for the capped level, one space, then the name |
| Markdown.HeadingLineParts | editor.py:95-100 | a heading line is the capped number of hash marks, one space, and the name |
| Markdown.BlockHeadings | editor.py:92-119 | a block rendered at depth `d` starts with its heading line and shows one heading per block of its subtree |
| Markdown.NestedBlockShape | editor.py:114-117 | a nested block is preceded by one blank line and rendered one level deeper |
| Strings.Trim | editor.py:106 | `str.strip()`: the result is empty exactly when the input is all whitespace, and otherwise neither starts nor ends with whitespace |
| Strings.TrimStart | editor.py:106 | removes exactly a blank prefix, and what is left does not start with whitespace |
| Strings.TrimEnd | editor.py:106 | removes exactly a blank suffix, and what is left does not end with whitespace |
| Strings.TrimTrimmed | editor.py:109 | trimming a trimmed line changes nothing |
| Strings.TrimOfTrimmed | editor.py:109 | a line with no whitespace at either end is left as it is by `str.strip()` |
| Strings.SplitLines | editor.py:108 | `str.splitlines()`: no line holds a boundary, the lines together hold every other character in order, and only the empty string has no lines |
| Strings.SplitLinesAtBoundary | editor.py:108 | a line followed by one boundary (a single boundary character, or `\r\n` counted once) is a line of its own, and splitting goes on after the boundary; a boundary at the very end adds no line |
| Strings.SplitLinesOfLine | editor.py:108 | a non-empty text without boundaries is one line |
| Strings.LineEndAfterLine | editor.py:108 | the first boundary after a line without boundaries is where that line ends |
| Markdown.JoinSplitLines | editor.py:108 | for text whose only boundary is `\n`, joining its lines with newlines gives the text back, except for a final newline, which starts no further line |
| Markdown.JoinLinesCons | editor.py:90 | `"\n".join` puts exactly one newline between a first line and the join of the rest |
| Strings.FirstLineNotBlank | editor.py:106-108 | a text that starts with a non-space character has a first line that is not blank |
| Markdown.Bullet | editor.py:109-111 | one split line gives no bullet when it is blank after trimming, and otherwise `"* "` followed by the trimmed line |
| Markdown.Bullets | editor.py:108-111 | the bullets of the split lines, in order |
| Markdown.TextLines | editor.py:105-113 | a text component's lines: one `"* "` when the trimmed content is empty, otherwise the bullets of its split lines |
| Markdown.BulletOfLine | editor.py:109-111 | a line yields no bullet exactly when it is blank, and otherwise one text bullet |
| Markdown.BulletsOfLines | editor.py:108-111 | every bullet is "* " plus non-empty text without surrounding whitespace; there are no more bullets than lines |
| Markdown.BulletsAppend | editor.py:108-111 | bullets follow the order of the lines |
| Markdown.TextLinesShape | editor.py:105-113 | blank content gives exactly one "* " line; any other content gives at least one bullet, each carrying non-empty trimmed text |
| Markdown.TextLinesMarked | editor.py:105-113 | every line of a text component starts with "* " |
| Markdown.TextOfOneLine | editor.py:105-111 | one line of text without surrounding whitespace gives the single bullet "* " plus that line |
| Markdown.TextToMdLines | editor.py:105-113 | the loop over the split lines computes the text component's lines |
| Markdown.CompLines | editor.py:103-118 | one component's lines: a text gives its bullets, a nested block a blank line and then the block one level deeper, a placeholder nothing |
| Markdown.CompsLines | editor.py:103-118 | the lines of the components, in order |
| Markdown.BlockLines | editor.py:92-119 | a block's lines: its heading line, then its components' lines; a non-block shows only a heading named "블록" |
| Markdown.DocLines | editor.py:84-89 | the document's lines: every top-level block at depth 1, with one blank line between consecutive blocks |
| Markdown.JoinLines | editor.py:90 | `"\n".join(lines)`: the lines with one newline between consecutive ones |
| Markdown.Render | editor.py:84-90 | the preview: the document's lines joined by newlines |
| Markdown.StripSelects | editor.py:118 | removing placeholders keeps the kind of a node |
| Markdown.StripAll | editor.py:118 | no placeholder is left in a list, and the list does not grow |
| Markdown.PlaceholdersDropped | editor.py:103-118 | a block renders the same with all its placeholders removed, at every level |
| Markdown.StripKeepsComps | editor.py:103-118 | a list of components renders the same without its placeholders |
| Markdown.CompHeadings | editor.py:103-118 | every block in a component's subtree yields exactly one heading line; text and placeholders yield none |
| Markdown.TextHasNoHeading | editor.py:105-113 | a text component yields no heading line |
| Markdown.DocHeadings | editor.py:84-90 | the document shows one heading per block of the whole tree |
| Markdown.BlockToMdLines | editor.py:92-119 | the loop over the components computes the block's lines |
| Markdown.CompToMdLines | editor.py:103-118 | the loop body for one component computes that component's lines |
| Markdown.CompsLinesStep | editor.py:103-118 | one more component adds its lines after those of the components before it |
| Markdown.BuildMarkdownFromBlocks | editor.py:84-90 | the loop over the top-level blocks, with one blank line between consecutive blocks and the lines joined by newlines, computes `Render` |
| Markdown.RenderTwoBlocks | editor.py:84-119 | two blocks, the first holding one line of text, render as "# A", "* t", a blank line, "# B" |
| Markdown.RenderNested | editor.py:84-119 | blank text renders as "* ", a placeholder renders nothing, and a nested block comes after a blank line with "##" |
| Preview.CompsSlot | editor.py:103-117 | replacing one component by one with the same lines keeps the lines of the list |
| Preview.DocSlot | editor.py:86-89 | replacing one top-level block by one with the same lines keeps the document |
| Preview.CompsWithList | editor.py:114-117 | replacing a nested list by one with the same lines, one level deeper per index, keeps the lines of the enclosing list |
| Preview.DocWithList | editor.py:84-119 | replacing a nested list by one with the same lines keeps the document |
| Preview.ReplaceNodeSameRender | editor.py:69-79 | putting a block that renders the same in place of a block keeps the preview |
| Preview.PlaceholderShowsNothing | editor.py:118 | a placeholder appended to a list adds no line |
| Preview.AddComponentKeepsPreview | editor.py:59-64 | adding a component never changes the preview |

## Left out

- The Streamlit page is left out. This covers the page set-up, containers, columns,
  buttons, text inputs, select boxes, text areas, the code view, `render_block`'s layout
  and the page-root loop (editor.py:124-221). It is presentation, not logic: the
  callbacks and the two field writes it triggers are modelled as `Editor` methods.
- Widget keys and the labels derived from a path (editor.py:131-163) are left out, as
  display strings only.
- `ensure_initial_state`'s `isinstance` check (editor.py:14) is left out, because a typed
  model cannot hold a top-level value that is not a list. Its other two branches are
  modelled by `EnsureInitialState` and the constructor.
- Aliasing and in-place mutation of shared dictionaries are not modelled. The tree is a
  value, and each mutator writes the changed list back along its path. Node identity,
  and two paths reaching the same Python object, do not arise.
- Negative indices and Python's `IndexError` are not modelled. Python lists accept
  negative indices and raise on out-of-range ones. Paths are `seq<nat>`, and out-of-range
  cases are excluded by the preconditions where the source would raise.
- The dictionaries' fallbacks are modelled as far as the datatype allows, and hold in
  the model by construction:
  - `block.get("name", "블록")` (editor.py:99): a non-block passed to the renderer gets
    the name "블록" and no components.
  - `(comp.get("data") or {}).get("content", "")` (editor.py:106): a text leaf always
    has content.
  - A component of an unknown type renders like a placeholder; the datatype has no such
    component.
- Strings.IsSpace and Strings.IsLineBoundary are explicit character sets, and the model
  assumes they match Python's Unicode tables; the tables themselves are not modelled.
  - Whitespace: U+0009-U+000D, U+001C-U+0020, U+0085, U+00A0, U+1680, U+2000-U+200A,
    U+2028, U+2029, U+202F, U+205F, U+3000.
  - Line boundaries: U+000A-U+000D, U+001C-U+001E, U+0085, U+2028, U+2029, with
    `\r\n` counting as one boundary.
- Strings.Trim: its own contract states when the result is empty and that it has no
  whitespace at either end; it does not say that the result is a slice of the input.
  That is fixed by its body, `TrimEnd(TrimStart(s))`, whose two parts have contracts that
  determine their results.
- The renderer's idempotence and determinism are not stated as lemmas. The preview is a
  function of the tree, so they hold by construction.
