/** The Markdown preview: a deterministic rendering of the block tree as lines of text,
    one heading per block, bullets for text, placeholders left out. */
module Markdown {
  import opened Tree
  import opened Strings

  /** The heading level of a block rendered at `depth`: the depth clamped to 1..6. */
  function HeadingLevel(depth: int): (level: nat)
    ensures 1 <= level <= 6
    ensures 1 <= depth <= 6 ==> level == depth
    ensures depth > 6 ==> level == 6
    ensures depth < 1 ==> level == 1
  {
    var atLeastOne := if depth > 1 then depth else 1;
    if atLeastOne < 6 then atLeastOne else 6
  }

  /** `n` hash marks. */
  function Hashes(n: nat): (s: string)
    ensures |s| == n && forall i | 0 <= i < n :: s[i] == '#'
  {
    if n == 0 then [] else Hashes(n - 1) + ['#']
  }

  function HeadingLine(name: string, depth: int): string
  {
    Hashes(HeadingLevel(depth)) + " " + name
  }

  /** A heading line is the capped number of hash marks, one space, and the name. */
  lemma HeadingLineParts(name: string, depth: int)
    ensures var line, level := HeadingLine(name, depth), HeadingLevel(depth);
      && |line| == level + 1 + |name|
      && (forall i | 0 <= i < level :: line[i] == '#')
      && line[level] == ' ' && line[level + 1..] == name
  {
  }

  /** The name shown for an entry that is rendered as a block but is not one. */
  const DefaultName: string := "블록"

  /** A bullet carrying non-empty text that neither starts nor ends with whitespace. */
  predicate IsTextBullet(line: string)
  {
    |line| > 2 && line[0] == '*' && line[1] == ' ' && !IsSpace(line[2]) && !IsSpace(line[|line| - 1])
  }

  /** The bullet for one line of a text: none when the line is blank. */
  function Bullet(line: string): seq<string>
  {
    var t := Trim(line);
    if t == [] then [] else ["* " + t]
  }

  /** The bullets of the lines, in order. */
  function Bullets(lines: seq<string>): seq<string>
    decreases |lines|
  {
    if lines == [] then []
    else Bullets(lines[..|lines| - 1]) + Bullet(lines[|lines| - 1])
  }

  /** The lines of a text component: a single bare bullet when the content is blank,
      otherwise one bullet per non-blank line of it. */
  function TextLines(content: string): seq<string>
  {
    var t := Trim(content);
    if t == [] then ["* "] else Bullets(SplitLines(t))
  }

  /** A line yields no bullet exactly when it is blank, and otherwise one text bullet. */
  lemma BulletOfLine(line: string)
    ensures Bullet(line) == [] <==> IsBlank(line)
    ensures |Bullet(line)| <= 1
    ensures forall i | 0 <= i < |Bullet(line)| :: IsTextBullet(Bullet(line)[i])
  {
    BulletIsTrimmed(line);
    if !IsBlank(line) {
      TrimmedBullet(Trim(line));
    }
  }

  lemma BulletIsTrimmed(line: string)
    ensures IsBlank(line) ==> Bullet(line) == []
    ensures !IsBlank(line) ==> Trim(line) != [] && Bullet(line) == ["* " + Trim(line)]
  {
  }

  lemma TrimmedBullet(t: string)
    requires t != [] && !IsSpace(t[0]) && !IsSpace(t[|t| - 1])
    ensures IsTextBullet("* " + t)
  {
    var b := "* " + t;
    assert b[2] == t[0] && b[|b| - 1] == t[|t| - 1];
  }

  /** Every bullet of a list of lines is a text bullet, there are at most as many bullets
      as lines, and a first line that is not blank yields at least one. */
  lemma {:induction false} BulletsOfLines(lines: seq<string>)
    ensures |Bullets(lines)| <= |lines|
    ensures forall i | 0 <= i < |Bullets(lines)| :: IsTextBullet(Bullets(lines)[i])
    ensures |lines| >= 1 && !IsBlank(lines[0]) ==> |Bullets(lines)| >= 1
    decreases |lines|
  {
    if lines != [] {
      var front, last := lines[..|lines| - 1], lines[|lines| - 1];
      var before, more := Bullets(front), Bullet(last);
      assert Bullets(lines) == before + more;
      BulletsOfLines(front);
      BulletOfLine(last);
      BulletsJoin(before, more);
      if |front| == 0 {
        assert last == lines[0];
      } else {
        assert front[0] == lines[0];
      }
    }
  }

  lemma BulletsSnoc(lines: seq<string>)
    requires lines != []
    ensures Bullets(lines) == Bullets(lines[..|lines| - 1]) + Bullet(lines[|lines| - 1])
  {
  }

  /** One more line of the loop over the split lines adds that line's bullet. */
  lemma BulletsPrefix(lines: seq<string>, k: nat)
    requires k < |lines|
    ensures var t := Trim(lines[k]);
      Bullets(lines[..k + 1]) == Bullets(lines[..k]) + (if t == [] then [] else ["* " + t])
  {
    var upTo := lines[..k + 1];
    assert upTo[..k] == lines[..k] && upTo[k] == lines[k];
    BulletsSnoc(upTo);
    assert Bullets(lines[..k]) + [] == Bullets(lines[..k]);
  }

  lemma BulletsJoin(before: seq<string>, more: seq<string>)
    requires forall i | 0 <= i < |before| :: IsTextBullet(before[i])
    requires forall i | 0 <= i < |more| :: IsTextBullet(more[i])
    ensures forall i | 0 <= i < |before + more| :: IsTextBullet((before + more)[i])
  {
    forall i | 0 <= i < |before + more|
      ensures IsTextBullet((before + more)[i])
    {
      if i < |before| {
        assert (before + more)[i] == before[i];
      } else {
        assert (before + more)[i] == more[i - |before|];
      }
    }
  }

  /** A text bullet starts with the bullet mark and is not the bare bullet. */
  lemma TextBulletMark(line: string)
    requires IsTextBullet(line)
    ensures |line| > 2 && line[..2] == "* " && line != "* "
  {
    assert line[..2] == [line[0], line[1]];
  }

  /** Content that is not blank gives at least one bullet, and every one of them carries
      non-empty text that neither starts nor ends with whitespace. */
  lemma TextLinesOfContent(content: string)
    requires !IsBlank(content)
    ensures |TextLines(content)| >= 1
    ensures forall i | 0 <= i < |TextLines(content)| :: IsTextBullet(TextLines(content)[i])
  {
    var t := Trim(content);
    FirstLineNotBlank(t);
    BulletsOfLines(SplitLines(t));
  }

  /** Bullets follow the order of the lines: the bullets of two runs of lines, one after
      the other, are the bullets of the first run followed by those of the second. */
  lemma {:induction false} BulletsAppend(a: seq<string>, b: seq<string>)
    ensures Bullets(a + b) == Bullets(a) + Bullets(b)
    decreases |b|
  {
    if b == [] {
      assert a + b == a;
    } else {
      var ab, front, last := a + b, b[..|b| - 1], b[|b| - 1];
      assert ab[..|ab| - 1] == a + front && ab[|ab| - 1] == last;
      BulletsSnoc(ab);
      BulletsSnoc(b);
      BulletsAppend(a, front);
      AppendAssoc(Bullets(a), Bullets(front), Bullet(last));
    }
  }

  /** Text rendering: content that is blank after trimming gives exactly one bare bullet;
      any other content gives at least one bullet, each carrying non-empty text that
      neither starts nor ends with whitespace. */
  lemma TextLinesShape(content: string)
    ensures |TextLines(content)| >= 1
    ensures IsBlank(content) <==> TextLines(content) == ["* "]
    ensures !IsBlank(content) ==> forall i | 0 <= i < |TextLines(content)| :: IsTextBullet(TextLines(content)[i])
  {
    if !IsBlank(content) {
      TextLinesOfContent(content);
      TextBulletMark(TextLines(content)[0]);
    }
  }

  /** Every line of a text component starts with the bullet mark "* ". */
  lemma TextLinesMarked(content: string, i: nat)
    requires i < |TextLines(content)|
    ensures |TextLines(content)[i]| >= 2 && TextLines(content)[i][..2] == "* "
  {
    var r := TextLines(content);
    if IsBlank(content) {
      assert r == ["* "];
      assert r[i][..2] == r[i];
    } else {
      TextLinesOfContent(content);
      TextBulletMark(r[i]);
    }
  }

  /** The lines of one component of a block rendered at `depth`. */
  function CompLines(c: Comp, depth: int): seq<string>
    decreases c, 2
  {
    match c
    case Text(content) => TextLines(content)
    case Block(_, _) => [""] + BlockLines(c, depth + 1)
    case Select(_) => []
  }

  /** A nested block is set off by one blank line and rendered one level deeper, under a
      heading with its own name. */
  lemma NestedBlockShape(c: Comp, depth: int)
    requires c.Block?
    ensures var lines := CompLines(c, depth);
      && |lines| >= 2 && lines[0] == "" && lines[1] == HeadingLine(c.name, depth + 1)
      && lines[1..] == BlockLines(c, depth + 1)
  {
  }

  /** The lines of a list of components, in order. */
  function CompsLines(comps: seq<Comp>, depth: int): seq<string>
    decreases comps, 0
  {
    if comps == [] then []
    else CompsLines(comps[..|comps| - 1], depth) + CompLines(comps[|comps| - 1], depth)
  }

  /** The lines of a block rendered at `depth`: its heading, then its components. */
  function BlockLines(b: Comp, depth: int): seq<string>
    decreases b, 1
  {
    if b.Block? then [HeadingLine(b.name, depth)] + CompsLines(b.comps, depth)
    else [HeadingLine(DefaultName, depth)]
  }

  /** The lines of the document: every top-level block at depth 1, one blank line between
      consecutive blocks. */
  function DocLines(blocks: seq<Comp>): seq<string>
    decreases |blocks|
  {
    if blocks == [] then []
    else if |blocks| == 1 then BlockLines(blocks[0], 1)
    else DocLines(blocks[..|blocks| - 1]) + [""] + BlockLines(blocks[|blocks| - 1], 1)
  }

  /** The lines joined with a newline between consecutive lines. */
  function JoinLines(lines: seq<string>): string
    decreases |lines|
  {
    if lines == [] then []
    else if |lines| == 1 then lines[0]
    else JoinLines(lines[..|lines| - 1]) + "\n" + lines[|lines| - 1]
  }

  /** Joining a line in front of at least one more line puts one newline between them. */
  lemma {:induction false} JoinLinesCons(a: string, lines: seq<string>)
    requires lines != []
    ensures JoinLines([a] + lines) == a + "\n" + JoinLines(lines)
    decreases |lines|
  {
    var all := [a] + lines;
    if |lines| == 1 {
      assert all[..1] == [a];
    } else {
      var front := lines[..|lines| - 1];
      assert all[..|all| - 1] == [a] + front;
      JoinLinesCons(a, front);
    }
  }

  /** The only line boundary `s` holds, if any, is `'\n'`. */
  predicate OnlyNewlines(s: string)
  {
    forall i | 0 <= i < |s| :: IsLineBoundary(s[i]) ==> s[i] == '\n'
  }

  /** The newline `s` ends in, if it does. */
  function FinalNewline(s: string): string
  {
    if s != [] && s[|s| - 1] == '\n' then "\n" else ""
  }

  /** For text whose only line boundary is `'\n'`, joining its lines with newlines gives
      the text back, but for a final newline, which starts no further line. */
  lemma {:induction false} JoinSplitLines(s: string)
    requires OnlyNewlines(s)
    ensures JoinLines(SplitLines(s)) + FinalNewline(s) == s
    decreases |s|
  {
    if s != [] {
      var k := LineEnd(s);
      if k == |s| {
        SplitLinesOfLine(s);
      } else {
        var line, rest := s[..k], s[k + 1..];
        NewlineParts(s, k);
        SplitLinesAtBoundary(line, "\n", rest);
        FinalNewlineAfter(line, rest);
        if rest != [] {
          JoinSplitLines(rest);
          JoinLinesCons(line, SplitLines(rest));
          AppendAssoc(line + "\n", JoinLines(SplitLines(rest)), FinalNewline(rest));
        }
      }
    }
  }

  /** A line, a newline and more text end in a newline exactly when the text after the
      newline is empty or does. */
  lemma FinalNewlineAfter(line: string, rest: string)
    ensures FinalNewline(line + "\n" + rest) == (if rest == [] then "\n" else FinalNewline(rest))
  {
    var s := line + "\n" + rest;
    if rest != [] {
      assert s[|s| - 1] == rest[|rest| - 1];
    }
  }

  /** Text with newlines only, cut at its first boundary. */
  lemma NewlineParts(s: string, k: nat)
    requires OnlyNewlines(s) && k == LineEnd(s) && k < |s|
    ensures s == s[..k] + "\n" + s[k + 1..]
    ensures NoBoundary(s[..k]) && OnlyNewlines(s[k + 1..])
  {
    assert s[k] == '\n';
    SplitThree(s, k, k + 1);
    assert s[k..k + 1] == "\n";
    LineBeforeEnd(s);
    OnlyNewlinesSuffix(s, k + 1);
  }

  /** A suffix of text with newlines only has newlines only. */
  lemma OnlyNewlinesSuffix(s: string, j: nat)
    requires OnlyNewlines(s) && j <= |s|
    ensures OnlyNewlines(s[j..])
  {
    var rest := s[j..];
    forall i | 0 <= i < |rest|
      ensures IsLineBoundary(rest[i]) ==> rest[i] == '\n'
    {
      assert rest[i] == s[j + i];
    }
  }


  /** The Markdown preview of the tree. */
  function Render(blocks: seq<Comp>): string
  {
    JoinLines(DocLines(blocks))
  }

  /** `c` with every placeholder removed from it, at every level below it. */
  function StripSelects(c: Comp): (r: Comp)
    ensures r.Select? == c.Select? && r.Block? == c.Block?
    decreases c, 1
  {
    if c.Block? then Block(c.name, StripAll(c.comps)) else c
  }

  /** The components without their placeholders, the rest in order and stripped in turn. */
  function StripAll(comps: seq<Comp>): (r: seq<Comp>)
    ensures |r| <= |comps|
    ensures forall i | 0 <= i < |r| :: !r[i].Select?
    decreases comps, 0
  {
    if comps == [] then []
    else
      var last := comps[|comps| - 1];
      StripAll(comps[..|comps| - 1]) + (if last.Select? then [] else [StripSelects(last)])
  }

  /** Placeholders are not shown: removing them from a component changes none of its lines. */
  lemma {:induction false} StripKeepsComp(c: Comp, depth: int)
    ensures CompLines(StripSelects(c), depth) == CompLines(c, depth)
    decreases c, 1
  {
    if c.Block? {
      StripKeepsComps(c.comps, depth + 1);
    }
  }

  lemma {:induction false} StripKeepsComps(comps: seq<Comp>, depth: int)
    ensures CompsLines(StripAll(comps), depth) == CompsLines(comps, depth)
    decreases comps, 0
  {
    if comps != [] {
      var front, last := comps[..|comps| - 1], comps[|comps| - 1];
      StripKeepsComps(front, depth);
      if !last.Select? {
        var a := StripAll(front);
        assert (a + [StripSelects(last)])[..|a|] == a;
        StripKeepsComp(last, depth);
      } else {
        assert StripAll(comps) == StripAll(front) + [] == StripAll(front);
        assert CompsLines(comps, depth) == CompsLines(front, depth) + [] == CompsLines(front, depth);
      }
    }
  }

  /** Placeholders are not shown: a block renders the same with all of them removed. */
  lemma PlaceholdersDropped(b: Comp, depth: int)
    ensures BlockLines(StripSelects(b), depth) == BlockLines(b, depth)
  {
    if b.Block? {
      StripKeepsComps(b.comps, depth);
    }
  }

  /** A heading line: it starts with a hash mark. */
  predicate IsHeading(line: string)
  {
    |line| >= 1 && line[0] == '#'
  }

  /** The number of heading lines. */
  function HeadingCount(lines: seq<string>): nat
    decreases |lines|
  {
    if lines == [] then 0
    else HeadingCount(lines[..|lines| - 1]) + (if IsHeading(lines[|lines| - 1]) then 1 else 0)
  }

  lemma {:induction false} HeadingCountAppend(a: seq<string>, b: seq<string>)
    ensures HeadingCount(a + b) == HeadingCount(a) + HeadingCount(b)
    decreases |b|
  {
    if b == [] {
      assert a + b == a;
    } else {
      assert (a + b)[..|a + b| - 1] == a + b[..|b| - 1];
      HeadingCountAppend(a, b[..|b| - 1]);
    }
  }

  lemma {:induction false} NoHeadings(lines: seq<string>)
    requires forall i | 0 <= i < |lines| :: !IsHeading(lines[i])
    ensures HeadingCount(lines) == 0
    decreases |lines|
  {
    if lines != [] {
      NoHeadings(lines[..|lines| - 1]);
    }
  }

  /** A text component renders no heading. */
  lemma TextHasNoHeading(content: string)
    ensures HeadingCount(TextLines(content)) == 0
  {
    var r := TextLines(content);
    forall i | 0 <= i < |r|
      ensures !IsHeading(r[i])
    {
      TextLinesMarked(content, i);
      assert r[i][0] == r[i][..2][0];
    }
    NoHeadings(r);
  }

  /** The number of blocks in the subtree of `c`, `c` itself included. */
  function BlockCount(c: Comp): nat
    decreases c, 1
  {
    if c.Block? then 1 + BlockCountAll(c.comps) else 0
  }

  function BlockCountAll(comps: seq<Comp>): nat
    decreases comps, 0
  {
    if comps == [] then 0
    else BlockCountAll(comps[..|comps| - 1]) + BlockCount(comps[|comps| - 1])
  }

  /** Every block of a component's subtree, at any depth, yields exactly one heading line. */
  lemma {:induction false} CompHeadings(c: Comp, depth: int)
    ensures HeadingCount(CompLines(c, depth)) == BlockCount(c)
    decreases c, 1
  {
    match c
    case Text(content) => TextHasNoHeading(content);
    case Select(_) =>
    case Block(name, comps) =>
      CompsHeadings(comps, depth + 1);
      HeadingCountAppend([HeadingLine(name, depth + 1)], CompsLines(comps, depth + 1));
      HeadingCountAppend([""], BlockLines(c, depth + 1));
      assert HeadingCount([HeadingLine(name, depth + 1)]) == 1 by {
        assert [HeadingLine(name, depth + 1)][..0] == [];
      }
      assert HeadingCount([""]) == 0 by {
        assert [""][..0] == [];
      }
  }

  lemma {:induction false} CompsHeadings(comps: seq<Comp>, depth: int)
    ensures HeadingCount(CompsLines(comps, depth)) == BlockCountAll(comps)
    decreases comps, 0
  {
    if comps != [] {
      var front, last := comps[..|comps| - 1], comps[|comps| - 1];
      CompsHeadings(front, depth);
      CompHeadings(last, depth);
      HeadingCountAppend(CompsLines(front, depth), CompLines(last, depth));
    }
  }

  /** A block renders one heading for itself and one for every block nested in it. */
  lemma BlockHeadings(b: Comp, depth: int)
    requires b.Block?
    ensures HeadingCount(BlockLines(b, depth)) == BlockCount(b)
    ensures BlockLines(b, depth)[0] == HeadingLine(b.name, depth)
  {
    CompHeadings(b, depth - 1);
    HeadingCountAppend([""], BlockLines(b, depth));
    assert [""][..0] == [];
  }

  /** A document of blocks shows one heading per block of the whole tree. */
  lemma {:induction false} DocHeadings(blocks: seq<Comp>)
    requires forall i | 0 <= i < |blocks| :: blocks[i].Block?
    ensures HeadingCount(DocLines(blocks)) == BlockCountAll(blocks)
    decreases |blocks|
  {
    if blocks != [] {
      var front, last := blocks[..|blocks| - 1], blocks[|blocks| - 1];
      BlockHeadings(last, 1);
      if |blocks| == 1 {
        assert front == [];
      } else {
        DocHeadings(front);
        HeadingCountAppend(DocLines(front), [""]);
        HeadingCountAppend(DocLines(front) + [""], BlockLines(last, 1));
        assert [""][..0] == [];
      }
    }
  }

  lemma HeadingLines(name: string)
    ensures HeadingLine(name, 1) == "# " + name
    ensures HeadingLine(name, 2) == "## " + name
  {
    assert Hashes(1) == "#" by { assert Hashes(0) == []; }
    assert Hashes(2) == "##";
  }

  /** A single line of text with no surrounding whitespace becomes a single bullet. */
  lemma TextOfOneLine(t: string)
    requires t != [] && !IsSpace(t[0]) && !IsSpace(t[|t| - 1]) && NoBoundary(t)
    ensures TextLines(t) == ["* " + t]
  {
    assert TrimStart(t) == t;
    assert Trim(t) == t;
    assert LineEnd(t) == |t|;
    assert SplitLines(t) == [t];
    assert Bullets([t]) == Bullets([]) + Bullet(t);
  }

  lemma JoinFour(w: string, x: string, y: string, z: string)
    ensures JoinLines([w, x, y, z]) == w + "\n" + x + "\n" + y + "\n" + z
  {
    var lines := [w, x, y, z];
    assert lines[..3][..2][..1] == [w];
    assert lines[..3][..2] == [w, x];
    assert lines[..3] == [w, x, y];
    assert JoinLines([w, x]) == w + "\n" + x;
    assert JoinLines([w, x, y]) == w + "\n" + x + "\n" + y;
  }

  lemma BlockOfOneText(a: string, t: string)
    requires t != [] && !IsSpace(t[0]) && !IsSpace(t[|t| - 1]) && NoBoundary(t)
    ensures BlockLines(Block(a, [Text(t)]), 1) == ["# " + a, "* " + t]
  {
    TextOfOneLine(t);
    HeadingLines(a);
    SingleComp(Text(t), 1);
  }

  lemma DocOfTwo(x: Comp, y: Comp)
    ensures DocLines([x, y]) == BlockLines(x, 1) + [""] + BlockLines(y, 1)
  {
    assert [x, y][..1] == [x];
  }

  lemma SingleComp(c: Comp, depth: int)
    ensures CompsLines([c], depth) == CompLines(c, depth)
  {
    assert [c][..0] == [];
  }

  /** Two top-level blocks, the first holding one line of text, the second nothing:
      their headings, the bullet, and one blank line between the blocks. */
  lemma RenderTwoBlocks(a: string, b: string, t: string)
    requires t != [] && !IsSpace(t[0]) && !IsSpace(t[|t| - 1]) && NoBoundary(t)
    ensures Render([Block(a, [Text(t)]), Block(b, [])]) == "# " + a + "\n* " + t + "\n\n# " + b
  {
    var doc := [Block(a, [Text(t)]), Block(b, [])];
    BlockOfOneText(a, t);
    HeadingLines(b);
    DocOfTwo(doc[0], doc[1]);
    assert BlockLines(doc[1], 1) == ["# " + b];
    var lines := ["# " + a, "* " + t, "", "# " + b];
    assert DocLines(doc) == lines;
    JoinFour("# " + a, "* " + t, "", "# " + b);
    assert ("# " + a) + "\n" + ("* " + t) + "\n" + "" + "\n" + ("# " + b)
        == "# " + a + "\n* " + t + "\n\n# " + b;
  }

  /** Blank text shows as one bare bullet, a placeholder shows nothing, and a nested
      block is set off by a blank line and drops one heading level. */
  lemma RenderNested(a: string, b: string, blank: string, choice: string)
    requires IsBlank(blank)
    ensures Render([Block(a, [Text(blank), Select(choice), Block(b, [])])]) == "# " + a + "\n* \n\n## " + b
  {
    TextLinesShape(blank);
    HeadingLines(a);
    HeadingLines(b);
    var inner := Block(b, []);
    assert BlockLines(inner, 2) == ["## " + b];
    var cs := [Text(blank), Select(choice), inner];
    assert cs[..2][..1][..0] == [];
    assert cs[..2][..1] == [Text(blank)];
    assert cs[..2] == [Text(blank), Select(choice)];
    assert CompsLines(cs[..2][..1], 1) == ["* "];
    assert CompsLines(cs[..2], 1) == ["* "];
    assert CompsLines(cs, 1) == ["* ", "", "## " + b];
    assert DocLines([Block(a, cs)]) == ["# " + a, "* ", "", "## " + b];
    JoinFour("# " + a, "* ", "", "## " + b);
  }

  /** The bullets of a text component, built with the loop of the preview builder. */
  method TextToMdLines(content: string) returns (lines: seq<string>)
    ensures lines == TextLines(content)
  {
    var trimmed := Trim(content);
    if trimmed == [] {
      return ["* "];
    }
    var split := SplitLines(trimmed);
    lines := [];
    var k := 0;
    while k < |split|
      invariant 0 <= k <= |split|
      invariant lines == Bullets(split[..k])
    {
      BulletsPrefix(split, k);
      var line := Trim(split[k]);
      if line != [] {
        lines := lines + ["* " + line];
      }
      k := k + 1;
    }
    assert split[..k] == split;
  }

  /** One more component adds its lines after those of the components before it. */
  lemma CompsLinesStep(comps: seq<Comp>, j: nat, depth: int)
    requires j < |comps|
    ensures CompsLines(comps[..j + 1], depth) == CompsLines(comps[..j], depth) + CompLines(comps[j], depth)
  {
    assert comps[..j + 1][..j] == comps[..j];
    assert comps[..j + 1][j] == comps[j];
  }

  /** Renders one block with a loop over its components, as the preview builder does. */
  method BlockToMdLines(block: Comp, depth: int) returns (lines: seq<string>)
    ensures lines == BlockLines(block, depth)
    decreases block, 1
  {
    var level := HeadingLevel(depth);
    var name := if block.Block? then block.name else DefaultName;
    var heading := Hashes(level) + " " + name;
    lines := [heading];
    var comps := if block.Block? then block.comps else [];
    var j := 0;
    while j < |comps|
      invariant 0 <= j <= |comps|
      invariant lines == [heading] + CompsLines(comps[..j], depth)
    {
      var more := CompToMdLines(comps[j], depth);
      CompsLinesStep(comps, j, depth);
      AppendAssoc([heading], CompsLines(comps[..j], depth), more);
      lines := lines + more;
      j := j + 1;
    }
    assert heading == HeadingLine(name, depth);
    assert comps[..j] == comps;
  }

  /** The lines one component adds to the block rendered at `depth`: the bullets of a
      text, a blank line and the nested block one level deeper, nothing for a placeholder. */
  method CompToMdLines(comp: Comp, depth: int) returns (more: seq<string>)
    ensures more == CompLines(comp, depth)
    decreases comp, 2
  {
    match comp {
      case Text(content) =>
        more := TextToMdLines(content);
      case Block(_, _) =>
        var sub := BlockToMdLines(comp, depth + 1);
        more := [""] + sub;
      case Select(_) =>
        more := [];
    }
  }

  /** Renders the whole tree with a loop over the top-level blocks, as the preview builder does. */
  method BuildMarkdownFromBlocks(blocks: seq<Comp>) returns (md: string)
    ensures md == Render(blocks)
  {
    var lines: seq<string> := [];
    var idx := 0;
    while idx < |blocks|
      invariant 0 <= idx <= |blocks|
      invariant lines == DocLines(blocks[..idx]) + (if 0 < idx < |blocks| then [""] else [])
    {
      var blockLines := BlockToMdLines(blocks[idx], 1);
      assert blocks[..idx + 1][..idx] == blocks[..idx];
      lines := lines + blockLines;
      if idx < |blocks| - 1 {
        lines := lines + [""];
      }
      idx := idx + 1;
    }
    assert blocks[..idx] == blocks;
    assert lines == DocLines(blocks);
    md := JoinLines(lines);
  }
}
