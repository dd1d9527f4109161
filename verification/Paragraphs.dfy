/** Cutting a text document into paragraphs (voteit/proposal/models.py) and looking for bullets in
    one of them (voteit/proposal/diff.py). */
module Paragraphs {
  import opened Collections
  import opened Text

  // ------------------------------------------------------ the paragraphs, stated

  /** The paragraphs so far, line by line, and whether the next line begins a new one. */
  datatype Progress = Progress(blocks: seq<seq<string>>, newPara: bool)

  function Begun(lines: seq<string>): (p: Progress)
    ensures Sound(p)
  {
    if lines == [] then Progress([], true)
    else Extended(Begun(lines[..|lines| - 1]), Strip(lines[|lines| - 1]))
  }

  predicate Sound(p: Progress) {
    && (!p.newPara ==> p.blocks != [])
    && forall k :: 0 <= k < |p.blocks| ==> p.blocks[k] != []
  }

  /** One more line, stripped. */
  function Extended(p: Progress, row: string): (q: Progress)
    requires Sound(p)
    ensures Sound(q)
  {
    if row == "" then p.(newPara := true)
    else if p.newPara then Progress(p.blocks + [[row]], false)
    else
      var last := |p.blocks| - 1;
      Progress(p.blocks[last := p.blocks[last] + [row]], false)
  }

  function Blocks(text: string): seq<seq<string>> {
    Begun(SplitLines(text)).blocks
  }

  function Joined(blocks: seq<seq<string>>): seq<string> {
    seq(|blocks|, i requires 0 <= i < |blocks| => Join("\n", blocks[i]))
  }

  function Paragraphs(text: string): seq<string> {
    Joined(Blocks(text))
  }

  lemma BegunNext(rows: seq<string>, i: nat)
    requires i < |rows|
    ensures Begun(rows[..i + 1]) == Extended(Begun(rows[..i]), Strip(rows[i]))
  {
    assert rows[..i + 1][..i] == rows[..i];
  }

  /** What one more line does to the paragraphs as text. */
  lemma JoinedNext(p: Progress, row: string)
    requires Sound(p)
    ensures |Joined(p.blocks)| == |p.blocks|
    ensures Joined(Extended(p, row).blocks) ==
            if row == "" then Joined(p.blocks)
            else if p.newPara then Joined(p.blocks) + [row]
            else
              var last := |p.blocks| - 1;
              Joined(p.blocks)[last := Joined(p.blocks)[last] + "\n" + row]
  {
    if row != "" && !p.newPara {
      JoinAppend("\n", p.blocks[|p.blocks| - 1], [row]);
    }
  }

  lemma NothingJoined()
    ensures Begun([]) == Progress([], true) && Joined([]) == []
  {
  }

  // ------------------------------------------------------------- the algorithm

  /** Split text into paragraphs: an empty line begins a new one. */
  method GetParagraphs(text: string) returns (output: seq<string>)
    ensures output == Paragraphs(text)
  {
    hide Begun, Joined, Strip, Join, SplitLines;
    output := [];
    var newPara := true;
    var rows := SplitLines(text);
    NothingJoined();
    assert rows[..0] == [];
    for i := 0 to |rows|
      invariant newPara == Begun(rows[..i]).newPara
      invariant output == Joined(Begun(rows[..i]).blocks)
    {
      var row := Strip(rows[i]);
      BegunNext(rows, i);
      JoinedNext(Begun(rows[..i]), row);
      if row != "" {
        if newPara {
          output := output + [row];
        } else {
          var last := |output| - 1;
          output := output[last := output[last] + "\n"];
          output := output[last := output[last] + row];
        }
        newPara := false;
      } else {
        newPara := true;
      }
    }
    assert rows[..|rows|] == rows;
  }

  // ------------------------------------------------------- where paragraphs are cut

  lemma BegunSnoc(lines: seq<string>, line: string)
    ensures Begun(lines + [line]) == Extended(Begun(lines), Strip(line))
  {
    assert (lines + [line])[..|lines|] == lines;
  }

  /** A blank line cuts: the paragraphs before it and those after it are the paragraphs. */
  lemma {:induction false} BlankLineCuts(before: seq<string>, blank: string, after: seq<string>)
    requires IsBlank(blank)
    ensures Begun(before + [blank] + after).blocks == Begun(before).blocks + Begun(after).blocks
    ensures Begun(before + [blank] + after).newPara == Begun(after).newPara
  {
    hide Begun, Strip;
    if after == [] {
      NothingJoined();
      BegunSnoc(before, blank);
      StripIsEmpty(blank);
      assert before + [blank] + after == before + [blank];
      assert Begun(before).blocks + [] == Begun(before).blocks;
    } else {
      var init, line := after[..|after| - 1], after[|after| - 1];
      assert after == init + [line] && before + [blank] + after == (before + [blank] + init) + [line];
      BlankLineCuts(before, blank, init);
      BegunSnoc(init, line);
      BegunSnoc(before + [blank] + init, line);
    }
  }

  /** Nothing else does: lines none of which is blank are one paragraph, of all of them stripped. */
  lemma {:induction false} RunIsOneParagraph(lines: seq<string>)
    requires lines != [] && forall line <- lines :: !IsBlank(line)
    ensures Begun(lines).newPara == false && |Begun(lines).blocks| == 1
    ensures |Begun(lines).blocks[0]| == |lines|
    ensures forall k :: 0 <= k < |lines| ==> Begun(lines).blocks[0][k] == Strip(lines[k])
  {
    hide Begun, Strip, IsBlank;
    var init, line := lines[..|lines| - 1], lines[|lines| - 1];
    assert lines == init + [line] && line in lines && forall l <- init :: l in lines;
    BegunSnoc(init, line);
    StripIsEmpty(line);
    if init == [] {
      NothingJoined();
    } else {
      RunIsOneParagraph(init);
    }
  }

  // ------------------------------------------------------------- the normal form

  /** A line of a paragraph: something in it, nothing around it. */
  predicate Clean(line: string) {
    line != "" && IsStripped(line) && IsLine(line)
  }

  predicate AllClean(blocks: seq<seq<string>>) {
    forall i, k :: 0 <= i < |blocks| && 0 <= k < |blocks[i]| ==> Clean(blocks[i][k])
  }

  lemma StripOfLine(s: string)
    requires IsLine(s)
    ensures IsLine(Strip(s))
  {
    hide Strip;
    var pre, post := StripTakesBlanks(s);
    assert forall i :: 0 <= i < |Strip(s)| ==> Strip(s)[i] == s[|pre| + i];
  }

  lemma {:induction false} BegunIsClean(lines: seq<string>)
    requires forall line <- lines :: IsLine(line)
    ensures AllClean(Begun(lines).blocks)
  {
    hide Clean, Strip;
    if lines != [] {
      BegunIsClean(lines[..|lines| - 1]);
      assert lines[|lines| - 1] in lines;
      StripIsClean(lines[|lines| - 1]);
    }
  }

  lemma StripIsClean(line: string)
    requires IsLine(line)
    ensures Strip(line) != "" ==> Clean(Strip(line))
  {
    StripIsStripped(line);
    StripOfLine(line);
  }

  /** Every line of every paragraph has something in it and nothing around it, and the lines of a
      stored paragraph are those it was made of. */
  lemma ParagraphsAreClean(text: string, i: nat)
    requires i < |Paragraphs(text)|
    ensures SplitLines(Paragraphs(text)[i]) == Blocks(text)[i] != []
    ensures forall line <- SplitLines(Paragraphs(text)[i]) :: Clean(line)
  {
    hide Clean, Begun;
    LinesAreLines(text);
    BegunIsClean(SplitLines(text));
    var block := Blocks(text)[i];
    forall line <- block ensures IsLine(line) && line != "" && Clean(line) {
      CleanIsLine(line);
    }
    SplitOfJoin(block);
  }

  lemma CleanIsLine(line: string)
    requires Clean(line)
    ensures IsLine(line) && line != "" && Strip(line) == line
  {
    StripOfStripped(line);
  }

  /** Blocks of lines with an empty line between any two. */
  function Spaced(blocks: seq<seq<string>>): seq<string> {
    if blocks == [] then []
    else if |blocks| == 1 then blocks[0]
    else Spaced(blocks[..|blocks| - 1]) + [""] + blocks[|blocks| - 1]
  }

  lemma {:induction false} BegunOfBlock(lines: seq<string>, block: seq<string>)
    requires Begun(lines).newPara && block != []
    requires forall k :: 0 <= k < |block| ==> Clean(block[k])
    ensures Begun(lines + block) == Progress(Begun(lines).blocks + [block], false)
  {
    hide Clean, Strip;
    var n := |block| - 1;
    CleanIsLine(block[n]);
    assert (lines + block)[..|lines + block| - 1] == lines + block[..n];
    if n == 0 {
      assert lines + block[..n] == lines;
      assert block == [block[0]];
    } else {
      BegunOfBlock(lines, block[..n]);
      assert block == block[..n] + [block[n]];
    }
  }

  lemma BegunOfSpace(lines: seq<string>)
    ensures Begun(lines + [""]) == Begun(lines).(newPara := true)
  {
    assert (lines + [""])[..|lines|] == lines;
    assert Strip("") == "";
  }

  lemma {:induction false} BegunOfSpaced(blocks: seq<seq<string>>)
    requires AllClean(blocks) && forall i :: 0 <= i < |blocks| ==> blocks[i] != []
    ensures Begun(Spaced(blocks)) == Progress(blocks, blocks == [])
  {
    hide Clean, Begun;
    if blocks == [] {
      BegunOfNothing();
    } else {
      var init, last := blocks[..|blocks| - 1], blocks[|blocks| - 1];
      assert blocks == init + [last];
      if init == [] {
        BegunOfNothing();
        BegunOfBlock([], last);
        assert [] + last == last;
      } else {
        BegunOfSpaced(init);
        BegunOfSpace(Spaced(init));
        BegunOfBlock(Spaced(init) + [""], last);
      }
    }
  }

  lemma BegunOfNothing()
    ensures Begun([]) == Progress([], true)
  {
  }

  lemma {:induction false} SpacedIsText(blocks: seq<seq<string>>)
    requires AllClean(blocks) && forall i :: 0 <= i < |blocks| ==> blocks[i] != []
    ensures Join("\n\n", Joined(blocks)) == Join("\n", Spaced(blocks))
    ensures blocks != [] ==> Spaced(blocks) != []
  {
    hide Clean;
    if |blocks| == 1 {
      assert Joined(blocks) == [Join("\n", blocks[0])];
    } else if |blocks| > 1 {
      var init, last := blocks[..|blocks| - 1], blocks[|blocks| - 1];
      SpacedIsText(init);
      assert Joined(blocks) == Joined(init) + [Join("\n", last)];
      JoinAppend("\n\n", Joined(init), [Join("\n", last)]);
      JoinSpaced(Spaced(init), last);
    }
  }

  lemma JoinSpaced(lines: seq<string>, block: seq<string>)
    requires lines != [] && block != []
    ensures Join("\n", lines + [""] + block) == Join("\n", lines) + "\n\n" + Join("\n", block)
  {
    JoinAppend("\n", lines + [""], block);
    JoinAppend("\n", lines, [""]);
    var a, b := Join("\n", lines), Join("\n", block);
    assert (a + "\n" + "") + "\n" + b == a + "\n\n" + b;
  }

  lemma {:induction false} SpacedLines(blocks: seq<seq<string>>)
    requires AllClean(blocks) && forall i :: 0 <= i < |blocks| ==> blocks[i] != []
    ensures forall line <- Spaced(blocks) :: IsLine(line)
    ensures blocks != [] ==> Spaced(blocks) != [] && Spaced(blocks)[|Spaced(blocks)| - 1] != []
  {
    hide Clean;
    if blocks != [] {
      var init, last := blocks[..|blocks| - 1], blocks[|blocks| - 1];
      forall line <- last ensures IsLine(line) && line != "" {
        CleanIsLine(line);
      }
      assert last[|last| - 1] in last;
      SpacedLines(init);
      if init != [] {
        assert Spaced(blocks) == Spaced(init) + [""] + last;
        assert IsLine("");
      } else {
        assert Spaced(blocks) == last;
      }
    }
  }

  /** Paragraphs put together with empty lines between them are cut into the same paragraphs. */
  lemma ParagraphsAreStable(text: string)
    ensures Paragraphs(Join("\n\n", Paragraphs(text))) == Paragraphs(text)
  {
    hide Begun, Spaced, Clean;
    var blocks := Blocks(text);
    LinesAreLines(text);
    BegunIsClean(SplitLines(text));
    SpacedIsText(blocks);
    SpacedLines(blocks);
    BegunOfSpaced(blocks);
    SplitSpaced(blocks);
  }

  lemma SplitSpaced(blocks: seq<seq<string>>)
    requires forall line <- Spaced(blocks) :: IsLine(line)
    requires blocks != [] ==> Spaced(blocks) != [] && Spaced(blocks)[|Spaced(blocks)| - 1] != []
    ensures SplitLines(Join("\n", Spaced(blocks))) == Spaced(blocks)
  {
    SplitOfJoin(Spaced(blocks));
  }

  // ------------------------------------------------------------------- bullets

  const BULLETS: string := "•*→-‐‑‒–—―‣"

  /** Whether a line begins with a bullet; a line without anything in it has no first character. */
  predicate Bulleted(line: string) {
    Strip(line) != "" && Strip(line)[0] in BULLETS
  }

  /** The first line that is either bulleted or blank is blank. */
  predicate StopsAt(lines: seq<string>, i: nat) {
    i < |lines| && IsBlank(lines[i]) && forall j :: 0 <= j < i ==> !Bulleted(lines[j])
  }

  /** Whether any of several lines begins with a bullet. Indexing an empty line fails. */
  method CheckBulletList(text: string) returns (r: Option<bool>)
    ensures r.None? <==> |SplitLines(text)| > 1 && exists i :: StopsAt(SplitLines(text), i)
    ensures r.Some? ==>
              (r.value <==> |SplitLines(text)| > 1 && exists line <- SplitLines(text) :: Bulleted(line))
  {
    hide SplitLines, IsBlank, Strip;
    var lines := SplitLines(text);
    if |lines| <= 1 {
      return Some(false);
    }
    for i := 0 to |lines|
      invariant forall j :: 0 <= j < i ==> !Bulleted(lines[j]) && !IsBlank(lines[j])
    {
      var line := Strip(lines[i]);
      StripIsEmpty(lines[i]);
      if line == "" {
        assert StopsAt(lines, i);
        return None;
      }
      if line[0] in BULLETS {
        assert Bulleted(lines[i]);
        return Some(true);
      }
    }
    return Some(false);
  }

  /** So looking for bullets in a stored paragraph never fails. */
  lemma NoBlankLineInParagraph(text: string, i: nat, k: nat)
    requires i < |Paragraphs(text)| && k < |SplitLines(Paragraphs(text)[i])|
    ensures !IsBlank(SplitLines(Paragraphs(text)[i])[k])
  {
    ParagraphsAreClean(text, i);
    var line := SplitLines(Paragraphs(text)[i])[k];
    assert Clean(line);
    CleanIsLine(line);
    StripIsEmpty(line);
  }
}
