/** Strings as the code handles them: stripping, splitting into lines, joining. */
module Text {

  /** The characters that end a line. */
  predicate IsBreak(c: char) {
    var n := c as int;
    10 <= n <= 13 || 28 <= n <= 30 || n == 0x85 || n == 0x2028 || n == 0x2029
  }

  /** The characters that are stripped; all that end a line are among them. */
  predicate IsSpace(c: char) {
    var n := c as int;
    || IsBreak(c) || n == 9 || n == 31 || n == 32 || n == 0xa0 || n == 0x1680 || 0x2000 <= n <= 0x200a
    || n == 0x202f || n == 0x205f || n == 0x3000
  }

  function StripLeft(s: string): (t: string)
    ensures t == [] || !IsSpace(t[0])
    ensures |t| <= |s| && t == s[|s| - |t|..]
  {
    if s != [] && IsSpace(s[0]) then StripLeft(s[1..]) else s
  }

  function StripRight(s: string): (t: string)
    ensures t == [] || !IsSpace(t[|t| - 1])
    ensures |t| <= |s| && t == s[..|t|]
  {
    if s != [] && IsSpace(s[|s| - 1]) then StripRight(s[..|s| - 1]) else s
  }

  function Strip(s: string): string {
    StripRight(StripLeft(s))
  }

  predicate IsStripped(s: string) {
    s == [] || (!IsSpace(s[0]) && !IsSpace(s[|s| - 1]))
  }

  predicate IsBlank(s: string) {
    forall i :: 0 <= i < |s| ==> IsSpace(s[i])
  }

  lemma StripIsStripped(s: string)
    ensures IsStripped(Strip(s))
  {
    var t := StripLeft(s);
    var u := StripRight(t);
    if u != [] {
      assert u[0] == t[0];
    }
  }

  lemma StripOfStripped(s: string)
    requires IsStripped(s)
    ensures Strip(s) == s
  {
  }

  lemma {:induction false} StripLeftBlank(s: string)
    ensures StripLeft(s) == [] <==> IsBlank(s)
  {
    if s != [] && IsSpace(s[0]) {
      StripLeftBlank(s[1..]);
      assert s == [s[0]] + s[1..];
    }
  }

  lemma {:induction false} StripRightBlank(s: string)
    ensures StripRight(s) == [] <==> IsBlank(s)
  {
    if s != [] && IsSpace(s[|s| - 1]) {
      StripRightBlank(s[..|s| - 1]);
      assert s == s[..|s| - 1] + [s[|s| - 1]];
    }
  }

  /** Only blank strings strip to nothing. */
  lemma StripIsEmpty(s: string)
    ensures Strip(s) == [] <==> IsBlank(s)
  {
    var t := StripLeft(s);
    StripLeftBlank(s);
    StripRightBlank(t);
  }

  lemma {:induction false} StripLeftPadded(pre: string, t: string)
    requires IsBlank(pre) && (t == [] || !IsSpace(t[0]))
    ensures StripLeft(pre + t) == t
  {
    if pre == [] {
      assert pre + t == t;
    } else {
      assert (pre + t)[1..] == pre[1..] + t;
      StripLeftPadded(pre[1..], t);
    }
  }

  lemma {:induction false} StripRightPadded(t: string, post: string)
    requires IsBlank(post) && (t == [] || !IsSpace(t[|t| - 1]))
    ensures StripRight(t + post) == t
  {
    if post == [] {
      assert t + post == t;
    } else {
      assert (t + post)[..|t + post| - 1] == t + post[..|post| - 1];
      StripRightPadded(t, post[..|post| - 1]);
    }
  }

  lemma {:induction false} StripRightTakesBlank(s: string)
    ensures IsBlank(s[|StripRight(s)|..])
  {
    if s != [] && IsSpace(s[|s| - 1]) {
      StripRightTakesBlank(s[..|s| - 1]);
      assert s[|StripRight(s)|..] == s[..|s| - 1][|StripRight(s)|..] + [s[|s| - 1]];
    }
  }

  lemma {:induction false} StripLeftTakesBlank(s: string)
    ensures IsBlank(s[..|s| - |StripLeft(s)|])
  {
    if s != [] && IsSpace(s[0]) {
      StripLeftTakesBlank(s[1..]);
      assert s[..|s| - |StripLeft(s)|] == [s[0]] + s[1..][..|s| - 1 - |StripLeft(s)|];
    }
  }

  /** Stripping takes blanks from both ends and nothing else. */
  lemma StripTakesBlanks(s: string) returns (pre: string, post: string)
    ensures s == pre + Strip(s) + post && IsBlank(pre) && IsBlank(post)
  {
    var t := StripLeft(s);
    StripLeftTakesBlank(s);
    StripRightTakesBlank(t);
    pre, post := s[..|s| - |t|], t[|StripRight(t)|..];
    assert s == pre + t && t == StripRight(t) + post;
    assert pre + (StripRight(t) + post) == (pre + StripRight(t)) + post;
  }

  /** Whatever blanks are put around a text that has none around it, stripping takes them away. */
  lemma StripOfPadded(pre: string, t: string, post: string)
    requires IsBlank(pre) && IsBlank(post) && IsStripped(t)
    ensures Strip(pre + t + post) == t
  {
    assert (pre + t) + post == pre + (t + post);
    if t == [] {
      assert IsBlank(pre + t + post);
      StripIsEmpty(pre + t + post);
    } else {
      StripLeftPadded(pre, t + post);
      StripRightPadded(t, post);
    }
  }

  // ------------------------------------------------------------------- lines

  function FirstBreak(s: string): (n: nat)
    ensures n <= |s|
    ensures n < |s| ==> IsBreak(s[n])
    ensures forall i :: 0 <= i < n ==> !IsBreak(s[i])
  {
    if s == [] || IsBreak(s[0]) then 0 else 1 + FirstBreak(s[1..])
  }

  /** The lines of a text without their ends; a carriage return and a newline are one end. */
  function SplitLines(s: string): seq<string>
    decreases |s|
  {
    if s == [] then [] else
      var n := FirstBreak(s);
      if n == |s| then [s]
      else if s[n] == '\r' && n + 1 < |s| && s[n + 1] == '\n' then [s[..n]] + SplitLines(s[n + 2..])
      else [s[..n]] + SplitLines(s[n + 1..])
  }

  /** A line ends with any of the characters that end one, or with a carriage return and a newline
      together. */
  predicate EndsLine(end: string, rest: string) {
    || end == "\r\n"
    || (|end| == 1 && IsBreak(end[0]) && !(end == "\r" && rest != [] && rest[0] == '\n'))
  }

  /** The first line is what comes before the first end of a line, and the others are the lines of
      what comes after it. */
  lemma SplitAtEnd(line: string, end: string, rest: string)
    requires IsLine(line) && EndsLine(end, rest)
    ensures SplitLines(line + end + rest) == [line] + SplitLines(rest)
  {
    var s, n := line + end + rest, |line|;
    assert forall i :: 0 <= i < n ==> s[i] == line[i];
    assert s[n] == end[0] && s[..n] == line;
    assert FirstBreak(s) == n;
    assert s[n..] == end + rest;
    if end == "\r\n" {
      assert s[n + 1] == '\n' && s[n + 2..] == rest;
    } else {
      assert s[n + 1..] == rest;
      assert rest != [] ==> s[n + 1] == rest[0];
    }
  }

  predicate IsLine(s: string) {
    forall i :: 0 <= i < |s| ==> !IsBreak(s[i])
  }

  lemma {:induction false} LinesAreLines(s: string)
    ensures forall line <- SplitLines(s) :: IsLine(line)
    decreases |s|
  {
    if s != [] {
      var n := FirstBreak(s);
      if n < |s| {
        if s[n] == '\r' && n + 1 < |s| && s[n + 1] == '\n' {
          LinesAreLines(s[n + 2..]);
        } else {
          LinesAreLines(s[n + 1..]);
        }
      }
    }
  }

  function Join(sep: string, parts: seq<string>): string {
    if parts == [] then []
    else if |parts| == 1 then parts[0]
    else Join(sep, parts[..|parts| - 1]) + sep + parts[|parts| - 1]
  }

  lemma {:induction false} JoinAppend(sep: string, a: seq<string>, b: seq<string>)
    requires a != [] && b != []
    ensures Join(sep, a + b) == Join(sep, a) + sep + Join(sep, b)
  {
    assert (a + b)[..|a + b| - 1] == a + b[..|b| - 1];
    if |b| > 1 {
      JoinAppend(sep, a, b[..|b| - 1]);
      assert Join(sep, a + b) == (Join(sep, a) + sep + Join(sep, b[..|b| - 1])) + sep + b[|b| - 1];
    } else {
      assert a + b[..|b| - 1] == a;
    }
  }

  lemma FirstBreakAfter(line: string, rest: string)
    requires IsLine(line)
    ensures FirstBreak(line + "\n" + rest) == |line|
  {
    var s := line + "\n" + rest;
    assert forall i :: 0 <= i < |line| ==> s[i] == line[i];
    assert s[|line|] == '\n';
  }

  lemma SplitFirst(line: string, rest: string)
    requires IsLine(line)
    ensures SplitLines(line + "\n" + rest) == [line] + SplitLines(rest)
  {
    var s := line + "\n" + rest;
    FirstBreakAfter(line, rest);
    assert s[|line|] == '\n';
    assert s[..|line|] == line;
    assert s[|line| + 1..] == rest;
  }

  /** Joining lines and splitting the text gives the lines back, unless the last is empty. */
  lemma {:induction false} SplitOfJoin(lines: seq<string>)
    requires forall line <- lines :: IsLine(line)
    requires lines != [] ==> lines[|lines| - 1] != []
    ensures SplitLines(Join("\n", lines)) == lines
  {
    hide IsLine;
    if |lines| == 1 {
      OneLine(lines[0]);
      assert lines == [lines[0]];
    } else if |lines| > 1 {
      var line, rest := lines[0], lines[1..];
      assert lines == [line] + rest;
      JoinAppend("\n", [line], rest);
      SplitOfJoin(rest);
      SplitFirst(line, Join("\n", rest));
    }
  }

  lemma OneLine(line: string)
    requires IsLine(line) && line != []
    ensures SplitLines(line) == [line]
  {
    assert FirstBreak(line) == |line|;
  }
}
