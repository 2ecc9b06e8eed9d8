/** Finding the last journal line: backward through a doubling window, against the
    forward scan of the whole file. */
module TailReader {
  import opened Evidence

  newtype Byte = x: int | 0 <= x < 256

  const TAB: Byte := 9
  const LF: Byte := 10
  const VT: Byte := 11
  const FF: Byte := 12
  const CR: Byte := 13
  const SPACE: Byte := 32

  /** What `rstrip(b"\r\n")` strips. */
  predicate EndsLine(b: Byte) { b == CR || b == LF }

  /** What JSON allows around a value. */
  predicate JsonSpace(b: Byte) { b == SPACE || b == TAB || b == CR || b == LF }

  /** What `bytes.strip()` strips. */
  predicate Space(b: Byte) { JsonSpace(b) || b == VT || b == FF }

  function DropRight(s: seq<Byte>, dropped: Byte -> bool): (r: seq<Byte>)
    ensures r <= s
    ensures r != [] ==> !dropped(r[|r| - 1])
    ensures forall i :: |r| <= i < |s| ==> dropped(s[i])
  {
    if s == [] || !dropped(s[|s| - 1]) then s else DropRight(s[..|s| - 1], dropped)
  }

  function DropLeft(s: seq<Byte>, dropped: Byte -> bool): (r: seq<Byte>)
    ensures |r| <= |s| && r == s[|s| - |r|..]
    ensures r != [] ==> !dropped(r[0])
    ensures forall i :: 0 <= i < |s| - |r| ==> dropped(s[i])
  {
    if s == [] || !dropped(s[0]) then s else DropLeft(s[1..], dropped)
  }

  function Trim(s: seq<Byte>, dropped: Byte -> bool): seq<Byte> {
    DropLeft(DropRight(s, dropped), dropped)
  }

  function RStrip(s: seq<Byte>): seq<Byte> { DropRight(s, EndsLine) }
  function Strip(s: seq<Byte>): seq<Byte> { Trim(s, Space) }

  /** One past `rfind(b"\n")`; 0 when there is no newline. */
  function AfterLastNewline(s: seq<Byte>): (at: nat)
    ensures at <= |s|
    ensures at > 0 ==> s[at - 1] == LF
    ensures forall i :: at <= i < |s| ==> s[i] != LF
  {
    if s == [] then 0 else if s[|s| - 1] == LF then |s| else AfterLastNewline(s[..|s| - 1])
  }

  // ---- Backward --------------------------------------------------------

  /** The bytes after the last newline, once trailing line ends are gone. */
  function LastLine(content: seq<Byte>): Option<seq<Byte>> {
    var stripped := RStrip(content);
    if stripped == [] then None else Some(stripped[AfterLastNewline(stripped)..])
  }

  /** Trimming and searching a suffix finds the same place as doing so in the whole. */
  lemma SuffixAgrees(content: seq<Byte>, start: nat)
    requires start <= |content| && RStrip(content[start..]) != []
    ensures RStrip(content) == content[..start] + RStrip(content[start..])
    ensures var suffix := RStrip(content[start..]);
      AfterLastNewline(suffix) > 0 || start == 0 ==>
        RStrip(content)[AfterLastNewline(RStrip(content))..] == suffix[AfterLastNewline(suffix)..]
  {
    var suffix := RStrip(content[start..]);
    var whole := content[..start] + suffix;
    assert whole <= content;
    assert whole[|whole| - 1] == suffix[|suffix| - 1];
    assert |RStrip(content)| == |whole|;
    if AfterLastNewline(suffix) > 0 {
      var at := start + AfterLastNewline(suffix);
      assert whole[at - 1] == LF;
      forall i | at <= i < |whole| ensures whole[i] != LF {
        assert whole[i] == suffix[i - start];
      }
      assert AfterLastNewline(whole) == at;
    }
  }

  predicate AllLineEnds(s: seq<Byte>) { forall i :: 0 <= i < |s| ==> s[i] == 10 || s[i] == 13 }

  predicate StartsLine(before: seq<Byte>) { before == [] || before[|before| - 1] == 10 }

  /** The last line: it starts the file or follows a newline, holds none, does not end in a line
      end, and only line ends come after it. */
  predicate LastLineIn(content: seq<Byte>, before: seq<Byte>, line: seq<Byte>, after: seq<Byte>) {
    && content == before + line + after && StartsLine(before)
    && line != [] && 10 !in line && line[|line| - 1] != 13 && AllLineEnds(after)
  }

  ghost predicate IsLastLine(content: seq<Byte>, line: seq<Byte>) {
    exists before, after :: LastLineIn(content, before, line, after)
  }

  lemma LastLineMeans(content: seq<Byte>)
    ensures LastLine(content).None? <==> AllLineEnds(content)
    ensures LastLine(content).Some? ==> IsLastLine(content, LastLine(content).value)
  {
    var stripped := RStrip(content);
    if stripped != [] {
      var at := AfterLastNewline(stripped);
      var before, line, after := stripped[..at], stripped[at..], content[|stripped|..];
      assert line[|line| - 1] == stripped[|stripped| - 1] == content[|stripped| - 1];
      assert StartsLine(before) && 10 !in line && AllLineEnds(after);
      hide AfterLastNewline, StartsLine, AllLineEnds, RStrip;
      assert content == before + line + after;
      assert LastLineIn(content, before, line, after);
    }
  }

  /** Reads backward in a window that doubles until it holds a whole line. */
  method ReadLastLine(content: seq<Byte>, firstWindow: nat) returns (line: Option<seq<Byte>>)
    requires firstWindow > 0
    ensures line == LastLine(content)
    ensures line.None? <==> AllLineEnds(content)
    ensures line.Some? ==> IsLastLine(content, line.value)
  {
    LastLineMeans(content);
    hide IsLastLine, AllLineEnds;
    var size := |content|;
    if size == 0 {
      return None;
    }
    var window := firstWindow;
    while true
      invariant window > 0
      decreases if size > window then size - window else 0, if size > window then 1 else 0
    {
      var start := if size > window then size - window else 0;
      var chunk := content[start..];
      var stripped := RStrip(chunk);
      if stripped == [] {
        if start == 0 {
          assert chunk == content;
          return None;
        }
        window := window * 2;
        continue;
      }
      SuffixAgrees(content, start);
      var newline := AfterLastNewline(stripped);
      if newline > 0 {
        return Some(stripped[newline..]);
      }
      if start == 0 {
        return Some(stripped);
      }
      window := window * 2;
    }
  }

  // ---- Forward ---------------------------------------------------------

  /** The length of the first line, its newline included. */
  function FirstLine(content: seq<Byte>): (n: nat)
    ensures n <= |content| && (content != [] ==> n > 0)
    ensures forall i :: 0 <= i < n - 1 ==> content[i] != LF
    ensures n < |content| ==> content[n - 1] == LF
  {
    if content == [] then 0 else if content[0] == LF then 1 else 1 + FirstLine(content[1..])
  }

  /** The last line that is not blank, stripped. */
  function LastStripped(content: seq<Byte>): Option<seq<Byte>> {
    if content == [] then None
    else
      var n := FirstLine(content);
      var later, here := LastStripped(content[n..]), Strip(content[..n]);
      if later.Some? then later else if here != [] then Some(here) else None
  }

  predicate AllBlank(s: seq<Byte>) { forall i :: 0 <= i < |s| ==> s[i] in {32 as Byte, 9, 10, 11, 12, 13} }

  /** The last line that is not blank, without the white space around it. */
  predicate LastStrippedIn(content: seq<Byte>, before: seq<Byte>, pad: seq<Byte>, line: seq<Byte>, after: seq<Byte>) {
    && content == before + pad + line + after && StartsLine(before)
    && AllBlank(pad) && 10 !in pad && 10 !in line && AllBlank(after)
    && line != [] && !AllBlank([line[0]]) && !AllBlank([line[|line| - 1]])
  }

  ghost predicate IsLastStripped(content: seq<Byte>, line: seq<Byte>) {
    exists before, pad, after :: LastStrippedIn(content, before, pad, line, after)
  }

  lemma {:induction false} LastStrippedMeans(content: seq<Byte>)
    ensures LastStripped(content).None? <==> AllBlank(content)
    ensures LastStripped(content).Some? ==> IsLastStripped(content, LastStripped(content).value)
    decreases |content|
  {
    if content != [] {
      var n := FirstLine(content);
      LastStrippedMeans(content[n..]);
      TrimDropsAll(content[..n], Space);
      BlankInParts(content, n);
      hide IsLastStripped, AllBlank, FirstLine;
      if LastStripped(content[n..]).Some? {
        LaterLine(content, n, LastStripped(content[n..]).value);
      } else if Strip(content[..n]) != [] {
        StrippedStands(content, n);
      }
    }
  }

  lemma BlankInParts(content: seq<Byte>, n: nat)
    requires n <= |content|
    ensures AllBlank(content) <==> AllBlank(content[n..]) && forall i :: 0 <= i < n ==> Space(content[..n][i])
    ensures content == content[..n] + content[n..]
  {
    assert forall i :: n <= i < |content| ==> content[i] == content[n..][i - n];
    assert forall i :: 0 <= i < n ==> content[i] == content[..n][i];
  }

  lemma LaterLine(content: seq<Byte>, n: nat, line: seq<Byte>)
    requires n == FirstLine(content) && IsLastStripped(content[n..], line)
    ensures IsLastStripped(content, line)
  {
    hide AllBlank;
    var rest := content[n..];
    var before, pad, after :| LastStrippedIn(rest, before, pad, line, after);
    assert StartsLine(content[..n] + before);
    hide FirstLine, StartsLine;
    assert content == content[..n] + rest;
    assert content[..n] + (before + pad + line + after) == content[..n] + before + pad + line + after;
    assert LastStrippedIn(content, content[..n] + before, pad, line, after);
  }

  lemma SpacesAreBlank(s: seq<Byte>)
    ensures AllBlank(s) <==> forall i :: 0 <= i < |s| ==> Space(s[i])
  {
  }

  lemma BlankSum(a: seq<Byte>, b: seq<Byte>)
    requires AllBlank(a) && AllBlank(b)
    ensures AllBlank(a + b)
  {
  }

  lemma EdgeIsNotBlank(b: Byte)
    requires !Space(b)
    ensures !AllBlank([b])
  {
    assert [b][0] == b;
  }

  lemma StripSplits(s: seq<Byte>) returns (pad: seq<Byte>, after: seq<Byte>)
    ensures s == pad + Strip(s) + after && AllBlank(pad) && AllBlank(after)
  {
    hide AllBlank, Space, Trim;
    pad, after := TrimSplits(s, Space);
    SpacesAreBlank(pad);
    SpacesAreBlank(after);
  }

  lemma StrippedStands(content: seq<Byte>, n: nat)
    requires content != [] && n == FirstLine(content) && Strip(content[..n]) != [] && AllBlank(content[n..])
    ensures IsLastStripped(content, Strip(content[..n]))
  {
    hide Strip, AllBlank, FirstLine, Space, IsLastStripped;
    var line := Strip(content[..n]);
    var pad, after := StripSplits(content[..n]);
    StripEdges(content[..n]);
    NoNewlineBefore(content, n, pad, line, after);
    EdgeIsNotBlank(line[0]);
    EdgeIsNotBlank(line[|line| - 1]);
    var rest := content[n..];
    BlankSum(after, rest);
    assert content == content[..n] + rest;
    StandsAlone(content, pad, line, after, rest);
  }

  lemma StandsAlone(content: seq<Byte>, pad: seq<Byte>, line: seq<Byte>, after: seq<Byte>, rest: seq<Byte>)
    requires content == pad + line + after + rest && AllBlank(pad) && AllBlank(after + rest) && 10 !in pad && 10 !in line
    requires line != [] && !AllBlank([line[0]]) && !AllBlank([line[|line| - 1]])
    ensures IsLastStripped(content, line)
  {
    hide AllBlank;
    assert content == [] + pad + line + (after + rest);
    assert LastStrippedIn(content, [], pad, line, after + rest);
  }

  lemma NoNewlineBefore(content: seq<Byte>, n: nat, pad: seq<Byte>, line: seq<Byte>, after: seq<Byte>)
    requires content != [] && n == FirstLine(content) && content[..n] == pad + line + after && line != []
    requires !Space(line[|line| - 1])
    ensures 10 !in pad && 10 !in line
  {
    var m := |pad + line|;
    assert forall i :: 0 <= i < |pad| ==> pad[i] == content[i];
    assert forall i :: 0 <= i < |line| ==> line[i] == content[|pad| + i];
  }

  /** The forward scan, line by line. */
  method ReadLastLineScan(content: seq<Byte>) returns (line: Option<seq<Byte>>)
    ensures line == LastStripped(content)
    ensures line.None? <==> AllBlank(content)
    ensures line.Some? ==> IsLastStripped(content, line.value)
  {
    LastStrippedMeans(content);
    hide IsLastStripped, AllBlank;
    line := None;
    var rest := content;
    while rest != []
      invariant LastStripped(content) == (var later := LastStripped(rest); if later.Some? then later else line)
      decreases |rest|
    {
      var n := FirstLine(rest);
      var stripped := Strip(rest[..n]);
      if stripped != [] {
        line := Some(stripped);
      }
      rest := rest[n..];
    }
  }

  predicate Blank(s: seq<Byte>) { forall i :: 0 <= i < |s| ==> Space(s[i]) }

  lemma TrimDropsAll(s: seq<Byte>, dropped: Byte -> bool)
    ensures Trim(s, dropped) == [] <==> forall i :: 0 <= i < |s| ==> dropped(s[i])
  {
    var right := DropRight(s, dropped);
    var r := DropLeft(right, dropped);
    if r != [] {
      assert !dropped(r[0]) && r[0] == right[|right| - |r|] && right[|right| - |r|] == s[|right| - |r|];
    }
  }

  /** Trimming ignores what it drops after the text. */
  lemma DropRightIgnores(s: seq<Byte>, tail: seq<Byte>, dropped: Byte -> bool)
    requires forall i :: 0 <= i < |tail| ==> dropped(tail[i])
    ensures DropRight(s + tail, dropped) == DropRight(s, dropped)
  {
    if tail == [] {
      assert s + tail == s;
    } else {
      assert (s + tail)[..|s + tail| - 1] == s + tail[..|tail| - 1];
      DropRightIgnores(s, tail[..|tail| - 1], dropped);
    }
  }

  /** Only line ends: nothing for the forward scan. */
  lemma {:induction false} OnlyLineEnds(content: seq<Byte>)
    requires forall i :: 0 <= i < |content| ==> EndsLine(content[i])
    ensures LastStripped(content) == None
    decreases |content|
  {
    if content != [] {
      var n := FirstLine(content);
      TrimDropsAll(content[..n], Space);
      OnlyLineEnds(content[n..]);
    }
  }

  /** Whole lines before a text only matter if the text is blank. */
  lemma {:induction false} ScanJoins(before: seq<Byte>, content: seq<Byte>)
    requires before == [] || before[|before| - 1] == LF
    ensures LastStripped(before + content) ==
            if LastStripped(content).Some? then LastStripped(content) else LastStripped(before)
    decreases |before|
  {
    hide Strip, FirstLine;
    if before == [] {
      assert before + content == content;
    } else {
      var n := FirstLine(before);
      FirstLineJoins(before, content);
      ScanJoins(before[n..], content);
      assert (before + content)[n..] == before[n..] + content;
      assert (before + content)[..n] == before[..n];
    }
  }

  lemma {:induction false} FirstLineJoins(before: seq<Byte>, content: seq<Byte>)
    requires before != [] && before[|before| - 1] == LF
    ensures FirstLine(before + content) == FirstLine(before)
  {
    if before[0] != LF {
      assert (before + content)[1..] == before[1..] + content;
      FirstLineJoins(before[1..], content);
    }
  }

  /** A line followed by line ends only. */
  lemma LoneLine(line: seq<Byte>, tail: seq<Byte>)
    requires line != [] && LF !in line && forall i :: 0 <= i < |tail| ==> EndsLine(tail[i])
    ensures LastStripped(line + tail) == if Strip(line) != [] then Some(Strip(line)) else None
  {
    var content := line + tail;
    var n := FirstLine(content);
    assert n >= |line|;
    assert content[..n] == line + tail[..n - |line|];
    assert content[n..] == tail[n - |line|..];
    OnlyLineEnds(content[n..]);
    DropRightIgnores(line, tail[..n - |line|], Space);
  }

  // ---- The two agree ---------------------------------------------------

  /** Both find no line, or the same line up to the white space JSON ignores. */
  predicate SameLine(backward: Option<seq<Byte>>, forward: Option<seq<Byte>>) {
    match (backward, forward)
    case (None, None) => true
    case (Some(b), Some(f)) => Trim(b, JsonSpace) == f
    case _ => false
  }

  /** The last line is more than white space, with no VT or FF at either end. */
  predicate CleanLastLine(content: seq<Byte>) {
    LastLine(content).Some? ==>
      var line := Trim(LastLine(content).value, JsonSpace);
      line != [] && !Space(line[0]) && !Space(line[|line| - 1])
  }

  lemma StrippedFacts(content: seq<Byte>, before: seq<Byte>, line: seq<Byte>, tail: seq<Byte>)
    requires LastLine(content) == Some(line)
    requires before == RStrip(content)[..AfterLastNewline(RStrip(content))] && tail == content[|RStrip(content)|..]
    ensures content == before + (line + tail)
    ensures before == [] || before[|before| - 1] == LF
    ensures line != [] && LF !in line && forall i :: 0 <= i < |tail| ==> EndsLine(tail[i])
  {
    hide AfterLastNewline;
    var stripped := RStrip(content);
    assert stripped == before + line;
    JoinsBack(content, stripped, before, line, tail);
  }

  lemma JoinsBack(content: seq<Byte>, stripped: seq<Byte>, before: seq<Byte>, line: seq<Byte>, tail: seq<Byte>)
    requires stripped == before + line && stripped <= content && tail == content[|stripped|..]
    ensures content == before + (line + tail)
  {
    assert content == stripped + tail;
  }

  /** What the forward scan makes of the line that the backward reader found. */
  lemma ForwardFinds(content: seq<Byte>, line: seq<Byte>)
    requires LastLine(content) == Some(line)
    ensures Strip(line) != [] ==> LastStripped(content) == Some(Strip(line))
    ensures Strip(line) == [] && LastStripped(content).Some? ==> !Blank(LastStripped(content).value)
  {
    var stripped := RStrip(content);
    var before, tail := stripped[..AfterLastNewline(stripped)], content[|stripped|..];
    StrippedFacts(content, before, line, tail);
    ScanJoins(before, line + tail);
    LoneLine(line, tail);
    FoundIsNotBlank(content);
  }

  lemma {:induction false} FoundIsNotBlank(content: seq<Byte>)
    ensures LastStripped(content).Some? ==> !Blank(LastStripped(content).value)
    decreases |content|
  {
    if content != [] {
      var n := FirstLine(content);
      FoundIsNotBlank(content[n..]);
      var here := Strip(content[..n]);
      if here != [] {
        assert !Space(here[0]);
      }
    }
  }

  /** What trimming leaves, and what it took. */
  lemma TrimSplits(s: seq<Byte>, dropped: Byte -> bool) returns (a: seq<Byte>, b: seq<Byte>)
    ensures s == a + Trim(s, dropped) + b
    ensures forall i :: 0 <= i < |a| ==> dropped(a[i])
    ensures forall i :: 0 <= i < |b| ==> dropped(b[i])
  {
    hide DropRight, DropLeft;
    var right := DropRight(s, dropped);
    var r := DropLeft(right, dropped);
    a, b := right[..|right| - |r|], s[|right|..];
    LeftSplits(right, r);
    RightSplits(s, right);
  }

  lemma LeftSplits(s: seq<Byte>, r: seq<Byte>)
    requires |r| <= |s| && r == s[|s| - |r|..]
    ensures s == s[..|s| - |r|] + r
  {
  }

  lemma RightSplits(s: seq<Byte>, right: seq<Byte>)
    requires right <= s
    ensures s == right + s[|right|..]
  {
  }

  lemma DropLeftIgnores(a: seq<Byte>, s: seq<Byte>, dropped: Byte -> bool)
    requires (forall i :: 0 <= i < |a| ==> dropped(a[i])) && s != [] && !dropped(s[0])
    ensures DropLeft(a + s, dropped) == s
  {
    if a == [] {
      assert a + s == s;
    } else {
      assert (a + s)[1..] == a[1..] + s;
      DropLeftIgnores(a[1..], s, dropped);
    }
  }

  /** With a text free of VT and FF at both ends, both strippings agree. */
  lemma StripsAgree(line: seq<Byte>)
    requires var t := Trim(line, JsonSpace); t != [] && !Space(t[0]) && !Space(t[|t| - 1])
    ensures Strip(line) == Trim(line, JsonSpace)
  {
    var t := Trim(line, JsonSpace);
    var a, b := TrimSplits(line, JsonSpace);
    hide Trim, DropLeft;
    DropRightIgnores(a + t, b, Space);
    assert DropRight(a + t, Space) == a + t;
    DropLeftIgnores(a, t, Space);
    assert Strip(line) == DropLeft(DropRight(line, Space), Space) by { StripIs(line); }
  }

  lemma StripIs(line: seq<Byte>)
    ensures Strip(line) == DropLeft(DropRight(line, Space), Space)
  {
  }

  lemma StripEdges(line: seq<Byte>)
    requires Strip(line) != []
    ensures var s := Strip(line); !Space(s[0]) && !Space(s[|s| - 1])
  {
  }

  lemma TrimStaysBlank(line: seq<Byte>)
    requires Strip(line) == []
    ensures Blank(Trim(line, JsonSpace))
  {
    TrimDropsAll(line, Space);
  }

  /** For every content and every starting window: the backward reader finds the line the
      forward scan finds exactly when the last line is clean. */
  lemma BackwardEqualsForward(content: seq<Byte>)
    ensures SameLine(LastLine(content), LastStripped(content)) <==> CleanLastLine(content)
  {
    hide Trim, Strip, LastStripped, Blank;
    var found := LastLine(content);
    if found == None {
      OnlyLineEnds(content);
    } else {
      var line := found.value;
      ForwardFinds(content, line);
      if CleanLastLine(content) {
        StripsAgree(line);
      } else if Strip(line) != [] {
        StripEdges(line);
      } else {
        TrimStaysBlank(line);
      }
    }
  }

  /** Without VT or FF, a last line that is not blank is always found. */
  lemma PlainContentAgrees(content: seq<Byte>)
    requires VT !in content && FF !in content
    requires LastLine(content).Some? ==> !Blank(LastLine(content).value)
    ensures SameLine(LastLine(content), LastStripped(content))
  {
    hide LastLine, LastStripped, Trim, Strip;
    BackwardEqualsForward(content);
    if LastLine(content).Some? {
      LineIsContent(content, LastLine(content).value);
      PlainLineIsClean(LastLine(content).value);
    }
  }

  lemma PlainLineIsClean(line: seq<Byte>)
    requires VT !in line && FF !in line && !Blank(line)
    ensures var t := Trim(line, JsonSpace);
      t != [] && !Space(t[0]) && !Space(t[|t| - 1])
  {
    TrimDropsAll(line, JsonSpace);
    var t := Trim(line, JsonSpace);
    TrimEdges(line, JsonSpace);
    var a, b := TrimSplits(line, JsonSpace);
    hide Trim;
    assert t[0] in line && t[|t| - 1] in line;
  }

  lemma TrimEdges(s: seq<Byte>, dropped: Byte -> bool)
    requires Trim(s, dropped) != []
    ensures !dropped(Trim(s, dropped)[0]) && !dropped(Trim(s, dropped)[|Trim(s, dropped)| - 1])
  {
  }

  lemma LineIsContent(content: seq<Byte>, line: seq<Byte>)
    requires LastLine(content) == Some(line)
    ensures forall b :: b in line ==> b in content
  {
  }

  /** A reader that ignores JSON white space gets the same answer from both. */
  lemma SameParse<T>(content: seq<Byte>, parse: seq<Byte> -> T)
    requires CleanLastLine(content) && forall s :: parse(Trim(s, JsonSpace)) == parse(s)
    ensures LastLine(content).Some? <==> LastStripped(content).Some?
    ensures LastLine(content).Some? ==> parse(LastLine(content).value) == parse(LastStripped(content).value)
  {
    BackwardEqualsForward(content);
  }

  /** A last line of spaces is an unreadable line backward and no line forward. */
  lemma BlankLastLineDiffers()
    ensures LastLine([SPACE, LF]) == Some([SPACE]) && LastStripped([SPACE, LF]) == None
  {
    BlankLineBackward();
    hide LastLine, LastStripped, Trim, FirstLine, DropRight, AfterLastNewline;
    ForwardFinds([SPACE, LF], [SPACE]);
    LoneLine([SPACE], [LF]);
    assert [SPACE] + [LF] == [SPACE, LF];
    TrimDropsAll([SPACE], Space);
  }

  lemma BlankLineBackward()
    ensures LastLine([SPACE, LF]) == Some([SPACE])
  {
    assert [SPACE, LF][..1] == [SPACE];
    assert EndsLine(LF) && !EndsLine(SPACE);
    assert DropRight([SPACE], EndsLine) == [SPACE];
    assert RStrip([SPACE, LF]) == DropRight([SPACE, LF][..1], EndsLine);
    assert AfterLastNewline([SPACE]) == 0;
  }
}
