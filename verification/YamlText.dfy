// YAML text: tokens and comments, physical lines, and the scanner that turns chunked input into lines.
module YamlText {
  import opened Bytes
  import opened Schema

  const SPACE: byte := ' ' as int
  const TAB: byte := 0x09
  const LF: byte := 0x0a
  const CR: byte := 0x0d
  const DOUBLE_QUOTE: byte := 0x22
  const SINGLE_QUOTE: byte := 0x27
  const HASH: byte := '#' as int

  // ---- Tokens --------------------------------------------------------------------------------------

  predicate IsSpace(c: byte) { c == SPACE || c == TAB }

  function TrimLeft(s: Text): Text { if s != [] && IsSpace(s[0]) then TrimLeft(s[1..]) else s }

  function TrimRight(s: Text): (r: Text)
    ensures |r| <= |s| && r == s[..|r|]
  {
    if s != [] && IsSpace(s[|s| - 1]) then TrimRight(s[..|s| - 1]) else s
  }

  function Trim(s: Text): Text { TrimRight(TrimLeft(s)) }

  /** Where the first comment starts at or after `i`, given which quotes are open there. */
  function CommentStart(s: Text, i: nat, inSingle: bool, inDouble: bool): (k: nat)
    requires i <= |s|
    ensures i <= k <= |s|
    ensures k < |s| ==> s[k] == HASH
    decreases |s| - i
  {
    if i == |s| then i
    else if s[i] == SINGLE_QUOTE && !inDouble then CommentStart(s, i + 1, !inSingle, inDouble)
    else if s[i] == DOUBLE_QUOTE && !inSingle then CommentStart(s, i + 1, inSingle, !inDouble)
    else if s[i] == HASH && !inSingle && !inDouble && (i == 0 || IsSpace(s[i - 1])) then i
    else CommentStart(s, i + 1, inSingle, inDouble)
  }

  /** `strip_trailing_comment` */
  function StripComment(s: Text): Text {
    var k := CommentStart(s, 0, false, false);
    if k == |s| then s else TrimRight(s[..k])
  }

  function Normalize(s: Text): Text { Trim(StripComment(s)) }

  // ---- Physical lines ------------------------------------------------------------------------------

  predicate IsBreak(c: byte) { c == LF || c == CR }

  function BreakAt(s: Text): (k: nat)
    ensures k <= |s|
    ensures k < |s| ==> IsBreak(s[k])
    ensures forall i :: 0 <= i < k ==> !IsBreak(s[i])
  {
    if s == [] || IsBreak(s[0]) then 0 else 1 + BreakAt(s[1..])
  }

  function FirstLine(s: Text): Text { s[..BreakAt(s)] }

  /** What follows the first line and its CRLF, LF or CR. */
  function AfterLine(s: Text): (r: Text)
    ensures s != [] ==> |r| < |s|
  {
    var k := BreakAt(s);
    if k == |s| then []
    else if s[k] == CR && k + 1 < |s| && s[k + 1] == LF then s[k + 2..]
    else s[k + 1..]
  }

  /** The whole text split into lines; no empty line after a final break. */
  function Lines(s: Text): seq<Text>
    decreases |s|
  {
    if s == [] then [] else [FirstLine(s)] + Lines(AfterLine(s))
  }

  lemma {:induction false} BreakFirst(a: Text, b: Text)
    requires (forall i :: 0 <= i < |a| ==> !IsBreak(a[i])) && b != [] && IsBreak(b[0])
    ensures BreakAt(a + b) == |a|
  {
    if a == [] {
      assert a + b == b;
    } else {
      assert (a + b)[1..] == a[1..] + b;
      BreakFirst(a[1..], b);
    }
  }

  /** Each of the three breaks ends a line and belongs to neither side. */
  lemma LineBreaks(a: Text, b: Text)
    requires forall i :: 0 <= i < |a| ==> !IsBreak(a[i])
    ensures Lines(a + [LF] + b) == [a] + Lines(b)
    ensures Lines(a + [CR, LF] + b) == [a] + Lines(b)
    ensures b == [] || b[0] != LF ==> Lines(a + [CR] + b) == [a] + Lines(b)
  {
    OneBreak(a, [LF], b);
    OneBreak(a, [CR, LF], b);
    if b == [] || b[0] != LF { OneBreak(a, [CR], b); }
  }

  lemma OneBreak(a: Text, nl: Text, b: Text)
    requires forall i :: 0 <= i < |a| ==> !IsBreak(a[i])
    requires nl == [LF] || nl == [CR, LF] || (nl == [CR] && (b == [] || b[0] != LF))
    ensures FirstLine(a + nl + b) == a && AfterLine(a + nl + b) == b
    ensures Lines(a + nl + b) == [a] + Lines(b)
  {
    var s := a + nl + b;
    assert s == a + (nl + b);
    BreakFirst(a, nl + b);
    assert s[..|a|] == a && s[|a| + |nl|..] == b;
  }

  // ---- Content lines -------------------------------------------------------------------------------

  datatype Line = Line(no: nat, indent: nat, text: Text)

  function Indent(s: Text): (k: nat)
    ensures k <= |s|
    ensures forall i :: 0 <= i < k ==> s[i] == SPACE
    ensures k < |s| ==> s[k] != SPACE
  {
    if s != [] && s[0] == SPACE then 1 + Indent(s[1..]) else 0
  }

  /** A tab right after the leading spaces. */
  predicate Tabbed(s: Text) { Indent(s) < |s| && s[Indent(s)] == TAB }

  function Content(s: Text): Text { Normalize(s[Indent(s)..]) }

  /** The lines a parser sees: all content lines, or those before the first indented by a tab. */
  datatype Document = Document(lines: seq<Line>, tab: bool)

  function Scan(s: Text, no: nat): Document
    decreases |s|
  {
    if s == [] then Document([], false)
    else
      var line := FirstLine(s);
      if Tabbed(line) then Document([], true)
      else if Content(line) == [] then Scan(AfterLine(s), no + 1)
      else
        var rest := Scan(AfterLine(s), no + 1);
        Document([Line(no, Indent(line), Content(line))] + rest.lines, rest.tab)
  }

  /** What a line just read and the rest of the text scan to. */
  function ScanLine(line: Text, no: nat, rest: Text, next: nat): Document {
    if Tabbed(line) then Document([], true)
    else if Content(line) == [] then Scan(rest, next)
    else Document([Line(no, Indent(line), Content(line))] + Scan(rest, next).lines, Scan(rest, next).tab)
  }

  /** The same from lines already split: tabs, blanks and comments aside, every line under its number. */
  function OfLines(ls: seq<Text>, no: nat): Document {
    if ls == [] then Document([], false)
    else if Tabbed(ls[0]) then Document([], true)
    else
      var rest := OfLines(ls[1..], no + 1);
      if Content(ls[0]) == [] then rest
      else Document([Line(no, Indent(ls[0]), Content(ls[0]))] + rest.lines, rest.tab)
  }

  /** Scanning is splitting the whole text into lines, numbering them, and keeping those with content. */
  lemma {:induction false} ScanSplits(s: Text, no: nat)
    ensures Scan(s, no) == OfLines(Lines(s), no)
    decreases |s|
  {
    hide Indent, Content, Tabbed, FirstLine, AfterLine;
    if s != [] {
      AfterShorter(s);
      ScanSplits(AfterLine(s), no + 1);
      assert Lines(s)[0] == FirstLine(s) && Lines(s)[1..] == Lines(AfterLine(s));
    }
  }

  lemma AfterShorter(s: Text)
    ensures s != [] ==> |AfterLine(s)| < |s|
  {}

  // ---- Chunked input -------------------------------------------------------------------------------

  /** A backend whose `peek` shows some of what remains, and nothing only at the end. */
  class ChunkedInput {
    const data: Text
    var current: nat

    ghost predicate Valid()
      reads this
    {
      current <= |data|
    }

    ghost function Rest(): Text
      requires Valid()
      reads this
    {
      data[current..]
    }

    constructor (data: Text)
      ensures Valid() && this.data == data && Rest() == data
    {
      this.data := data;
      current := 0;
    }

    /** Which chunk is shown is the backend's choice, made anew at every call. */
    method Peek(max: nat) returns (window: Text)
      requires Valid() && max > 0
      ensures |window| <= max && window <= Rest() && (window == [] ==> Rest() == [])
    {
      var left := |data| - current;
      if left == 0 {
        return [];
      }
      var size: nat :| 1 <= size <= max && size <= left;
      window := data[current..current + size];
    }

    method Consume(size: nat)
      requires Valid() && size <= |Rest()|
      modifies this
      ensures Valid() && Rest() == old(Rest())[size..]
    {
      current := current + size;
    }
  }

  // ---- The scanner ---------------------------------------------------------------------------------

  class Scanner {
    const source: ChunkedInput
    var nextLineNo: nat
    var cached: bool
    var cachedLine: Option<Line>
    var tabbed: bool                    // a tab error was raised in the owning reader

    ghost predicate Valid()
      reads this, source
    {
      source.Valid() && (tabbed ==> cached && cachedLine.None?)
    }

    /** What is still to be parsed. */
    ghost function Remaining(): Document
      requires Valid()
      reads this, source
    {
      if cached && cachedLine.None? then Document([], tabbed)
      else
        var rest := Scan(source.Rest(), nextLineNo);
        if cached then Document([cachedLine.value] + rest.lines, rest.tab) else rest
    }

    constructor (source: ChunkedInput)
      requires source.Valid()
      ensures Valid() && this.source == source && Remaining() == Scan(source.Rest(), 1) && !tabbed && !cached
    {
      this.source := source;
      nextLineNo := 1;
      cached := false;
      cachedLine := None;
      tabbed := false;
    }

    /** One physical line, assembled from however many windows it spans. The line after a CR may start
        in another window than the CR itself. */
    method ReadPhysicalLine() returns (ok: bool, line: Text, lineNo: nat)
      requires source.Valid()
      modifies this`nextLineNo, source
      ensures source.Valid() && lineNo == old(nextLineNo)
      ensures ok == (old(source.Rest()) != [])
      ensures if ok then
                line == FirstLine(old(source.Rest())) && source.Rest() == AfterLine(old(source.Rest())) &&
                nextLineNo == old(nextLineNo) + 1
              else source.Rest() == [] && nextLineNo == old(nextLineNo)
    {
      hide BreakAt, FirstLine, AfterLine;
      line := [];
      lineNo := nextLineNo;
      ghost var s := source.Rest();
      var hasData := false;
      while true
        invariant source.Valid() && nextLineNo == old(nextLineNo)
        invariant s == line + source.Rest() && hasData == (line != [])
        invariant forall i :: 0 <= i < |line| ==> !IsBreak(line[i])
        decreases |source.Rest()|
      {
        var window := source.Peek(4096);
        if window == [] {
          NoBreak(line);
          assert s == line;
          if !hasData && line == [] {
            return false, line, lineNo;
          }
          nextLineNo := nextLineNo + 1;
          return true, line, lineNo;
        }
        hasData := true;
        ghost var rest := source.Rest();
        var end := FindBreak(window);
        if end < |window| {
          EndLine(line, rest, window, end);
          line := line + window[..end];
          ConsumeBreak(end, window[end]);
          return true, line, lineNo;
        }
        Joined(line, window, rest);
        line := line + window;
        source.Consume(|window|);
      }
    }

    /** Past the break `ch` at `end` of the window, and past the LF that makes it a CRLF. */
    method ConsumeBreak(end: nat, ch: byte)
      requires source.Valid() && end < |source.Rest()|
      modifies this`nextLineNo, source
      ensures source.Valid() && nextLineNo == old(nextLineNo) + 1
      ensures var more := old(source.Rest())[end + 1..];
              source.Rest() == if ch == CR && more != [] && more[0] == LF then more[1..] else more
    {
      source.Consume(end + 1);
      if ch == CR {
        var next := source.Peek(1);
        if next != [] && next[0] == LF {
          source.Consume(1);
        }
      }
      nextLineNo := nextLineNo + 1;
    }

    method ReadNextContentLine() returns (line: Option<Line>)
      requires source.Valid()
      modifies this`nextLineNo, this`tabbed, source
      ensures source.Valid()
      ensures var d := old(Scan(source.Rest(), nextLineNo));
              if d.lines != [] then
                line == Some(d.lines[0]) && tabbed == old(tabbed) &&
                Scan(source.Rest(), nextLineNo) == Document(d.lines[1..], d.tab)
              else line.None? && tabbed == (old(tabbed) || d.tab)
    {
      hide FirstLine, AfterLine, Indent, Content;
      ghost var d := Scan(source.Rest(), nextLineNo);
      var ok, text, lineNo := ReadPhysicalLine();
      while ok
        invariant source.Valid() && tabbed == old(tabbed)
        invariant if ok then d == ScanLine(text, lineNo, source.Rest(), nextLineNo) else d == Document([], false)
        decreases ok, |source.Rest()|
      {
        if Tabbed(text) {
          tabbed := true;
          return None;
        }
        var indent := Indent(text);
        var content := Content(text);
        if content != [] {
          ghost var rest := Scan(source.Rest(), nextLineNo);
          assert ([Line(lineNo, indent, content)] + rest.lines)[1..] == rest.lines;
          return Some(Line(lineNo, indent, content));
        }
        ok, text, lineNo := ReadPhysicalLine();
      }
      return None;
    }

    method PeekLine() returns (line: Option<Line>)
      requires Valid()
      modifies this, source
      ensures Valid() && cached && line == cachedLine
      ensures Remaining() == old(Remaining())
      ensures line == if Remaining().lines == [] then None else Some(Remaining().lines[0])
      ensures tabbed == (old(tabbed) || (Remaining().lines == [] && Remaining().tab))
    {
      if !cached {
        cachedLine := ReadNextContentLine();
        cached := true;
      }
      line := cachedLine;
    }

    method ConsumeLine() returns (ok: bool)
      requires Valid()
      modifies this, source
      ensures Valid() && ok == (old(Remaining()).lines != [])
      ensures Remaining() == if ok then Document(old(Remaining()).lines[1..], old(Remaining()).tab)
                             else old(Remaining())
      ensures ok ==> tabbed == old(tabbed)
    {
      var line := PeekLine();
      if line == None {
        return false;
      }
      cachedLine := None;
      cached := false;
      ok := true;
    }

    method FindBreak(window: Text) returns (end: nat)
      ensures end <= |window|
      ensures end < |window| ==> IsBreak(window[end])
      ensures forall i :: 0 <= i < end ==> !IsBreak(window[i])
    {
      end := 0;
      while end < |window| && !IsBreak(window[end])
        invariant end <= |window| && forall i :: 0 <= i < end ==> !IsBreak(window[i])
      {
        end := end + 1;
      }
    }
  }

  lemma Joined(line: Text, window: Text, rest: Text)
    requires window <= rest
    ensures line + rest == line + window + rest[|window|..]
  {}

  lemma {:induction false} NoBreak(s: Text)
    requires forall i :: 0 <= i < |s| ==> !IsBreak(s[i])
    ensures BreakAt(s) == |s| && FirstLine(s) == s && AfterLine(s) == []
  {
    if s != [] { NoBreak(s[1..]); }
  }

  /** A break at `end` of what remains ends the line begun as `line`. */
  lemma BrokenLine(line: Text, rest: Text, end: nat)
    requires forall i :: 0 <= i < |line| ==> !IsBreak(line[i])
    requires end < |rest| && IsBreak(rest[end]) && forall i :: 0 <= i < end ==> !IsBreak(rest[i])
    ensures FirstLine(line + rest) == line + rest[..end]
    ensures AfterLine(line + rest) ==
            if rest[end] == CR && end + 1 < |rest| && rest[end + 1] == LF then rest[end + 2..] else rest[end + 1..]
  {
    var a, b := line + rest[..end], rest[end..];
    assert line + rest == a + b;
    BreakFirst(a, b);
    assert (a + b)[..|a|] == a;
  }

  lemma EndLine(line: Text, rest: Text, window: Text, end: nat)
    requires forall i :: 0 <= i < |line| ==> !IsBreak(line[i])
    requires window <= rest && end < |window| && IsBreak(window[end])
    requires forall i :: 0 <= i < end ==> !IsBreak(window[i])
    ensures FirstLine(line + rest) == line + window[..end]
    ensures var more := rest[end + 1..];
            AfterLine(line + rest) == if window[end] == CR && more != [] && more[0] == LF then more[1..] else more
  {
    hide FirstLine, AfterLine;
    BrokenLine(line, rest, end);
    assert rest[..end] == window[..end];
    if end + 1 < |rest| { assert rest[end + 2..] == rest[end + 1..][1..]; }
  }
}
