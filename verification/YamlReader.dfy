// The YAML reader: a scanner with one line of lookahead, the value being read, and one retained error.
// Every method is proved against the functions of YamlCodec on the document the input scans to.
module YamlReader {
  import opened Bytes
  import opened Schema
  import opened YamlText
  import opened YamlCodec
  import Definition

  lemma EntryCases(indent: nat, d: Document, i: nat)
    requires i <= |d.lines|
    ensures TabAt(d, i) ==> MappingEntry(indent, d, i) == Bad(TabsNotSupported)
    ensures i == |d.lines| && !d.tab ==> MappingEntry(indent, d, i) == Stop
    ensures i < |d.lines| ==>
              var line := d.lines[i];
              var colon := ColonAt(line.text);
              MappingEntry(indent, d, i) ==
              if line.indent < indent then Stop
              else if line.indent > indent then Bad(UnexpectedIndentation)
              else if line.text == [] || line.text[0] == DASH then Stop
              else if colon == |line.text| then Bad(ExpectedColon)
              else Next(Trim(line.text[..colon]), State(true, indent, line.no, Trim(line.text[colon + 1..])))
  {
    hide Trim, ColonAt;
  }

  class Reader {
    const scanner: Scanner
    const opt: Options
    var error: Option<Code>
    var current: State
    ghost var doc: Document
    ghost var pos: nat

    /** The scanner stands at content line `pos` of the document. */
    ghost predicate Valid()
      reads this, scanner, scanner.source
    {
      scanner.Valid() && pos <= |doc.lines| && scanner.Remaining() == Document(doc.lines[pos..], doc.tab) &&
      (error.None? ==> !scanner.tabbed)
    }

    constructor (source: ChunkedInput, opt: Options)
      requires source.Valid()
      ensures Valid() && fresh(scanner) && scanner.source == source && this.opt == opt
      ensures doc == Scan(source.Rest(), 1) && pos == 0 && error.None? && current == NoValue
    {
      var s := new Scanner(source);
      scanner := s;
      this.opt := opt;
      error := None;
      current := NoValue;
      doc := Scan(source.Rest(), 1);
      pos := 0;
    }

    /** The value, the position and the error are those of the outcome `r`. */
    twostate predicate Left(r: Res, ok: bool, v: Value)
      reads this, scanner, scanner.source
    {
      Valid() && ok == r.Ok? &&
      (ok ==> v == r.val && pos == r.pos && error.None?) && (!ok ==> error == Some(r.code))
    }

    method Fail(code: Code)
      requires Valid() && error.None?
      modifies this`error
      ensures Valid() && error == Some(code)
    {
      error := Some(code);
    }

    method PeekLine() returns (line: Option<Line>)
      requires Valid() && error.None?
      modifies this`error, scanner, scanner.source
      ensures Valid()
      ensures line == if pos < |doc.lines| then Some(doc.lines[pos]) else None
      ensures error == if TabAt(doc, pos) then Some(TabsNotSupported) else None
    {
      line := scanner.PeekLine();
      if scanner.tabbed {
        error := Some(TabsNotSupported);
      }
    }

    method ConsumeLine() returns (ok: bool)
      requires Valid() && error.None?
      modifies this`error, this`pos, scanner, scanner.source
      ensures Valid() && ok == (old(pos) < |doc.lines|)
      ensures if ok then error.None? && pos == old(pos) + 1
              else error == Some(InternalScannerStateMismatch) && pos == old(pos)
    {
      ok := scanner.ConsumeLine();
      if !ok {
        error := Some(InternalScannerStateMismatch);
        return;
      }
      pos := pos + 1;
    }

    /** `has_current_child_block`; a tab error met while looking stays in `error`. */
    method HasCurrentChild() returns (yes: bool)
      requires Valid() && error.None?
      modifies this`error, scanner, scanner.source
      ensures Valid() && yes == HasChild(current, doc, pos)
      ensures error == if TabAt(doc, pos) then Some(TabsNotSupported) else None
    {
      var next := PeekLine();
      yes := next.Some? && next.value.indent >= ChildIndent(current);
    }

    // ---- Tokens and entries -----------------------------------------------------------------------

    method ReadScalarToken() returns (ok: bool, token: Text)
      requires Valid() && error.None?
      modifies this`error, this`pos, scanner, scanner.source
      ensures Valid()
      ensures var r := old(ScalarToken(current, doc, pos));
              ok == r.Token? && (ok ==> token == r.text && pos == r.pos && error.None?) &&
              (!ok ==> error == Some(r.code))
    {
      token := [];
      if current.active {
        return true, current.inlined;
      }
      var lineOpt := PeekLine();
      if error.Some? { return false, []; }
      if lineOpt.None? {
        Fail(ExpectedScalarValue);
        return false, [];
      }
      var line := lineOpt.value;
      if line.indent != 0 {
        Fail(UnexpectedIndentation);
        return false, [];
      }
      if line.text != [] && line.text[0] == DASH {
        Fail(ExpectedScalarValue);
        return false, [];
      }
      if line.text != [] && !IsQuoted(line.text) && ColonAt(line.text) < |line.text| {
        Fail(ExpectedScalarValue);
        return false, [];
      }
      ok := ConsumeLine();
      token := line.text;
    }

    method BeginNested(inlineError: Code, missingError: Code) returns (ok: bool, indent: nat)
      requires Valid() && error.None?
      modifies this`error, scanner, scanner.source
      ensures Valid()
      ensures var r := old(BeginBlock(current, doc, pos, inlineError, missingError));
              ok == r.At? && (ok ==> indent == r.indent && error.None?) && (!ok ==> error == Some(r.code))
    {
      indent := 0;
      if current.active && current.inlined != [] {
        Fail(inlineError);
        return false, 0;
      }
      if current.active {
        var child := HasCurrentChild();
        if !child {
          if error.None? { Fail(missingError); }
          return false, 0;
        }
      }
      return true, ChildIndent(current);
    }

    method ReadMappingEntry(indent: nat) returns (ok: bool, present: bool, key: Text)
      requires Valid() && error.None?
      modifies this`error, this`pos, this`current, scanner, scanner.source
      ensures Valid()
      ensures match old(MappingEntry(indent, doc, pos))
              case Bad(c) => !ok && error == Some(c)
              case Stop => ok && !present && error.None? && pos == old(pos)
              case Next(k, st) => ok && present && key == k && current == st && error.None? && pos == old(pos) + 1
    {
      hide Trim, ColonAt, MappingEntry;
      ok, present, key := true, false, [];
      EntryCases(indent, doc, pos);
      var lineOpt := PeekLine();
      if error.Some? { return false, false, []; }
      if lineOpt.None? { return; }
      var line := lineOpt.value;
      if line.indent < indent { return; }
      if line.indent > indent {
        Fail(UnexpectedIndentation);
        return false, false, [];
      }
      if line.text == [] || line.text[0] == DASH { return; }
      var colon := ColonAt(line.text);
      if colon == |line.text| {
        Fail(ExpectedColon);
        return false, false, [];
      }
      ok := ConsumeLine();
      current := State(true, indent, line.no, Trim(line.text[colon + 1..]));
      key := Trim(line.text[..colon]);
      present := true;
    }

    method ReadSequenceItem(indent: nat) returns (ok: bool, present: bool)
      requires Valid() && error.None?
      modifies this`error, this`pos, this`current, scanner, scanner.source
      ensures Valid()
      ensures match old(SequenceItem(indent, doc, pos))
              case Bad(c) => !ok && error == Some(c)
              case Stop => ok && !present && error.None? && pos == old(pos)
              case Next(_, st) => ok && present && current == st && error.None? && pos == old(pos) + 1
    {
      hide Trim;
      ok, present := true, false;
      var lineOpt := PeekLine();
      if error.Some? { return false, false; }
      if lineOpt.None? { return; }
      var line := lineOpt.value;
      if line.indent < indent { return; }
      if line.indent > indent {
        Fail(UnexpectedIndentation);
        return false, false;
      }
      if line.text == [] || line.text[0] != DASH { return; }
      ok := ConsumeLine();
      current := State(true, indent, line.no, Trim(line.text[1..]));
      present := true;
    }

    // ---- Values -----------------------------------------------------------------------------------

    /** The value of the current entry or item. Whatever is read below it, the current value is the
        same afterwards. */
    method ReadCurrentValue(t: Type) returns (ok: bool, v: Value)
      requires Valid() && error.None? && Readable(t) == true && current.active
      modifies this`error, this`pos, this`current, scanner, scanner.source
      ensures var r := old(Parse(opt, t, current, doc, pos)); Left(r, ok, v)
      ensures current == old(current)
      decreases t, 2
    {
      var previous := current;
      ok, v := ReadValue(t);
      current := previous;
    }

    method ReadValue(t: Type) returns (ok: bool, v: Value)
      requires Valid() && error.None? && Readable(t) == true
      modifies this`error, this`pos, this`current, scanner, scanner.source
      ensures var r := old(Parse(opt, t, current, doc, pos)); Left(r, ok, v)
      decreases t, 1
    {
      hide ParseScalar, ParseOptional, ParseBody, ParseItems, BeginBlock;
      v := Nothing;
      var indent: nat;
      if t.LeafT? {
        ok, v := ReadScalar(t.leaf);
      } else if t.OptionalT? {
        ok, v := ReadOptional(t);
      } else if t.ObjectT? {
        ok, indent := BeginNested(ExpectedNestedMapping, MissingNestedMapping);
        if ok { ok, v := ReadBody(t, indent); }
      } else {
        ok, indent := BeginNested(ExpectedNestedSequence, MissingNestedSequence);
        if ok { ok, v := ReadItems(t, indent); }
      }
    }

    method ReadScalar(t: Leaf) returns (ok: bool, v: Value)
      requires Valid() && error.None?
      modifies this`error, this`pos, this`current, scanner, scanner.source
      ensures var r := old(ParseScalar(t, current, doc, pos)); Left(r, ok, v)
    {
      hide ParseLeaf, ScalarToken;
      v := Nothing;
      var token: Text;
      ok, token := ReadScalarToken();
      if !ok { return; }
      var parsed := ParseLeaf(t, token);
      if parsed.Refused? {
        Fail(parsed.code);
        return false, Nothing;
      }
      v := parsed.val;
    }

    method ReadOptional(t: Type) returns (ok: bool, v: Value)
      requires Valid() && error.None? && Readable(t) == true && t.OptionalT?
      modifies this`error, this`pos, this`current, scanner, scanner.source
      ensures var r := old(ParseOptional(opt, t, current, doc, pos)); Left(r, ok, v)
      decreases t, 0
    {
      hide Parse;
      v := Nothing;
      if current.active {
        if NullWord(current.inlined) { return true, Nothing; }
        if current.inlined == [] {
          var child := HasCurrentChild();
          if !child {
            return error.None?, Nothing;
          }
          if !IsBlock(t.elem) {
            Fail(UnexpectedNestedBlock);
            return false, Nothing;
          }
        }
      } else {
        var lineOpt := PeekLine();
        if error.Some? { return false, Nothing; }
        if lineOpt.None? { return true, Nothing; }
        var line := lineOpt.value;
        if line.indent == 0 && NullWord(line.text) {
          ok := ConsumeLine();
          return;
        }
      }
      var x: Value;
      ok, x := ReadValue(t.elem);
      if ok { v := Just(x); }
    }

    method ReadBody(t: Type, indent: nat) returns (ok: bool, v: Value)
      requires Valid() && error.None? && Readable(t) == true && t.ObjectT?
      modifies this`error, this`pos, this`current, scanner, scanner.source
      ensures var r := old(ParseBody(opt, t, indent, Unseen(t), Blank(t), doc, pos)); Left(r, ok, v)
      decreases t, 0, 1
    {
      hide CheckMissing, ParseBody;
      v := Nothing;
      ghost var goal := ParseBody(opt, t, indent, Unseen(t), Blank(t), doc, pos);
      var seen, cur := Unseen(t), Blank(t);
      var present := true;
      while present
        invariant Valid() && error.None? && |seen| == |cur| == |t.fields|
        invariant goal == if present then ParseBody(opt, t, indent, seen, cur, doc, pos)
                          else CheckMissing(t, seen, cur, 0, pos)
        decreases present, |doc.lines| - pos
      {
        ok, present, seen, cur := ReadEntry(t, indent, seen, cur);
        if !ok { return; }
      }
      ok, v := FillMissing(t, seen, cur);
    }

    /** One entry of a mapping and its value. */
    method ReadEntry(t: Type, indent: nat, seen: seq<bool>, cur: seq<Value>)
      returns (ok: bool, present: bool, seen': seq<bool>, cur': seq<Value>)
      requires Valid() && error.None? && Readable(t) == true && t.ObjectT? && |seen| == |cur| == |t.fields|
      modifies this`error, this`pos, this`current, scanner, scanner.source
      ensures Valid() && |seen'| == |cur'| == |t.fields|
      ensures var r := old(ParseBody(opt, t, indent, seen, cur, doc, pos));
              if !ok then r.Err? && error == Some(r.code)
              else
                error.None? &&
                if present then old(pos) < pos && r == ParseBody(opt, t, indent, seen', cur', doc, pos)
                else r == CheckMissing(t, seen', cur', 0, pos)
      decreases t, 0, 0
    {
      hide Parse, MappingEntry, CheckMissing, ParseBody;
      seen', cur' := seen, cur;
      BodyStep(opt, t, indent, seen, cur, doc, pos);
      var key: Text;
      ok, present, key := ReadMappingEntry(indent);
      if !ok || !present { return; }
      var matched, hits := Definition.DispatchByName(t.fields, key);
      if !matched {
        if opt.failOnUnknownKeys {
          Fail(UnknownKey);
          ok := false;
        }
        return;
      }
      var k := hits[0];
      if seen[k] && opt.failOnDuplicateKeys {
        Fail(DuplicateKey);
        ok := false;
        return;
      }
      seen' := seen[k := true];
      var x: Value;
      ok, x := ReadCurrentValue(t.fields[k].ty);
      if ok { cur' := cur[k := x]; }
    }

    method FillMissing(t: Type, seen: seq<bool>, fields: seq<Value>) returns (ok: bool, v: Value)
      requires Valid() && error.None? && t.ObjectT? && |seen| == |fields| == |t.fields|
      modifies this`error
      ensures var r := old(CheckMissing(t, seen, fields, 0, pos)); Left(r, ok, v)
    {
      v := Nothing;
      var cur := fields;
      var k := 0;
      while k < |cur|
        invariant k <= |cur| == |fields|
        invariant CheckMissing(t, seen, fields, 0, pos) == CheckMissing(t, seen, cur, k, pos)
      {
        if !seen[k] {
          if !t.fields[k].ty.OptionalT? {
            Fail(MissingRequiredKey);
            return false, Nothing;
          }
          cur := cur[k := Nothing];
        }
        k := k + 1;
      }
      return true, Record(cur);
    }

    method ReadItems(t: Type, indent: nat) returns (ok: bool, v: Value)
      requires Valid() && error.None? && Readable(t) == true && IsSequence(t)
      modifies this`error, this`pos, this`current, scanner, scanner.source
      ensures var r := old(ParseItems(opt, t, indent, [], doc, pos)); Left(r, ok, v)
      decreases t, 0, 1
    {
      hide ParseItems;
      v := Nothing;
      ghost var goal := ParseItems(opt, t, indent, [], doc, pos);
      var items: seq<Value> := [];
      var present := true;
      while present
        invariant Valid() && error.None?
        invariant goal == if present then ParseItems(opt, t, indent, items, doc, pos) else EndItems(t, items, pos)
        decreases present, |doc.lines| - pos
      {
        ok, present, items := ReadItem(t, indent, items);
        if !ok { return; }
      }
      if !LengthOk(t, |items|) {
        Fail(SequenceLengthMismatch);
        return false, Nothing;
      }
      return true, List(items);
    }

    /** One item of a sequence and its value. */
    method ReadItem(t: Type, indent: nat, items: seq<Value>) returns (ok: bool, present: bool, items': seq<Value>)
      requires Valid() && error.None? && Readable(t) == true && IsSequence(t)
      modifies this`error, this`pos, this`current, scanner, scanner.source
      ensures Valid()
      ensures var r := old(ParseItems(opt, t, indent, items, doc, pos));
              if !ok then r.Err? && error == Some(r.code)
              else
                error.None? &&
                if present then old(pos) < pos && r == ParseItems(opt, t, indent, items', doc, pos)
                else r == EndItems(t, items', pos)
      decreases t, 0, 0
    {
      hide Parse, SequenceItem, ParseItems;
      items' := items;
      ItemStep(opt, t, indent, items, doc, pos);
      ok, present := ReadSequenceItem(indent);
      if !ok || !present { return; }
      if Full(t, |items|) {
        Fail(TooManySequenceItems);
        ok := false;
        return;
      }
      var x: Value;
      ok, x := ReadCurrentValue(ElemType(t, |items|));
      if ok { items' := items + [x]; }
    }

    /** `reader::read`. A later read goes on where the last one stopped, in the state it left; a tab
        that ended the last one is the end of the document for it. */
    method Read(t: Type) returns (ok: bool, v: Value)
      requires Valid() && Readable(t) == true
      modifies this, scanner, scanner.source
      ensures var r := old(ParseRest(opt, t, current, Document(doc.lines, doc.tab && !scanner.tabbed), pos));
              Left(r, ok, v)
      ensures doc == old(Document(doc.lines, doc.tab && !scanner.tabbed))
    {
      hide Parse;
      error := None;
      if scanner.tabbed {
        scanner.tabbed := false;
        doc := Document(doc.lines, false);
      }
      ok, v := ReadValue(t);
      if !ok { return; }
      var line := PeekLine();
      if error.Some? { return false, v; }
      if line.Some? {
        Fail(UnexpectedTrailingContent);
        ok := false;
      }
    }
  }
}
