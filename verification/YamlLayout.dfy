// Block-style YAML text for a value, and the proof that the reader decodes it to that value.
module YamlLayout {
  import opened Bytes
  import opened Schema
  import opened YamlText
  import opened YamlCodec

  // ---- Scalars as text -----------------------------------------------------------------------------

  function ShowNat(n: nat): (s: Text)
    ensures |s| > 0 && forall i :: 0 <= i < |s| ==> IsDigit(s[i])
  {
    if n < 10 then [ZERO + n] else ShowNat(n / 10) + [ZERO + n % 10]
  }

  function ShowInt(n: int): (s: Text)
    ensures |s| > 0 && forall i :: 0 <= i < |s| ==> IsDigit(s[i]) || s[i] == DASH
  {
    if n < 0 then [DASH] + ShowNat(-n) else ShowNat(n)
  }

  function HexDigit(n: nat): byte
    requires n < 16
  {
    if n < 10 then ZERO + n else 'a' as int + (n - 10)
  }

  predicate IsControl(c: byte) { (c < 0x20 && c != LF && c != CR && c != TAB) || c == 0x7f }

  /** `escape_string` for one character. */
  function EscapeChar(c: byte): (s: Text)
    ensures 1 <= |s|
  {
    if c == DOUBLE_QUOTE || c == BACKSLASH then [BACKSLASH, c]
    else if c == LF then [BACKSLASH, 'n' as int]
    else if c == CR then [BACKSLASH, 'r' as int]
    else if c == TAB then [BACKSLASH, 't' as int]
    else if IsControl(c) then [BACKSLASH, 'x' as int, HexDigit(c / 16), HexDigit(c % 16)]
    else [c]
  }

  function Escape(s: Text): Text { if s == [] then [] else EscapeChar(s[0]) + Escape(s[1..]) }

  /** `quoted_string` */
  function Quote(s: Text): Text { [DOUBLE_QUOTE] + Escape(s) + [DOUBLE_QUOTE] }

  predicate Printable(s: Text) { forall i :: 0 <= i < |s| ==> !IsControl(s[i]) }

  /** The escapes the reader knows are exactly those of strings without other control characters. */
  lemma {:induction false} UnescapeEscape(s: Text)
    ensures Unescape(Escape(s)) == if Printable(s) then Some(s) else None
  {
    if s != [] {
      var c, rest := s[0], Escape(s[1..]);
      UnescapeEscape(s[1..]);
      UnescapeChar(c, rest);
      assert s == [c] + s[1..];
      assert Printable(s) <==> !IsControl(c) && Printable(s[1..]);
    }
  }

  lemma UnescapeChar(c: byte, rest: Text)
    ensures Unescape(EscapeChar(c) + rest) == if IsControl(c) then None else Prepend(Some(c), Unescape(rest))
  {
    var e := EscapeChar(c);
    var s := e + rest;
    if |e| == 1 {
      assert s[1..] == rest;
    } else if |e| == 2 {
      assert s[2..] == rest;
    } else {
      assert s[0] == BACKSLASH && s[1] == 'x' as int;
    }
  }

  lemma {:induction false} DigitsShow(n: nat)
    ensures Digits(ShowNat(n)) == Some(n)
  {
    var s := ShowNat(n);
    if n < 10 {
      assert s[..0] == [] && Digits([]) == Some(0);
    } else {
      DigitsShow(n / 10);
      assert s[..|s| - 1] == ShowNat(n / 10);
    }
  }

  lemma IntegerShow(n: int, low: int, high: int)
    requires low <= n <= high && low <= 0
    ensures ParseInteger(ShowInt(n), low, high) == Some(n)
  {
    hide Digits, ShowNat;
    DigitsShow(if n < 0 then -n else n);
    if n < 0 {
      assert ShowInt(n)[1..] == ShowNat(-n);
    } else {
      assert ShowInt(n)[0] != DASH;
    }
  }

  // ---- What can be laid out --------------------------------------------------------------------------

  predicate IsNameChar(c: byte) {
    ('a' as int <= c <= 'z' as int) || ('A' as int <= c <= 'Z' as int) || IsDigit(c) || c == '_' as int
  }

  /** An identifier. */
  predicate IsName(s: Text) { s != [] && forall i :: 0 <= i < |s| ==> IsNameChar(s[i]) }

  predicate UniqueNames(fs: seq<Field>) {
    (forall i :: 0 <= i < |fs| ==> IsName(fs[i].name)) &&
    (forall i, j :: 0 <= i < j < |fs| ==> fs[i].name != fs[j].name)
  }

  /** The comment scan, which does not know about escapes, finds no comment in the quoted string. */
  predicate Uncommented(s: Text) { CommentStart(Quote(s), 0, false, false) == |Quote(s)| }

  /** Objects, non-empty sequences, optionals of anything but optionals, and scalars. The outermost
      block may be empty. */
  predicate LaidOut(t: Type, v: Value, nested: bool)
    decreases t
  {
    Readable(t) && HasType(t, v) &&
    if t.LeafT? then t.leaf.StringL? ==> Printable(v.bytes) && Uncommented(v.bytes)
    else if t.OptionalT? then !t.elem.OptionalT? && (v.Just? ==> LaidOut(t.elem, v.payload, true))
    else if t.ObjectT? then
      UniqueNames(t.fields) && (nested ==> |t.fields| > 0) &&
      forall i :: 0 <= i < |t.fields| ==> LaidOut(t.fields[i].ty, v.items[i], true)
    else
      IsSequence(t) && (nested ==> |v.items| > 0) &&
      forall i :: 0 <= i < |v.items| ==> LaidOut(ElemType(t, i), v.items[i], true)
  }

  // ---- Rows ------------------------------------------------------------------------------------------

  datatype Row = Row(indent: nat, text: Text)

  function ShowLeaf(t: Leaf, v: Value): (s: Text)
    requires LeafHas(t, v) == true
  {
    match t
    case BoolL => if v.on then TRUE_WORD else FALSE_WORD
    case UIntL(_) => ShowInt(v.n)
    case IntL(_) => ShowInt(v.n)
    case StringL => Quote(v.bytes)
    case _ => []
  }

  /** What stands on the line that names a value: a scalar, or nothing when a block follows. */
  function Inline(t: Type, v: Value): Text
    requires LaidOut(t, v, true) == true
    decreases t
  {
    if t.LeafT? then ShowLeaf(t.leaf, v)
    else if t.OptionalT? then if v.Nothing? then NULL_WORD else Inline(t.elem, v.payload)
    else []
  }

  /** The block below that line, at `indent`. */
  function Below(t: Type, v: Value, o: Order, indent: nat): seq<Row>
    requires LaidOut(t, v, true) == true
    decreases t, 2, 0
  {
    if t.LeafT? then []
    else if t.OptionalT? then if v.Nothing? then [] else Below(t.elem, v.payload, o, indent)
    else Block(t, v, o, indent)
  }

  function Headed(head: Text, inlined: Text): Text {
    if inlined == [] then head else head + [SPACE] + inlined
  }

  /** An object or sequence; the entries of objects stand in the order `o` says. */
  function Block(t: Type, v: Value, o: Order, indent: nat): seq<Row>
    requires IsBlock(t) && LaidOut(t, v, false) == true
    decreases t, 1, 0
  {
    if t.ObjectT? then EntryRows(t, v.items, o, Permutation(o, |v.items|), 0, indent)
    else ItemRows(t, v.items, o, 0, indent)
  }

  function EntryRows(t: Type, vs: seq<Value>, o: Order, perm: seq<nat>, j: nat, indent: nat): seq<Row>
    requires t.ObjectT? && LaidOut(t, Record(vs), false) == true && IsPermutation(perm, |vs|) && j <= |vs|
    decreases t, 0, |vs| - j
  {
    if j == |vs| then []
    else
      var k := perm[j];
      [Row(indent, Headed(t.fields[k].name + [COLON], Inline(t.fields[k].ty, vs[k])))] +
      Below(t.fields[k].ty, vs[k], Kid(o, k), indent + 2) +
      EntryRows(t, vs, o, perm, j + 1, indent)
  }

  function ItemRows(t: Type, vs: seq<Value>, o: Order, j: nat, indent: nat): seq<Row>
    requires IsSequence(t) && LaidOut(t, List(vs), false) == true && j <= |vs|
    decreases t, 0, |vs| - j
  {
    if j == |vs| then []
    else
      [Row(indent, Headed([DASH], Inline(ElemType(t, j), vs[j])))] +
      Below(ElemType(t, j), vs[j], Kid(o, j), indent + 2) +
      ItemRows(t, vs, o, j + 1, indent)
  }

  // ---- Tokens of a row -------------------------------------------------------------------------------

  /** Nothing to trim on either side. */
  predicate Tight(s: Text) { s != [] ==> !IsSpace(s[0]) && !IsSpace(s[|s| - 1]) }

  lemma TightTrim(s: Text)
    requires Tight(s)
    ensures Trim(s) == s && Trim([SPACE] + s) == s
  {
    var p := [SPACE] + s;
    assert p[1..] == s;
    if s == [] { assert TrimLeft(p) == TrimLeft(s); } else { assert TrimLeft(p) == TrimLeft(s) == s; }
  }

  lemma NameTight(s: Text)
    requires IsName(s)
    ensures Tight(s) && s[0] != DASH && s[0] != HASH
    ensures forall i :: 0 <= i < |s| ==> s[i] != COLON && !IsBreak(s[i]) && s[i] != TAB
  {}

  lemma {:induction false} ColonFirst(a: Text, b: Text)
    requires (forall i :: 0 <= i < |a| ==> a[i] != COLON) && b != [] && b[0] == COLON
    ensures ColonAt(a + b) == |a|
  {
    if a == [] {
      assert a + b == b;
    } else {
      assert (a + b)[1..] == a[1..] + b;
      ColonFirst(a[1..], b);
    }
  }

  /** A row of a mapping splits into its key and what follows the colon. */
  lemma EntryText(name: Text, inlined: Text)
    requires IsName(name) && Tight(inlined)
    ensures var s := Headed(name + [COLON], inlined);
            s != [] && s[0] != DASH && ColonAt(s) == |name| < |s| &&
            Trim(s[..|name|]) == name && Trim(s[|name| + 1..]) == inlined
  {
    hide ColonAt, Trim;
    NameTight(name);
    var tail := if inlined == [] then [] else [SPACE] + inlined;
    var s := Headed(name + [COLON], inlined);
    assert s == name + ([COLON] + tail);
    ColonFirst(name, [COLON] + tail);
    assert s[..|name|] == name && s[|name| + 1..] == tail;
    TightTrim(name);
    TightTrim(inlined);
    EmptyTrim();
  }

  lemma EmptyTrim()
    ensures Trim([]) == []
  {}

  lemma ItemText(inlined: Text)
    requires Tight(inlined)
    ensures var s := Headed([DASH], inlined); s != [] && s[0] == DASH && Trim(s[1..]) == inlined
  {
    hide Trim;
    var tail := if inlined == [] then [] else [SPACE] + inlined;
    assert Headed([DASH], inlined) == [DASH] + tail;
    assert ([DASH] + tail)[1..] == tail;
    TightTrim(inlined);
    EmptyTrim();
  }

  lemma LeafShown(t: Leaf, v: Value)
    requires Readable(LeafT(t)) && LeafHas(t, v) == true && (t.StringL? ==> Printable(v.bytes))
    ensures var s := ShowLeaf(t, v); s != [] && Tight(s) && !NullWord(s) && ParseLeaf(t, s) == Scalar(v)
  {
    hide ShowInt, ParseInteger, Unescape, Escape;
    match t
    case BoolL =>
    case UIntL(w) =>
      IntegerShow(v.n, 0, w.UMax());
      IntegerText(v.n);
    case IntL(w) =>
      IntegerShow(v.n, w.SMin(), w.SMax());
      IntegerText(v.n);
    case StringL =>
      var q := Quote(v.bytes);
      UnescapeEscape(v.bytes);
      assert q[1..|q| - 1] == Escape(v.bytes);
  }

  lemma IntegerText(n: int)
    ensures var s := ShowInt(n); Tight(s) && !NullWord(s)
  {
    var s := ShowInt(n);
    assert s[0] == DASH || IsDigit(s[0]);
    assert s[|s| - 1] == DASH || IsDigit(s[|s| - 1]);
  }

  lemma {:induction false} InlineTight(t: Type, v: Value)
    requires LaidOut(t, v, true) == true
    ensures Tight(Inline(t, v))
    ensures t.LeafT? ==> Inline(t, v) != []
    decreases t
  {
    hide ShowLeaf, ParseLeaf;
    if t.LeafT? { LeafShown(t.leaf, v); }
    else if t.OptionalT? && v.Just? { InlineTight(t.elem, v.payload); }
  }

  // ---- Rows decode ----------------------------------------------------------------------------------

  predicate Shows(d: Document, i: nat, rows: seq<Row>) {
    i + |rows| <= |d.lines| &&
    forall j :: 0 <= j < |rows| ==> d.lines[i + j].indent == rows[j].indent && d.lines[i + j].text == rows[j].text
  }

  lemma ShowsSplit(d: Document, i: nat, a: seq<Row>, b: seq<Row>)
    requires Shows(d, i, a + b)
    ensures Shows(d, i, a) && Shows(d, i + |a|, b)
  {
    assert forall j :: 0 <= j < |a| ==> (a + b)[j] == a[j];
    forall j: nat | j < |b|
      ensures d.lines[i + |a| + j].indent == b[j].indent && d.lines[i + |a| + j].text == b[j].text
    {
      assert (a + b)[|a| + j] == b[j];
    }
  }

  /** Nothing indented as deep as `indent` starts at line `i`. */
  predicate Clear(d: Document, i: nat, indent: nat) {
    i <= |d.lines| && !d.tab && (i < |d.lines| ==> d.lines[i].indent < indent)
  }

  /** The current value on a line that shows its inline part, with its block below. */
  lemma {:induction false} ValueParses(opt: Options, t: Type, v: Value, o: Order, st: State, d: Document, i: nat)
    requires LaidOut(t, v, true) == true && st.active && st.inlined == Inline(t, v)
    requires Shows(d, i, Below(t, v, o, ChildIndent(st)))
    requires Clear(d, i + |Below(t, v, o, ChildIndent(st))|, ChildIndent(st))
    ensures Readable(t) && i <= |d.lines|
    ensures Parse(opt, t, st, d, i) == Ok(v, i + |Below(t, v, o, ChildIndent(st))|)
    decreases t, 2, 0
  {
    hide ParseLeaf, ParseBody, ParseItems, Block, ShowLeaf;
    if t.LeafT? {
      LeafShown(t.leaf, v);
    } else if t.OptionalT? {
      OptionalParses(opt, t, v, o, st, d, i);
    } else {
      BlockParses(opt, t, v, o, st, d, i);
    }
  }

  lemma {:induction false} OptionalParses(opt: Options, t: Type, v: Value, o: Order, st: State, d: Document, i: nat)
    requires LaidOut(t, v, true) == true && t.OptionalT? && st.active && st.inlined == Inline(t, v)
    requires Shows(d, i, Below(t, v, o, ChildIndent(st)))
    requires Clear(d, i + |Below(t, v, o, ChildIndent(st))|, ChildIndent(st))
    ensures ParseOptional(opt, t, st, d, i) == Ok(v, i + |Below(t, v, o, ChildIndent(st))|)
    decreases t, 0, 0
  {
    hide Parse, Block, ShowLeaf, ParseLeaf;
    if v.Just? {
      var x := v.payload;
      ValueParses(opt, t.elem, x, o, st, d, i);
      if t.elem.LeafT? {
        LeafShown(t.elem.leaf, x);
      } else {
        BlockStarts(t.elem, x, o, ChildIndent(st));
        BlockWord();
      }
    }
  }

  lemma BlockWord()
    ensures !NullWord([])
  {}

  /** A nested block has a first row, at its own indent. */
  lemma BlockStarts(t: Type, v: Value, o: Order, indent: nat)
    requires IsBlock(t) && LaidOut(t, v, true) == true
    ensures var rows := Block(t, v, o, indent); rows != [] && rows[0].indent == indent
  {
    hide Below, Inline, Headed;
  }

  lemma {:induction false} BlockParses(opt: Options, t: Type, v: Value, o: Order, st: State, d: Document, i: nat)
    requires IsBlock(t) && LaidOut(t, v, true) == true && st.active && st.inlined == []
    requires Shows(d, i, Block(t, v, o, ChildIndent(st)))
    requires Clear(d, i + |Block(t, v, o, ChildIndent(st))|, ChildIndent(st))
    ensures Parse(opt, t, st, d, i) == Ok(v, i + |Block(t, v, o, ChildIndent(st))|)
    decreases t, 1, 0
  {
    hide ParseBody, ParseItems, EntryRows, ItemRows;
    BlockStarts(t, v, o, ChildIndent(st));
    if t.ObjectT? {
      var perm := Permutation(o, |v.items|);
      StartBody(t, v.items, perm);
      BodyParses(opt, t, v.items, o, perm, 0, ChildIndent(st), d, i);
    } else {
      assert v.items[..0] == [];
      ItemsParse(opt, t, v.items, o, 0, ChildIndent(st), d, i);
    }
  }

  // ---- Mappings --------------------------------------------------------------------------------------

  function SeenAfter(perm: seq<nat>, j: nat, n: nat): (s: seq<bool>)
    requires j <= |perm|
    ensures |s| == n
  {
    seq(n, x => x in perm[..j])
  }

  function FieldsAfter(vs: seq<Value>, perm: seq<nat>, j: nat): (c: seq<Value>)
    requires j <= |perm|
    ensures |c| == |vs|
  {
    seq(|vs|, x requires 0 <= x < |vs| => if x in perm[..j] then vs[x] else Nothing)
  }

  lemma StartBody(t: Type, vs: seq<Value>, perm: seq<nat>)
    requires t.ObjectT? && |vs| == |t.fields|
    ensures SeenAfter(perm, 0, |vs|) == Unseen(t) && FieldsAfter(vs, perm, 0) == Blank(t)
  {}

  lemma StepBody(vs: seq<Value>, perm: seq<nat>, j: nat)
    requires IsPermutation(perm, |vs|) && j < |vs|
    ensures var k := perm[j];
            !SeenAfter(perm, j, |vs|)[k] && SeenAfter(perm, j + 1, |vs|) == SeenAfter(perm, j, |vs|)[k := true] &&
            FieldsAfter(vs, perm, j + 1) == FieldsAfter(vs, perm, j)[k := vs[k]]
  {
    assert perm[..j + 1] == perm[..j] + [perm[j]];
  }

  lemma EndBody(t: Type, vs: seq<Value>, perm: seq<nat>, i: nat)
    requires t.ObjectT? && |vs| == |t.fields| && IsPermutation(perm, |vs|)
    ensures CheckMissing(t, SeenAfter(perm, |vs|, |vs|), FieldsAfter(vs, perm, |vs|), 0, i) == Ok(Record(vs), i)
  {
    hide CheckMissing;
    assert perm[..|vs|] == perm;
    forall x: nat | x < |vs| ensures x in perm { PermutationCovers(perm, |vs|, x); }
    assert FieldsAfter(vs, perm, |vs|) == vs;
    AllSeen(t, SeenAfter(perm, |vs|, |vs|), vs, 0, i);
  }

  lemma {:induction false} AllSeen(t: Type, seen: seq<bool>, cur: seq<Value>, k: nat, i: nat)
    requires t.ObjectT? && |seen| == |cur| == |t.fields| && k <= |cur|
    requires forall x :: 0 <= x < |seen| ==> seen[x]
    ensures CheckMissing(t, seen, cur, k, i) == Ok(Record(cur), i)
    decreases |cur| - k
  {
    if k < |cur| { AllSeen(t, seen, cur, k + 1, i); }
  }

  lemma {:induction false} NameFound(fs: seq<Field>, k: nat, i: nat)
    requires UniqueNames(fs) && i <= k < |fs|
    ensures NameIndex(fs, fs[k].name, i) == k
    decreases k - i
  {
    if i < k { NameFound(fs, k, i + 1); }
  }

  /** Rows still to come, or the clear line behind them, are less indented than a block below. */
  lemma RowsClear(d: Document, i: nat, rows: seq<Row>, indent: nat)
    requires Shows(d, i, rows) && Clear(d, i + |rows|, indent) && (rows != [] ==> rows[0].indent == indent)
    ensures Clear(d, i, indent + 2)
  {
    if rows != [] { assert d.lines[i + 0].indent == rows[0].indent; }
  }

  lemma EntryRowsHead(t: Type, vs: seq<Value>, o: Order, perm: seq<nat>, j: nat, indent: nat)
    requires t.ObjectT? && LaidOut(t, Record(vs), false) == true && IsPermutation(perm, |vs|) && j <= |vs|
    ensures Readable(t) && |vs| == |t.fields|
    ensures var rows := EntryRows(t, vs, o, perm, j, indent); rows != [] ==> rows[0].indent == indent
    ensures j < |vs| ==>
              var k := perm[j];
              UniqueNames(t.fields) && LaidOut(t.fields[k].ty, vs[k], true) &&
              EntryRows(t, vs, o, perm, j, indent) ==
              [Row(indent, Headed(t.fields[k].name + [COLON], Inline(t.fields[k].ty, vs[k])))] +
              (Below(t.fields[k].ty, vs[k], Kid(o, k), indent + 2) + EntryRows(t, vs, o, perm, j + 1, indent))
  {
    hide Below, Inline, Headed;
  }

  lemma NothingNext(d: Document, i: nat, indent: nat)
    requires Clear(d, i, indent)
    ensures SequenceItem(indent, d, i) == Stop && MappingEntry(indent, d, i) == Stop
  {
    hide Trim;
  }

  lemma EntryShown(d: Document, i: nat, indent: nat, name: Text, inlined: Text)
    requires i < |d.lines| && d.lines[i].indent == indent && d.lines[i].text == Headed(name + [COLON], inlined)
    requires IsName(name) && Tight(inlined)
    ensures MappingEntry(indent, d, i) == Next(name, State(true, indent, d.lines[i].no, inlined))
  {
    hide Trim, Headed, ColonAt;
    EntryText(name, inlined);
  }

  lemma {:induction false} BodyParses(
    opt: Options, t: Type, vs: seq<Value>, o: Order, perm: seq<nat>, j: nat, indent: nat, d: Document, i: nat)
    requires t.ObjectT? && LaidOut(t, Record(vs), false) == true && IsPermutation(perm, |vs|) && j <= |vs|
    requires Shows(d, i, EntryRows(t, vs, o, perm, j, indent))
    requires Clear(d, i + |EntryRows(t, vs, o, perm, j, indent)|, indent)
    ensures ParseBody(opt, t, indent, SeenAfter(perm, j, |vs|), FieldsAfter(vs, perm, j), d, i) ==
            Ok(Record(vs), i + |EntryRows(t, vs, o, perm, j, indent)|)
    decreases t, 0, |vs| - j
  {
    hide Parse, ParseBody, MappingEntry, CheckMissing, SeenAfter, FieldsAfter, Below, Inline, Headed, EntryRows,
      LaidOut, Readable;
    EntryRowsHead(t, vs, o, perm, j, indent);
    BodyStep(opt, t, indent, SeenAfter(perm, j, |vs|), FieldsAfter(vs, perm, j), d, i);
    if j == |vs| {
      NoRows(t, vs, o, perm, indent);
      NothingNext(d, i, indent);
      EndBody(t, vs, perm, i);
    } else {
      var k := perm[j];
      var ty, kid, more := t.fields[k].ty, Below(t.fields[k].ty, vs[k], Kid(o, k), indent + 2),
                           EntryRows(t, vs, o, perm, j + 1, indent);
      var row := Row(indent, Headed(t.fields[k].name + [COLON], Inline(ty, vs[k])));
      ShowsSplit(d, i, [row], kid + more);
      ShowsSplit(d, i + 1, kid, more);
      assert d.lines[i + 0].indent == indent && d.lines[i + 0].text == row.text;
      InlineTight(ty, vs[k]);
      EntryShown(d, i, indent, t.fields[k].name, Inline(ty, vs[k]));
      NameFound(t.fields, k, 0);
      StepBody(vs, perm, j);
      EntryRowsHead(t, vs, o, perm, j + 1, indent);
      RowsClear(d, i + 1 + |kid|, more, indent);
      ValueParses(opt, ty, vs[k], Kid(o, k), State(true, indent, d.lines[i].no, Inline(ty, vs[k])), d, i + 1);
      BodyParses(opt, t, vs, o, perm, j + 1, indent, d, i + 1 + |kid|);
    }
  }

  lemma NoRows(t: Type, vs: seq<Value>, o: Order, perm: seq<nat>, indent: nat)
    requires t.ObjectT? && LaidOut(t, Record(vs), false) == true && IsPermutation(perm, |vs|)
    ensures EntryRows(t, vs, o, perm, |vs|, indent) == []
  {}

  // ---- Sequences -------------------------------------------------------------------------------------

  lemma ItemRowsHead(t: Type, vs: seq<Value>, o: Order, j: nat, indent: nat)
    requires IsSequence(t) && LaidOut(t, List(vs), false) == true && j <= |vs|
    ensures Readable(t) && (j == |vs| ==> LengthOk(t, j))
    ensures var rows := ItemRows(t, vs, o, j, indent);
            (rows != [] ==> rows[0].indent == indent) && (j == |vs| ==> rows == [])
    ensures j < |vs| ==>
              LaidOut(ElemType(t, j), vs[j], true) && !Full(t, j) &&
              ItemRows(t, vs, o, j, indent) ==
              [Row(indent, Headed([DASH], Inline(ElemType(t, j), vs[j])))] +
              (Below(ElemType(t, j), vs[j], Kid(o, j), indent + 2) + ItemRows(t, vs, o, j + 1, indent))
  {
    hide Below, Inline, Headed;
  }

  lemma ItemShown(d: Document, i: nat, indent: nat, inlined: Text)
    requires i < |d.lines| && d.lines[i].indent == indent && d.lines[i].text == Headed([DASH], inlined)
    requires Tight(inlined)
    ensures SequenceItem(indent, d, i) == Next([], State(true, indent, d.lines[i].no, inlined))
  {
    hide Trim, Headed;
    ItemText(inlined);
  }

  lemma {:induction false} ItemsParse(
    opt: Options, t: Type, vs: seq<Value>, o: Order, j: nat, indent: nat, d: Document, i: nat)
    requires IsSequence(t) && LaidOut(t, List(vs), false) == true && j <= |vs|
    requires Shows(d, i, ItemRows(t, vs, o, j, indent))
    requires Clear(d, i + |ItemRows(t, vs, o, j, indent)|, indent)
    ensures ParseItems(opt, t, indent, vs[..j], d, i) == Ok(List(vs), i + |ItemRows(t, vs, o, j, indent)|)
    decreases t, 0, |vs| - j
  {
    hide Parse, ParseItems, SequenceItem, Below, Inline, Headed, ItemRows, LaidOut, Readable;
    ItemRowsHead(t, vs, o, j, indent);
    ItemStep(opt, t, indent, vs[..j], d, i);
    if j == |vs| {
      assert vs[..j] == vs;
      NothingNext(d, i, indent);
    } else {
      var ty := ElemType(t, j);
      var kid, more := Below(ty, vs[j], Kid(o, j), indent + 2), ItemRows(t, vs, o, j + 1, indent);
      var row := Row(indent, Headed([DASH], Inline(ty, vs[j])));
      ShowsSplit(d, i, [row], kid + more);
      ShowsSplit(d, i + 1, kid, more);
      assert d.lines[i + 0].indent == indent && d.lines[i + 0].text == row.text;
      InlineTight(ty, vs[j]);
      ItemShown(d, i, indent, Inline(ty, vs[j]));
      ItemRowsHead(t, vs, o, j + 1, indent);
      RowsClear(d, i + 1 + |kid|, more, indent);
      ValueParses(opt, ty, vs[j], Kid(o, j), State(true, indent, d.lines[i].no, Inline(ty, vs[j])), d, i + 1);
      assert vs[..j] + [vs[j]] == vs[..j + 1];
      ItemsParse(opt, t, vs, o, j + 1, indent, d, i + 1 + |kid|);
    }
  }

  // ---- Rows as text ----------------------------------------------------------------------------------

  function Spaces(k: nat): (s: Text)
    ensures |s| == k
  {
    if k == 0 then [] else [SPACE] + Spaces(k - 1)
  }

  function TextOf(rows: seq<Row>): Text {
    if rows == [] then []
    else Spaces(rows[0].indent) + rows[0].text + [LF] + TextOf(rows[1..])
  }

  predicate Unbroken(s: Text) { forall i :: 0 <= i < |s| ==> !IsBreak(s[i]) }

  /** Text that is one content line and stays as it is when scanned. */
  predicate Stable(s: Text) { s != [] && !IsSpace(s[0]) && Unbroken(s) && Normalize(s) == s }

  lemma {:induction false} SpacesIndent(k: nat, s: Text)
    requires s != [] && s[0] != SPACE
    ensures Indent(Spaces(k) + s) == k && (Spaces(k) + s)[k..] == s
    ensures Unbroken(s) ==> Unbroken(Spaces(k) + s)
  {
    if k == 0 {
      assert Spaces(k) + s == s;
    } else {
      assert (Spaces(k) + s)[1..] == Spaces(k - 1) + s;
      SpacesIndent(k - 1, s);
    }
  }

  lemma RowScans(r: Row, rest: Text, no: nat)
    requires Stable(r.text)
    ensures var d := Scan(rest, no + 1);
            Scan(Spaces(r.indent) + r.text + [LF] + rest, no) ==
            Document([Line(no, r.indent, r.text)] + d.lines, d.tab)
  {
    hide Normalize, Indent, FirstLine, AfterLine;
    SpacesIndent(r.indent, r.text);
    OneBreak(Spaces(r.indent) + r.text, [LF], rest);
  }

  lemma {:induction false} RowsScan(rows: seq<Row>, no: nat)
    requires forall j :: 0 <= j < |rows| ==> Stable(rows[j].text)
    ensures var d := Scan(TextOf(rows), no);
            !d.tab && |d.lines| == |rows| &&
            forall j :: 0 <= j < |rows| ==> d.lines[j] == Line(no + j, rows[j].indent, rows[j].text)
  {
    hide Stable;
    if rows != [] {
      RowScans(rows[0], TextOf(rows[1..]), no);
      RowsScan(rows[1..], no + 1);
    }
  }

  // ---- Rows are stable -------------------------------------------------------------------------------

  predicate Quiet(s: Text) { forall i :: 0 <= i < |s| ==> s[i] != SINGLE_QUOTE && s[i] != DOUBLE_QUOTE && s[i] != HASH }

  /** No comment starts in `s`, wherever on a line it stands. */
  predicate Calm(s: Text) {
    Tight(s) && Unbroken(s) && (s != [] ==> s[0] != HASH) && CommentStart(s, 0, false, false) == |s|
  }

  lemma {:induction false} CommentPast(a: Text, b: Text, i: nat)
    requires Quiet(a) && i <= |a|
    ensures CommentStart(a + b, i, false, false) == CommentStart(a + b, |a|, false, false)
    decreases |a| - i
  {
    if i < |a| {
      assert (a + b)[i] == a[i];
      CommentPast(a, b, i + 1);
    }
  }

  lemma {:induction false} CommentSuffix(a: Text, b: Text, j: nat, inSingle: bool, inDouble: bool)
    requires j <= |b| && (j == 0 && b != [] ==> b[0] != HASH)
    ensures CommentStart(a + b, |a| + j, inSingle, inDouble) == |a| + CommentStart(b, j, inSingle, inDouble)
    decreases |b| - j
  {
    if j < |b| {
      assert (a + b)[|a| + j] == b[j];
      if j > 0 { assert (a + b)[|a| + j - 1] == b[j - 1]; }
      CommentSuffix(a, b, j + 1, if b[j] == SINGLE_QUOTE && !inDouble then !inSingle else inSingle,
                    if b[j] == DOUBLE_QUOTE && !inSingle then !inDouble else inDouble);
    }
  }

  lemma QuietCalm(s: Text)
    requires Quiet(s) && Tight(s) && Unbroken(s)
    ensures Calm(s)
  {
    CommentPast(s, [], 0);
    assert s + [] == s;
  }

  lemma HeadedStable(head: Text, inlined: Text)
    requires head != [] && Quiet(head) && Tight(head) && Unbroken(head) && Calm(inlined)
    ensures Stable(Headed(head, inlined))
  {
    var s := Headed(head, inlined);
    var a := if inlined == [] then head else head + [SPACE];
    assert s == a + inlined;
    CommentPast(a, inlined, 0);
    CommentSuffix(a, inlined, 0, false, false);
    assert s[0] == head[0];
    if inlined == [] { assert s[|s| - 1] == head[|head| - 1]; } else { assert s[|s| - 1] == inlined[|inlined| - 1]; }
    TightTrim(s);
  }

  lemma LeafCalm(t: Leaf, v: Value)
    requires Readable(LeafT(t)) && LaidOut(LeafT(t), v, true) == true
    ensures Calm(ShowLeaf(t, v))
  {
    hide CommentStart, ShowInt, Escape;
    match t
    case BoolL => QuietCalm(ShowLeaf(t, v));
    case UIntL(_) =>
      IntegerText(v.n);
      QuietCalm(ShowInt(v.n));
    case IntL(_) =>
      IntegerText(v.n);
      QuietCalm(ShowInt(v.n));
    case StringL => EscapeUnbroken(v.bytes);
  }

  lemma {:induction false} EscapeUnbroken(s: Text)
    ensures Unbroken(Escape(s))
  {
    if s != [] { EscapeUnbroken(s[1..]); }
  }

  lemma {:induction false} InlineCalm(t: Type, v: Value)
    requires LaidOut(t, v, true) == true
    ensures Calm(Inline(t, v))
    decreases t
  {
    hide ShowLeaf, Calm;
    if t.LeafT? { LeafCalm(t.leaf, v); }
    else if t.OptionalT? && v.Just? { InlineCalm(t.elem, v.payload); }
    else if t.OptionalT? { NullCalm(); }
    else { EmptyCalm(); }
  }

  lemma NullCalm()
    ensures Calm(NULL_WORD)
  {
    QuietCalm(NULL_WORD);
  }

  lemma EmptyCalm()
    ensures Calm([])
  {}

  predicate AllStable(rows: seq<Row>) { forall j :: 0 <= j < |rows| ==> Stable(rows[j].text) }

  lemma StableJoin(r: Row, a: seq<Row>, b: seq<Row>)
    requires Stable(r.text) && AllStable(a) && AllStable(b)
    ensures AllStable([r] + (a + b))
  {}

  lemma {:induction false} BelowStable(t: Type, v: Value, o: Order, indent: nat)
    requires LaidOut(t, v, true) == true
    ensures AllStable(Below(t, v, o, indent))
    decreases t, 2, 0
  {
    hide Block, AllStable;
    if t.LeafT? || v.Nothing? { NoneStable(); }
    else if t.OptionalT? { BelowStable(t.elem, v.payload, o, indent); }
    else { BlockStable(t, v, o, indent); }
  }

  lemma NoneStable()
    ensures AllStable([])
  {}

  lemma {:induction false} BlockStable(t: Type, v: Value, o: Order, indent: nat)
    requires IsBlock(t) && LaidOut(t, v, false) == true
    ensures AllStable(Block(t, v, o, indent))
    decreases t, 1, 0
  {
    hide EntryRows, ItemRows, AllStable;
    if t.ObjectT? { EntriesStable(t, v.items, o, Permutation(o, |v.items|), 0, indent); }
    else { ItemsStable(t, v.items, o, 0, indent); }
  }

  lemma {:induction false} EntriesStable(t: Type, vs: seq<Value>, o: Order, perm: seq<nat>, j: nat, indent: nat)
    requires t.ObjectT? && LaidOut(t, Record(vs), false) == true && IsPermutation(perm, |vs|) && j <= |vs|
    ensures AllStable(EntryRows(t, vs, o, perm, j, indent))
    decreases t, 0, |vs| - j
  {
    hide Below, Inline, Headed, Stable, AllStable, EntryRows, LaidOut;
    EntryRowsHead(t, vs, o, perm, j, indent);
    if j == |vs| {
      NoRows(t, vs, o, perm, indent);
      NoneStable();
    } else {
      var k := perm[j];
      var ty := t.fields[k].ty;
      InlineCalm(ty, vs[k]);
      KeyQuiet(t.fields[k].name);
      HeadedStable(t.fields[k].name + [COLON], Inline(ty, vs[k]));
      BelowStable(ty, vs[k], Kid(o, k), indent + 2);
      EntriesStable(t, vs, o, perm, j + 1, indent);
      StableJoin(Row(indent, Headed(t.fields[k].name + [COLON], Inline(ty, vs[k]))),
                 Below(ty, vs[k], Kid(o, k), indent + 2), EntryRows(t, vs, o, perm, j + 1, indent));
    }
  }

  lemma KeyQuiet(name: Text)
    requires IsName(name)
    ensures var s := name + [COLON]; s != [] && Quiet(s) && Tight(s) && Unbroken(s)
  {}

  lemma {:induction false} ItemsStable(t: Type, vs: seq<Value>, o: Order, j: nat, indent: nat)
    requires IsSequence(t) && LaidOut(t, List(vs), false) == true && j <= |vs|
    ensures AllStable(ItemRows(t, vs, o, j, indent))
    decreases t, 0, |vs| - j
  {
    hide Below, Inline, Headed, Stable, AllStable, ItemRows, LaidOut;
    ItemRowsHead(t, vs, o, j, indent);
    if j == |vs| {
      NoneStable();
    } else {
      var ty := ElemType(t, j);
      InlineCalm(ty, vs[j]);
      HeadedStable([DASH], Inline(ty, vs[j]));
      BelowStable(ty, vs[j], Kid(o, j), indent + 2);
      ItemsStable(t, vs, o, j + 1, indent);
      StableJoin(Row(indent, Headed([DASH], Inline(ty, vs[j]))),
                 Below(ty, vs[j], Kid(o, j), indent + 2), ItemRows(t, vs, o, j + 1, indent));
    }
  }

  // ---- The document ----------------------------------------------------------------------------------

  /** A whole document for a value: a block, or one line with a scalar or a null. */
  function RootRows(t: Type, v: Value, o: Order): seq<Row>
    requires LaidOut(t, v, false) == true
    decreases t
  {
    if t.LeafT? then [Row(0, ShowLeaf(t.leaf, v))]
    else if t.OptionalT? then
      if v.Nothing? then [Row(0, NULL_WORD)]
      else
        Unnested(t.elem, v.payload);
        RootRows(t.elem, v.payload, o)
    else Block(t, v, o, 0)
  }

  lemma Unnested(t: Type, v: Value)
    requires LaidOut(t, v, true) == true
    ensures LaidOut(t, v, false)
  {}

  /** The document is a negative integer: its minus sign looks like the dash of a sequence item. */
  predicate NegativeRoot(v: Value) {
    (v.Int? && v.n < 0) || (v.Just? && NegativeRoot(v.payload))
  }

  lemma LeafToken(t: Leaf, v: Value)
    requires Readable(LeafT(t)) && LeafHas(t, v) == true
    ensures var s := ShowLeaf(t, v);
            s != [] && (s[0] == DASH <==> NegativeRoot(v)) && (IsQuoted(s) || ColonAt(s) == |s|)
  {
    hide ShowNat, Escape;
  }

  lemma LeafRoot(opt: Options, t: Leaf, v: Value, d: Document)
    requires LaidOut(LeafT(t), v, false) == true && !d.tab
    requires |d.lines| == 1 && d.lines[0].indent == 0 && d.lines[0].text == ShowLeaf(t, v)
    ensures Readable(LeafT(t))
    ensures Parse(opt, LeafT(t), NoValue, d, 0) == if NegativeRoot(v) then Err(ExpectedScalarValue) else Ok(v, 1)
  {
    hide ParseLeaf, ShowLeaf, ColonAt, NegativeRoot;
    LeafToken(t, v);
    LeafShown(t, v);
  }

  /** The first row of a nested block is no null. */
  lemma BlockHead(t: Type, v: Value, o: Order)
    requires IsBlock(t) && LaidOut(t, v, true) == true
    ensures LaidOut(t, v, false)
    ensures var rows := Block(t, v, o, 0); rows != [] && !NullWord(rows[0].text)
  {
    hide Below, Inline, EntryRows, ItemRows;
    if t.ObjectT? {
      var perm := Permutation(o, |v.items|);
      EntryRowsHead(t, v.items, o, perm, 0, 0);
      var text := Block(t, v, o, 0)[0].text;
      assert text[|t.fields[perm[0]].name|] == COLON;
      assert COLON in text;
    } else {
      ItemRowsHead(t, v.items, o, 0, 0);
      assert Block(t, v, o, 0)[0].text[0] == DASH;
    }
  }

  lemma {:induction false} RootParses(opt: Options, t: Type, v: Value, o: Order, d: Document)
    requires LaidOut(t, v, false) == true && !d.tab
    requires Shows(d, 0, RootRows(t, v, o)) && |d.lines| == |RootRows(t, v, o)|
    ensures Readable(t)
    ensures Parse(opt, t, NoValue, d, 0) ==
            if NegativeRoot(v) then Err(ExpectedScalarValue) else Ok(v, |d.lines|)
    decreases t
  {
    hide Parse, Block, ShowLeaf, Shows;
    var rows := RootRows(t, v, o);
    if t.LeafT? {
      FirstShown(d, rows);
      LeafRoot(opt, t.leaf, v, d);
    } else if t.OptionalT? {
      OptionalRoot(opt, t, v, o, d);
    } else {
      BlockRoot(opt, t, v, o, d);
    }
  }

  lemma FirstShown(d: Document, rows: seq<Row>)
    requires Shows(d, 0, rows) && rows != []
    ensures d.lines != [] && d.lines[0].indent == rows[0].indent && d.lines[0].text == rows[0].text
  {
    assert d.lines[0 + 0].indent == rows[0].indent;
  }

  lemma OptionalStarts(opt: Options, t: Type, d: Document)
    requires Readable(t) == true && t.OptionalT? && d.lines != [] && !d.tab && d.lines[0].indent == 0
    ensures Parse(opt, t, NoValue, d, 0) ==
            if NullWord(d.lines[0].text) then Ok(Nothing, 1) else Engaged(Parse(opt, t.elem, NoValue, d, 0))
  {}

  lemma {:induction false} OptionalRoot(opt: Options, t: Type, v: Value, o: Order, d: Document)
    requires t.OptionalT? && LaidOut(t, v, false) == true && !d.tab
    requires Shows(d, 0, RootRows(t, v, o)) && |d.lines| == |RootRows(t, v, o)|
    ensures Readable(t)
    ensures Parse(opt, t, NoValue, d, 0) ==
            if NegativeRoot(v) then Err(ExpectedScalarValue) else Ok(v, |d.lines|)
    decreases t, 0
  {
    hide Parse, Block, ShowLeaf, Shows, Readable;
    var rows := RootRows(t, v, o);
    if v.Just? {
      var x := v.payload;
      Unnested(t.elem, x);
      RootStarts(t.elem, x, o);
      RootParses(opt, t.elem, x, o, d);
    }
    FirstShown(d, rows);
    OptionalStarts(opt, t, d);
  }

  lemma RootStarts(t: Type, v: Value, o: Order)
    requires LaidOut(t, v, true) == true && !t.OptionalT?
    ensures LaidOut(t, v, false)
    ensures var rows := RootRows(t, v, o); rows != [] && rows[0].indent == 0 && !NullWord(rows[0].text)
  {
    hide Block, ShowLeaf, NullWord;
    if t.LeafT? {
      LeafShown(t.leaf, v);
    } else {
      BlockStarts(t, v, o, 0);
      BlockHead(t, v, o);
    }
  }

  lemma BlockRoot(opt: Options, t: Type, v: Value, o: Order, d: Document)
    requires IsBlock(t) && LaidOut(t, v, false) == true && !d.tab
    requires Shows(d, 0, Block(t, v, o, 0)) && |d.lines| == |Block(t, v, o, 0)|
    ensures Readable(t) && Parse(opt, t, NoValue, d, 0) == Ok(v, |d.lines|)
  {
    hide ParseBody, ParseItems, EntryRows, ItemRows;
    if t.ObjectT? {
      var perm := Permutation(o, |v.items|);
      StartBody(t, v.items, perm);
      BodyParses(opt, t, v.items, o, perm, 0, 0, d, 0);
    } else {
      assert v.items[..0] == [];
      ItemsParse(opt, t, v.items, o, 0, 0, d, 0);
    }
  }

  lemma CalmStable(r: Row)
    requires Calm(r.text) && r.text != []
    ensures AllStable([r])
  {
    TightTrim(r.text);
  }

  lemma {:induction false} RootStable(t: Type, v: Value, o: Order)
    requires LaidOut(t, v, false) == true
    ensures AllStable(RootRows(t, v, o))
    decreases t
  {
    hide Block, ShowLeaf, AllStable, Calm;
    if t.LeafT? {
      LeafCalm(t.leaf, v);
      LeafShown(t.leaf, v);
      CalmStable(Row(0, ShowLeaf(t.leaf, v)));
    } else if t.OptionalT? {
      if v.Just? {
        Unnested(t.elem, v.payload);
        RootStable(t.elem, v.payload, o);
      } else {
        NullCalm();
        CalmStable(Row(0, NULL_WORD));
      }
    } else {
      BlockStable(t, v, o, 0);
    }
  }

  /** The text of any value that can be laid out, two spaces a level and entries in any order, decodes
      to the value, whatever the reader's options - unless the whole document is a negative integer,
      which is refused. */
  lemma LayoutDecodes(opt: Options, t: Type, v: Value, o: Order)
    requires LaidOut(t, v, false) == true
    ensures var rows := RootRows(t, v, o);
            Readable(t) &&
            ParseDocument(opt, t, Scan(TextOf(rows), 1)) ==
            if NegativeRoot(v) then Err(ExpectedScalarValue) else Ok(v, |rows|)
  {
    hide Parse, RootRows, AllStable, Scan, TextOf, NegativeRoot;
    var rows := RootRows(t, v, o);
    var d := Scan(TextOf(rows), 1);
    RootStable(t, v, o);
    StableRows(rows);
    RowsScan(rows, 1);
    assert Shows(d, 0, rows);
    RootParses(opt, t, v, o, d);
  }

  lemma StableRows(rows: seq<Row>)
    requires AllStable(rows)
    ensures forall j :: 0 <= j < |rows| ==> Stable(rows[j].text)
  {}

  /** Strings without a double quote, and strings without a hash sign, are safe from the comment scan. */
  lemma QuoteUncommented(s: Text)
    requires DOUBLE_QUOTE !in s || HASH !in s
    ensures Uncommented(s)
  {
    var q := Quote(s);
    if HASH !in s {
      EscapeHashless(s);
      Hashless(q, 0, false, false);
    } else {
      EscapeQuoteless(s);
      QuotedScan(q, 0);
    }
  }

  lemma {:induction false} EscapeHashless(s: Text)
    requires HASH !in s
    ensures HASH !in Escape(s)
  {
    if s != [] { EscapeHashless(s[1..]); }
  }

  lemma {:induction false} EscapeQuoteless(s: Text)
    requires DOUBLE_QUOTE !in s
    ensures DOUBLE_QUOTE !in Escape(s)
  {
    if s != [] { EscapeQuoteless(s[1..]); }
  }

  lemma {:induction false} Hashless(s: Text, i: nat, inSingle: bool, inDouble: bool)
    requires HASH !in s && i <= |s|
    ensures CommentStart(s, i, inSingle, inDouble) == |s|
    decreases |s| - i
  {
    if i < |s| {
      Hashless(s, i + 1, if s[i] == SINGLE_QUOTE && !inDouble then !inSingle else inSingle,
               if s[i] == DOUBLE_QUOTE && !inSingle then !inDouble else inDouble);
    }
  }

  /** Between the first and the last character of a quoted string the double quote is open. */
  lemma {:induction false} QuotedScan(q: Text, i: nat)
    requires |q| >= 2 && q[0] == DOUBLE_QUOTE && q[|q| - 1] == DOUBLE_QUOTE && i <= |q|
    requires forall j :: 0 < j < |q| - 1 ==> q[j] != DOUBLE_QUOTE
    ensures CommentStart(q, i, false, 0 < i < |q|) == |q|
    decreases |q| - i
  {
    if i < |q| { QuotedScan(q, i + 1); }
  }

  /** A document that starts with a negative integer is refused, whatever follows. */
  lemma RootNegativeRefused(opt: Options, w: Width, n: int, d: Document)
    requires w != W8 && n < 0 && d.lines != [] && d.lines[0].indent == 0 && d.lines[0].text == ShowInt(n)
    ensures ParseDocument(opt, LeafT(IntL(w)), d) == Err(ExpectedScalarValue)
  {
    hide ShowNat;
  }

  // ---- What is lost ----------------------------------------------------------------------------------

  function Hashes(s: Text): nat {
    if s == [] then 0 else (if s[0] == HASH then 1 else 0) + Hashes(s[1..])
  }

  lemma {:induction false} HashesSum(a: Text, b: Text)
    ensures Hashes(a + b) == Hashes(a) + Hashes(b)
  {
    if a == [] {
      assert a + b == b;
    } else {
      assert (a + b)[1..] == a[1..] + b;
      HashesSum(a[1..], b);
    }
  }

  lemma {:induction false} EscapeHashes(s: Text)
    ensures Hashes(Escape(s)) == Hashes(s)
  {
    if s != [] {
      EscapeHashes(s[1..]);
      HashesSum(EscapeChar(s[0]), Escape(s[1..]));
      CharHashes(s[0]);
    }
  }

  lemma CharHashes(c: byte)
    ensures Hashes(EscapeChar(c)) == if c == HASH then 1 else 0
  {
    var e := EscapeChar(c);
    if |e| == 1 {
      assert e[1..] == [];
    } else {
      NoHashes(e);
    }
  }

  lemma {:induction false} NoHashes(s: Text)
    requires HASH !in s
    ensures Hashes(s) == 0
  {
    if s != [] { NoHashes(s[1..]); }
  }

  lemma {:induction false} UnescapeHashes(s: Text)
    requires Unescape(s).Some?
    ensures Hashes(Unescape(s).value) <= Hashes(s)
    decreases |s|
  {
    if s != [] {
      var n := if s[0] == BACKSLASH then 2 else 1;
      UnescapeHashes(s[n..]);
      assert s == s[..n] + s[n..];
      HashesSum(s[..n], s[n..]);
      var c := Unescape(s).value;
      assert c[1..] == Unescape(s[n..]).value;
      assert n == 1 ==> s[..n] == [s[0]];
    }
  }

  lemma {:induction false} TrimHashes(s: Text)
    ensures Hashes(Trim(s)) <= Hashes(s)
  {
    if s != [] && IsSpace(s[0]) {
      TrimHashes(s[1..]);
    } else {
      var r := TrimRight(s);
      assert s == r + s[|r|..];
      HashesSum(r, s[|r|..]);
    }
  }

  /** What is left of a string that the comment scan cuts is never read as that string. */
  lemma CutLost(s: Text)
    requires !Uncommented(s)
    ensures ParseString(Normalize(Quote(s))) != Some(s)
  {
    hide CommentStart, Trim, TrimRight, Escape, Unescape;
    var q := Quote(s);
    var k := CommentStart(q, 0, false, false);
    var left := TrimRight(q[..k]);
    var text := Trim(left);
    QuoteHashes(s);
    assert q == q[..k] + q[k..] && q[k..][0] == HASH;
    HashesSum(q[..k], q[k..]);
    assert q[..k] == left + q[..k][|left|..];
    HashesSum(left, q[..k][|left|..]);
    TrimHashes(left);
    if ParseString(text).Some? { ParsedHashes(text); }
  }

  lemma QuoteHashes(s: Text)
    ensures Hashes(Quote(s)) == Hashes(s)
  {
    EscapeHashes(s);
    HashesSum([DOUBLE_QUOTE] + Escape(s), [DOUBLE_QUOTE]);
    HashesSum([DOUBLE_QUOTE], Escape(s));
  }

  lemma ParsedHashes(s: Text)
    requires ParseString(s).Some?
    ensures Hashes(ParseString(s).value) <= Hashes(s)
  {
    hide Hashes, Unescape;
    if IsQuoted(s) {
      var m := s[1..|s| - 1];
      assert s == [s[0]] + m + [s[|s| - 1]];
      HashesSum([s[0]] + m, [s[|s| - 1]]);
      HashesSum([s[0]], m);
      if s[0] == DOUBLE_QUOTE { UnescapeHashes(m); }
    }
  }

  /** A quoted string is read back from its line exactly when the reader knows its escapes and the
      comment scan finds no comment in it. */
  lemma QuoteReads(s: Text)
    ensures ParseString(Normalize(Quote(s))) == Some(s) <==> Printable(s) && Uncommented(s)
  {
    if Uncommented(s) {
      var q := Quote(s);
      TightTrim(q);
      UnescapeEscape(s);
      assert q[1..|q| - 1] == Escape(s);
    } else {
      CutLost(s);
    }
  }

  /** A string alone in a document decodes to itself under the same condition, for every string. */
  lemma StringDecodes(opt: Options, s: Text)
    ensures var text := TextOf([Row(0, Quote(s))]);
            ParseDocument(opt, LeafT(StringL), Scan(text, 1)) == Ok(Blob(s), 1) <==> Printable(s) && Uncommented(s)
  {
    hide ParseString, Normalize, Scan, TextOf, Printable, Uncommented;
    var d := Scan(TextOf([Row(0, Quote(s))]), 1);
    QuoteScans(s);
    QuoteReads(s);
    if Printable(s) && Uncommented(s) { QuoteWhole(s); }
  }

  lemma QuoteScans(s: Text)
    ensures var text := Normalize(Quote(s));
            Scan(TextOf([Row(0, Quote(s))]), 1) == Document(if text == [] then [] else [Line(1, 0, text)], false)
  {
    hide Normalize, FirstLine, AfterLine;
    var q := Quote(s);
    EscapeUnbroken(s);
    assert q[0..] == q;
    OneBreak(q, [LF], []);
    assert [Row(0, q)][1..] == [] && TextOf([Row(0, q)]) == q + [LF] + [];
  }

  lemma QuoteWhole(s: Text)
    requires Uncommented(s)
    ensures Normalize(Quote(s)) == Quote(s) && IsQuoted(Quote(s)) && Quote(s)[0] != DASH
  {
    TightTrim(Quote(s));
  }

  /** A double quote, a space and a hash sign: the second quote is escaped, yet closes for the scan. */
  lemma QuotedHashLost(opt: Options)
    ensures var s := [DOUBLE_QUOTE, SPACE, HASH];
            Printable(s) &&
            ParseDocument(opt, LeafT(StringL), Scan(TextOf([Row(0, Quote(s))]), 1)) != Ok(Blob(s), 1)
  {
    hide CommentStart, ParseDocument, Scan, TextOf;
    var s := [DOUBLE_QUOTE, SPACE, HASH];
    StringDecodes(opt, s);
    assert s[1..] == [SPACE, HASH] && [SPACE, HASH][1..] == [HASH] && [HASH][1..] == [];
    assert Escape([HASH]) == [HASH] && Escape([SPACE, HASH]) == [SPACE, HASH];
    ScanCloses(Quote(s));
  }

  lemma ScanCloses(q: Text)
    requires q == [DOUBLE_QUOTE, BACKSLASH, DOUBLE_QUOTE, SPACE, HASH, DOUBLE_QUOTE]
    ensures CommentStart(q, 0, false, false) == 4
  {
    assert CommentStart(q, 3, false, false) == 4;
    assert CommentStart(q, 1, false, true) == 4;
  }

  /** A field whose name an earlier field has is never reached: a mapping that is accepted leaves it
      empty, and is accepted only if the field is an optional. */
  lemma {:induction false} ShadowedEmpty(
    opt: Options, t: Type, indent: nat, seen: seq<bool>, cur: seq<Value>, d: Document, i: nat, j: nat, k: nat)
    requires Readable(t) == true && t.ObjectT? && |seen| == |cur| == |t.fields| && i <= |d.lines|
    requires j < k < |t.fields| && t.fields[j].name == t.fields[k].name && !seen[k]
    ensures var r := ParseBody(opt, t, indent, seen, cur, d, i);
            r.Ok? ==> t.fields[k].ty.OptionalT? && r.val.Record? && k < |r.val.items| && r.val.items[k] == Nothing
    decreases |d.lines| - i
  {
    hide Parse, ParseBody, MappingEntry, CheckMissing;
    BodyStep(opt, t, indent, seen, cur, d, i);
    var e := MappingEntry(indent, d, i);
    if e.Stop? {
      MissingEmpty(t, seen, cur, 0, i, k);
    } else if e.Next? {
      var x := NameIndex(t.fields, e.key, 0);
      if x == |t.fields| {
        ShadowedEmpty(opt, t, indent, seen, cur, d, i + 1, j, k);
      } else {
        assert x != k;
        var r := Parse(opt, t.fields[x].ty, e.st, d, i + 1);
        if r.Ok? { ShadowedEmpty(opt, t, indent, seen[x := true], cur[x := r.val], d, r.pos, j, k); }
      }
    }
  }

  lemma {:induction false} MissingEmpty(t: Type, seen: seq<bool>, cur: seq<Value>, n: nat, i: nat, k: nat)
    requires t.ObjectT? && |seen| == |cur| == |t.fields| && n <= |cur| && k < |t.fields| && !seen[k]
    requires k < n ==> t.fields[k].ty.OptionalT? && cur[k] == Nothing
    ensures var r := CheckMissing(t, seen, cur, n, i);
            r.Ok? ==> t.fields[k].ty.OptionalT? && r.val.Record? && |r.val.items| == |cur| && r.val.items[k] == Nothing
    decreases |cur| - n
  {
    if n < |cur| {
      if seen[n] { MissingEmpty(t, seen, cur, n + 1, i, k); }
      else if t.fields[n].ty.OptionalT? { MissingEmpty(t, seen, cur[n := Nothing], n + 1, i, k); }
    }
  }

  /** So no document at all decodes to an object with a required field behind another of its name. */
  lemma ShadowedRefused(opt: Options, t: Type, st: State, d: Document, i: nat, j: nat, k: nat)
    requires Readable(t) == true && t.ObjectT? && i <= |d.lines|
    requires j < k < |t.fields| && t.fields[j].name == t.fields[k].name && !t.fields[k].ty.OptionalT?
    ensures Parse(opt, t, st, d, i).Err?
  {
    hide ParseBody;
    var b := BeginBlock(st, d, i, ExpectedNestedMapping, MissingNestedMapping);
    if b.At? { ShadowedEmpty(opt, t, b.indent, Unseen(t), Blank(t), d, i, j, k); }
  }

  /** An object or sequence with nothing to show is refused anywhere but at the root. */
  lemma EmptyRefused(opt: Options, t: Type, st: State, d: Document, i: nat)
    requires Readable(t) == true && IsBlock(t) && st.active && st.inlined == [] && Clear(d, i, ChildIndent(st))
    ensures Parse(opt, t, st, d, i) == Err(if t.ObjectT? then MissingNestedMapping else MissingNestedSequence)
  {
    hide ParseBody, ParseItems;
  }
}
