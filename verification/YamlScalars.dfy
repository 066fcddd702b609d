// What scalars and lines mean in the code's own characters: bare and quoted strings, escapes, numbers,
// words, comments, blank lines and tabs, stated apart from the functions that parse them.
module YamlScalars {
  import opened Bytes
  import opened Schema
  import opened YamlText
  import opened YamlCodec
  import opened YamlLayout

  /** The value after a colon or dash, with nothing below it. */
  predicate Inlined(st: State, s: Text) { st.active && st.inlined == s }

  // ---- Strings -------------------------------------------------------------------------------------

  /** Not between two quotes of the same kind. */
  predicate Bare(s: Text) { |s| < 2 || s[0] != s[|s| - 1] || (s[0] != 0x22 && s[0] != 0x27) }

  /** A bare string stands for itself, one between single quotes for what is between them. */
  predicate Verbatim(s: Text, x: Text) { (Bare(s) && x == s) || s == [0x27] + x + [0x27] }

  lemma StringReads(opt: Options, st: State, d: Document, i: nat, s: Text, x: Text)
    requires Inlined(st, s) && Verbatim(s, x) && i <= |d.lines|
    ensures Parse(opt, LeafT(StringL), st, d, i) == Ok(Blob(x), i)
  {
    if !Bare(s) { assert s[1..|s| - 1] == x; }
  }

  /** Such a string alone in a document, in a mapping and in a sequence. */
  lemma StringAlone(opt: Options, s: Text, x: Text)
    requires s != [] && Calm(s) && Verbatim(s, x)
    requires Bare(s) ==> COLON !in s && s[0] != DASH
    ensures ParseDocument(opt, LeafT(StringL), Scan(s + [LF], 1)) == Ok(Blob(x), 1)
  {
    hide Calm, Scan, TextOf, ParseString;
    OneRow(s, 0);
    RowRead(s, x);
    if Bare(s) { NoColon(s); }
  }

  lemma NoColon(s: Text)
    requires COLON !in s
    ensures ColonAt(s) == |s|
  {}

  lemma RowRead(s: Text, x: Text)
    requires Verbatim(s, x)
    ensures ParseString(s) == Some(x) && (IsQuoted(s) <==> !Bare(s)) && (!Bare(s) ==> s[0] != DASH)
  {
    if !Bare(s) { assert s[1..|s| - 1] == x; }
  }

  /** One line of calm text scans to itself. */
  lemma OneRow(s: Text, k: nat)
    requires s != [] && Calm(s)
    ensures Scan(Spaces(k) + s + [LF], 1) == Document([Line(1, k, s)], false)
    ensures k == 0 ==> Spaces(k) + s + [LF] == s + [LF]
  {
    hide Scan, Calm, Stable;
    CalmStable(Row(k, s));
    StableRows([Row(k, s)]);
    RowsScan([Row(k, s)], 1);
    assert [Row(k, s)][1..] == [] && TextOf([Row(k, s)]) == Spaces(k) + s + [LF] + [];
    assert Spaces(k) + s + [LF] + [] == Spaces(k) + s + [LF];
  }

  lemma StringInMapping(opt: Options, name: Text, s: Text, x: Text)
    requires IsName(name) && Calm(s) && Verbatim(s, x)
    ensures var t := ObjectT([Field(1, name, LeafT(StringL), Blob([]))]);
            ParseDocument(opt, t, Scan(Headed(name + [0x3a], s) + [LF], 1)) == Ok(Record([Blob(x)]), 1)
  {
    hide Calm, Scan, Headed, Parse, ParseBody, MappingEntry;
    var t := ObjectT([Field(1, name, LeafT(StringL), Blob([]))]);
    var text := Headed(name + [0x3a], s);
    HeadedCalm(name + [0x3a], s, name);
    OneRow(text, 0);
    var d := Document([Line(1, 0, text)], false);
    EntryShown(d, 0, 0, name, s);
    StringReads(opt, State(true, 0, 1, s), d, 1, s, x);
    ObjectStarts(opt, t, d);
    BodyStep(opt, t, 0, Unseen(t), Blank(t), d, 0);
    assert NameIndex(t.fields, name, 0) == 0;
    LastField(opt, t, d, [Blob(x)]);
    assert Unseen(t)[0 := true] == [true] && Blank(t)[0 := Blob(x)] == [Blob(x)];
  }

  lemma ObjectStarts(opt: Options, t: Type, d: Document)
    requires Readable(t) == true && t.ObjectT?
    ensures Parse(opt, t, NoValue, d, 0) == ParseBody(opt, t, 0, Unseen(t), Blank(t), d, 0)
  {
    hide ParseBody;
  }

  /** At the end of the document a mapping whose only field was seen is complete. */
  lemma LastField(opt: Options, t: Type, d: Document, vs: seq<Value>)
    requires Readable(t) == true && t.ObjectT? && |t.fields| == |vs| == 1 && !d.tab
    ensures ParseBody(opt, t, 0, [true], vs, d, |d.lines|) == Ok(Record(vs), |d.lines|)
  {
    hide MappingEntry, Parse;
    BodyStep(opt, t, 0, [true], vs, d, |d.lines|);
    NothingNext(d, |d.lines|, 0);
    assert CheckMissing(t, [true], vs, 1, |d.lines|) == Ok(Record(vs), |d.lines|);
  }

  lemma HeadedCalm(head: Text, s: Text, name: Text)
    requires Calm(s) && ((IsName(name) && head == name + [0x3a]) || head == [0x2d])
    ensures Headed(head, s) != [] && Calm(Headed(head, s)) && Tight(s)
  {
    assert Quiet(head) && Tight(head) && Unbroken(head) && head[0] != HASH;
    var text := Headed(head, s);
    var a := if s == [] then head else head + [SPACE];
    assert text == a + s && text[0] == head[0];
    CommentPast(a, s, 0);
    CommentSuffix(a, s, 0, false, false);
    if s == [] { assert text[|text| - 1] == head[|head| - 1]; } else { assert text[|text| - 1] == s[|s| - 1]; }
  }

  lemma StringInSequence(opt: Options, s: Text, x: Text)
    requires Calm(s) && Verbatim(s, x)
    ensures ParseDocument(opt, VectorT(LeafT(StringL)), Scan(Headed([0x2d], s) + [LF], 1)) == Ok(List([Blob(x)]), 1)
  {
    hide Calm, Scan, Headed, Parse, ParseItems, SequenceItem;
    var t := VectorT(LeafT(StringL));
    var text := Headed([0x2d], s);
    HeadedCalm([0x2d], s, []);
    OneRow(text, 0);
    var d := Document([Line(1, 0, text)], false);
    ItemShown(d, 0, 0, s);
    StringReads(opt, State(true, 0, 1, s), d, 1, s, x);
    SequenceStarts(opt, t, d);
    ItemStep(opt, t, 0, [], d, 0);
    assert [] + [Blob(x)] == [Blob(x)];
    ItemStep(opt, t, 0, [Blob(x)], d, 1);
    NothingNext(d, 1, 0);
  }

  lemma SequenceStarts(opt: Options, t: Type, d: Document)
    requires Readable(t) == true && t.VectorT?
    ensures Parse(opt, t, NoValue, d, 0) == ParseItems(opt, t, 0, [], d, 0)
  {
    hide ParseItems;
  }

  /** An entry `key: s` of a mapping at any depth gives the field of that name its string. */
  lemma EntryTakes(
    opt: Options, t: Type, indent: nat, seen: seq<bool>, cur: seq<Value>, d: Document, i: nat, f: nat, s: Text, x: Text)
    requires Readable(t) == true && t.ObjectT? && |seen| == |cur| == |t.fields| && f < |t.fields| && !seen[f]
    requires UniqueNames(t.fields) && t.fields[f].ty == LeafT(StringL) && Tight(s) && Verbatim(s, x)
    requires i < |d.lines| && d.lines[i].indent == indent
    requires d.lines[i].text == Headed(t.fields[f].name + [0x3a], s)
    ensures ParseBody(opt, t, indent, seen, cur, d, i) ==
            ParseBody(opt, t, indent, seen[f := true], cur[f := Blob(x)], d, i + 1)
  {
    hide Headed, Parse, ParseBody, MappingEntry, Readable;
    EntryShown(d, i, indent, t.fields[f].name, s);
    NameFound(t.fields, f, 0);
    StringReads(opt, State(true, indent, d.lines[i].no, s), d, i + 1, s, x);
    BodyStep(opt, t, indent, seen, cur, d, i);
  }

  /** An item `- s` of a sequence at any depth adds its string. */
  lemma ItemTakes(opt: Options, t: Type, indent: nat, acc: seq<Value>, d: Document, i: nat, s: Text, x: Text)
    requires Readable(t) == true && IsSequence(t) && !Full(t, |acc|) && ElemType(t, |acc|) == LeafT(StringL)
    requires Tight(s) && Verbatim(s, x)
    requires i < |d.lines| && d.lines[i].indent == indent && d.lines[i].text == Headed([0x2d], s)
    ensures ParseItems(opt, t, indent, acc, d, i) == ParseItems(opt, t, indent, acc + [Blob(x)], d, i + 1)
  {
    hide Headed, Parse, ParseItems, SequenceItem, Readable;
    ItemShown(d, i, indent, s);
    StringReads(opt, State(true, indent, d.lines[i].no, s), d, i + 1, s, x);
    ItemStep(opt, t, indent, acc, d, i);
  }

  /** An array that has all its elements takes no other item. */
  lemma OneTooMany(opt: Options, t: Type, indent: nat, acc: seq<Value>, d: Document, i: nat, s: Text)
    requires Readable(t) == true && Tight(s)
    requires (t.ArrayT? && |acc| == t.count) || (t.TupleT? && |acc| == |t.elems|)
    requires i < |d.lines| && d.lines[i].indent == indent && d.lines[i].text == Headed([0x2d], s)
    ensures ParseItems(opt, t, indent, acc, d, i) == Err(TooManySequenceItems)
  {
    hide Headed, Parse, ParseItems, SequenceItem, Readable;
    ItemShown(d, i, indent, s);
    ItemStep(opt, t, indent, acc, d, i);
  }

  // ---- Escapes ---------------------------------------------------------------------------------------

  /** What follows the backslash, and the character the two stand for. */
  predicate Escapes(e: byte, c: byte) {
    (e == 0x22 && c == 0x22) || (e == 0x5c && c == 0x5c) || (e == 0x6e && c == 0x0a) || (e == 0x72 && c == 0x0d) ||
    (e == 0x74 && c == 0x09)
  }

  /** `u` between double quotes stands for `x`. */
  predicate Stands(u: Text, x: Text)
    decreases |u|
  {
    if u == [] || x == [] then u == x
    else if u[0] != 0x5c then u[0] == x[0] && Stands(u[1..], x[1..])
    else |u| >= 2 && Escapes(u[1], x[0]) && Stands(u[2..], x[1..])
  }

  lemma {:induction false} UnescapeStands(u: Text, x: Text)
    ensures Unescape(u) == Some(x) <==> Stands(u, x)
    decreases |u|
  {
    if u != [] {
      var n := if u[0] == BACKSLASH then 2 else 1;
      if n <= |u| {
        if x != [] {
          UnescapeStands(u[n..], x[1..]);
          assert x == [x[0]] + x[1..];
        }
      }
    }
  }

  /** A double-quoted string is read exactly when all its escapes are known, and stands for what they say. */
  lemma DoubleReads(opt: Options, st: State, d: Document, i: nat, u: Text, x: Text)
    requires Inlined(st, [0x22] + u + [0x22]) && i <= |d.lines|
    ensures Parse(opt, LeafT(StringL), st, d, i) == Ok(Blob(x), i) <==> Stands(u, x)
    ensures var r := Parse(opt, LeafT(StringL), st, d, i);
            r.Err? ==> r.code == InvalidStringScalar
  {
    hide Unescape;
    var s := [0x22] + u + [0x22];
    assert s[1..|s| - 1] == u;
    UnescapeStands(u, x);
  }

  // ---- Words -----------------------------------------------------------------------------------------

  lemma BoolReads(opt: Options, st: State, d: Document, i: nat)
    requires st.active && i <= |d.lines|
    ensures Parse(opt, LeafT(BoolL), st, d, i) ==
            if st.inlined == [0x74, 0x72, 0x75, 0x65] then Ok(Bool(true), i)
            else if st.inlined == [0x66, 0x61, 0x6c, 0x73, 0x65] then Ok(Bool(false), i)
            else Err(ExpectedBooleanScalar)
  {}

  /** `null`, a tilde, or nothing at all with nothing below empties an optional; any other text is its
      payload's. A scalar payload has no lines of its own. */
  lemma NullReads(opt: Options, t: Type, st: State, d: Document, i: nat)
    requires Readable(t) == true && t.OptionalT? && st.active && i <= |d.lines|
    ensures var r := Parse(opt, t, st, d, i);
            if st.inlined == [0x6e, 0x75, 0x6c, 0x6c] || st.inlined == [0x7e] then r == Ok(Nothing, i)
            else if st.inlined != [] then r == Engaged(Parse(opt, t.elem, st, d, i))
            else if i < |d.lines| && d.lines[i].indent >= st.parentIndent + 2 then
              if t.elem.LeafT? then r == Err(UnexpectedNestedBlock)
              else !t.elem.OptionalT? ==> r == Engaged(Parse(opt, t.elem, st, d, i))
            else !d.tab || i < |d.lines| ==> r == Ok(Nothing, i)
  {
    hide Engaged;
  }

  // ---- Numbers ---------------------------------------------------------------------------------------

  function Pow10(n: nat): (r: nat)
    ensures r > 0
  {
    if n == 0 then 1 else 10 * Pow10(n - 1)
  }

  /** The k-th decimal digit, from the right. */
  function Place(n: nat, k: nat): nat { n / Pow10(k) % 10 }

  /** `s` is the decimal spelling of `n`, leading zeros allowed. */
  ghost predicate Decimal(s: Text, n: nat) {
    s != [] && n < Pow10(|s|) && forall i: nat :: i < |s| ==> s[i] == 0x30 + Place(n, |s| - 1 - i)
  }

  lemma {:induction false} DigitsDecimal(s: Text, n: nat)
    requires s != []
    ensures Digits(s) == Some(n) <==> Decimal(s, n)
    decreases |s|
  {
    hide Pow10;
    var rest, last := s[..|s| - 1], s[|s| - 1];
    OneDigit();
    if |s| == 1 {
      assert rest == [] && Digits(rest) == Some(0);
      assert forall i: nat :: i < |s| ==> s[i] == last && |s| - 1 - i == 0;
    } else {
      DigitsDecimal(rest, n / 10);
      DecimalStep(s, n);
      if Digits(rest).Some? { DigitsDecimal(rest, Digits(rest).value); }
    }
  }

  lemma OneDigit()
    ensures Pow10(0) == 1 && Pow10(1) == 10
  {}

  lemma PlaceNext(n: nat, k: nat)
    ensures Place(n, k + 1) == Place(n / 10, k)
  {
    DivideTwice(n, 10, Pow10(k));
  }

  lemma PlaceFirst(n: nat)
    ensures Place(n, 0) == n % 10
  {}

  lemma TenthBelow(n: nat, k: nat)
    ensures n / 10 < Pow10(k) <==> n < Pow10(k + 1)
  {}

  /** The last digit, and the others as the spelling of a tenth. */
  lemma DecimalStep(s: Text, n: nat)
    requires |s| >= 2
    ensures Decimal(s, n) <==> s[|s| - 1] == 0x30 + n % 10 && Decimal(s[..|s| - 1], n / 10)
  {
    hide Pow10, Place;
    var rest := s[..|s| - 1];
    PlaceFirst(n);
    TenthBelow(n, |rest|);
    forall i: nat | i < |rest| ensures rest[i] == s[i] && Place(n, |s| - 1 - i) == Place(n / 10, |rest| - 1 - i) {
      PlaceNext(n, |rest| - 1 - i);
    }
    if Decimal(rest, n / 10) && s[|s| - 1] == 0x30 + n % 10 {
      forall i: nat | i < |s| ensures s[i] == 0x30 + Place(n, |s| - 1 - i) {
        if i < |rest| { assert rest[i] == s[i]; }
      }
    }
    if Decimal(s, n) {
      forall i: nat | i < |rest| ensures rest[i] == 0x30 + Place(n / 10, |rest| - 1 - i) { assert rest[i] == s[i]; }
      assert s[|s| - 1] == 0x30 + Place(n, |s| - 1 - (|s| - 1));
    }
  }

  /** Digits, after a minus sign for signed types, of a number the width holds; nothing else. */
  lemma UnsignedReads(opt: Options, w: Width, st: State, d: Document, i: nat, n: int)
    requires w != W8 && st.active && i <= |d.lines|
    ensures Parse(opt, LeafT(UIntL(w)), st, d, i) == Ok(Int(n), i) <==>
            0 <= n < Pow2(w.Bits()) && Decimal(st.inlined, n)
    ensures var r := Parse(opt, LeafT(UIntL(w)), st, d, i); r.Err? ==> r.code == ExpectedIntegralScalar
  {
    hide Digits, Decimal, Pow2;
    WidthRange(w);
    NoDigits();
    if st.inlined != [] && n >= 0 { DigitsDecimal(st.inlined, n); }
  }

  lemma SignedReads(opt: Options, w: Width, st: State, d: Document, i: nat, n: int)
    requires w != W8 && st.active && i <= |d.lines|
    ensures var s := st.inlined;
            Parse(opt, LeafT(IntL(w)), st, d, i) == Ok(Int(n), i) <==>
            0 <= n + Pow2(w.Bits() - 1) < Pow2(w.Bits()) &&
            if s != [] && s[0] == 0x2d then n <= 0 && Decimal(s[1..], -n) else n >= 0 && Decimal(s, n)
    ensures var r := Parse(opt, LeafT(IntL(w)), st, d, i); r.Err? ==> r.code == ExpectedIntegralScalar
  {
    hide Digits, Decimal, Pow2;
    WidthRange(w);
    NoDigits();
    Doubled(w);
    var s := st.inlined;
    if s != [] && s[0] == 0x2d {
      if s[1..] != [] && n <= 0 { DigitsDecimal(s[1..], -n); }
    } else if s != [] && n >= 0 {
      DigitsDecimal(s, n);
    }
  }

  lemma NoDigits()
    ensures forall n :: !Decimal([], n)
  {}

  lemma Doubled(w: Width)
    ensures Pow2(w.Bits()) == 2 * Pow2(w.Bits() - 1)
  {}

  // ---- Lines -----------------------------------------------------------------------------------------

  predicate Blanks(s: Text) { forall i :: 0 <= i < |s| ==> s[i] == 0x20 || s[i] == 0x09 }

  /** Trimming takes spaces and tabs off both ends, and all of them. */
  lemma {:induction false} TrimMeans(s: Text)
    ensures exists a, b :: Blanks(a) && Blanks(b) && s == a + Trim(s) + b
    ensures var r := Trim(s); r != [] ==> !Blanks([r[0]]) && !Blanks([r[|r| - 1]])
  {
    hide TrimLeft, TrimRight;
    LeftMeans(s);
    RightMeans(TrimLeft(s));
    var r := Trim(s);
    var a, b := s[..|s| - |TrimLeft(s)|], TrimLeft(s)[|r|..];
    assert s == a + r + b;
    if r != [] {
      assert r[0] == TrimLeft(s)[0];
      assert [r[0]][0] == r[0] && [r[|r| - 1]][0] == r[|r| - 1];
    }
  }

  lemma {:induction false} LeftMeans(s: Text)
    ensures var r := TrimLeft(s);
            |r| <= |s| && s[|s| - |r|..] == r && Blanks(s[..|s| - |r|]) && (r != [] ==> !IsSpace(r[0]))
  {
    if s != [] && IsSpace(s[0]) {
      LeftMeans(s[1..]);
      var r := TrimLeft(s);
      assert s[..|s| - |r|] == [s[0]] + s[1..][..|s| - 1 - |r|];
    }
  }

  lemma {:induction false} RightMeans(s: Text)
    ensures var r := TrimRight(s); Blanks(s[|r|..]) && (r != [] ==> !IsSpace(r[|r| - 1]))
  {
    if s != [] && IsSpace(s[|s| - 1]) {
      var u := s[..|s| - 1];
      RightMeans(u);
      assert s[|TrimRight(u)|..] == u[|TrimRight(u)|..] + [s[|s| - 1]];
    }
  }

  /** A hash sign that is neither first nor behind a space starts no comment. */
  lemma {:induction false} NoComment(s: Text, i: nat, inSingle: bool, inDouble: bool)
    requires i <= |s| && forall k :: 0 <= k < |s| && s[k] == 0x23 ==> k > 0 && !Blanks([s[k - 1]])
    ensures CommentStart(s, i, inSingle, inDouble) == |s|
    decreases |s| - i
  {
    if i < |s| {
      if i > 0 { assert [s[i - 1]][0] == s[i - 1]; }
      NoComment(s, i + 1, if s[i] == SINGLE_QUOTE && !inDouble then !inSingle else inSingle,
                if s[i] == DOUBLE_QUOTE && !inSingle then !inDouble else inDouble);
    }
  }

  lemma {:induction false} TrimTail(s: Text, gap: Text)
    requires Tight(s) && Blanks(gap)
    ensures TrimRight(s + gap) == s
    decreases |gap|
  {
    if gap == [] {
      assert s + gap == s;
    } else {
      var g := gap[..|gap| - 1];
      assert (s + gap)[..|s + gap| - 1] == s + g;
      TrimTail(s, g);
    }
  }

  /** What a comment leaves of a line of text without quotes: the text before it, less the space between. */
  lemma CommentCut(s: Text, gap: Text, c: Text)
    requires Quiet(s) && Tight(s) && Blanks(gap) && (s != [] ==> gap != [])
    ensures Normalize(s + gap + [0x23] + c) == s
  {
    hide CommentStart, Trim, TrimRight;
    var a, b := s + gap, [0x23] + c;
    assert s + gap + [0x23] + c == a + b;
    CommentPast(a, b, 0);
    HashStarts(a, b);
    assert (a + b)[..|a|] == a;
    TrimTail(s, gap);
    TightTrim(s);
  }

  lemma HashStarts(a: Text, b: Text)
    requires b != [] && b[0] == HASH && (a != [] ==> IsSpace(a[|a| - 1]))
    ensures CommentStart(a + b, |a|, false, false) == |a|
  {}

  /** A line with a comment behind its text is that text; one with nothing else is no line at all, but
      counts. */
  lemma CommentLine(k: nat, s: Text, gap: Text, c: Text, rest: Text, no: nat)
    requires Quiet(s) && Tight(s) && Unbroken(s) && Unbroken(c) && Blanks(gap)
    requires if s == [] then gap == [] else gap != []
    ensures var d := Scan(rest, no + 1);
            Scan(Spaces(k) + (s + gap + [0x23] + c) + [LF] + rest, no) ==
            if s == [] then d else Document([Line(no, k, s)] + d.lines, d.tab)
  {
    hide Normalize, Indent, FirstLine, AfterLine;
    var text := s + gap + [0x23] + c;
    CommentCut(s, gap, c);
    assert text[0] == if s == [] then 0x23 else s[0];
    assert Unbroken(text);
    SpacesIndent(k, text);
    OneBreak(Spaces(k) + text, [LF], rest);
  }

  lemma BlankLine(k: nat, rest: Text, no: nat)
    ensures Scan(Spaces(k) + [LF] + rest, no) == Scan(rest, no + 1)
  {
    hide Indent, FirstLine, AfterLine, Normalize;
    AllSpaces(k);
    OneBreak(Spaces(k), [LF], rest);
    assert Spaces(k)[k..] == [];
    EmptyNormal();
  }

  lemma {:induction false} AllSpaces(k: nat)
    ensures Indent(Spaces(k)) == k && Unbroken(Spaces(k))
  {
    if k > 0 {
      AllSpaces(k - 1);
      assert Spaces(k)[1..] == Spaces(k - 1);
    }
  }

  lemma EmptyNormal()
    ensures Normalize([]) == []
  {}

  /** A tab in the indentation ends the document with an error, whatever stands behind it. */
  lemma TabLine(k: nat, x: Text, rest: Text, no: nat)
    requires Unbroken(x)
    ensures Scan(Spaces(k) + ([0x09] + x) + [LF] + rest, no) == Document([], true)
  {
    hide Indent, FirstLine, AfterLine, Content;
    SpacesIndent(k, [0x09] + x);
    OneBreak(Spaces(k) + ([0x09] + x), [LF], rest);
    assert (Spaces(k) + ([0x09] + x))[k] == 0x09;
  }

  lemma {:induction false} TrimHead(gap: Text, s: Text)
    requires Tight(s) && Blanks(gap)
    ensures TrimLeft(gap + s) == s
    decreases |gap|
  {
    if gap == [] {
      assert gap + s == s;
    } else {
      assert (gap + s)[1..] == gap[1..] + s;
      TrimHead(gap[1..], s);
    }
  }

  /** Spaces and tabs around the colon and the dash belong to neither side. */
  lemma EntryGaps(d: Document, i: nat, indent: nat, name: Text, left: Text, right: Text, s: Text)
    requires IsName(name) && Blanks(left) && Blanks(right) && Tight(s)
    requires i < |d.lines| && d.lines[i].indent == indent
    requires d.lines[i].text == name + left + [0x3a] + right + s
    ensures MappingEntry(indent, d, i) == Next(name, State(true, indent, d.lines[i].no, s))
  {
    hide TrimLeft, TrimRight, ColonAt;
    var text := d.lines[i].text;
    NameTight(name);
    assert text == (name + left) + ([0x3a] + (right + s));
    ColonFirst(name + left, [0x3a] + (right + s));
    assert text[..|name + left|] == name + left && text[|name + left| + 1..] == right + s;
    LeftKept(name, left);
    TrimTail(name, left);
    TrimHead(right, s);
    RightKept(s);
  }

  lemma LeftKept(name: Text, left: Text)
    requires name != [] && !IsSpace(name[0])
    ensures TrimLeft(name + left) == name + left
  {}

  lemma RightKept(s: Text)
    requires Tight(s)
    ensures TrimRight(s) == s
  {}

  lemma ItemGaps(d: Document, i: nat, indent: nat, right: Text, s: Text)
    requires Blanks(right) && Tight(s)
    requires i < |d.lines| && d.lines[i].indent == indent && d.lines[i].text == [0x2d] + right + s
    ensures SequenceItem(indent, d, i) == Next([], State(true, indent, d.lines[i].no, s))
  {
    hide TrimLeft, TrimRight;
    assert d.lines[i].text[1..] == right + s;
    TrimHead(right, s);
    RightKept(s);
  }

  // ---- Keys ------------------------------------------------------------------------------------------

  /** The same key twice: an error if the options say so, and otherwise the last value stays. */
  lemma LastKey(opt: Options, name: Text, a: Text, b: Text, d: Document)
    requires IsName(name) && Tight(a) && Tight(b) && Bare(a) && Bare(b) && !d.tab
    requires |d.lines| == 2 && d.lines[0].indent == d.lines[1].indent == 0
    requires d.lines[0].text == Headed(name + [0x3a], a) && d.lines[1].text == Headed(name + [0x3a], b)
    ensures var t := ObjectT([Field(1, name, LeafT(StringL), Blob([]))]);
            ParseDocument(opt, t, d) ==
            if opt.failOnDuplicateKeys then Err(DuplicateKey) else Ok(Record([Blob(b)]), 2)
  {
    hide Headed, Parse, ParseBody, MappingEntry;
    var t := ObjectT([Field(1, name, LeafT(StringL), Blob([]))]);
    EntryShown(d, 0, 0, name, a);
    EntryShown(d, 1, 0, name, b);
    StringReads(opt, State(true, 0, d.lines[0].no, a), d, 1, a, a);
    StringReads(opt, State(true, 0, d.lines[1].no, b), d, 2, b, b);
    ObjectStarts(opt, t, d);
    assert NameIndex(t.fields, name, 0) == 0;
    assert Unseen(t) == [false] && Blank(t) == [Nothing];
    BodyStep(opt, t, 0, [false], [Nothing], d, 0);
    assert [false][0 := true] == [true] && [Nothing][0 := Blob(a)] == [Blob(a)];
    BodyStep(opt, t, 0, [true], [Blob(a)], d, 1);
    assert [true][0 := true] == [true] && [Blob(a)][0 := Blob(b)] == [Blob(b)];
    LastField(opt, t, d, [Blob(b)]);
  }

  /** A key of no field: an error if the options say so, and otherwise passed over. */
  lemma StrangeKey(opt: Options, strange: Text, name: Text, a: Text, b: Text, d: Document)
    requires IsName(name) && IsName(strange) && strange != name && Tight(a) && Tight(b) && Bare(b) && !d.tab
    requires |d.lines| == 2 && d.lines[0].indent == d.lines[1].indent == 0
    requires d.lines[0].text == Headed(strange + [0x3a], a) && d.lines[1].text == Headed(name + [0x3a], b)
    ensures var t := ObjectT([Field(1, name, LeafT(StringL), Blob([]))]);
            ParseDocument(opt, t, d) == if opt.failOnUnknownKeys then Err(UnknownKey) else Ok(Record([Blob(b)]), 2)
  {
    hide Headed, Parse, ParseBody, MappingEntry;
    var t := ObjectT([Field(1, name, LeafT(StringL), Blob([]))]);
    EntryShown(d, 0, 0, strange, a);
    EntryShown(d, 1, 0, name, b);
    StringReads(opt, State(true, 0, d.lines[1].no, b), d, 2, b, b);
    ObjectStarts(opt, t, d);
    assert NameIndex(t.fields, strange, 0) == 1 && NameIndex(t.fields, name, 0) == 0;
    assert Unseen(t) == [false] && Blank(t) == [Nothing];
    BodyStep(opt, t, 0, [false], [Nothing], d, 0);
    BodyStep(opt, t, 0, [false], [Nothing], d, 1);
    assert [false][0 := true] == [true] && [Nothing][0 := Blob(b)] == [Blob(b)];
    LastField(opt, t, d, [Blob(b)]);
  }

  // ---- What is refused -------------------------------------------------------------------------------

  /** A line deeper than its block is refused, and so is a line of a mapping that is neither an item nor
      has a colon. */
  lemma LineRefused(indent: nat, d: Document, i: nat)
    requires i < |d.lines| && d.lines[i].text != []
    ensures var line := d.lines[i];
            var dash := line.text[0] == 0x2d;
            (line.indent > indent ==>
               MappingEntry(indent, d, i) == Bad(UnexpectedIndentation) &&
               SequenceItem(indent, d, i) == Bad(UnexpectedIndentation)) &&
            (line.indent < indent ==> MappingEntry(indent, d, i) == Stop && SequenceItem(indent, d, i) == Stop) &&
            (line.indent == indent && dash ==> MappingEntry(indent, d, i) == Stop) &&
            (line.indent == indent && !dash ==> SequenceItem(indent, d, i) == Stop) &&
            (line.indent == indent && !dash && 0x3a !in line.text ==> MappingEntry(indent, d, i) == Bad(ExpectedColon))
  {
    hide Trim;
    if 0x3a !in d.lines[i].text { NoColon(d.lines[i].text); }
  }

  /** A mapping is complete exactly when every field that was not seen is optional; those are emptied, and
      the others are as read. */
  lemma {:induction false} Missing(t: Type, seen: seq<bool>, cur: seq<Value>, k: nat, i: nat)
    requires t.ObjectT? && |seen| == |cur| == |t.fields| && k <= |cur|
    ensures var r := CheckMissing(t, seen, cur, k, i);
            if forall j :: k <= j < |cur| ==> seen[j] || t.fields[j].ty.OptionalT? then
              r.Ok? && r.val.Record? && |r.val.items| == |cur| &&
              forall j :: 0 <= j < |cur| ==> r.val.items[j] == if j < k || seen[j] then cur[j] else Nothing
            else r == Err(MissingRequiredKey)
    decreases |cur| - k
  {
    if k < |cur| {
      if seen[k] { Missing(t, seen, cur, k + 1, i); }
      else if t.fields[k].ty.OptionalT? { Missing(t, seen, cur[k := Nothing], k + 1, i); }
    }
  }

  /** Text where a block should be, or a line behind the value of the document, is refused. */
  lemma BlockRefused(opt: Options, t: Type, st: State, d: Document, i: nat)
    requires Readable(t) == true && i <= |d.lines|
    ensures (t.ObjectT? || t.ArrayT? || t.VectorT? || t.TupleT?) && st.active && st.inlined != [] ==>
              Parse(opt, t, st, d, i) == Err(if t.ObjectT? then ExpectedNestedMapping else ExpectedNestedSequence)
    ensures var r := Parse(opt, t, st, d, i);
            r.Ok? && r.pos < |d.lines| ==> ParseRest(opt, t, st, d, i) == Err(UnexpectedTrailingContent)
    ensures var r := Parse(opt, t, st, d, i);
            r.Ok? && r.pos == |d.lines| ==>
              ParseRest(opt, t, st, d, i) == if d.tab then Err(TabsNotSupported) else r
  {
    hide ParseBody, ParseItems, ParseScalar, ParseOptional;
  }

  /** The only line a scalar document may have: not indented, no item, and no colon outside quotes. */
  lemma RootRefused(opt: Options, t: Leaf, d: Document)
    requires Readable(LeafT(t)) == true
    ensures var r := Parse(opt, LeafT(t), NoValue, d, 0);
            if d.lines == [] then r == Err(if d.tab then TabsNotSupported else ExpectedScalarValue)
            else
              var s := d.lines[0].text;
              if d.lines[0].indent > 0 then r == Err(UnexpectedIndentation)
              else if s != [] && (s[0] == 0x2d || (Bare(s) && 0x3a in s)) then r == Err(ExpectedScalarValue)
              else r.Ok? ==> r.pos == 1
  {
    hide ParseLeaf;
    if d.lines != [] {
      var s := d.lines[0].text;
      if 0x3a !in s { NoColon(s); } else { SomeColon(s); }
    }
  }

  lemma SomeColon(s: Text)
    requires 0x3a in s
    ensures ColonAt(s) < |s|
  {}
}
