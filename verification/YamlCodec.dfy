// The YAML reader's codecs: what reading a value from the content lines of a document returns.
module YamlCodec {
  import opened Bytes
  import opened Schema
  import opened YamlText

  datatype Code =
    | ExpectedScalarValue
    | UnexpectedIndentation
    | ExpectedColon
    | MissingCurrentValue
    | ExpectedNestedMapping
    | MissingNestedMapping
    | ExpectedNestedSequence
    | MissingNestedSequence
    | UnexpectedNestedBlock
    | DuplicateKey
    | UnknownKey
    | MissingRequiredKey
    | TabsNotSupported
    | InternalScannerStateMismatch
    | InvalidStringScalar
    | ExpectedBooleanScalar
    | ExpectedIntegralScalar
    | TooManySequenceItems
    | SequenceLengthMismatch
    | UnexpectedTrailingContent

  datatype Options = Options(failOnUnknownKeys: bool, failOnDuplicateKeys: bool)

  const DASH: byte := '-' as int
  const COLON: byte := ':' as int
  const BACKSLASH: byte := 0x5c
  const TILDE: Text := ['~' as int]
  const NULL_WORD: Text := ['n' as int, 'u' as int, 'l' as int, 'l' as int]
  const TRUE_WORD: Text := ['t' as int, 'r' as int, 'u' as int, 'e' as int]
  const FALSE_WORD: Text := ['f' as int, 'a' as int, 'l' as int, 's' as int, 'e' as int]

  /** Types with a YAML codec here: no floats, no 8-bit integers, no maps or variants. */
  predicate Readable(t: Type)
    decreases t
  {
    if t.LeafT? then t.leaf.BoolL? || t.leaf.StringL? || ((t.leaf.UIntL? || t.leaf.IntL?) && t.leaf.width != W8)
    else if t.ArrayT? || t.VectorT? || t.OptionalT? then Readable(t.elem)
    else if t.TupleT? then forall i :: 0 <= i < |t.elems| ==> Readable(t.elems[i])
    else if t.ObjectT? then forall i :: 0 <= i < |t.fields| ==> Readable(t.fields[i].ty)
    else false
  }

  predicate IsBlock(t: Type) { t.ObjectT? || IsSequence(t) }

  // ---- Scalars -------------------------------------------------------------------------------------

  predicate IsQuoted(s: Text) {
    |s| >= 2 && s[0] == s[|s| - 1] && (s[0] == DOUBLE_QUOTE || s[0] == SINGLE_QUOTE)
  }

  /** The character an escape stands for. */
  function Unescaped(c: byte): Option<byte> {
    if c == BACKSLASH || c == DOUBLE_QUOTE then Some(c)
    else if c == 'n' as int then Some(LF)
    else if c == 'r' as int then Some(CR)
    else if c == 't' as int then Some(TAB)
    else None
  }

  /** `unescape_double_quoted` */
  function Unescape(s: Text): Option<Text> {
    if s == [] then Some([])
    else if s[0] != BACKSLASH then Prepend(Some(s[0]), Unescape(s[1..]))
    else if |s| == 1 then None
    else Prepend(Unescaped(s[1]), Unescape(s[2..]))
  }

  function Prepend(c: Option<byte>, s: Option<Text>): Option<Text> {
    if c.None? || s.None? then None else Some([c.value] + s.value)
  }

  /** `parse_string` */
  function ParseString(s: Text): Option<Text> {
    if !IsQuoted(s) then Some(s)
    else if s[0] == DOUBLE_QUOTE then Unescape(s[1..|s| - 1])
    else Some(s[1..|s| - 1])
  }

  const ZERO: byte := '0' as int

  predicate IsDigit(c: byte) { ZERO <= c < ZERO + 10 }

  /** A run of decimal digits, most significant first. */
  function Digits(s: Text): Option<nat> {
    if s == [] then Some(0)
    else
      var last := s[|s| - 1];
      match Digits(s[..|s| - 1])
      case None => None
      case Some(n) => if IsDigit(last) then Some(10 * n + last - ZERO) else None
  }

  /** `from_chars` over the whole token: at least one digit, a minus sign only for signed types, in range. */
  function ParseInteger(s: Text, low: int, high: int): Option<int> {
    var negative := low < 0 && s != [] && s[0] == DASH;
    var body := if negative then s[1..] else s;
    if body == [] then None
    else match Digits(body)
      case None => None
      case Some(n) =>
        var v: int := if negative then 0 - n else n;
        if low <= v <= high then Some(v) else None
  }

  datatype Scalar = Scalar(val: Value) | Refused(code: Code)

  function ParseLeaf(t: Leaf, s: Text): Scalar {
    match t
    case BoolL =>
      if s == TRUE_WORD then Scalar(Bool(true))
      else if s == FALSE_WORD then Scalar(Bool(false))
      else Refused(ExpectedBooleanScalar)
    case UIntL(w) =>
      (match ParseInteger(s, 0, w.UMax())
       case None => Refused(ExpectedIntegralScalar)
       case Some(n) => Scalar(Int(n)))
    case IntL(w) =>
      (match ParseInteger(s, w.SMin(), w.SMax())
       case None => Refused(ExpectedIntegralScalar)
       case Some(n) => Scalar(Int(n)))
    case _ =>
      match ParseString(s) case None => Refused(InvalidStringScalar) case Some(b) => Scalar(Blob(b))
  }

  // ---- Parser state --------------------------------------------------------------------------------

  /** The value being read: the rest of the line it starts on and how deep that line is indented. */
  datatype State = State(active: bool, parentIndent: nat, lineNo: nat, inlined: Text)

  const NoValue := State(false, 0, 1, [])

  function ChildIndent(st: State): nat { if st.active then st.parentIndent + 2 else 0 }

  /** `has_current_child_block` */
  predicate HasChild(st: State, d: Document, i: nat)
    requires i <= |d.lines|
  {
    i < |d.lines| && d.lines[i].indent >= ChildIndent(st)
  }

  /** The peeked end of the document is where a tab error surfaces. */
  predicate TabAt(d: Document, i: nat)
    requires i <= |d.lines|
  {
    i == |d.lines| && d.tab
  }

  datatype Token = Token(text: Text, pos: nat) | NoToken(code: Code)

  /** Position of the first colon, or the length. */
  function ColonAt(s: Text): (k: nat)
    ensures k <= |s|
    ensures k < |s| ==> s[k] == COLON
    ensures forall i :: 0 <= i < k ==> s[i] != COLON
  {
    if s == [] || s[0] == COLON then 0 else 1 + ColonAt(s[1..])
  }

  /** `read_scalar_token` */
  function ScalarToken(st: State, d: Document, i: nat): (r: Token)
    requires i <= |d.lines|
    ensures r.Token? ==> i <= r.pos <= |d.lines|
  {
    if st.active then Token(st.inlined, i)
    else if TabAt(d, i) then NoToken(TabsNotSupported)
    else if i == |d.lines| then NoToken(ExpectedScalarValue)
    else
      var line := d.lines[i];
      if line.indent != 0 then NoToken(UnexpectedIndentation)
      else if line.text != [] && line.text[0] == DASH then NoToken(ExpectedScalarValue)
      else if line.text != [] && !IsQuoted(line.text) && ColonAt(line.text) < |line.text|
        then NoToken(ExpectedScalarValue)
      else Token(line.text, i + 1)
  }

  datatype Begin = At(indent: nat) | NoBlock(code: Code)

  /** `begin_block` */
  function BeginBlock(st: State, d: Document, i: nat, inlineError: Code, missingError: Code): Begin
    requires i <= |d.lines|
  {
    if st.active && st.inlined != [] then NoBlock(inlineError)
    else if st.active && !HasChild(st, d, i) then
      if TabAt(d, i) then NoBlock(TabsNotSupported) else NoBlock(missingError)
    else At(ChildIndent(st))
  }

  datatype Step = Next(key: Text, st: State) | Stop | Bad(code: Code)

  /** `read_mapping_entry`: a key consumes its line. */
  function MappingEntry(indent: nat, d: Document, i: nat): (s: Step)
    requires i <= |d.lines|
    ensures s.Next? ==> i < |d.lines| && s.st.active
  {
    if TabAt(d, i) then Bad(TabsNotSupported)
    else if i == |d.lines| then Stop
    else
      var line := d.lines[i];
      var colon := ColonAt(line.text);
      if line.indent < indent then Stop
      else if line.indent > indent then Bad(UnexpectedIndentation)
      else if line.text == [] || line.text[0] == DASH then Stop
      else if colon == |line.text| then Bad(ExpectedColon)
      else Next(Trim(line.text[..colon]), State(true, indent, line.no, Trim(line.text[colon + 1..])))
  }

  /** `read_sequence_item` */
  function SequenceItem(indent: nat, d: Document, i: nat): (s: Step)
    requires i <= |d.lines|
    ensures s.Next? ==> i < |d.lines| && s.st.active
  {
    if TabAt(d, i) then Bad(TabsNotSupported)
    else if i == |d.lines| then Stop
    else
      var line := d.lines[i];
      if line.indent < indent then Stop
      else if line.indent > indent then Bad(UnexpectedIndentation)
      else if line.text == [] || line.text[0] != DASH then Stop
      else Next([], State(true, indent, line.no, Trim(line.text[1..])))
  }

  // ---- Values ----------------------------------------------------------------------------------------

  /** The value and the first line not consumed, or the error code. */
  datatype Res = Ok(val: Value, pos: nat) | Err(code: Code)

  function Parse(opt: Options, t: Type, st: State, d: Document, i: nat): (r: Res)
    requires Readable(t) == true && i <= |d.lines|
    ensures r.Ok? ==> i <= r.pos <= |d.lines|
    decreases t, 1, 0
  {
    if t.LeafT? then ParseScalar(t.leaf, st, d, i)
    else if t.OptionalT? then ParseOptional(opt, t, st, d, i)
    else if t.ObjectT? then
      (match BeginBlock(st, d, i, ExpectedNestedMapping, MissingNestedMapping)
       case NoBlock(c) => Err(c)
       case At(indent) => ParseBody(opt, t, indent, Unseen(t), Blank(t), d, i))
    else
      match BeginBlock(st, d, i, ExpectedNestedSequence, MissingNestedSequence)
      case NoBlock(c) => Err(c)
      case At(indent) => ParseItems(opt, t, indent, [], d, i)
  }

  function Unseen(t: Type): (s: seq<bool>)
    requires t.ObjectT?
    ensures |s| == |t.fields|
  {
    seq(|t.fields|, _ => false)
  }

  function Blank(t: Type): (s: seq<Value>)
    requires t.ObjectT?
    ensures |s| == |t.fields|
  {
    seq(|t.fields|, _ => Nothing)
  }

  function ParseScalar(t: Leaf, st: State, d: Document, i: nat): (r: Res)
    requires i <= |d.lines|
    ensures r.Ok? ==> i <= r.pos <= |d.lines|
  {
    match ScalarToken(st, d, i)
    case NoToken(c) => Err(c)
    case Token(s, p) =>
      match ParseLeaf(t, s)
      case Refused(c) => Err(c)
      case Scalar(v) => Ok(v, p)
  }

  predicate NullWord(s: Text) { s == NULL_WORD || s == TILDE }

  function ParseOptional(opt: Options, t: Type, st: State, d: Document, i: nat): (r: Res)
    requires Readable(t) == true && t.OptionalT? && i <= |d.lines|
    ensures r.Ok? ==> i <= r.pos <= |d.lines|
    decreases t, 0, 0
  {
    if st.active then
      if NullWord(st.inlined) then Ok(Nothing, i)
      else if st.inlined == [] && !HasChild(st, d, i) then
        if TabAt(d, i) then Err(TabsNotSupported) else Ok(Nothing, i)
      else if st.inlined == [] && !IsBlock(t.elem) then Err(UnexpectedNestedBlock)
      else Engaged(Parse(opt, t.elem, st, d, i))
    else if TabAt(d, i) then Err(TabsNotSupported)
    else if i == |d.lines| then Ok(Nothing, i)
    else if d.lines[i].indent == 0 && NullWord(d.lines[i].text) then Ok(Nothing, i + 1)
    else Engaged(Parse(opt, t.elem, st, d, i))
  }

  function Engaged(r: Res): Res {
    match r case Err(c) => Err(c) case Ok(v, p) => Ok(Just(v), p)
  }

  /** The rest of a mapping at `indent`. */
  function ParseBody(
    opt: Options, t: Type, indent: nat, seen: seq<bool>, cur: seq<Value>, d: Document, i: nat): (r: Res)
    requires Readable(t) == true && t.ObjectT? && |seen| == |cur| == |t.fields| && i <= |d.lines|
    ensures r.Ok? ==> i <= r.pos <= |d.lines|
    decreases t, 0, |d.lines| - i
  {
    match MappingEntry(indent, d, i)
    case Bad(c) => Err(c)
    case Stop => CheckMissing(t, seen, cur, 0, i)
    case Next(key, st) =>
      var k := NameIndex(t.fields, key, 0);
      if k == |t.fields| then
        if opt.failOnUnknownKeys then Err(UnknownKey) else ParseBody(opt, t, indent, seen, cur, d, i + 1)
      else if seen[k] && opt.failOnDuplicateKeys then Err(DuplicateKey)
      else match Parse(opt, t.fields[k].ty, st, d, i + 1)
        case Err(c) => Err(c)
        case Ok(v, p) => ParseBody(opt, t, indent, seen[k := true], cur[k := v], d, p)
  }

  /** Fields that were not seen must be optional, and are emptied. */
  function CheckMissing(t: Type, seen: seq<bool>, cur: seq<Value>, k: nat, i: nat): (r: Res)
    requires t.ObjectT? && |seen| == |cur| == |t.fields| && k <= |cur|
    ensures r.Ok? ==> r.pos == i
    decreases |cur| - k
  {
    if k == |cur| then Ok(Record(cur), i)
    else if seen[k] then CheckMissing(t, seen, cur, k + 1, i)
    else if t.fields[k].ty.OptionalT? then CheckMissing(t, seen, cur[k := Nothing], k + 1, i)
    else Err(MissingRequiredKey)
  }

  /** The rest of a sequence at `indent`, after the elements in `acc`. */
  function ParseItems(opt: Options, t: Type, indent: nat, acc: seq<Value>, d: Document, i: nat): (r: Res)
    requires Readable(t) == true && IsSequence(t) && i <= |d.lines|
    ensures r.Ok? ==> i <= r.pos <= |d.lines|
    decreases t, 0, |d.lines| - i
  {
    match SequenceItem(indent, d, i)
    case Bad(c) => Err(c)
    case Stop => EndItems(t, acc, i)
    case Next(_, st) =>
      if Full(t, |acc|) then Err(TooManySequenceItems)
      else match Parse(opt, ElemType(t, |acc|), st, d, i + 1)
        case Err(c) => Err(c)
        case Ok(v, p) => ParseItems(opt, t, indent, acc + [v], d, p)
  }

  function EndItems(t: Type, acc: seq<Value>, i: nat): Res
    requires IsSequence(t)
  {
    if LengthOk(t, |acc|) then Ok(List(acc), i) else Err(SequenceLengthMismatch)
  }

  predicate Full(t: Type, n: nat)
    requires IsSequence(t)
  {
    if t.ArrayT? then n >= t.count else if t.TupleT? then n >= |t.elems| else false
  }

  /** `reader::read`: one value from line `i` on, and nothing after it. */
  function ParseRest(opt: Options, t: Type, st: State, d: Document, i: nat): Res
    requires Readable(t) == true && i <= |d.lines|
  {
    match Parse(opt, t, st, d, i)
    case Err(c) => Err(c)
    case Ok(v, p) =>
      if TabAt(d, p) then Err(TabsNotSupported)
      else if p < |d.lines| then Err(UnexpectedTrailingContent)
      else Ok(v, p)
  }

  /** The first read of a document. */
  function ParseDocument(opt: Options, t: Type, d: Document): Res
    requires Readable(t) == true
  {
    ParseRest(opt, t, NoValue, d, 0)
  }

  // ---- One step of each loop --------------------------------------------------------------------------

  lemma BodyStep(opt: Options, t: Type, indent: nat, seen: seq<bool>, cur: seq<Value>, d: Document, i: nat)
    requires Readable(t) == true && t.ObjectT? && |seen| == |cur| == |t.fields| && i <= |d.lines|
    ensures ParseBody(opt, t, indent, seen, cur, d, i) ==
            var e := MappingEntry(indent, d, i);
            if e.Bad? then Err(e.code)
            else if e.Stop? then CheckMissing(t, seen, cur, 0, i)
            else
              var k := NameIndex(t.fields, e.key, 0);
              if k == |t.fields| then
                if opt.failOnUnknownKeys then Err(UnknownKey) else ParseBody(opt, t, indent, seen, cur, d, i + 1)
              else if seen[k] && opt.failOnDuplicateKeys then Err(DuplicateKey)
              else
                var r := Parse(opt, t.fields[k].ty, e.st, d, i + 1);
                if r.Err? then r else ParseBody(opt, t, indent, seen[k := true], cur[k := r.val], d, r.pos)
  {
    hide Parse, MappingEntry, CheckMissing;
  }

  lemma ItemStep(opt: Options, t: Type, indent: nat, acc: seq<Value>, d: Document, i: nat)
    requires Readable(t) == true && IsSequence(t) && i <= |d.lines|
    ensures ParseItems(opt, t, indent, acc, d, i) ==
            var e := SequenceItem(indent, d, i);
            if e.Bad? then Err(e.code)
            else if e.Stop? then EndItems(t, acc, i)
            else if Full(t, |acc|) then Err(TooManySequenceItems)
            else
              var r := Parse(opt, ElemType(t, |acc|), e.st, d, i + 1);
              if r.Err? then r else ParseItems(opt, t, indent, acc + [r.val], d, r.pos)
  {
    hide Parse, SequenceItem;
  }

  // ---- Extent of a block -----------------------------------------------------------------------------

  /** Nothing of a block at `indent` starts at line `i`: the document ends there, the line is less
      indented, or it is an entry of the other kind. */
  predicate Ends(mapping: bool, indent: nat, d: Document, i: nat)
    requires i <= |d.lines|
  {
    (i == |d.lines| && !d.tab) ||
    (i < |d.lines| &&
     (d.lines[i].indent < indent ||
      (d.lines[i].indent == indent && (d.lines[i].text == [] || (d.lines[i].text[0] == DASH) == mapping))))
  }

  /** Lines `i` up to `p` are all indented at least `indent`. */
  predicate Within(indent: nat, d: Document, i: nat, p: nat)
    requires i <= p <= |d.lines|
  {
    forall j :: i <= j < p ==> d.lines[j].indent >= indent
  }

  /** A value read as the current value consumes only lines indented below its own. */
  lemma {:induction false} ValueExtent(opt: Options, t: Type, st: State, d: Document, i: nat)
    requires Readable(t) == true && i <= |d.lines| && st.active && Parse(opt, t, st, d, i).Ok?
    ensures var p := Parse(opt, t, st, d, i).pos;
            Within(ChildIndent(st), d, i, p) && (IsBlock(t) ==> Ends(t.ObjectT?, ChildIndent(st), d, p))
    decreases t, 1, 0
  {
    hide ParseScalar, ParseBody, ParseItems, Ends;
    if t.LeafT? {
      ScalarExtent(t.leaf, st, d, i);
    } else if t.OptionalT? {
      if Parse(opt, t, st, d, i).val.Just? { ValueExtent(opt, t.elem, st, d, i); }
    } else if t.ObjectT? {
      BodyExtent(opt, t, ChildIndent(st), Unseen(t), Blank(t), d, i);
    } else {
      ItemsExtent(opt, t, ChildIndent(st), [], d, i);
    }
  }

  lemma ScalarExtent(t: Leaf, st: State, d: Document, i: nat)
    requires i <= |d.lines| && st.active && ParseScalar(t, st, d, i).Ok?
    ensures ParseScalar(t, st, d, i).pos == i
  {
    hide ParseLeaf;
  }

  /** A mapping read at `indent` is a contiguous run of lines indented at least that deep, up to the
      end of the document, a smaller indent, or an item of a sequence. */
  lemma {:induction false} BodyExtent(
    opt: Options, t: Type, indent: nat, seen: seq<bool>, cur: seq<Value>, d: Document, i: nat)
    requires Readable(t) == true && t.ObjectT? && |seen| == |cur| == |t.fields| && i <= |d.lines|
    requires ParseBody(opt, t, indent, seen, cur, d, i).Ok?
    ensures var p := ParseBody(opt, t, indent, seen, cur, d, i).pos;
            Within(indent, d, i, p) && Ends(true, indent, d, p)
    decreases t, 0, |d.lines| - i
  {
    hide Parse, CheckMissing;
    match MappingEntry(indent, d, i)
    case Stop =>
    case Next(key, st) =>
      var k := NameIndex(t.fields, key, 0);
      if k == |t.fields| {
        BodyExtent(opt, t, indent, seen, cur, d, i + 1);
      } else {
        ValueExtent(opt, t.fields[k].ty, st, d, i + 1);
        var r := Parse(opt, t.fields[k].ty, st, d, i + 1);
        BodyExtent(opt, t, indent, seen[k := true], cur[k := r.val], d, r.pos);
      }
  }

  lemma {:induction false} ItemsExtent(opt: Options, t: Type, indent: nat, acc: seq<Value>, d: Document, i: nat)
    requires Readable(t) == true && IsSequence(t) && i <= |d.lines|
    requires ParseItems(opt, t, indent, acc, d, i).Ok?
    ensures var p := ParseItems(opt, t, indent, acc, d, i).pos;
            Within(indent, d, i, p) && Ends(false, indent, d, p)
    decreases t, 0, |d.lines| - i
  {
    hide Parse;
    match SequenceItem(indent, d, i)
    case Stop =>
    case Next(_, st) =>
      var e := ElemType(t, |acc|);
      ValueExtent(opt, e, st, d, i + 1);
      var r := Parse(opt, e, st, d, i + 1);
      ItemsExtent(opt, t, indent, acc + [r.val], d, r.pos);
  }
}
