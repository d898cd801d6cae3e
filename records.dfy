/**
 * The eight record kinds of a Neoden TM-220A/TM-240A placement file (tm2x0/instructions.py):
 * how a line is recognised, how each record is written back as CSV, and how it is described.
 */
module Records {
  import opened Wrappers
  import opened Numerals
  import opened Decimals
  import Text

  /** The first field of the four machine-configuration records. */
  const ConfigFlag: int := 65535

  /** describe_stack: slot 0 is the front tray, any other slot is a reel. */
  function DescribeStack(stack: int, capitalizeTray: bool): string {
    if stack == 0 && capitalizeTray then "The front tray"
    else if stack == 0 then "the front tray"
    else "Reel " + IntToString(stack)
  }

  /**
   * The front tray is named with or without a capital as asked; any other slot n is "Reel n"
   * whatever the flag, and n can be read back from the name.
   */
  lemma DescribeStackCases(stack: int, capitalizeTray: bool)
    ensures DescribeStack(stack, capitalizeTray) == "The front tray" <==> stack == 0 && capitalizeTray
    ensures DescribeStack(stack, capitalizeTray) == "the front tray" <==> stack == 0 && !capitalizeTray
    ensures stack != 0 ==> DescribeStack(stack, capitalizeTray) == DescribeStack(stack, !capitalizeTray)
    ensures stack != 0 ==> var s := DescribeStack(stack, capitalizeTray);
      Text.StartsWith(s, "Reel ") && ParseInt(s[5..]) == Success(stack)
  {
    var s := DescribeStack(stack, capitalizeTray);
    if stack != 0 {
      assert s[0] == 'R';
      assert s[5..] == IntToString(stack);
      ParseIntToString(stack);
    }
  }

  /**
   * One line of a placement file. Decimal fields hold the value as read or given (the source's
   * _x, _y, _feed_spacing, _height); every use of them goes through represent_decimal.
   * Skip flags keep only their truth value, the only thing the source ever looks at.
   */
  datatype Instruction =
    | Blank
    | Comment(comment: string)
    | Speed(speed: int)
    | OriginOffset(x: Dec, y: Dec)
    | StackOffset(stack: int, x: Dec, y: Dec, comment: string)
    | FeedSpacing(stack: int, feedSpacing: Dec)
    | PanelizedBoard(x: Dec, y: Dec, skip: bool)
    | PartPlacement(partNumber: int, pickupHead: int, stack: int, x: Dec, y: Dec,
                    rotation: int, height: Dec, skip: bool, reference: string, comment: string)

  /** The record classes, in the order add_from_line offers a line to them. */
  datatype Kind = CommentKind | BlankKind | SpeedKind | OriginKind | StackKind | FeedKind | PanelKind | PartKind

  const Recognisers: seq<Kind> :=
    [CommentKind, BlankKind, SpeedKind, OriginKind, StackKind, FeedKind, PanelKind, PartKind]

  function KindOf(i: Instruction): Kind {
    match i
    case Blank => BlankKind
    case Comment(_) => CommentKind
    case Speed(_) => SpeedKind
    case OriginOffset(_, _) => OriginKind
    case StackOffset(_, _, _, _) => StackKind
    case FeedSpacing(_, _) => FeedKind
    case PanelizedBoard(_, _, _) => PanelKind
    case PartPlacement(_, _, _, _, _, _, _, _, _, _) => PartKind
  }

  /** A decimal as the records print it: str(represent_decimal(d)). */
  function DecimalText(d: Dec): string {
    DecToString(RepresentDecimal(d))
  }

  /** The value a record's decimal field reports (its x, y, feed_spacing or height property). */
  function Canonical(i: Instruction): Instruction {
    match i
    case OriginOffset(x, y) => OriginOffset(RepresentDecimal(x), RepresentDecimal(y))
    case StackOffset(s, x, y, c) => StackOffset(s, RepresentDecimal(x), RepresentDecimal(y), c)
    case FeedSpacing(s, f) => FeedSpacing(s, RepresentDecimal(f))
    case PanelizedBoard(x, y, skip) => PanelizedBoard(RepresentDecimal(x), RepresentDecimal(y), skip)
    case PartPlacement(n, h, s, x, y, r, ht, skip, ref, c) =>
      PartPlacement(n, h, s, RepresentDecimal(x), RepresentDecimal(y), r, RepresentDecimal(ht), skip, ref, c)
    case _ => i
  }

  // ---------------------------------------------------------------- writing

  function SkipText(skip: bool): string {
    if skip then IntToString(1) else IntToString(0)
  }

  /** The first two fields of the four configuration records: 65535 and the record's kind. */
  function ConfigHeader(kind: int): seq<string> {
    [IntToString(ConfigFlag), IntToString(kind)]
  }

  /** SpeedInstruction._get_csv_tokens. */
  function SpeedTokens(speed: int): seq<string> {
    var zero := IntToString(0);
    [zero, IntToString(speed)] + [zero, zero, zero, zero, zero, zero, ""]
  }

  /** OriginOffsetInstruction._get_csv_tokens. */
  function OriginTokens(x: Dec, y: Dec): seq<string> {
    ConfigHeader(0) + [DecimalText(x), DecimalText(y), "", ""]
  }

  /** StackOffsetInstruction._get_csv_tokens. */
  function StackTokens(stack: int, x: Dec, y: Dec, comment: string): seq<string> {
    ConfigHeader(1) + [IntToString(stack)] + [DecimalText(x), DecimalText(y), comment]
  }

  /** FeedSpacingInstruction._get_csv_tokens. */
  function FeedTokens(stack: int, feedSpacing: Dec): seq<string> {
    ConfigHeader(2) + [IntToString(stack)] + [DecimalText(feedSpacing), ""]
  }

  /** PanelizedBoardInstruction._get_csv_tokens. */
  function PanelTokens(x: Dec, y: Dec, skip: bool): seq<string> {
    var zero := IntToString(0);
    ConfigHeader(3) + [DecimalText(x), DecimalText(y)] + [SkipText(skip), zero, zero, zero, ""]
  }

  /** PartPlacementInstruction._get_csv_tokens. */
  function PartTokens(partNumber: int, pickupHead: int, stack: int, x: Dec, y: Dec,
                      rotation: int, height: Dec, skip: bool, reference: string, comment: string): seq<string> {
    [IntToString(partNumber), IntToString(pickupHead), IntToString(stack)]
    + [DecimalText(x), DecimalText(y)] + [IntToString(rotation)] + [DecimalText(height)]
    + [SkipText(skip), reference, comment]
  }

  /** _get_csv_tokens of the six records that are written field by field. */
  function CsvFields(i: Instruction): seq<string>
    requires !i.Blank? && !i.Comment?
  {
    match i
    case Speed(v) => SpeedTokens(v)
    case OriginOffset(x, y) => OriginTokens(x, y)
    case StackOffset(s, x, y, c) => StackTokens(s, x, y, c)
    case FeedSpacing(s, f) => FeedTokens(s, f)
    case PanelizedBoard(x, y, skip) => PanelTokens(x, y, skip)
    case PartPlacement(n, h, s, x, y, r, ht, skip, ref, c) => PartTokens(n, h, s, x, y, r, ht, skip, ref, c)
  }

  /**
   * to_csv: a blank line, '%' and the comment text, or the fields joined with commas. Only a
   * blank record writes the empty line, and only a comment writes a line opening with '%', so
   * the first two recognisers of add_from_line take back exactly these two kinds.
   */
  function CsvLine(i: Instruction): (r: string)
    ensures r == "" <==> i.Blank?
    ensures (|r| > 0 && r[0] == '%') <==> i.Comment?
  {
    match i
    case Blank => ""
    case Comment(c) => "%" + c
    case _ =>
      FirstFieldShape(i);
      Text.JoinFirst(CsvFields(i), ",");
      Text.Join(CsvFields(i), ",")
  }

  /** The first field of a record written field by field is an integer: not empty, and no '%' in front. */
  lemma FirstFieldShape(i: Instruction)
    requires !i.Blank? && !i.Comment?
    ensures |CsvFields(i)| >= 1 && |CsvFields(i)[0]| >= 1 && CsvFields(i)[0][0] != '%'
  {
    match i
    case Speed(_) => IntToStringShape(0);
    case PartPlacement(n, _, _, _, _, _, _, _, _, _) => IntToStringShape(n);
    case _ => IntToStringShape(ConfigFlag);
  }

  // ---------------------------------------------------------------- recognising

  /** tokens[i], or the IndexError a short line raises. */
  function Field(tokens: seq<string>, i: nat): Result<string> {
    if i < |tokens| then Success(tokens[i]) else Failure(MissingField(i))
  }

  /** int(tokens[i]). */
  function IntField(tokens: seq<string>, i: nat): Result<int> {
    var t :- Field(tokens, i);
    ParseInt(t)
  }

  /** The (int(tokens[0]), int(tokens[1])) pair the configuration records test. */
  function FlagPair(tokens: seq<string>): Result<(int, int)> {
    var flag0 :- IntField(tokens, 0);
    var flag1 :- IntField(tokens, 1);
    Success((flag0, flag1))
  }

  /** s[1:], which Python gives as "" for an empty s. */
  function DropFirst(s: string): string {
    if |s| == 0 then "" else s[1..]
  }

  function CommentFromTokens(tokens: seq<string>): (r: Result<Option<Instruction>>)
    ensures r.Success? && r.value.Some? ==> r.value.value.Comment?
  {
    var first :- Field(tokens, 0);
    if Text.StartsWith(first, "%") then
      Success(Some(Comment(DropFirst(Text.Join(tokens, ",")))))
    else Success(None)
  }

  function BlankFromTokens(tokens: seq<string>): (r: Result<Option<Instruction>>)
    ensures r.Success? && r.value.Some? ==> r.value.value.Blank?
  {
    Success(if |tokens| == 1 && tokens[0] == "" then Some(Blank) else None)
  }

  function SpeedFromTokens(tokens: seq<string>): (r: Result<Option<Instruction>>)
    ensures r.Success? && r.value.Some? ==> r.value.value.Speed?
  {
    var flag :- IntField(tokens, 0);
    if flag == 0 then
      var speed :- IntField(tokens, 1);
      Success(Some(Speed(speed)))
    else Success(None)
  }

  function OriginFromTokens(tokens: seq<string>): (r: Result<Option<Instruction>>)
    ensures r.Success? && r.value.Some? ==> r.value.value.OriginOffset?
  {
    var flags :- FlagPair(tokens);
    if flags == (ConfigFlag, 0) then
      var xt :- Field(tokens, 2);
      var yt :- Field(tokens, 3);
      var x :- ParseDec(xt);
      var y :- ParseDec(yt);
      Success(Some(OriginOffset(x, y)))
    else Success(None)
  }

  function StackFromTokens(tokens: seq<string>): (r: Result<Option<Instruction>>)
    ensures r.Success? && r.value.Some? ==> r.value.value.StackOffset?
  {
    var flags :- FlagPair(tokens);
    if flags == (ConfigFlag, 1) then
      var stack :- IntField(tokens, 2);
      var xt :- Field(tokens, 3);
      var yt :- Field(tokens, 4);
      var x :- ParseDec(xt);
      var y :- ParseDec(yt);
      Success(Some(StackOffset(stack, x, y, if |tokens| > 5 then tokens[5] else "")))
    else Success(None)
  }

  function FeedFromTokens(tokens: seq<string>): (r: Result<Option<Instruction>>)
    ensures r.Success? && r.value.Some? ==> r.value.value.FeedSpacing?
  {
    var flags :- FlagPair(tokens);
    if flags == (ConfigFlag, 2) then
      var st :- Field(tokens, 2);
      var ft :- Field(tokens, 3);
      var stack :- ParseInt(st);
      var spacing :- ParseDec(ft);
      Success(Some(FeedSpacing(stack, spacing)))
    else Success(None)
  }

  function PanelFromTokens(tokens: seq<string>): (r: Result<Option<Instruction>>)
    ensures r.Success? && r.value.Some? ==> r.value.value.PanelizedBoard?
  {
    var flags :- FlagPair(tokens);
    if flags == (ConfigFlag, 3) then
      var xt :- Field(tokens, 2);
      var yt :- Field(tokens, 3);
      var skip :- IntField(tokens, 4);
      var x :- ParseDec(xt);
      var y :- ParseDec(yt);
      Success(Some(PanelizedBoard(x, y, skip != 0)))
    else Success(None)
  }

  function PartFromTokens(tokens: seq<string>): (r: Result<Option<Instruction>>)
    ensures r.Success? && r.value.Some? ==> r.value.value.PartPlacement?
  {
    var flag :- IntField(tokens, 0);
    if 0 < flag < ConfigFlag then
      var t1 :- Field(tokens, 1);
      var t2 :- Field(tokens, 2);
      var t3 :- Field(tokens, 3);
      var t4 :- Field(tokens, 4);
      var t5 :- Field(tokens, 5);
      var t6 :- Field(tokens, 6);
      var skip :- IntField(tokens, 7);
      var reference :- Field(tokens, 8);
      var comment :- Field(tokens, 9);
      var head :- ParseInt(t1);
      var stack :- ParseInt(t2);
      var x :- ParseDec(t3);
      var y :- ParseDec(t4);
      var rotation :- ParseInt(t5);
      var height :- ParseDec(t6);
      Success(Some(PartPlacement(flag, head, stack, x, y, rotation, height, skip != 0, reference, comment)))
    else Success(None)
  }

  /** from_tokens of one record class: the record, None when the line is not of that class, or an error. */
  function Recognise(k: Kind, tokens: seq<string>): Result<Option<Instruction>>
  {
    match k
    case CommentKind => CommentFromTokens(tokens)
    case BlankKind => BlankFromTokens(tokens)
    case SpeedKind => SpeedFromTokens(tokens)
    case OriginKind => OriginFromTokens(tokens)
    case StackKind => StackFromTokens(tokens)
    case FeedKind => FeedFromTokens(tokens)
    case PanelKind => PanelFromTokens(tokens)
    case PartKind => PartFromTokens(tokens)
  }

  /** Offer the tokens to the recognisers from position `from` on; the first record wins. */
  function Dispatch(from: nat, tokens: seq<string>, line: string): Result<Instruction>
    decreases |Recognisers| - from
  {
    if from >= |Recognisers| then Failure(Unrecognized(line))
    else
      var v :- Recognise(Recognisers[from], tokens);
      if v.Some? then Success(v.value) else Dispatch(from + 1, tokens, line)
  }

  /**
   * What add_from_line appends for a line, or the exception it raises. An empty line is a blank
   * record, and a line opening with '%' is a comment holding the rest of the line, commas included.
   */
  function DecodeLine(line: string): (r: Result<Instruction>)
    ensures line == "" ==> r == Success(Blank)
    ensures |line| > 0 && line[0] == '%' ==> r == Success(Comment(line[1..]))
  {
    if line == "" then
      BlankDispatch();
      Dispatch(0, Text.Split(line, ','), line)
    else if line[0] == '%' then
      CommentDispatch(line);
      Dispatch(0, Text.Split(line, ','), line)
    else
      Dispatch(0, Text.Split(line, ','), line)
  }

  // ---------------------------------------------------------------- describing

  function RotationSuffix(rotation: int): string {
    if rotation > 0 then " counter-clockwise" else if rotation < 0 then " clockwise" else ""
  }

  /**
   * The words of a part record's description, before they are joined with spaces; xt and yt
   * are the texts of its coordinates. describe() builds them front to back: the opening words,
   * then where and how the part is placed.
   */
  function PartWords(skip: bool, partNumber: int, reference: string, pickupHead: int, stack: int,
                     xt: string, yt: string, rotation: int, comment: string): seq<string>
  {
    LeadWords(skip, partNumber, reference) + PlacementWords(pickupHead, stack, xt, yt, rotation, comment)
  }

  /** An optional "SKIPPED:", the part number, then an optional "(reference)". */
  function LeadWords(skip: bool, partNumber: int, reference: string): seq<string> {
    (if skip then ["SKIPPED:"] else [])
    + ["Part #" + IntToString(partNumber)]
    + (if reference != "" then ["(" + reference + ")"] else [])
  }

  /** Head, slot, position and rotation, then an optional comment. */
  function PlacementWords(pickupHead: int, stack: int, xt: string, yt: string, rotation: int,
                          comment: string): seq<string>
  {
    FixedWords(pickupHead, stack, xt, yt, rotation) + CommentWords(comment)
  }

  /** The four words every part description has: head, slot, position and rotation. */
  function FixedWords(pickupHead: int, stack: int, xt: string, yt: string, rotation: int): seq<string> {
    ["will be picked up by Head " + IntToString(pickupHead),
     "from " + DescribeStack(stack, false),
     "and placed at (" + xt + " mm, " + yt + " mm)",
     RotationWord(rotation)]
  }

  /** The closing word for a non-empty comment, or nothing. */
  function CommentWords(comment: string): seq<string> {
    if comment != "" then ["with comment: " + comment] else []
  }

  /** The word that reports a part's rotation. */
  function RotationWord(rotation: int): string {
    "after being rotated " + IntToString(rotation) + " degrees" + RotationSuffix(rotation)
  }

  /** The panel sentence describe() evidently meant to build, from the texts of the copy's offsets. */
  function PanelSentence(xt: string, yt: string, skip: bool): string {
    (if skip then "SKIPPED: " else "")
    + "Another copy of the board will be placed at (" + xt + " mm, " + yt + " mm)"
  }

  /**
   * describe(), with the panel sentence as intended (see DescribeAsWritten). The sentence of a
   * part or a panel copy opens with "SKIPPED:" exactly when the record is skipped.
   */
  function Describe(i: Instruction): (r: string)
    ensures i.PartPlacement? ==> (Text.StartsWith(r, "SKIPPED:") <==> i.skip)
    ensures i.PanelizedBoard? ==> (Text.StartsWith(r, "SKIPPED: ") <==> i.skip)
  {
    match i
    case Blank => "(This line intentionally left blank.)"
    case Comment(c) => "Comment of: " + c
    case Speed(v) => "The machine is now set to " + IntToString(v) + "% speed."
    case OriginOffset(x, y) => "The origin is offset by (" + DecimalText(x) + " mm, " + DecimalText(y) + " mm)."
    case StackOffset(s, x, y, c) =>
      DescribeStack(s, true) + " has an offset of (" + DecimalText(x) + ", " + DecimalText(y) + ")"
      + (if c != "" then ", with a comment of: " + c else "") + "."
    case FeedSpacing(s, f) =>
      "There are " + DecimalText(f) + " mm between components on " + DescribeStack(s, false) + "."
    case PanelizedBoard(x, y, skip) =>
      PanelDescribeSkipped(DecimalText(x), DecimalText(y), skip);
      PanelSentence(DecimalText(x), DecimalText(y), skip)
    case PartPlacement(n, h, s, x, y, r, _, skip, ref, c) =>
      PartDescribeSkipped(skip, n, ref, h, s, DecimalText(x), DecimalText(y), r, c);
      Text.Join(PartWords(skip, n, ref, h, s, DecimalText(x), DecimalText(y), r, c), " ")
  }

  /**
   * describe() as written: the panel record calls its x property as if it were a method
   * (instructions.py:243), which raises TypeError before any text is built.
   */
  function DescribeAsWritten(i: Instruction): (r: Result<string>)
    ensures r.Failure? <==> i.PanelizedBoard?
    ensures i.PanelizedBoard? ==> r == Failure(NotCallable)
    ensures !i.PanelizedBoard? ==> r == Success(Describe(i))
  {
    if i.PanelizedBoard? then Failure(NotCallable) else Success(Describe(i))
  }

  // ---------------------------------------------------------------- recognition

  lemma DispatchStep(from: nat, tokens: seq<string>, line: string)
    requires from < |Recognisers| && Recognise(Recognisers[from], tokens) == Success(None)
    ensures Dispatch(from, tokens, line) == Dispatch(from + 1, tokens, line)
  {
  }

  /** A line that is not a comment and has at least two fields is not a blank line either. */
  lemma PastTextRecords(tokens: seq<string>, line: string)
    requires |tokens| >= 2 && !Text.StartsWith(tokens[0], "%")
    ensures Dispatch(0, tokens, line) == Dispatch(2, tokens, line)
  {
    DispatchStep(0, tokens, line);
    DispatchStep(1, tokens, line);
  }

  /** A line whose first field is not an integer stops at the speed recogniser with int()'s error. */
  lemma DecodeBadFlag(tokens: seq<string>, line: string)
    requires |tokens| >= 1 && !Text.StartsWith(tokens[0], "%") && !(|tokens| == 1 && tokens[0] == "")
    requires ParseInt(tokens[0]).Failure?
    ensures Dispatch(0, tokens, line) == Failure(BadInteger(tokens[0]))
  {
    DispatchStep(0, tokens, line);
    DispatchStep(1, tokens, line);
  }

  /** First field 0: a speed record, whatever follows the second field. */
  lemma DecodeSpeed(tokens: seq<string>, line: string, speed: int)
    requires |tokens| >= 2 && !Text.StartsWith(tokens[0], "%")
    requires ParseInt(tokens[0]) == Success(0) && ParseInt(tokens[1]) == Success(speed)
    ensures Dispatch(0, tokens, line) == Success(Speed(speed))
  {
    PastTextRecords(tokens, line);
  }

  /** The flags of a configuration or part record, as the recognisers test them. */
  predicate Flags(tokens: seq<string>, flag0: int, flag1: int) {
    |tokens| >= 2 && !Text.StartsWith(tokens[0], "%") && flag0 != 0
    && IntField(tokens, 0) == Success(flag0) && FlagPair(tokens) == Success((flag0, flag1))
  }

  /** With both flags read and the first not 0, the configuration and part recognisers decide. */
  lemma PastSpeed(tokens: seq<string>, line: string, flag0: int, flag1: int)
    requires Flags(tokens, flag0, flag1)
    ensures Dispatch(0, tokens, line) == Dispatch(3, tokens, line)
  {
    PastTextRecords(tokens, line);
    DispatchStep(2, tokens, line);
  }

  lemma ConfigNone(k: Kind, tokens: seq<string>, flag0: int, flag1: int, expected: int)
    requires Flags(tokens, flag0, flag1)
    requires (k == OriginKind && expected == 0) || (k == StackKind && expected == 1)
          || (k == FeedKind && expected == 2) || (k == PanelKind && expected == 3)
    requires flag0 != ConfigFlag || flag1 != expected
    ensures Recognise(k, tokens) == Success(None)
  {
  }

  /** A configuration recogniser whose flags do not match passes the line on. */
  lemma ConfigSkip(from: nat, tokens: seq<string>, line: string, flag0: int, flag1: int)
    requires Flags(tokens, flag0, flag1) && 3 <= from <= 6
    requires flag0 != ConfigFlag || flag1 != from - 3
    ensures Dispatch(from, tokens, line) == Dispatch(from + 1, tokens, line)
  {
    ConfigNone(Recognisers[from], tokens, flag0, flag1, from - 3);
    DispatchStep(from, tokens, line);
  }

  /** The recogniser at each position of the dispatch order. */
  lemma RecogniserAt(from: nat, tokens: seq<string>)
    requires from < |Recognisers|
    ensures from == 3 ==> Recognise(Recognisers[from], tokens) == OriginFromTokens(tokens)
    ensures from == 4 ==> Recognise(Recognisers[from], tokens) == StackFromTokens(tokens)
    ensures from == 5 ==> Recognise(Recognisers[from], tokens) == FeedFromTokens(tokens)
    ensures from == 6 ==> Recognise(Recognisers[from], tokens) == PanelFromTokens(tokens)
    ensures from == 7 ==> Recognise(Recognisers[from], tokens) == PartFromTokens(tokens)
  {
  }

  /** A recogniser that returns a record ends the dispatch with that record. */
  lemma DispatchHit(from: nat, tokens: seq<string>, line: string, r: Result<Option<Instruction>>)
    requires from < |Recognisers| && Recognise(Recognisers[from], tokens) == r
    requires r.Success? && r.value.Some?
    ensures Dispatch(from, tokens, line) == Success(r.value.value)
  {
  }

  lemma OriginRecognised(tokens: seq<string>, x: Dec, y: Dec)
    requires |tokens| >= 4 && FlagPair(tokens) == Success((ConfigFlag, 0))
    requires ParseDec(tokens[2]) == Success(x) && ParseDec(tokens[3]) == Success(y)
    ensures OriginFromTokens(tokens) == Success(Some(OriginOffset(x, y)))
  {
  }

  /** 65535,0: an origin offset. */
  lemma DecodeOrigin(tokens: seq<string>, line: string, x: Dec, y: Dec)
    requires Flags(tokens, ConfigFlag, 0) && |tokens| >= 4
    requires ParseDec(tokens[2]) == Success(x) && ParseDec(tokens[3]) == Success(y)
    ensures Dispatch(0, tokens, line) == Success(OriginOffset(x, y))
  {
    PastSpeed(tokens, line, ConfigFlag, 0);
    OriginRecognised(tokens, x, y);
    RecogniserAt(3, tokens);
    DispatchHit(3, tokens, line, OriginFromTokens(tokens));
  }

  lemma StackRecognised(tokens: seq<string>, stack: int, x: Dec, y: Dec)
    requires |tokens| >= 5 && FlagPair(tokens) == Success((ConfigFlag, 1))
    requires ParseInt(tokens[2]) == Success(stack)
    requires ParseDec(tokens[3]) == Success(x) && ParseDec(tokens[4]) == Success(y)
    ensures StackFromTokens(tokens)
      == Success(Some(StackOffset(stack, x, y, if |tokens| > 5 then tokens[5] else "")))
  {
  }

  /** 65535,1: a stack offset; the comment is the sixth field, or empty when there is none. */
  lemma DecodeStack(tokens: seq<string>, line: string, stack: int, x: Dec, y: Dec)
    requires Flags(tokens, ConfigFlag, 1) && |tokens| >= 5
    requires ParseInt(tokens[2]) == Success(stack)
    requires ParseDec(tokens[3]) == Success(x) && ParseDec(tokens[4]) == Success(y)
    ensures Dispatch(0, tokens, line)
      == Success(StackOffset(stack, x, y, if |tokens| > 5 then tokens[5] else ""))
  {
    PastSpeed(tokens, line, ConfigFlag, 1);
    ConfigSkip(3, tokens, line, ConfigFlag, 1);
    StackRecognised(tokens, stack, x, y);
    RecogniserAt(4, tokens);
    DispatchHit(4, tokens, line, StackFromTokens(tokens));
  }

  lemma FeedRecognised(tokens: seq<string>, stack: int, spacing: Dec)
    requires |tokens| >= 4 && FlagPair(tokens) == Success((ConfigFlag, 2))
    requires ParseInt(tokens[2]) == Success(stack) && ParseDec(tokens[3]) == Success(spacing)
    ensures FeedFromTokens(tokens) == Success(Some(FeedSpacing(stack, spacing)))
  {
  }

  /** 65535,2: a feed spacing. */
  lemma DecodeFeed(tokens: seq<string>, line: string, stack: int, spacing: Dec)
    requires Flags(tokens, ConfigFlag, 2) && |tokens| >= 4
    requires ParseInt(tokens[2]) == Success(stack) && ParseDec(tokens[3]) == Success(spacing)
    ensures Dispatch(0, tokens, line) == Success(FeedSpacing(stack, spacing))
  {
    PastSpeed(tokens, line, ConfigFlag, 2);
    ConfigSkip(3, tokens, line, ConfigFlag, 2);
    ConfigSkip(4, tokens, line, ConfigFlag, 2);
    FeedRecognised(tokens, stack, spacing);
    RecogniserAt(5, tokens);
    DispatchHit(5, tokens, line, FeedFromTokens(tokens));
  }

  lemma PanelRecognised(tokens: seq<string>, x: Dec, y: Dec, skip: int)
    requires |tokens| >= 5 && FlagPair(tokens) == Success((ConfigFlag, 3))
    requires ParseDec(tokens[2]) == Success(x) && ParseDec(tokens[3]) == Success(y)
    requires ParseInt(tokens[4]) == Success(skip)
    ensures PanelFromTokens(tokens) == Success(Some(PanelizedBoard(x, y, skip != 0)))
  {
  }

  /** 65535,3: a panelized board; any non-zero skip field means skipped. */
  lemma DecodePanel(tokens: seq<string>, line: string, x: Dec, y: Dec, skip: int)
    requires Flags(tokens, ConfigFlag, 3) && |tokens| >= 5
    requires ParseDec(tokens[2]) == Success(x) && ParseDec(tokens[3]) == Success(y)
    requires ParseInt(tokens[4]) == Success(skip)
    ensures Dispatch(0, tokens, line) == Success(PanelizedBoard(x, y, skip != 0))
  {
    PastSpeed(tokens, line, ConfigFlag, 3);
    ConfigSkip(3, tokens, line, ConfigFlag, 3);
    ConfigSkip(4, tokens, line, ConfigFlag, 3);
    ConfigSkip(5, tokens, line, ConfigFlag, 3);
    PanelRecognised(tokens, x, y, skip);
    RecogniserAt(6, tokens);
    DispatchHit(6, tokens, line, PanelFromTokens(tokens));
  }

  /** With a first field that is no configuration flag, only the part recogniser is left. */
  lemma PastConfig(tokens: seq<string>, line: string, flag0: int, flag1: int)
    requires Flags(tokens, flag0, flag1)
    requires flag0 != ConfigFlag || flag1 < 0 || flag1 > 3
    ensures Dispatch(0, tokens, line) == Dispatch(7, tokens, line)
  {
    PastSpeed(tokens, line, flag0, flag1);
    ConfigSkip(3, tokens, line, flag0, flag1);
    ConfigSkip(4, tokens, line, flag0, flag1);
    ConfigSkip(5, tokens, line, flag0, flag1);
    ConfigSkip(6, tokens, line, flag0, flag1);
  }

  /** A first field strictly between 0 and 65535: a part placement numbered by that field. */
  lemma DecodePart(tokens: seq<string>, line: string, partNumber: int, head: int, stack: int,
                   x: Dec, y: Dec, rotation: int, height: Dec, skip: int)
    requires Flags(tokens, partNumber, head) && 0 < partNumber < ConfigFlag && |tokens| >= 10
    requires ParseInt(tokens[2]) == Success(stack)
    requires ParseDec(tokens[3]) == Success(x) && ParseDec(tokens[4]) == Success(y)
    requires ParseInt(tokens[5]) == Success(rotation) && ParseDec(tokens[6]) == Success(height)
    requires ParseInt(tokens[7]) == Success(skip)
    ensures Dispatch(0, tokens, line)
      == Success(PartPlacement(partNumber, head, stack, x, y, rotation, height, skip != 0, tokens[8], tokens[9]))
  {
    PastConfig(tokens, line, partNumber, head);
    PartRecognised(tokens, partNumber, head, stack, x, y, rotation, height, skip);
    RecogniserAt(7, tokens);
    DispatchHit(7, tokens, line, PartFromTokens(tokens));
  }

  lemma PartRecognised(tokens: seq<string>, partNumber: int, head: int, stack: int,
                       x: Dec, y: Dec, rotation: int, height: Dec, skip: int)
    requires |tokens| >= 10 && IntField(tokens, 0) == Success(partNumber) && 0 < partNumber < ConfigFlag
    requires ParseInt(tokens[1]) == Success(head) && ParseInt(tokens[2]) == Success(stack)
    requires ParseDec(tokens[3]) == Success(x) && ParseDec(tokens[4]) == Success(y)
    requires ParseInt(tokens[5]) == Success(rotation) && ParseDec(tokens[6]) == Success(height)
    requires ParseInt(tokens[7]) == Success(skip)
    ensures PartFromTokens(tokens)
      == Success(Some(PartPlacement(partNumber, head, stack, x, y, rotation, height, skip != 0, tokens[8], tokens[9])))
  {
  }

  /** A line whose flags match no configuration record and no part number is refused, naming the line. */
  lemma DecodeUnrecognized(tokens: seq<string>, line: string, flag0: int, flag1: int)
    requires Flags(tokens, flag0, flag1)
    requires flag0 != ConfigFlag || flag1 < 0 || flag1 > 3
    requires flag0 <= 0 || flag0 >= ConfigFlag
    ensures Dispatch(0, tokens, line) == Failure(Unrecognized(line))
  {
    PastConfig(tokens, line, flag0, flag1);
    RecogniserAt(7, tokens);
    DispatchStep(7, tokens, line);
  }

  /** "655535,69,69,69,69": 655535 is neither the configuration flag nor a part number. */
  lemma UnrecognizedExample()
    ensures DecodeLine("655535,69,69,69,69") == Failure(Unrecognized("655535,69,69,69,69"))
  {
    var tokens := ["655535", "69", "69", "69", "69"];
    assert Text.Join(tokens, ",") == "655535,69,69,69,69";
    FieldsSplit(tokens);
    ExampleNumbers();
    FlagsRead(tokens, 655535, 69);
    DecodeUnrecognized(tokens, "655535,69,69,69,69", 655535, 69);
  }

  lemma ExampleNumbers()
    ensures IntToken("655535", 655535) && IntToken("69", 69)
  {
    BigExampleNumber();
    SmallExampleNumber();
  }

  lemma BigExampleNumber()
    ensures IntToken("655535", 655535)
  {
    SixDigits();
    ParseDigits("655535");
    Text.NotStartsWith("655535", "%");
  }

  lemma SmallExampleNumber()
    ensures IntToken("69", 69)
  {
    assert "69"[..1] == "6" && "6"[..0] == "";
    ParseDigits("69");
  }

  lemma SixDigits()
    ensures DigitsValue("655535") == 655535
  {
    ThreeDigits();
    assert "655535"[..5] == "65553" && "65553"[..4] == "6555" && "6555"[..3] == "655";
    assert DigitsValue("6555") == 6555 && DigitsValue("65553") == 65553;
  }

  lemma ThreeDigits()
    ensures DigitsValue("655") == 655
  {
    assert "655"[..2] == "65" && "65"[..1] == "6" && "6"[..0] == "";
    assert DigitsValue("6") == 6 && DigitsValue("65") == 65;
  }

  /** A line of text that is not a number fails at the first int() with a ValueError naming it. */
  lemma NotANumberExample()
    ensures DecodeLine("PARSE ERROR NOT IN YOUR FAVOR") == Failure(BadInteger("PARSE ERROR NOT IN YOUR FAVOR"))
  {
    var line := "PARSE ERROR NOT IN YOUR FAVOR";
    WholeLineToken(line);
    NotANumber(line);
    DecodeBadFlag([line], line);
  }

  lemma WholeLineToken(line: string)
    requires line == "PARSE ERROR NOT IN YOUR FAVOR"
    ensures Text.Split(line, ',') == [line]
  {
    assert ',' !in line;
    Text.SplitJoin([line], ',');
  }

  lemma NotANumber(line: string)
    requires line == "PARSE ERROR NOT IN YOUR FAVOR"
    ensures ParseInt(line).Failure?
  {
  }

  // ---------------------------------------------------------------- describing, proved

  /** The rotation sense: counter-clockwise for a positive angle, clockwise for a negative one, none for 0. */
  lemma RotationSuffixCases(rotation: int)
    ensures RotationSuffix(rotation) == " counter-clockwise" <==> rotation > 0
    ensures RotationSuffix(rotation) == " clockwise" <==> rotation < 0
    ensures RotationSuffix(rotation) == "" <==> rotation == 0
  {
  }

  /** A skipped part's description is "SKIPPED: " followed by the description of the same part unskipped. */
  lemma PartDescribeSkippedPrefix(n: int, ref: string, h: int, s: int, xt: string, yt: string, r: int, c: string)
    ensures Text.Join(PartWords(true, n, ref, h, s, xt, yt, r, c), " ")
         == "SKIPPED: " + Text.Join(PartWords(false, n, ref, h, s, xt, yt, r, c), " ")
  {
    var lead := LeadWords(false, n, ref);
    assert LeadWords(true, n, ref) == ["SKIPPED:"] + lead;
    JoinSkipped(lead, PlacementWords(h, s, xt, yt, r, c));
  }

  lemma JoinSkipped(lead: seq<string>, rest: seq<string>)
    requires |lead| > 0
    ensures Text.Join((["SKIPPED:"] + lead) + rest, " ") == "SKIPPED: " + Text.Join(lead + rest, " ")
  {
    var words := lead + rest;
    assert (["SKIPPED:"] + lead) + rest == ["SKIPPED:"] + words;
    Text.JoinPrepend("SKIPPED:", words, " ");
    var d := Text.Join(words, " ");
    assert "SKIPPED:" + " " + d == "SKIPPED: " + d;
  }

  /** An unskipped part's description opens with "Part #" and its number. */
  lemma PartDescribeOpening(n: int, ref: string, h: int, s: int, xt: string, yt: string, r: int, c: string)
    ensures Text.StartsWith(Text.Join(PartWords(false, n, ref, h, s, xt, yt, r, c), " "), "Part #" + IntToString(n))
    ensures Text.StartsWith(Text.Join(PartWords(false, n, ref, h, s, xt, yt, r, c), " "), "Part #")
  {
    var words := PartWords(false, n, ref, h, s, xt, yt, r, c);
    var number := "Part #" + IntToString(n);
    assert words[0] == number;
    Text.JoinFirst(words, " ");
    var d := Text.Join(words, " ");
    assert d[..6] == number[..6] == "Part #";
  }

  /** A part's description opens with "SKIPPED:" exactly when the part is skipped. */
  lemma PartDescribeSkipped(skip: bool, n: int, ref: string, h: int, s: int, xt: string, yt: string,
                            r: int, c: string)
    ensures Text.StartsWith(Text.Join(PartWords(skip, n, ref, h, s, xt, yt, r, c), " "), "SKIPPED:") <==> skip
  {
    var d := Text.Join(PartWords(false, n, ref, h, s, xt, yt, r, c), " ");
    var described := Text.Join(PartWords(skip, n, ref, h, s, xt, yt, r, c), " ");
    if skip {
      PartDescribeSkippedPrefix(n, ref, h, s, xt, yt, r, c);
      assert described == "SKIPPED:" + (" " + d);
      Text.StartsWithAppend("SKIPPED:", " " + d);
    } else {
      PartDescribeOpening(n, ref, h, s, xt, yt, r, c);
      assert described == d;
      assert d[..6][0] == 'P';
      Text.NotStartsWith(d, "SKIPPED:");
    }
  }

  /**
   * A non-empty reference adds the word "(reference)" right after the part number; no other
   * word of a description looks like it.
   */
  lemma PartDescribeReference(skip: bool, n: int, ref: string, h: int, s: int, xt: string, yt: string,
                              r: int, c: string)
    ensures "(" + ref + ")" in PartWords(skip, n, ref, h, s, xt, yt, r, c) <==> ref != ""
    ensures ref != "" ==> PartWords(skip, n, ref, h, s, xt, yt, r, c)[if skip then 2 else 1] == "(" + ref + ")"
  {
    var lead := LeadWords(skip, n, ref);
    var rest := PlacementWords(h, s, xt, yt, r, c);
    if ref == "" {
      LeadWordsShape(skip, n);
      PlacementWordsShape(h, s, xt, yt, r, c);
      LongAppend(lead, rest);
    } else {
      assert lead[if skip then 2 else 1] == "(" + ref + ")";
    }
  }

  /** True when every word is longer than two characters, so none of them is "()". */
  predicate Long(words: seq<string>) {
    forall k :: 0 <= k < |words| ==> |words[k]| > 2
  }

  lemma LongAppend(a: seq<string>, b: seq<string>)
    requires Long(a) && Long(b)
    ensures Long(a + b) && "()" !in a + b
  {
  }

  /** Without a reference every opening word is longer than two characters. */
  lemma LeadWordsShape(skip: bool, n: int)
    ensures Long(LeadWords(skip, n, ""))
  {
    var number := "Part #" + IntToString(n);
    assert LeadWords(skip, n, "") == (if skip then ["SKIPPED:", number] else [number]);
  }

  /** Every placement word is longer than two characters. */
  lemma PlacementWordsShape(h: int, s: int, xt: string, yt: string, r: int, c: string)
    ensures Long(PlacementWords(h, s, xt, yt, r, c))
  {
    var w := FixedWords(h, s, xt, yt, r);
    assert |DescribeStack(s, false)| > 2;
    assert |w[0]| > 2 && |w[1]| > 2 && |w[2]| > 2 && |w[3]| > 2;
    assert Long(CommentWords(c));
    LongAppend(w, CommentWords(c));
  }

  /**
   * A non-empty comment adds exactly the final word "with comment: ..."; without one the
   * description ends with the rotation word.
   */
  lemma PartDescribeComment(skip: bool, n: int, ref: string, h: int, s: int, xt: string, yt: string,
                            r: int, c: string)
    ensures var w := PartWords(skip, n, ref, h, s, xt, yt, r, c);
      c != "" <==> w[|w| - 1] == "with comment: " + c
    ensures var w := PartWords(skip, n, ref, h, s, xt, yt, r, c);
      c == "" ==> w[|w| - 1] == RotationWord(r)
  {
    var rest := PlacementWords(h, s, xt, yt, r, c);
    var w := PartWords(skip, n, ref, h, s, xt, yt, r, c);
    assert w[|w| - 1] == rest[|rest| - 1];
    if c == "" {
      RotationWordOpening(r, c);
    }
  }

  /** The rotation word is never a comment word. */
  lemma RotationWordOpening(r: int, c: string)
    ensures RotationWord(r) != "with comment: " + c
  {
    assert RotationWord(r)[0] == 'a';
    assert ("with comment: " + c)[0] == 'w';
  }

  /** The intended panel sentence opens with "SKIPPED: " exactly for a skipped copy. */
  lemma PanelDescribeSkipped(xt: string, yt: string, skip: bool)
    ensures Text.StartsWith(PanelSentence(xt, yt, skip), "SKIPPED: ") <==> skip
  {
    var head := "Another copy of the board will be placed at (";
    assert head == "A" + head[1..];
    var tail := head + (xt + " mm, " + yt + " mm)");
    assert PanelSentence(xt, yt, skip) == (if skip then "SKIPPED: " else "") + tail;
    if skip {
      Text.StartsWithAppend("SKIPPED: ", tail);
    } else {
      assert tail[0] == head[0] == 'A';
      Text.NotStartsWith(tail, "SKIPPED: ");
    }
  }

  /** The intended panel sentence ends with the copy's y offset in millimetres. */
  lemma PanelDescribeEnds(xt: string, yt: string, skip: bool)
    ensures Text.EndsWith(PanelSentence(xt, yt, skip), yt + " mm)")
  {
    var front := (if skip then "SKIPPED: " else "") + "Another copy of the board will be placed at (" + xt + " mm, ";
    var d := PanelSentence(xt, yt, skip);
    assert d == front + (yt + " mm)");
    assert d[|front|..] == yt + " mm)";
  }

  // ---------------------------------------------------------------- writing then reading

  /**
   * The records whose CSV line reads back as the same record: fields written verbatim hold no
   * comma (the source writes them unquoted), and a part number is neither 0 (a speed record)
   * nor 65535 (a configuration record) nor negative.
   */
  predicate WellFormed(i: Instruction) {
    match i
    case StackOffset(_, _, _, c) => ',' !in c
    case PartPlacement(n, _, _, _, _, _, _, _, ref, c) => 0 < n < ConfigFlag && ',' !in ref && ',' !in c
    case _ => true
  }

  /** A field text that reads back as the integer n and holds no comma. */
  predicate IntToken(t: string, n: int) {
    ParseInt(t) == Success(n) && ',' !in t && !Text.StartsWith(t, "%")
  }

  /** A field text that reads back as the decimal d and holds no comma. */
  predicate DecToken(t: string, d: Dec) {
    ParseDec(t) == Success(d) && ',' !in t
  }

  /** str(n) is a field that reads back as n. */
  lemma IntText(n: int)
    ensures IntToken(IntToString(n), n)
  {
    ParseIntToString(n);
    IntToStringShape(n);
  }

  /** str(represent_decimal(d)) is a field that reads back as represent_decimal(d). */
  lemma DecText(d: Dec)
    ensures DecToken(DecimalText(d), RepresentDecimal(d))
  {
    DecToStringShape(RepresentDecimal(d));
    ParseDecToString(RepresentDecimal(d));
  }

  /** A skip flag is written as 1 or 0. */
  lemma SkipToken(skip: bool)
    ensures IntToken(SkipText(skip), if skip then 1 else 0)
  {
    IntText(1);
    IntText(0);
  }

  /**
   * Splitting the joined fields on commas gives them back when none holds a comma
   * (stated field by field for the five to ten fields a record has).
   */
  lemma FieldsSplit(tokens: seq<string>)
    requires 5 <= |tokens| <= 10
    requires ',' !in tokens[0] && ',' !in tokens[1] && ',' !in tokens[2] && ',' !in tokens[3] && ',' !in tokens[4]
    requires |tokens| > 5 ==> ',' !in tokens[5]
    requires |tokens| > 6 ==> ',' !in tokens[6]
    requires |tokens| > 7 ==> ',' !in tokens[7]
    requires |tokens| > 8 ==> ',' !in tokens[8]
    requires |tokens| > 9 ==> ',' !in tokens[9]
    ensures Text.Split(Text.Join(tokens, ","), ',') == tokens
  {
    assert forall k :: 0 <= k < |tokens| ==> ',' !in tokens[k] by {
      forall k | 0 <= k < |tokens|
        ensures ',' !in tokens[k]
      {
        if k < 5 {
          assert k == 0 || k == 1 || k == 2 || k == 3 || k == 4;
        } else {
          assert k == 5 || k == 6 || k == 7 || k == 8 || k == 9;
        }
      }
    }
    Text.SplitJoin(tokens, ',');
  }

  /** Two leading integer fields, the first not 0, are read as the record's flags. */
  lemma FlagsRead(tokens: seq<string>, flag0: int, flag1: int)
    requires |tokens| >= 2 && IntToken(tokens[0], flag0) && IntToken(tokens[1], flag1) && flag0 != 0
    ensures Flags(tokens, flag0, flag1)
  {
  }

  /** The recognisers make a blank record of the empty line. */
  lemma BlankDispatch()
    ensures Dispatch(0, Text.Split("", ','), "") == Success(Blank)
  {
    DispatchStep(0, Text.Split("", ','), "");
  }

  /** The recognisers make a comment of a line starting with '%', commas included. */
  lemma CommentDispatch(line: string)
    requires |line| > 0 && line[0] == '%'
    ensures Dispatch(0, Text.Split(line, ','), line) == Success(Comment(line[1..]))
  {
    var c := line[1..];
    assert line == "%" + c;
    var tokens := Text.Split(line, ',');
    Text.SplitPrefix("%", c, ',');
    assert tokens[0] == "%" + Text.Split(c, ',')[0];
    assert Text.StartsWith(tokens[0], "%");
    Text.JoinSplit(line, ',');
    assert DropFirst(line) == c;
    assert CommentFromTokens(tokens) == Success(Some(Comment(c)));
    assert Recognise(Recognisers[0], tokens) == Success(Some(Comment(c)));
  }

  lemma SpeedTokensRead(tokens: seq<string>, line: string, v: int)
    requires Text.Split(line, ',') == tokens && |tokens| == 9
    requires IntToken(tokens[0], 0) && IntToken(tokens[1], v)
    ensures DecodeLine(line) == Success(Speed(v))
  {
    DecodeSpeed(tokens, line, v);
  }

  /** A speed line, whatever the texts of its fields, as long as they read back. */
  /** The fields of a speed line, split back out of the joined line. */
  lemma SpeedSplit(z: string, vt: string)
    requires ',' !in z && ',' !in vt
    ensures var tokens := Text.Split(Text.Join([z, vt] + [z, z, z, z, z, z, ""], ","), ',');
      |tokens| == 9 && tokens[0] == z && tokens[1] == vt
  {
    var tokens := [z, vt] + [z, z, z, z, z, z, ""];
    assert |tokens| == 9 && tokens[0] == z && tokens[1] == vt && tokens[8] == "";
    assert tokens[2] == z && tokens[3] == z && tokens[4] == z;
    assert tokens[5] == z && tokens[6] == z && tokens[7] == z;
    FieldsSplit(tokens);
  }

  /** A speed line, whatever the texts of its fields, as long as they read back. */
  lemma SpeedLineRead(z: string, vt: string, v: int)
    requires IntToken(z, 0) && IntToken(vt, v)
    ensures DecodeLine(Text.Join([z, vt] + [z, z, z, z, z, z, ""], ",")) == Success(Speed(v))
  {
    var line := Text.Join([z, vt] + [z, z, z, z, z, z, ""], ",");
    SpeedSplit(z, vt);
    SpeedTokensRead(Text.Split(line, ','), line, v);
  }

  lemma SpeedRoundTrip(v: int)
    ensures DecodeLine(Text.Join(SpeedTokens(v), ",")) == Success(Speed(v))
  {
    IntText(0);
    IntText(v);
    SpeedLineRead(IntToString(0), IntToString(v), v);
  }

  lemma OriginTokensRead(tokens: seq<string>, line: string, x: Dec, y: Dec)
    requires Text.Split(line, ',') == tokens && |tokens| == 6
    requires IntToken(tokens[0], ConfigFlag) && IntToken(tokens[1], 0)
    requires DecToken(tokens[2], x) && DecToken(tokens[3], y)
    ensures DecodeLine(line) == Success(OriginOffset(x, y))
  {
    FlagsRead(tokens, ConfigFlag, 0);
    DecodeOrigin(tokens, line, x, y);
  }

  lemma OriginSplit(f0: string, f1: string, xt: string, yt: string)
    requires ',' !in f0 && ',' !in f1 && ',' !in xt && ',' !in yt
    ensures var tokens := Text.Split(Text.Join([f0, f1] + [xt, yt, "", ""], ","), ',');
      |tokens| == 6 && tokens[0] == f0 && tokens[1] == f1 && tokens[2] == xt && tokens[3] == yt
  {
    var tokens := [f0, f1] + [xt, yt, "", ""];
    assert |tokens| == 6 && tokens[0] == f0 && tokens[1] == f1;
    assert tokens[2] == xt && tokens[3] == yt && tokens[4] == "" && tokens[5] == "";
    FieldsSplit(tokens);
  }

  lemma OriginLineRead(f0: string, f1: string, xt: string, yt: string, x: Dec, y: Dec)
    requires IntToken(f0, ConfigFlag) && IntToken(f1, 0) && DecToken(xt, x) && DecToken(yt, y)
    ensures DecodeLine(Text.Join([f0, f1] + [xt, yt, "", ""], ",")) == Success(OriginOffset(x, y))
  {
    var line := Text.Join([f0, f1] + [xt, yt, "", ""], ",");
    OriginSplit(f0, f1, xt, yt);
    OriginTokensRead(Text.Split(line, ','), line, x, y);
  }

  lemma OriginRoundTrip(x: Dec, y: Dec)
    ensures DecodeLine(Text.Join(OriginTokens(x, y), ","))
      == Success(OriginOffset(RepresentDecimal(x), RepresentDecimal(y)))
  {
    IntText(ConfigFlag);
    IntText(0);
    DecText(x);
    DecText(y);
    OriginLineRead(IntToString(ConfigFlag), IntToString(0), DecimalText(x), DecimalText(y),
      RepresentDecimal(x), RepresentDecimal(y));
  }

  lemma StackTokensRead(tokens: seq<string>, line: string, st: int, x: Dec, y: Dec)
    requires Text.Split(line, ',') == tokens && |tokens| == 6
    requires IntToken(tokens[0], ConfigFlag) && IntToken(tokens[1], 1) && IntToken(tokens[2], st)
    requires DecToken(tokens[3], x) && DecToken(tokens[4], y)
    ensures DecodeLine(line) == Success(StackOffset(st, x, y, tokens[5]))
  {
    FlagsRead(tokens, ConfigFlag, 1);
    DecodeStack(tokens, line, st, x, y);
  }

  lemma StackSplit(f0: string, f1: string, stt: string, xt: string, yt: string, c: string)
    requires ',' !in f0 && ',' !in f1 && ',' !in stt && ',' !in xt && ',' !in yt && ',' !in c
    ensures var tokens := Text.Split(Text.Join([f0, f1] + [stt] + [xt, yt, c], ","), ',');
      && |tokens| == 6 && tokens[0] == f0 && tokens[1] == f1 && tokens[2] == stt
      && tokens[3] == xt && tokens[4] == yt && tokens[5] == c
  {
    var tokens := [f0, f1] + [stt] + [xt, yt, c];
    assert |tokens| == 6 && tokens[0] == f0 && tokens[1] == f1 && tokens[2] == stt;
    assert tokens[3] == xt && tokens[4] == yt && tokens[5] == c;
    FieldsSplit(tokens);
  }

  lemma StackLineRead(f0: string, f1: string, stt: string, xt: string, yt: string, c: string,
                      st: int, x: Dec, y: Dec)
    requires IntToken(f0, ConfigFlag) && IntToken(f1, 1) && IntToken(stt, st)
    requires DecToken(xt, x) && DecToken(yt, y) && ',' !in c
    ensures DecodeLine(Text.Join([f0, f1] + [stt] + [xt, yt, c], ",")) == Success(StackOffset(st, x, y, c))
  {
    var line := Text.Join([f0, f1] + [stt] + [xt, yt, c], ",");
    StackSplit(f0, f1, stt, xt, yt, c);
    StackTokensRead(Text.Split(line, ','), line, st, x, y);
  }

  lemma StackRoundTrip(st: int, x: Dec, y: Dec, c: string)
    requires ',' !in c
    ensures DecodeLine(Text.Join(StackTokens(st, x, y, c), ","))
      == Success(StackOffset(st, RepresentDecimal(x), RepresentDecimal(y), c))
  {
    IntText(ConfigFlag);
    IntText(1);
    IntText(st);
    DecText(x);
    DecText(y);
    StackLineRead(IntToString(ConfigFlag), IntToString(1), IntToString(st), DecimalText(x), DecimalText(y), c,
      st, RepresentDecimal(x), RepresentDecimal(y));
  }

  lemma FeedTokensRead(tokens: seq<string>, line: string, st: int, f: Dec)
    requires Text.Split(line, ',') == tokens && |tokens| == 5
    requires IntToken(tokens[0], ConfigFlag) && IntToken(tokens[1], 2) && IntToken(tokens[2], st)
    requires DecToken(tokens[3], f)
    ensures DecodeLine(line) == Success(FeedSpacing(st, f))
  {
    FlagsRead(tokens, ConfigFlag, 2);
    DecodeFeed(tokens, line, st, f);
  }

  lemma FeedSplit(f0: string, f1: string, stt: string, ft: string)
    requires ',' !in f0 && ',' !in f1 && ',' !in stt && ',' !in ft
    ensures var tokens := Text.Split(Text.Join([f0, f1] + [stt] + [ft, ""], ","), ',');
      |tokens| == 5 && tokens[0] == f0 && tokens[1] == f1 && tokens[2] == stt && tokens[3] == ft
  {
    var tokens := [f0, f1] + [stt] + [ft, ""];
    assert |tokens| == 5 && tokens[0] == f0 && tokens[1] == f1 && tokens[2] == stt;
    assert tokens[3] == ft && tokens[4] == "";
    FieldsSplit(tokens);
  }

  lemma FeedLineRead(f0: string, f1: string, stt: string, ft: string, st: int, f: Dec)
    requires IntToken(f0, ConfigFlag) && IntToken(f1, 2) && IntToken(stt, st) && DecToken(ft, f)
    ensures DecodeLine(Text.Join([f0, f1] + [stt] + [ft, ""], ",")) == Success(FeedSpacing(st, f))
  {
    var line := Text.Join([f0, f1] + [stt] + [ft, ""], ",");
    FeedSplit(f0, f1, stt, ft);
    FeedTokensRead(Text.Split(line, ','), line, st, f);
  }

  lemma FeedRoundTrip(st: int, f: Dec)
    ensures DecodeLine(Text.Join(FeedTokens(st, f), ",")) == Success(FeedSpacing(st, RepresentDecimal(f)))
  {
    IntText(ConfigFlag);
    IntText(2);
    IntText(st);
    DecText(f);
    FeedLineRead(IntToString(ConfigFlag), IntToString(2), IntToString(st), DecimalText(f), st, RepresentDecimal(f));
  }

  lemma PanelTokensRead(tokens: seq<string>, line: string, x: Dec, y: Dec, skip: int)
    requires Text.Split(line, ',') == tokens && |tokens| == 9
    requires IntToken(tokens[0], ConfigFlag) && IntToken(tokens[1], 3)
    requires DecToken(tokens[2], x) && DecToken(tokens[3], y) && IntToken(tokens[4], skip)
    ensures DecodeLine(line) == Success(PanelizedBoard(x, y, skip != 0))
  {
    FlagsRead(tokens, ConfigFlag, 3);
    DecodePanel(tokens, line, x, y, skip);
  }

  lemma PanelSplit(f0: string, f1: string, xt: string, yt: string, sk: string, z: string)
    requires ',' !in f0 && ',' !in f1 && ',' !in xt && ',' !in yt && ',' !in sk && ',' !in z
    ensures var tokens := Text.Split(Text.Join([f0, f1] + [xt, yt] + [sk, z, z, z, ""], ","), ',');
      && |tokens| == 9 && tokens[0] == f0 && tokens[1] == f1 && tokens[2] == xt && tokens[3] == yt
      && tokens[4] == sk
  {
    var tokens := [f0, f1] + [xt, yt] + [sk, z, z, z, ""];
    assert |tokens| == 9 && tokens[0] == f0 && tokens[1] == f1 && tokens[2] == xt && tokens[3] == yt;
    assert tokens[4] == sk && tokens[5] == z && tokens[6] == z && tokens[7] == z && tokens[8] == "";
    FieldsSplit(tokens);
  }

  lemma PanelLineRead(f0: string, f1: string, xt: string, yt: string, sk: string, z: string,
                      x: Dec, y: Dec, skip: int)
    requires IntToken(f0, ConfigFlag) && IntToken(f1, 3) && DecToken(xt, x) && DecToken(yt, y)
    requires IntToken(sk, skip) && IntToken(z, 0)
    ensures DecodeLine(Text.Join([f0, f1] + [xt, yt] + [sk, z, z, z, ""], ","))
      == Success(PanelizedBoard(x, y, skip != 0))
  {
    var line := Text.Join([f0, f1] + [xt, yt] + [sk, z, z, z, ""], ",");
    PanelSplit(f0, f1, xt, yt, sk, z);
    PanelTokensRead(Text.Split(line, ','), line, x, y, skip);
  }

  lemma PanelRoundTrip(x: Dec, y: Dec, skip: bool)
    ensures DecodeLine(Text.Join(PanelTokens(x, y, skip), ","))
      == Success(PanelizedBoard(RepresentDecimal(x), RepresentDecimal(y), skip))
  {
    IntText(ConfigFlag);
    IntText(3);
    IntText(0);
    DecText(x);
    DecText(y);
    SkipToken(skip);
    PanelLineRead(IntToString(ConfigFlag), IntToString(3), DecimalText(x), DecimalText(y), SkipText(skip),
      IntToString(0), RepresentDecimal(x), RepresentDecimal(y), if skip then 1 else 0);
  }

  lemma PartTokensRead(tokens: seq<string>, line: string, n: int, h: int, st: int,
                       x: Dec, y: Dec, r: int, ht: Dec, skip: int)
    requires Text.Split(line, ',') == tokens && |tokens| == 10 && 0 < n < ConfigFlag
    requires IntToken(tokens[0], n) && IntToken(tokens[1], h) && IntToken(tokens[2], st)
    requires DecToken(tokens[3], x) && DecToken(tokens[4], y) && IntToken(tokens[5], r)
    requires DecToken(tokens[6], ht) && IntToken(tokens[7], skip)
    ensures DecodeLine(line) == Success(PartPlacement(n, h, st, x, y, r, ht, skip != 0, tokens[8], tokens[9]))
  {
    FlagsRead(tokens, n, h);
    DecodePart(tokens, line, n, h, st, x, y, r, ht, skip);
  }

  /** The texts of a part line's fields, in order. */
  datatype PartTexts = PartTexts(n: string, h: string, st: string, x: string, y: string, r: string,
                                 ht: string, sk: string, ref: string, c: string)

  /** The fields of a part line, split back out of the joined line. */
  lemma PartSplit(t: PartTexts)
    requires ',' !in t.n && ',' !in t.h && ',' !in t.st && ',' !in t.x && ',' !in t.y
    requires ',' !in t.r && ',' !in t.ht && ',' !in t.sk && ',' !in t.ref && ',' !in t.c
    ensures var tokens := Text.Split(Text.Join([t.n, t.h, t.st] + [t.x, t.y] + [t.r] + [t.ht] + [t.sk, t.ref, t.c], ","), ',');
      && |tokens| == 10 && tokens[0] == t.n && tokens[1] == t.h && tokens[2] == t.st && tokens[3] == t.x
      && tokens[4] == t.y && tokens[5] == t.r && tokens[6] == t.ht && tokens[7] == t.sk
      && tokens[8] == t.ref && tokens[9] == t.c
  {
    var tokens := [t.n, t.h, t.st] + [t.x, t.y] + [t.r] + [t.ht] + [t.sk, t.ref, t.c];
    assert |tokens| == 10 && tokens[0] == t.n && tokens[1] == t.h && tokens[2] == t.st;
    assert tokens[3] == t.x && tokens[4] == t.y && tokens[5] == t.r && tokens[6] == t.ht;
    assert tokens[7] == t.sk && tokens[8] == t.ref && tokens[9] == t.c;
    FieldsSplit(tokens);
  }

  lemma PartLineRead(t: PartTexts, n: int, h: int, st: int, x: Dec, y: Dec, r: int, ht: Dec, skip: int)
    requires 0 < n < ConfigFlag && IntToken(t.n, n) && IntToken(t.h, h) && IntToken(t.st, st)
    requires DecToken(t.x, x) && DecToken(t.y, y) && IntToken(t.r, r) && DecToken(t.ht, ht)
    requires IntToken(t.sk, skip) && ',' !in t.ref && ',' !in t.c
    ensures DecodeLine(Text.Join([t.n, t.h, t.st] + [t.x, t.y] + [t.r] + [t.ht] + [t.sk, t.ref, t.c], ","))
      == Success(PartPlacement(n, h, st, x, y, r, ht, skip != 0, t.ref, t.c))
  {
    var line := Text.Join([t.n, t.h, t.st] + [t.x, t.y] + [t.r] + [t.ht] + [t.sk, t.ref, t.c], ",");
    PartSplit(t);
    PartTokensRead(Text.Split(line, ','), line, n, h, st, x, y, r, ht, skip);
  }

  lemma PartRoundTrip(n: int, h: int, st: int, x: Dec, y: Dec, r: int, ht: Dec, skip: bool,
                      ref: string, c: string)
    requires 0 < n < ConfigFlag && ',' !in ref && ',' !in c
    ensures DecodeLine(Text.Join(PartTokens(n, h, st, x, y, r, ht, skip, ref, c), ","))
      == Success(PartPlacement(n, h, st, RepresentDecimal(x), RepresentDecimal(y), r,
                               RepresentDecimal(ht), skip, ref, c))
  {
    IntText(n);
    IntText(h);
    IntText(st);
    IntText(r);
    DecText(x);
    DecText(y);
    DecText(ht);
    SkipToken(skip);
    var t := PartTexts(IntToString(n), IntToString(h), IntToString(st), DecimalText(x), DecimalText(y),
      IntToString(r), DecimalText(ht), SkipText(skip), ref, c);
    PartLineRead(t, n, h, st, RepresentDecimal(x), RepresentDecimal(y), r, RepresentDecimal(ht),
      if skip then 1 else 0);
  }

  /**
   * Reading back the line to_csv writes for a well-formed record gives the record again, its
   * decimals rounded as every reader of them sees them.
   */
  lemma DecodeCsvLine(i: Instruction)
    requires WellFormed(i)
    ensures DecodeLine(CsvLine(i)) == Success(Canonical(i))
  {
    match i
    case Blank =>
    case Comment(c) => assert CsvLine(i)[1..] == c;
    case Speed(v) => SpeedRoundTrip(v);
    case OriginOffset(x, y) => OriginRoundTrip(x, y);
    case StackOffset(st, x, y, c) => StackRoundTrip(st, x, y, c);
    case FeedSpacing(st, f) => FeedRoundTrip(st, f);
    case PanelizedBoard(x, y, skip) => PanelRoundTrip(x, y, skip);
    case PartPlacement(n, h, st, x, y, r, ht, skip, ref, c) => PartRoundTrip(n, h, st, x, y, r, ht, skip, ref, c);
  }

  /** Writing a record or its rounded form gives the same line. */
  lemma CsvLineCanonical(i: Instruction)
    ensures CsvLine(Canonical(i)) == CsvLine(i)
    ensures WellFormed(Canonical(i)) == WellFormed(i)
  {
    if !i.Blank? && !i.Comment? {
      CsvFieldsCanonical(i);
    }
  }

  lemma CsvFieldsCanonical(i: Instruction)
    requires !i.Blank? && !i.Comment?
    ensures CsvFields(Canonical(i)) == CsvFields(i)
  {
    match i
    case Speed(_) =>
    case OriginOffset(x, y) =>
      DecimalTextCanonical(x);
      DecimalTextCanonical(y);
    case StackOffset(_, x, y, _) =>
      DecimalTextCanonical(x);
      DecimalTextCanonical(y);
    case FeedSpacing(_, f) =>
      DecimalTextCanonical(f);
    case PanelizedBoard(x, y, _) =>
      DecimalTextCanonical(x);
      DecimalTextCanonical(y);
    case PartPlacement(_, _, _, x, y, _, ht, _, _, _) =>
      DecimalTextCanonical(x);
      DecimalTextCanonical(y);
      DecimalTextCanonical(ht);
  }

  /** Rounding a decimal that was already rounded does not change its text. */
  lemma DecimalTextCanonical(d: Dec)
    ensures DecimalText(RepresentDecimal(d)) == DecimalText(d)
  {
    RepresentIdempotent(d);
  }
}
