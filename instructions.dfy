/**
 * A whole placement file (PlacementInstructions in tm2x0/instructions.py): reading it line by
 * line, writing it back, and the questions asked of it (panel copies, the global origin
 * offset, the description of every line).
 */
module Instructions {
  import opened Wrappers
  import opened Decimals
  import opened Records
  import Text

  /** The integer 0 the source starts an offset from. */
  const Zero: Dec := Dec(false, 0, 0)

  // ---------------------------------------------------------------- reading and writing

  /** The lines from_string reads out of a text: split at each line separator, then stripped. */
  function Lines(s: string): seq<string> {
    Text.StripAll(Text.Split(s, '\n'))
  }

  /**
   * The values of a run of results in order, or the failure of the first that failed (the
   * results after it are never looked at): how a loop that raises on its first error behaves.
   */
  function Collect<T>(rs: seq<Result<T>>): (r: Result<seq<T>>)
    ensures r.Success? ==> |r.value| == |rs|
  {
    if |rs| == 0 then Success([])
    else
      var first :- rs[0];
      var rest :- Collect(rs[1..]);
      Success([first] + rest)
  }

  /** What add_from_line makes of each line. */
  function Decoded(lines: seq<string>): (r: seq<Result<Instruction>>)
    ensures |r| == |lines|
    ensures forall k :: 0 <= k < |lines| ==> r[k] == DecodeLine(lines[k])
  {
    seq(|lines|, k requires 0 <= k < |lines| => DecodeLine(lines[k]))
  }

  /** The records add_from_line appends for the lines in order, or the exception of the first line it cannot decode. */
  function DecodeLines(lines: seq<string>): Result<seq<Instruction>> {
    Collect(Decoded(lines))
  }

  /** The records of a placement file's text, as from_string builds them. */
  function ParseDocument(s: string): Result<seq<Instruction>> {
    DecodeLines(Lines(s))
  }

  /** Each record's to_csv line. */
  function CsvLines(doc: seq<Instruction>): (r: seq<string>)
    ensures |r| == |doc|
  {
    seq(|doc|, k requires 0 <= k < |doc| => CsvLine(doc[k]))
  }

  /** to_csv: the records' lines joined with the line ending. */
  function Render(doc: seq<Instruction>, lineEnding: string): string {
    Text.Join(CsvLines(doc), lineEnding)
  }

  /** The line ending to_csv uses when it is given none. */
  function LineEnding(given: Option<string>): string {
    if given.None? then "\n" else given.value
  }

  /** Every record rounded as writing it rounds it. */
  function CanonicalAll(doc: seq<Instruction>): (r: seq<Instruction>)
    ensures |r| == |doc|
  {
    seq(|doc|, k requires 0 <= k < |doc| => Canonical(doc[k]))
  }

  /** A record whose line can be read back on its own: no line break inside, no whitespace around it. */
  predicate Storable(i: Instruction) {
    '\n' !in CsvLine(i) && Text.Trimmed(CsvLine(i))
  }

  // ---------------------------------------------------------------- questions about a file

  /** The (x, y) offsets of the panel copies that are not skipped, in file order, as their x and y properties report them. */
  function Copies(doc: seq<Instruction>): seq<(Dec, Dec)> {
    if |doc| == 0 then []
    else Copies(doc[..|doc| - 1]) + CopyOf(doc[|doc| - 1])
  }

  function CopyOf(i: Instruction): seq<(Dec, Dec)> {
    if i.PanelizedBoard? && !i.skip then [(RepresentDecimal(i.x), RepresentDecimal(i.y))] else []
  }

  /** The (x, y) offsets of the origin records, in file order, as their x and y properties report them. */
  function Origins(doc: seq<Instruction>): seq<(Dec, Dec)> {
    if |doc| == 0 then []
    else Origins(doc[..|doc| - 1]) + OriginOf(doc[|doc| - 1])
  }

  function OriginOf(i: Instruction): seq<(Dec, Dec)> {
    if i.OriginOffset? then [(RepresentDecimal(i.x), RepresentDecimal(i.y))] else []
  }

  /**
   * global_offset as written: more than one origin record raises; with none the source reads
   * the first element of an empty list (IndexError); with exactly one it returns (0, 0).
   */
  function GlobalOffsetAsWritten(doc: seq<Instruction>): (r: Result<(Dec, Dec)>)
    ensures r == Failure(MultipleGlobalOffsets)
        <==> exists i, j :: 0 <= i < j < |doc| && doc[i].OriginOffset? && doc[j].OriginOffset?
    ensures r == Failure(NoOriginOffset) <==> forall k :: 0 <= k < |doc| ==> !doc[k].OriginOffset?
    ensures r.Failure? ==> r.error == MultipleGlobalOffsets || r.error == NoOriginOffset
    ensures r.Success? ==> r.value == (Zero, Zero)
  {
    OriginCounts(doc);
    var offsets := Origins(doc);
    if |offsets| > 1 then Failure(MultipleGlobalOffsets)
    else if |offsets| == 0 then Failure(NoOriginOffset)
    else Success((Zero, Zero))
  }

  /** global_offset as evidently intended: (0, 0) without an origin record, its offset with one. */
  function IntendedGlobalOffset(doc: seq<Instruction>): Result<(Dec, Dec)> {
    var offsets := Origins(doc);
    if |offsets| > 1 then Failure(MultipleGlobalOffsets)
    else if |offsets| == 1 then Success(offsets[0])
    else Success((Zero, Zero))
  }

  /** describe() as written: the description of every record in order, or the first failure. */
  function DescribeAllAsWritten(doc: seq<Instruction>): Result<seq<string>> {
    Collect(seq(|doc|, k requires 0 <= k < |doc| => DescribeAsWritten(doc[k])))
  }

  /** describe() with the panel sentence as intended. */
  function DescribeAll(doc: seq<Instruction>): (r: seq<string>)
    ensures |r| == |doc|
  {
    seq(|doc|, k requires 0 <= k < |doc| => Describe(doc[k]))
  }

  // ---------------------------------------------------------------- the document object

  /** A placement file held in memory: its records in file order. */
  class PlacementInstructions {
    var instructions: seq<Instruction>

    constructor ()
      ensures instructions == []
    {
      instructions := [];
    }

    /**
     * add_from_line: offer the comma-separated fields to each record kind in turn and append the
     * first record that accepts them; an exception raised by a recogniser stops the search.
     */
    method AddFromLine(line: string) returns (r: Result<Instruction>)
      modifies this
      ensures r == DecodeLine(line)
      ensures instructions == old(instructions) + (if r.Success? then [r.value] else [])
    {
      var tokens := Text.Split(line, ',');
      var k := 0;
      while k < |Recognisers|
        invariant 0 <= k <= |Recognisers|
        invariant Dispatch(k, tokens, line) == DecodeLine(line)
        invariant instructions == old(instructions)
      {
        var val := Recognise(Recognisers[k], tokens);
        if val.Failure? {
          return Failure(val.error);
        }
        if val.value.Some? {
          instructions := instructions + [val.value.value];
          return Success(val.value.value);
        }
        k := k + 1;
      }
      return Failure(Unrecognized(line));
    }

    /** A new document holding the records of the lines, each stripped first, or the first exception. */
    static method ReadLines(lines: seq<string>) returns (r: Result<PlacementInstructions>)
      ensures r.Success? <==> DecodeLines(Text.StripAll(lines)).Success?
      ensures r.Success? ==> fresh(r.value) && r.value.instructions == DecodeLines(Text.StripAll(lines)).value
      ensures r.Failure? ==> r.error == DecodeLines(Text.StripAll(lines)).error
    {
      var out := new PlacementInstructions();
      var results := Decoded(Text.StripAll(lines));
      var k := 0;
      while k < |lines|
        invariant 0 <= k <= |lines|
        invariant fresh(out)
        invariant Collect(results[..k]) == Success(out.instructions)
      {
        ghost var done := out.instructions;
        var added := out.AddFromLine(Text.Strip(lines[k]));
        assert results[k] == added;
        CollectNext(results, k, done);
        if added.Failure? {
          return Failure(added.error);
        }
        k := k + 1;
      }
      assert results[..k] == results;
      return Success(out);
    }

    /** from_string: the document of a text whose lines are separated by "\n". */
    static method FromString(s: string) returns (r: Result<PlacementInstructions>)
      ensures r.Success? <==> ParseDocument(s).Success?
      ensures r.Success? ==> fresh(r.value) && r.value.instructions == ParseDocument(s).value
      ensures r.Failure? ==> r.error == ParseDocument(s).error
    {
      r := ReadLines(Text.Split(s, '\n'));
    }

    /** from_file: the document of a file given as its lines, line endings included. */
    static method FromFile(f: seq<string>) returns (r: Result<PlacementInstructions>)
      ensures r.Success? <==> DecodeLines(Text.StripAll(f)).Success?
      ensures r.Success? ==> fresh(r.value) && r.value.instructions == DecodeLines(Text.StripAll(f)).value
      ensures r.Failure? ==> r.error == DecodeLines(Text.StripAll(f)).error
    {
      r := ReadLines(f);
    }

    /**
     * to_csv, with "\n" when no line ending is given. Writing rounds every decimal as reading it
     * back does, and with the default line ending, from_string reads back the rounded records
     * when each of them is well formed and stands on its own line.
     */
    function ToCsv(lineEnding: Option<string>): (r: string)
      reads this
      ensures r == Render(CanonicalAll(instructions), LineEnding(lineEnding))
      ensures lineEnding.None? && |instructions| > 0
              && (forall k :: 0 <= k < |instructions| ==> WellFormed(instructions[k]) && Storable(instructions[k]))
              ==> ParseDocument(r) == Success(CanonicalAll(instructions))
    {
      RenderCanonical(instructions, LineEnding(lineEnding));
      if lineEnding.None? && |instructions| > 0
         && (forall k :: 0 <= k < |instructions| ==> WellFormed(instructions[k]) && Storable(instructions[k]))
      then
        RenderRoundTrip(instructions);
        Render(instructions, "\n")
      else
        Render(instructions, LineEnding(lineEnding))
    }

    /** get_copies: the offsets of the panel copies that are not skipped. */
    method GetCopies() returns (copies: seq<(Dec, Dec)>)
      ensures copies == Copies(instructions)
    {
      copies := [];
      var k := 0;
      while k < |instructions|
        invariant 0 <= k <= |instructions|
        invariant copies == Copies(instructions[..k])
      {
        var i := instructions[k];
        assert instructions[..k + 1][..k] == instructions[..k];
        if i.PanelizedBoard? && !i.skip {
          copies := copies + [(RepresentDecimal(i.x), RepresentDecimal(i.y))];
        }
        k := k + 1;
      }
      assert instructions[..k] == instructions;
    }

    /**
     * global_offset, as written: it raises for two origin records and for none, and otherwise
     * answers (0, 0) whatever the only origin record holds.
     */
    function GlobalOffset(): (r: Result<(Dec, Dec)>)
      reads this
      ensures r == Failure(MultipleGlobalOffsets)
          <==> exists i, j :: 0 <= i < j < |instructions| && instructions[i].OriginOffset? && instructions[j].OriginOffset?
      ensures r == Failure(NoOriginOffset) <==> forall k :: 0 <= k < |instructions| ==> !instructions[k].OriginOffset?
      ensures r.Failure? ==> r.error == MultipleGlobalOffsets || r.error == NoOriginOffset
      ensures r.Success? ==> r.value == (Zero, Zero)
    {
      GlobalOffsetAsWritten(instructions)
    }

    /** describe: one sentence per record, in order. */
    method Describe() returns (r: Result<seq<string>>)
      ensures r == DescribeAllAsWritten(instructions)
    {
      var out := [];
      ghost var doc := instructions;
      ghost var results := seq(|doc|, k requires 0 <= k < |doc| => DescribeAsWritten(doc[k]));
      var k := 0;
      while k < |instructions|
        invariant 0 <= k <= |instructions|
        invariant Collect(results[..k]) == Success(out)
      {
        var d := DescribeAsWritten(instructions[k]);
        assert results[k] == d;
        TakeOneMore(results, k);
        CollectOne(d);
        CollectAppend(results[..k], [d]);
        if d.Failure? {
          assert results == results[..k + 1] + results[k + 1..];
          CollectStop(results[..k + 1], results[k + 1..]);
          return Failure(d.error);
        }
        out := out + [d.value];
        k := k + 1;
      }
      assert results[..k] == results;
      return Success(out);
    }
  }

  // ---------------------------------------------------------------- reading, proved

  /** After a run of results that all succeed, the results that follow decide the outcome. */
  lemma {:induction false} CollectAppend<T>(a: seq<Result<T>>, b: seq<Result<T>>)
    requires Collect(a).Success?
    ensures Collect(b).Failure? ==> Collect(a + b) == Collect(b)
    ensures Collect(b).Success? ==> Collect(a + b) == Success(Collect(a).value + Collect(b).value)
  {
    if |a| > 0 {
      assert (a + b)[0] == a[0];
      assert (a + b)[1..] == a[1..] + b;
      CollectAppend(a[1..], b);
      if Collect(b).Success? {
        var x := Collect(a[1..]).value;
        var y := Collect(b).value;
        assert [a[0].value] + (x + y) == ([a[0].value] + x) + y;
      }
    } else {
      assert a + b == b;
      if Collect(b).Success? {
        assert [] + Collect(b).value == Collect(b).value;
      }
    }
  }

  lemma TakeOneMore<T>(s: seq<T>, k: nat)
    requires k < |s|
    ensures s[..k + 1] == s[..k] + [s[k]]
  {
  }

  /** One more result after a prefix that collected to done: it is appended, or it is the failure of the whole. */
  lemma CollectNext<T>(rs: seq<Result<T>>, k: nat, done: seq<T>)
    requires k < |rs| && Collect(rs[..k]) == Success(done)
    ensures rs[k].Success? ==> Collect(rs[..k + 1]) == Success(done + [rs[k].value])
    ensures rs[k].Failure? ==> Collect(rs) == Failure(rs[k].error)
  {
    TakeOneMore(rs, k);
    CollectOne(rs[k]);
    CollectAppend(rs[..k], [rs[k]]);
    if rs[k].Failure? {
      assert rs == rs[..k + 1] + rs[k + 1..];
      CollectStop(rs[..k + 1], rs[k + 1..]);
    }
  }

  /** A single result collects to its value, or to its failure. */
  lemma CollectOne<T>(r: Result<T>)
    ensures r.Success? ==> Collect([r]) == Success([r.value])
    ensures r.Failure? ==> Collect([r]) == Failure(r.error)
  {
    assert [r][1..] == [];
    if r.Success? {
      assert [r.value] + [] == [r.value];
    }
  }

  /** Results that follow a failure are never looked at. */
  lemma {:induction false} CollectStop<T>(a: seq<Result<T>>, b: seq<Result<T>>)
    requires Collect(a).Failure?
    ensures Collect(a + b) == Collect(a)
  {
    assert (a + b)[0] == a[0];
    assert (a + b)[1..] == a[1..] + b;
    if a[0].Success? {
      CollectStop(a[1..], b);
    }
  }

  /**
   * Collecting succeeds with each result's value exactly when every result succeeds; otherwise it
   * fails with the failure of the first result that failed.
   */
  lemma {:induction false} CollectEach<T>(rs: seq<Result<T>>)
    ensures Collect(rs).Success? ==> forall k :: 0 <= k < |rs| ==> rs[k] == Success(Collect(rs).value[k])
    ensures Collect(rs).Failure? <==> exists k :: 0 <= k < |rs| && rs[k].Failure?
    ensures Collect(rs).Failure? ==> exists k :: FirstFailed(rs, k) && Collect(rs).error == rs[k].error
  {
    if |rs| > 0 {
      var rest := rs[1..];
      CollectEach(rest);
      assert forall k :: 1 <= k < |rs| ==> rs[k] == rest[k - 1];
      if rs[0].Failure? {
        assert FirstFailed(rs, 0);
      } else if Collect(rest).Failure? {
        var k :| FirstFailed(rest, k) && Collect(rest).error == rest[k].error;
        assert FirstFailed(rs, k + 1);
      }
    }
  }

  /** The result at k failed and every one before it succeeded. */
  predicate FirstFailed<T>(rs: seq<Result<T>>, k: int) {
    0 <= k < |rs| && rs[k].Failure? && forall j :: 0 <= j < k ==> rs[j].Success?
  }

  /** Results that all succeed collect to their values. */
  lemma {:induction false} CollectAll<T>(rs: seq<Result<T>>, vs: seq<T>)
    requires |rs| == |vs|
    requires forall k :: 0 <= k < |rs| ==> rs[k] == Success(vs[k])
    ensures Collect(rs) == Success(vs)
  {
    if |rs| > 0 {
      CollectAll(rs[1..], vs[1..]);
      assert vs == [vs[0]] + vs[1..];
    }
  }

  /** The exception of a file is that of its first line that cannot be decoded. */
  lemma FirstFailure(lines: seq<string>, k: nat)
    requires k < |lines|
    requires forall j :: 0 <= j < k ==> DecodeLine(lines[j]).Success?
    requires DecodeLine(lines[k]).Failure?
    ensures DecodeLines(lines) == Failure(DecodeLine(lines[k]).error)
  {
    var rs := Decoded(lines);
    assert FirstFailed(rs, k);
    CollectEach(rs);
    var j :| FirstFailed(rs, j) && Collect(rs).error == rs[j].error;
    assert j == k;
  }

  /** An empty text reads as one blank line. */
  lemma EmptyText()
    ensures ParseDocument("") == Success([Blank])
  {
    assert Lines("") == [""];
    assert Decoded([""]) == [Success(Blank)];
    CollectOne(Success(Blank));
  }

  /**
   * Writing a file and reading it back gives its records, rounded as writing rounds them, when
   * every record's line is well formed and stands on its own line.
   */
  lemma RenderRoundTrip(doc: seq<Instruction>)
    requires |doc| > 0
    requires forall k :: 0 <= k < |doc| ==> WellFormed(doc[k]) && Storable(doc[k])
    ensures ParseDocument(Render(doc, "\n")) == Success(CanonicalAll(doc))
  {
    var lines := CsvLines(doc);
    Text.SplitJoin(lines, '\n');
    assert Text.StripAll(lines) == lines;
    forall k | 0 <= k < |lines|
      ensures Decoded(lines)[k] == Success(CanonicalAll(doc)[k])
    {
      DecodeCsvLine(doc[k]);
    }
    CollectAll(Decoded(lines), CanonicalAll(doc));
  }

  /** Writing the rounded records gives the same text as writing the records themselves. */
  lemma RenderCanonical(doc: seq<Instruction>, lineEnding: string)
    ensures Render(CanonicalAll(doc), lineEnding) == Render(doc, lineEnding)
  {
    forall k | 0 <= k < |doc|
      ensures CsvLines(CanonicalAll(doc))[k] == CsvLines(doc)[k]
    {
      CsvLineCanonical(doc[k]);
    }
    assert CsvLines(CanonicalAll(doc)) == CsvLines(doc);
  }

  /** Reading back a written file and writing it again gives the same text. */
  lemma RenderStable(doc: seq<Instruction>)
    requires |doc| > 0
    requires forall k :: 0 <= k < |doc| ==> WellFormed(doc[k]) && Storable(doc[k])
    ensures ParseDocument(Render(doc, "\n")).Success?
    ensures Render(ParseDocument(Render(doc, "\n")).value, "\n") == Render(doc, "\n")
  {
    RenderRoundTrip(doc);
    RenderCanonical(doc, "\n");
  }

  // ---------------------------------------------------------------- questions, proved

  /** The copies of two runs of records are those of the first run, then those of the second. */
  lemma {:induction false} CopiesAppend(a: seq<Instruction>, b: seq<Instruction>)
    ensures Copies(a + b) == Copies(a) + Copies(b)
  {
    if |b| == 0 {
      assert a + b == a;
    } else {
      assert (a + b)[..|a + b| - 1] == a + b[..|b| - 1];
      CopiesAppend(a, b[..|b| - 1]);
    }
  }

  /** A panel record that is not skipped and whose x and y properties report (x, y). */
  predicate CopyAt(i: Instruction, x: Dec, y: Dec) {
    i.PanelizedBoard? && !i.skip && RepresentDecimal(i.x) == x && RepresentDecimal(i.y) == y
  }

  /** The copies of a non-empty run are those before its last record, then the last one's. */
  lemma CopiesLastStep(doc: seq<Instruction>, x: Dec, y: Dec)
    requires |doc| > 0
    ensures (x, y) in Copies(doc) <==> (x, y) in Copies(doc[..|doc| - 1]) || CopyAt(doc[|doc| - 1], x, y)
  {
    assert Copies(doc) == Copies(doc[..|doc| - 1]) + CopyOf(doc[|doc| - 1]);
  }

  /** (x, y) is a copy exactly when some panel record that is not skipped reports (x, y). */
  lemma {:induction false} CopiesMembers(doc: seq<Instruction>, x: Dec, y: Dec)
    ensures (x, y) in Copies(doc) <==> exists k :: 0 <= k < |doc| && CopyAt(doc[k], x, y)
  {
    if |doc| > 0 {
      var init := doc[..|doc| - 1];
      CopiesMembers(init, x, y);
      CopiesLastStep(doc, x, y);
      if (x, y) in Copies(init) {
        var k :| 0 <= k < |init| && CopyAt(init[k], x, y);
        assert doc[k] == init[k];
      } else if CopyAt(doc[|doc| - 1], x, y) {
        assert 0 <= |doc| - 1 < |doc|;
      } else {
        forall k | 0 <= k < |doc| ensures !CopyAt(doc[k], x, y) {
          if k < |init| {
            assert init[k] == doc[k];
          }
        }
      }
    }
  }

  /** A panel record that is not skipped, the kind get_copies reports. */
  predicate Counted(i: Instruction) {
    i.PanelizedBoard? && !i.skip
  }

  /** One more record adds its own copy, if it has one, to those of the records before it. */
  lemma CopiesPrefixStep(doc: seq<Instruction>, n: nat)
    requires 0 < n <= |doc|
    ensures |Copies(doc[..n])| == |Copies(doc[..n - 1])| + if Counted(doc[n - 1]) then 1 else 0
  {
    var pre := doc[..n];
    assert pre[..n - 1] == doc[..n - 1] && pre[n - 1] == doc[n - 1];
    assert Copies(pre) == Copies(doc[..n - 1]) + CopyOf(doc[n - 1]);
  }

  /** One more record adds its own index to the counted ones when it is counted. */
  lemma CountedStep(doc: seq<Instruction>, n: nat)
    requires 0 < n <= |doc|
    ensures |set k | 0 <= k < n && Counted(doc[k])|
         == |set k | 0 <= k < n - 1 && Counted(doc[k])| + if Counted(doc[n - 1]) then 1 else 0
  {
    var before := set k | 0 <= k < n - 1 && Counted(doc[k]);
    var now := set k | 0 <= k < n && Counted(doc[k]);
    if Counted(doc[n - 1]) {
      assert now == before + {n - 1};
    } else {
      assert now == before;
    }
  }

  /** The first n records give one copy per counted record among them. */
  lemma {:induction false} CopiesCountUpTo(doc: seq<Instruction>, n: nat)
    requires n <= |doc|
    ensures |Copies(doc[..n])| == |set k | 0 <= k < n && Counted(doc[k])| <= n
  {
    if n > 0 {
      CopiesCountUpTo(doc, n - 1);
      CopiesPrefixStep(doc, n);
      CountedStep(doc, n);
    }
  }

  /** There are as many copies as panel records that are not skipped, never more than records. */
  lemma CopiesCount(doc: seq<Instruction>)
    ensures |Copies(doc)| == |set k | 0 <= k < |doc| && doc[k].PanelizedBoard? && !doc[k].skip|
    ensures |Copies(doc)| <= |doc|
  {
    CopiesCountUpTo(doc, |doc|);
    assert doc[..|doc|] == doc;
    assert (set k | 0 <= k < |doc| && Counted(doc[k]))
        == (set k | 0 <= k < |doc| && doc[k].PanelizedBoard? && !doc[k].skip);
  }

  /** The origins of two runs of records are those of the first run, then those of the second. */
  lemma {:induction false} OriginsAppend(a: seq<Instruction>, b: seq<Instruction>)
    ensures Origins(a + b) == Origins(a) + Origins(b)
  {
    if |b| == 0 {
      assert a + b == a;
    } else {
      assert (a + b)[..|a + b| - 1] == a + b[..|b| - 1];
      OriginsAppend(a, b[..|b| - 1]);
    }
  }

  /** A file without an origin record has no origins. */
  lemma {:induction false} NoOrigins(doc: seq<Instruction>)
    ensures Origins(doc) == [] <==> forall k :: 0 <= k < |doc| ==> !doc[k].OriginOffset?
  {
    if |doc| > 0 {
      var init := doc[..|doc| - 1];
      NoOrigins(init);
      if forall k :: 0 <= k < |doc| ==> !doc[k].OriginOffset? {
        assert forall k :: 0 <= k < |init| ==> init[k] == doc[k];
      }
      if Origins(doc) == [] {
        forall k | 0 <= k < |doc|
          ensures !doc[k].OriginOffset?
        {
          if k < |init| {
            assert init[k] == doc[k];
          }
        }
      }
    }
  }

  /** The origins of a file whose only origin record is the one at k. */
  lemma OneOrigin(doc: seq<Instruction>, k: nat)
    requires k < |doc| && doc[k].OriginOffset?
    requires forall j :: 0 <= j < |doc| && j != k ==> !doc[j].OriginOffset?
    ensures Origins(doc) == [(RepresentDecimal(doc[k].x), RepresentDecimal(doc[k].y))]
  {
    var before := doc[..k];
    var after := doc[k + 1..];
    assert doc == before + [doc[k]] + after;
    OriginsAppend(before + [doc[k]], after);
    OriginsAppend(before, [doc[k]]);
    assert Origins([doc[k]]) == Origins([]) + OriginOf(doc[k]);
    NoOrigins(before);
    NoOrigins(after);
  }

  /** Two origin records make at least two origins. */
  lemma TwoOrigins(doc: seq<Instruction>, i: nat, j: nat)
    requires i < j < |doc| && doc[i].OriginOffset? && doc[j].OriginOffset?
    ensures |Origins(doc)| > 1
  {
    var before, after := doc[..j], doc[j..];
    assert doc == before + after;
    OriginsAppend(before, after);
    NoOrigins(before);
    assert before[i] == doc[i];
    NoOrigins(after);
    assert after[0] == doc[j];
  }

  /** At least two origins come from two origin records. */
  lemma {:induction false} ManyOrigins(doc: seq<Instruction>)
    requires |Origins(doc)| > 1
    ensures exists i, j :: 0 <= i < j < |doc| && doc[i].OriginOffset? && doc[j].OriginOffset?
  {
    var n := |doc| - 1;
    var init := doc[..n];
    if |Origins(init)| > 1 {
      ManyOrigins(init);
      var i, j :| 0 <= i < j < |init| && init[i].OriginOffset? && init[j].OriginOffset?;
      assert doc[i] == init[i] && doc[j] == init[j];
    } else {
      assert doc[n].OriginOffset?;
      NoOrigins(init);
      var i :| 0 <= i < |init| && init[i].OriginOffset?;
      assert doc[i] == init[i];
    }
  }

  /** More than one origin means two origin records, and no origin means no origin record. */
  lemma OriginCounts(doc: seq<Instruction>)
    ensures |Origins(doc)| > 1 <==> exists i, j :: 0 <= i < j < |doc| && doc[i].OriginOffset? && doc[j].OriginOffset?
    ensures |Origins(doc)| == 0 <==> forall k :: 0 <= k < |doc| ==> !doc[k].OriginOffset?
  {
    if |Origins(doc)| > 1 {
      ManyOrigins(doc);
    }
    if exists i, j :: 0 <= i < j < |doc| && doc[i].OriginOffset? && doc[j].OriginOffset? {
      var i, j :| 0 <= i < j < |doc| && doc[i].OriginOffset? && doc[j].OriginOffset?;
      TwoOrigins(doc, i, j);
    }
    NoOrigins(doc);
  }

  /**
   * The intended global offset: an error exactly when two origin records are present, (0, 0)
   * without one, and the offset of the only one otherwise.
   */
  lemma IntendedGlobalOffsetCases(doc: seq<Instruction>)
    ensures IntendedGlobalOffset(doc) == Failure(MultipleGlobalOffsets)
        <==> exists i, j :: 0 <= i < j < |doc| && doc[i].OriginOffset? && doc[j].OriginOffset?
    ensures (forall k :: 0 <= k < |doc| ==> !doc[k].OriginOffset?)
        ==> IntendedGlobalOffset(doc) == Success((Zero, Zero))
    ensures forall k ::
      (0 <= k < |doc| && doc[k].OriginOffset? && OnlyOrigin(doc, k))
        ==> IntendedGlobalOffset(doc) == Success((RepresentDecimal(doc[k].x), RepresentDecimal(doc[k].y)))
  {
    OriginCounts(doc);
    forall k | 0 <= k < |doc| && doc[k].OriginOffset? && OnlyOrigin(doc, k)
      ensures IntendedGlobalOffset(doc) == Success((RepresentDecimal(doc[k].x), RepresentDecimal(doc[k].y)))
    {
      OneOrigin(doc, k);
    }
  }

  /** No record but the one at k is an origin record. */
  predicate OnlyOrigin(doc: seq<Instruction>, k: nat) {
    forall j :: 0 <= j < |doc| && j != k ==> !doc[j].OriginOffset?
  }

  /** A file whose only record is an origin offset of (1, 2): as written its offset is read as (0, 0). */
  lemma GlobalOffsetExample()
    ensures GlobalOffsetAsWritten([OriginOffset(Dec(false, 1, 0), Dec(false, 2, 0))]) == Success((Zero, Zero))
    ensures IntendedGlobalOffset([OriginOffset(Dec(false, 1, 0), Dec(false, 2, 0))]) == Success((Dec(false, 1, 0), Dec(false, 2, 0)))
  {
    RepresentCanonical(Dec(false, 1, 0));
    RepresentCanonical(Dec(false, 2, 0));
    assert Origins([OriginOffset(Dec(false, 1, 0), Dec(false, 2, 0))]) == [(Dec(false, 1, 0), Dec(false, 2, 0))] by {
      assert [OriginOffset(Dec(false, 1, 0), Dec(false, 2, 0))][..0] == [];
    }
  }

  /** describe() as written fails a file holding a panel record, and otherwise describes every line. */
  lemma DescribeAllAsWrittenCases(doc: seq<Instruction>)
    ensures DescribeAllAsWritten(doc).Failure? <==> exists k :: 0 <= k < |doc| && doc[k].PanelizedBoard?
    ensures DescribeAllAsWritten(doc).Failure? ==> DescribeAllAsWritten(doc).error == NotCallable
    ensures DescribeAllAsWritten(doc).Success? ==> DescribeAllAsWritten(doc).value == DescribeAll(doc)
  {
    var rs := seq(|doc|, k requires 0 <= k < |doc| => DescribeAsWritten(doc[k]));
    forall k | 0 <= k < |doc|
      ensures rs[k].Failure? <==> doc[k].PanelizedBoard?
      ensures rs[k].Failure? ==> rs[k].error == NotCallable
      ensures rs[k].Success? ==> rs[k].value == DescribeAll(doc)[k]
    {
    }
    CollectEach(rs);
    if Collect(rs).Success? {
      assert Collect(rs).value == DescribeAll(doc);
    }
  }
}
