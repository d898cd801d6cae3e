/**
 * The reader of KiCad footprint-position (.pos) files (tm2x0/kicad.py): the units line, and one
 * part per data line, grouped by board side in file order.
 */
module Kicad {
  import opened Wrappers
  import opened Numerals
  import opened Decimals
  import opened PartPlacements
  import Text

  datatype Units = Millimetres | Inches

  // ---------------------------------------------------------------- detect_units

  predicate IsUnitLine(line: string) {
    Text.StartsWith(line, "## Unit = ")
  }

  /** What a units line names: mm, inches, or anything else, which raises ValueError. */
  function UnitsNamed(line: string): Result<Units> {
    if Text.StartsWith(line, "## Unit = mm") then Success(Millimetres)
    else if Text.StartsWith(line, "## Unit = inches") then Success(Inches)
    else Failure(UnexpectedUnits(line))
  }

  /** Line k is the first units line of lines. */
  predicate FirstUnitLine(lines: seq<string>, k: int) {
    0 <= k < |lines| && IsUnitLine(lines[k]) && forall j :: 0 <= j < k ==> !IsUnitLine(lines[j])
  }

  /** The units of a units line as detect_units returns them, or the exception it raises. */
  function Lifted(r: Result<Units>): Result<Option<Units>> {
    match r
    case Success(u) => Success(Some(u))
    case Failure(e) => Failure(e)
  }

  /** detect_units over the lines of a file, one line at a time. */
  function UnitsIn(lines: seq<string>): Result<Option<Units>> {
    if |lines| == 0 then Success(None)
    else if IsUnitLine(lines[0]) then Lifted(UnitsNamed(lines[0]))
    else UnitsIn(lines[1..])
  }

  /** The first units line decides, and the lines after it are never looked at. */
  lemma {:induction false} UnitsInFirst(lines: seq<string>, k: int)
    requires FirstUnitLine(lines, k)
    ensures UnitsIn(lines) == Lifted(UnitsNamed(lines[k]))
  {
    if k > 0 {
      var tail := lines[1..];
      assert !IsUnitLine(lines[0]);
      assert tail[k - 1] == lines[k];
      forall j | 0 <= j < k - 1 ensures !IsUnitLine(tail[j]) {
        assert tail[j] == lines[j + 1];
      }
      UnitsInFirst(tail, k - 1);
    }
  }

  /** Without a units line there are no units (None), and only then. */
  lemma {:induction false} UnitsInNone(lines: seq<string>)
    ensures UnitsIn(lines) == Success(None) <==> forall k :: 0 <= k < |lines| ==> !IsUnitLine(lines[k])
  {
    if |lines| > 0 && !IsUnitLine(lines[0]) {
      var tail := lines[1..];
      UnitsInNone(tail);
      assert forall k :: 0 < k < |lines| ==> lines[k] == tail[k - 1];
      assert forall k :: 0 <= k < |tail| ==> tail[k] == lines[k + 1];
    }
  }

  /**
   * detect_units(s): the lines are the pieces between newlines. The first units line decides,
   * and there are no units (None) exactly when no line is a units line.
   */
  function DetectUnits(s: string): (r: Result<Option<Units>>)
    ensures var lines := Text.Split(s, '\n');
      forall k :: FirstUnitLine(lines, k) ==> r == Lifted(UnitsNamed(lines[k]))
    ensures var lines := Text.Split(s, '\n');
      r == Success(None) <==> forall k :: 0 <= k < |lines| ==> !IsUnitLine(lines[k])
  {
    var lines := Text.Split(s, '\n');
    UnitsInDecided(lines);
    UnitsInNone(lines);
    UnitsIn(lines)
  }

  /** Whichever line is the first units line decides. */
  lemma UnitsInDecided(lines: seq<string>)
    ensures forall k :: FirstUnitLine(lines, k) ==> UnitsIn(lines) == Lifted(UnitsNamed(lines[k]))
  {
    forall k | FirstUnitLine(lines, k)
      ensures UnitsIn(lines) == Lifted(UnitsNamed(lines[k]))
    {
      UnitsInFirst(lines, k);
    }
  }

  /** A units line names mm or inches only by what follows "## Unit = ". */
  lemma UnitsNamedCases(line: string)
    requires IsUnitLine(line)
    ensures UnitsNamed(line) == Success(Millimetres) <==> Text.StartsWith(line, "## Unit = mm")
    ensures UnitsNamed(line) == Success(Inches) <==>
      !Text.StartsWith(line, "## Unit = mm") && Text.StartsWith(line, "## Unit = inches")
    ensures UnitsNamed(line).Failure? ==> UnitsNamed(line).error == UnexpectedUnits(line)
  {
  }

  // ---------------------------------------------------------------- one line

  /** The part a data line describes and the side of the board it goes to. */
  datatype KicadPart = KicadPart(side: string, part: PartValue)

  /**
   * KiCad turns clockwise from 0 to 360 degrees, the machine counterclockwise: the rotation
   * stored is -(rot - 180), which is 180 - rot truncated toward zero to an integer. With
   * rot = c / u, its magnitude is the whole number of times u goes into 180 * u - c, and its
   * sign is that difference's.
   */
  function Rotation(rot: Dec): (r: int)
    ensures var e := Min(rot.exp, 0); var u := Pow10(-e); var v := 180 * u - Scaled(rot, e);
      && Abs(r) * u <= Abs(v) < Abs(r) * u + u
      && (r != 0 ==> (r < 0 <==> v < 0))
  {
    RotationDifference(rot);
    TruncToInt(Negate(Subtract(rot, Dec(false, 180, 0))))
  }

  /** -(rot - 180) carries the exponent of rot (at most 0), and its magnitude and sign are those of 180 - rot. */
  lemma RotationDifference(rot: Dec)
    ensures var e := Min(rot.exp, 0); var v := 180 * Pow10(-e) - Scaled(rot, e);
      var d := Negate(Subtract(rot, Dec(false, 180, 0)));
      && d.exp == e && d.mag == Abs(v) && (v != 0 ==> (d.neg <==> v < 0))
      && (e == 0 ==> Pow10(-e) == 1)
  {
    var e := Min(rot.exp, 0);
    var d := Negate(Subtract(rot, Dec(false, 180, 0)));
    assert Scaled(Dec(false, 180, 0), e) == 180 * Pow10(-e);
    var v := 180 * Pow10(-e) - Scaled(rot, e);
    assert d.exp == e && Scaled(d, e) == v;
    assert d.mag == Abs(v) && (v != 0 ==> (d.neg <==> v < 0)) by {
      assert Pow10(0) == 1;
    }
    assert Pow10(0) == 1;
  }

  /**
   * add_from_line's reading of one line: a comment or empty line gives no part; a data line
   * needs a seventh token (the side), and its position and rotation tokens must be decimals.
   * Reference, value and footprint are the first three tokens; x and y stay the raw tokens.
   */
  function ReadLine(line: string): Result<Option<KicadPart>> {
    if line == "" || Text.StartsWith(line, "#") then Success(None)
    else
      var t := Text.SplitWhitespace(line);
      if |t| < 7 then Failure(MissingField(6))
      else
        var x :- ParseDec(t[3]);
        var y :- ParseDec(t[4]);
        var rot :- ParseDec(t[5]);
        Success(Some(KicadPart(t[6], PartValue(None, t[0], Some(t[1]), Some(t[2]), t[3], t[4], None,
                                               Rotation(rot), None, 1))))
  }

  /**
   * A comment or empty line gives nothing; a data line short of seven tokens raises; otherwise
   * the part it gives, or the exception of its first bad decimal among x, y and rotation.
   */
  lemma ReadLineCases(line: string)
    ensures (line == "" || Text.StartsWith(line, "#")) ==> ReadLine(line) == Success(None)
    ensures line != "" && !Text.StartsWith(line, "#") && |Text.SplitWhitespace(line)| < 7 ==>
      ReadLine(line) == Failure(MissingField(6))
    ensures var t := Text.SplitWhitespace(line);
      ReadLine(line).Success? && ReadLine(line).value.Some? ==>
      && |t| >= 7 && ReadLine(line).value.value.side == t[6]
      && ParseDec(t[3]).Success? && ParseDec(t[4]).Success? && ParseDec(t[5]).Success?
      && ReadLine(line).value.value.part == PartValue(None, t[0], Some(t[1]), Some(t[2]), t[3], t[4], None,
                                         Rotation(ParseDec(t[5]).value), None, 1)
    ensures var t := Text.SplitWhitespace(line);
      ReadLine(line).Failure? && |t| >= 7 && line != "" && !Text.StartsWith(line, "#") ==>
      || (ParseDec(t[3]).Failure? && ReadLine(line).error == ParseDec(t[3]).error)
      || (ParseDec(t[3]).Success? && ParseDec(t[4]).Failure? && ReadLine(line).error == ParseDec(t[4]).error)
      || (ParseDec(t[3]).Success? && ParseDec(t[4]).Success? && ParseDec(t[5]).Failure?
          && ReadLine(line).error == ParseDec(t[5]).error)
  {
  }

  /** The whitespace runs between the columns of a data line: each non-empty and all whitespace. */
  predicate Gaps(gaps: seq<string>) {
    forall i :: 0 <= i < |gaps| ==> |gaps[i]| > 0 && Text.AllSpace(gaps[i])
  }

  /**
   * Words separated by runs of whitespace of any length, the first not a comment, make a data
   * line that strip() leaves alone and whose tokens are those words.
   */
  lemma WordsLine(ws: seq<string>, gaps: seq<string>)
    requires |ws| >= 1 && |gaps| == |ws| - 1 && Gaps(gaps)
    requires forall i :: 0 <= i < |ws| ==> Text.IsWord(ws[i])
    requires !Text.StartsWith(ws[0], "#")
    ensures var line := Text.Spaced(ws, gaps);
      && line != "" && !Text.StartsWith(line, "#") && Text.Strip(line) == line
      && Text.SplitWhitespace(line) == ws
  {
    var line := Text.Spaced(ws, gaps);
    Text.SplitWhitespaceSpaced(ws, gaps);
    Text.SpacedEnds(ws, gaps);
    assert Text.IsWord(ws[0]);
    assert line[..|ws[0]|] == ws[0];
    assert line[0] == ws[0][0];
    assert ws[0][..1] == [ws[0][0]];
    Text.NotStartsWith(line, "#");
  }

  /**
   * A line written as at least seven words separated by runs of whitespace reads back as the part
   * those words describe, on the side the seventh names, when the first word is not a comment.
   */
  lemma ReadWords(ws: seq<string>, gaps: seq<string>, rot: Dec)
    requires |ws| >= 7 && |gaps| == |ws| - 1 && Gaps(gaps)
    requires forall i :: 0 <= i < |ws| ==> Text.IsWord(ws[i])
    requires !Text.StartsWith(ws[0], "#")
    requires ParseDec(ws[3]).Success? && ParseDec(ws[4]).Success? && ParseDec(ws[5]) == Success(rot)
    ensures ReadLine(Text.Spaced(ws, gaps)) ==
      Success(Some(KicadPart(ws[6], PartValue(None, ws[0], Some(ws[1]), Some(ws[2]), ws[3], ws[4], None,
                                              Rotation(rot), None, 1))))
  {
    WordsLine(ws, gaps);
  }

  /** A data line with fewer than seven tokens raises IndexError, however its columns are spaced. */
  lemma ReadShortLine(ws: seq<string>, gaps: seq<string>)
    requires 1 <= |ws| < 7 && |gaps| == |ws| - 1 && Gaps(gaps)
    requires forall i :: 0 <= i < |ws| ==> Text.IsWord(ws[i])
    requires !Text.StartsWith(ws[0], "#")
    ensures ReadLine(Text.Spaced(ws, gaps)) == Failure(MissingField(6))
  {
    WordsLine(ws, gaps);
  }

  // ---------------------------------------------------------------- rotation

  /** An integral KiCad angle becomes 180 minus that angle exactly. */
  lemma RotationWhole(rot: Dec)
    requires rot.exp >= 0
    ensures Rotation(rot) == 180 - Scaled(rot, 0)
  {
    var d := Negate(Subtract(rot, Dec(false, 180, 0)));
    assert Scaled(Dec(false, 180, 0), 0) == 180;
    assert d.exp == 0 && Scaled(d, 0) == 180 - Scaled(rot, 0);
  }

  /** A KiCad angle from 0 to 360 degrees becomes a machine angle from -180 to 180. */
  lemma RotationRange(rot: Dec)
    requires var e := Min(rot.exp, 0); 0 <= Scaled(rot, e) <= 360 * Pow10(-e)
    ensures -180 <= Rotation(rot) <= 180
  {
    var e := Min(rot.exp, 0);
    var u := Pow10(-e);
    var v := 180 * u - Scaled(rot, e);
    assert Abs(v) <= 180 * u;
    var a := Abs(Rotation(rot));
    if a > 180 {
      assert a * u >= 181 * u by {
        MultiplyMonotone(181, a, u);
      }
    }
  }

  /** 270.0 -> -90, 90.0 -> 90 and 180.0 -> 0, as the KiCad angles of a part on the reel map. */
  lemma RotationExamples()
    ensures Rotation(Dec(false, 2700, -1)) == -90
    ensures Rotation(Dec(false, 900, -1)) == 90
    ensures Rotation(Dec(false, 1800, -1)) == 0
  {
    assert Pow10(1) == 10;
  }

  // ---------------------------------------------------------------- a whole file

  function ListAt(m: map<string, seq<PartValue>>, side: string): seq<PartValue> {
    if side in m then m[side] else []
  }

  /** add: the part goes to the end of its side's list, which is made when missing. */
  function Put(m: map<string, seq<PartValue>>, k: Option<KicadPart>): map<string, seq<PartValue>> {
    if k.None? then m else m[k.value.side := ListAt(m, k.value.side) + [k.value.part]]
  }

  /** The parts of lines, read in order; the first line that raises stops the reading. */
  function Gather(lines: seq<string>): Result<map<string, seq<PartValue>>> {
    if |lines| == 0 then Success(map[])
    else
      var m :- Gather(lines[..|lines| - 1]);
      var k :- ReadLine(lines[|lines| - 1]);
      Success(Put(m, k))
  }

  /** The parts the data lines among lines place on side, in file order. */
  function PartsOn(lines: seq<string>, side: string): seq<PartValue> {
    if |lines| == 0 then []
    else
      var k := ReadLine(lines[|lines| - 1]);
      PartsOn(lines[..|lines| - 1], side)
        + (if k.Success? && k.value.Some? && k.value.value.side == side then [k.value.value.part] else [])
  }

  /** Each side lists exactly the parts its data lines describe, in order, and no other side appears. */
  lemma {:induction false} GatherBySide(lines: seq<string>, side: string)
    requires Gather(lines).Success?
    ensures ListAt(Gather(lines).value, side) == PartsOn(lines, side)
    ensures side in Gather(lines).value <==> |PartsOn(lines, side)| > 0
  {
    if |lines| > 0 {
      GatherBySide(lines[..|lines| - 1], side);
    }
  }

  /** Reading fails exactly when some line raises. */
  lemma {:induction false} GatherFails(lines: seq<string>)
    ensures Gather(lines).Failure? <==> exists k :: 0 <= k < |lines| && ReadLine(lines[k]).Failure?
  {
    if |lines| > 0 {
      var pre, last := lines[..|lines| - 1], lines[|lines| - 1];
      GatherFails(pre);
      if Gather(pre).Failure? {
        var k :| 0 <= k < |pre| && ReadLine(pre[k]).Failure?;
        assert lines[k] == pre[k];
        assert Gather(lines) == Gather(pre);
      } else if ReadLine(last).Failure? {
        assert Gather(lines) == Failure(ReadLine(last).error);
      } else {
        assert Gather(lines).Success?;
        forall k | 0 <= k < |lines| ensures ReadLine(lines[k]).Success? {
          if k < |pre| {
            assert lines[k] == pre[k];
          }
        }
      }
    }
  }

  /** The exception is the first raising line's. */
  lemma GatherFirstFailure(lines: seq<string>, k: nat)
    requires k < |lines| && ReadLine(lines[k]).Failure?
    requires forall j :: 0 <= j < k ==> ReadLine(lines[j]).Success?
    ensures Gather(lines) == Failure(ReadLine(lines[k]).error)
  {
    var pre, upto := lines[..k], lines[..k + 1];
    assert Gather(pre).Success? by {
      forall j | 0 <= j < |pre| ensures ReadLine(pre[j]).Success? {
        assert pre[j] == lines[j];
      }
      GatherFails(pre);
    }
    assert Gather(upto) == Failure(ReadLine(lines[k]).error) by {
      assert upto[..|upto| - 1] == pre && upto[|upto| - 1] == lines[k];
    }
    GatherStops(lines, k + 1);
  }

  /** Once a prefix raises, the rest of the lines are not read. */
  lemma {:induction false} GatherStops(lines: seq<string>, k: nat)
    requires k <= |lines| && Gather(lines[..k]).Failure?
    ensures Gather(lines) == Gather(lines[..k])
    decreases |lines|
  {
    if k < |lines| {
      var pre := lines[..|lines| - 1];
      assert pre[..k] == lines[..k];
      GatherStops(pre, k);
    } else {
      assert lines[..k] == lines;
    }
  }

  /** What from_string builds: the units, the stripped lines kept in order, and the parts by side. */
  datatype Positions = Positions(units: Option<Units>, lines: seq<string>, parts: map<string, seq<PartValue>>)

  function ReadPositions(s: string): Result<Positions> {
    var units :- DetectUnits(s);
    var lines := Text.StripAll(Text.Split(s, '\n'));
    var parts :- Gather(lines);
    Success(Positions(units, lines, parts))
  }

  /** When no line has whitespace at either end, joining the kept lines gives the file back. */
  lemma LinesKeepText(s: string)
    requires ReadPositions(s).Success?
    requires forall i :: 0 <= i < |Text.Split(s, '\n')| ==> Text.Trimmed(Text.Split(s, '\n')[i])
    ensures Text.Join(ReadPositions(s).value.lines, "\n") == s
  {
    var pieces := Text.Split(s, '\n');
    assert Text.StripAll(pieces) == pieces;
    Text.JoinSplit(s, '\n');
  }

  // ---------------------------------------------------------------- the reader object

  ghost function SideObjects(m: map<string, seq<PartPlacement>>): set<PartPlacement> {
    set side, p | side in m && p in m[side] :: p
  }

  function SideValuesOf(m: map<string, seq<PartPlacement>>): (r: map<string, seq<PartValue>>)
    reads SideObjects(m)
    ensures r.Keys == m.Keys
  {
    map side | side in m :: Values(m[side])
  }

  /** Part lists whose objects the step did not touch have the values they had. */
  twostate lemma SideValuesKept(m: map<string, seq<PartPlacement>>)
    requires unchanged(SideObjects(m))
    ensures SideValuesOf(m) == old(SideValuesOf(m))
  {
    forall side | side in m ensures Values(m[side]) == old(Values(m[side])) {
      assert forall p :: p in m[side] ==> p in SideObjects(m);
      ValuesKept(m[side]);
    }
  }

  lemma SideValuesPut(m: map<string, seq<PartPlacement>>, side: string, p: PartPlacement)
    ensures var l := if side in m then m[side] else [];
      SideValuesOf(m[side := l + [p]]) == Put(SideValuesOf(m), Some(KicadPart(side, p.Value())))
  {
    var l := if side in m then m[side] else [];
    ValuesAppend(l, p);
  }

  class KicadPartPositions {
    var instructions: map<string, seq<PartPlacement>>
    var lines: seq<string>
    var units: Option<Units>

    constructor (units: Option<Units>)
      ensures instructions == map[] && lines == [] && this.units == units
    {
      instructions := map[];
      lines := [];
      this.units := units;
    }

    /** The parts by side, as plain values. */
    function Contents(): map<string, seq<PartValue>>
      reads this, SideObjects(instructions)
    {
      SideValuesOf(instructions)
    }

    /** add: part goes to the end of side's list, made first when missing; other sides keep theirs. */
    method Add(part: PartPlacement, side: string)
      modifies this`instructions
      ensures instructions == old(instructions)[side := (if side in old(instructions) then old(instructions)[side] else []) + [part]]
    {
      if side !in instructions {
        instructions := instructions[side := []];
      }
      instructions := instructions[side := instructions[side] + [part]];
    }

    /**
     * add_from_line: the line is kept whatever happens; a data line adds its part to its side,
     * and a line that raises leaves the parts as they were.
     */
    method AddFromLine(line: string) returns (r: Result<()>)
      modifies this`lines, this`instructions
      ensures lines == old(lines) + [line]
      ensures r.Failure? <==> ReadLine(line).Failure?
      ensures r.Failure? ==> r.error == ReadLine(line).error && instructions == old(instructions)
      ensures r.Success? ==> Contents() == Put(old(Contents()), ReadLine(line).value)
    {
      lines := lines + [line];
      if Text.StartsWith(line, "#") || line == "" {
        return Success(());
      }
      var tokens := Text.SplitWhitespace(line);
      if |tokens| < 7 {
        return Failure(MissingField(6));
      }
      var side := tokens[6];
      var x :- ParseDec(tokens[3]);
      var y :- ParseDec(tokens[4]);
      var rot :- ParseDec(tokens[5]);
      var p := new PartPlacement(tokens[0], tokens[3], tokens[4], Rotation(rot), None, Some(tokens[2]), Some(tokens[1]));
      ghost var m := instructions;
      Add(p, side);
      SideValuesKept(m);
      SideValuesPut(m, side, p);
      r := Success(());
    }

    /**
     * from_string: the units first, then every line, stripped, through add_from_line; the first
     * exception is the result.
     */
    static method FromString(s: string) returns (r: Result<KicadPartPositions>)
      ensures r.Failure? <==> ReadPositions(s).Failure?
      ensures r.Failure? ==> r.error == ReadPositions(s).error
      ensures r.Success? ==> var want := ReadPositions(s).value;
        && fresh(r.value) && r.value.units == want.units && r.value.lines == want.lines
        && r.value.Contents() == want.parts
    {
      var units := DetectUnits(s);
      if units.Failure? {
        return Failure(units.error);
      }
      var out := new KicadPartPositions(units.value);
      var read := out.AddLines(Text.Split(s, '\n'));
      if read.Failure? {
        return Failure(read.error);
      }
      r := Success(out);
    }

    /** from_file: the whole text of the file, read at once, goes through from_string. */
    static method FromFile(contents: string) returns (r: Result<KicadPartPositions>)
      ensures r.Failure? <==> ReadPositions(contents).Failure?
      ensures r.Failure? ==> r.error == ReadPositions(contents).error
      ensures r.Success? ==> var want := ReadPositions(contents).value;
        && fresh(r.value) && r.value.units == want.units && r.value.lines == want.lines
        && r.value.Contents() == want.parts
    {
      r := FromString(contents);
    }

    /** The loop of from_string: every line, stripped, through add_from_line, until one raises. */
    method AddLines(pieces: seq<string>) returns (r: Result<()>)
      requires lines == [] && instructions == map[]
      modifies this`lines, this`instructions
      ensures var want := Gather(Text.StripAll(pieces));
        && (r.Failure? <==> want.Failure?)
        && (r.Failure? ==> r.error == want.error)
        && (r.Success? ==> lines == Text.StripAll(pieces) && Contents() == want.value)
    {
      ghost var all := Text.StripAll(pieces);
      var k := 0;
      while k < |pieces|
        invariant 0 <= k <= |pieces|
        invariant lines == all[..k]
        invariant Gather(all[..k]) == Success(Contents())
      {
        var line := Text.Strip(pieces[k]);
        assert all[..k + 1] == all[..k] + [line] && all[..k + 1][..k] == all[..k];
        var step := AddFromLine(line);
        if step.Failure? {
          GatherStops(all, k + 1);
          return Failure(step.error);
        }
        k := k + 1;
      }
      assert all[..k] == all;
      r := Success(());
    }
  }
}
