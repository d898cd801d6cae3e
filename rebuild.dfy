/**
 * What Placement.from_instructions (tm2x0/placement.py) rebuilds from a placement file, stated
 * over plain values: the reels the stack and feed records describe, the parts of the unskipped
 * part records grouped by slot, and the reel heights reconciled with their parts.
 */
module Rebuild {
  import opened Wrappers
  import opened Decimals
  import opened Records
  import opened Reels
  import opened PartPlacements
  import Instructions

  /** The reels and the per-slot part lists of a placement, as plain values. */
  datatype Built = Built(reels: map<int, ReelValue>, parts: map<int, seq<PartValue>>)

  /** The reel of a slot, or a new one with only its number when there is none yet. */
  function ReelAt(reels: map<int, ReelValue>, s: int): ReelValue {
    if s in reels then reels[s] else DefaultReel(s)
  }

  /**
   * assign_part_to_reel on values: the part now names the slot, the slot gets a default reel if
   * it had none, and the part goes to the end of the slot's list.
   */
  function Assigned(b: Built, p: PartValue, s: int): Built {
    Built(b.reels[s := ReelAt(b.reels, s)],
          b.parts[s := (if s in b.parts then b.parts[s] else []) + [p.(reel := Some(s))]])
  }

  /** The part from_instructions makes of an unskipped part record. */
  function PartOf(i: Instruction): PartValue
    requires i.PartPlacement?
  {
    PartValue(Some(i.stack), i.reference, None, None, DecimalText(i.x), DecimalText(i.y),
              Some(RepresentDecimal(i.height)), i.rotation, Some(i.comment), i.pickupHead)
  }

  /** What one record does to the placement being rebuilt; a skipped part record is dropped. */
  function Absorb(b: Built, i: Instruction): Built {
    match i
    case StackOffset(s, x, y, _) =>
      var r := ReelAt(b.reels, s);
      b.(reels := b.reels[s := r.(stackX := Some(RepresentDecimal(x)), stackY := Some(RepresentDecimal(y)))])
    case FeedSpacing(s, f) =>
      var r := ReelAt(b.reels, s);
      b.(reels := b.reels[s := r.(feedSpacing := Some(RepresentDecimal(f)))])
    case PartPlacement(_, _, s, _, _, _, _, skip, _, _) =>
      if skip then b else Assigned(b, PartOf(i), s)
    case _ => b
  }

  /** The reels and parts after every record, first to last; every listed part names the slot it is listed under. */
  function BuildAll(doc: seq<Instruction>): (r: Built)
    ensures OnOwnSlots(r.parts)
  {
    if |doc| == 0 then Built(map[], map[])
    else
      AbsorbOnOwnSlots(BuildAll(doc[..|doc| - 1]), doc[|doc| - 1]);
      Absorb(BuildAll(doc[..|doc| - 1]), doc[|doc| - 1])
  }

  /** Python's == on two heights: None equals only None, and decimals are equal as numbers (-0 == 0). */
  predicate SameHeight(a: Option<Dec>, b: Option<Dec>) {
    if a.Some? && b.Some? then SameValue(a.value, b.value) else a == b
  }

  /** set.add(h) on heights: h goes in unless an equal height is there already, which is kept. */
  function AddHeight(hs: set<Option<Dec>>, h: Option<Dec>): set<Option<Dec>> {
    if exists x :: x in hs && SameHeight(x, h) then hs else hs + {h}
  }

  /** The set of heights of a list of parts, added in list order. */
  function Heights(ps: seq<PartValue>): set<Option<Dec>> {
    if |ps| == 0 then {} else AddHeight(Heights(ps[..|ps| - 1]), ps[|ps| - 1].height)
  }

  /**
   * Height reconciliation over the slots in done: a reel whose parts share one height takes it;
   * a reel whose parts disagree keeps its own.
   */
  function ReconcileOver(b: Built, done: set<int>): map<int, ReelValue> {
    map s | s in b.reels ::
      if s in done && s in b.parts && |b.parts[s]| > 0 && |Heights(b.parts[s])| == 1
      then b.reels[s].(height := b.parts[s][0].height)
      else b.reels[s]
  }

  /** The slots whose parts disagree on their height; each one is warned about. */
  function Conflicts(b: Built, done: set<int>): set<int> {
    set s | s in done && s in b.parts && |Heights(b.parts[s])| > 1
  }

  /** The reels from_instructions returns: the same slots, and a slot without parts keeps its reel. */
  function Reconcile(b: Built): (r: map<int, ReelValue>)
    ensures r.Keys == b.reels.Keys
    ensures forall s :: s in b.reels && s !in b.parts ==> r[s] == b.reels[s]
  {
    ReconcileOver(b, b.parts.Keys)
  }

  // ---------------------------------------------------------------- what the records build

  /** An unskipped part record for slot s. */
  predicate PartFor(i: Instruction, s: int) {
    i.PartPlacement? && !i.skip && i.stack == s
  }

  /** A record that makes from_instructions touch slot s. */
  predicate Names(i: Instruction, s: int) {
    (i.StackOffset? && i.stack == s) || (i.FeedSpacing? && i.stack == s) || PartFor(i, s)
  }

  /** The parts of the unskipped part records for slot s, in file order. */
  function PartsFor(doc: seq<Instruction>, s: int): seq<PartValue> {
    if |doc| == 0 then []
    else PartsFor(doc[..|doc| - 1], s) + (if PartFor(doc[|doc| - 1], s) then [PartOf(doc[|doc| - 1])] else [])
  }

  /** The last stack offset record for slot s is at k. */
  predicate LastStackOffset(doc: seq<Instruction>, s: int, k: int) {
    0 <= k < |doc| && doc[k].StackOffset? && doc[k].stack == s
    && forall j :: k < j < |doc| ==> !(doc[j].StackOffset? && doc[j].stack == s)
  }

  /** The last feed spacing record for slot s is at k. */
  predicate LastFeedSpacing(doc: seq<Instruction>, s: int, k: int) {
    0 <= k < |doc| && doc[k].FeedSpacing? && doc[k].stack == s
    && forall j :: k < j < |doc| ==> !(doc[j].FeedSpacing? && doc[j].stack == s)
  }

  /** One record adds slot s to the reels or the part lists only when it names s. */
  lemma AbsorbSlot(b: Built, i: Instruction, s: int)
    ensures s in Absorb(b, i).reels <==> s in b.reels || Names(i, s)
    ensures s in Absorb(b, i).parts <==> s in b.parts || PartFor(i, s)
    ensures PartsOf(Absorb(b, i), s) == PartsOf(b, s) + (if PartFor(i, s) then [PartOf(i)] else [])
  {
    if i.PartPlacement? && !i.skip {
      var v := PartOf(i);
      assert v.(reel := Some(i.stack)) == v;
      assert Absorb(b, i) == Assigned(b, v, i.stack);
    }
  }

  /** The list of slot s, empty when the slot has none. */
  function PartsOf(b: Built, s: int): seq<PartValue> {
    if s in b.parts then b.parts[s] else []
  }

  /** A slot has a reel after the rebuild exactly when some record names it. */
  lemma {:induction false} BuildReelKeys(doc: seq<Instruction>, s: int)
    ensures s in BuildAll(doc).reels <==> exists k :: 0 <= k < |doc| && Names(doc[k], s)
  {
    if |doc| > 0 {
      var pre := doc[..|doc| - 1];
      BuildReelKeys(pre, s);
      AbsorbSlot(BuildAll(pre), doc[|doc| - 1], s);
      if s in BuildAll(pre).reels {
        var k :| 0 <= k < |pre| && Names(pre[k], s);
        assert doc[k] == pre[k];
      }
      if s !in BuildAll(doc).reels {
        forall k | 0 <= k < |doc| ensures !Names(doc[k], s) {
          if k < |pre| {
            assert doc[k] == pre[k];
          }
        }
      }
    }
  }

  /**
   * The list of slot s holds the parts of its unskipped part records in file order; a slot has
   * a list only when it has at least one part, and every slot with parts has a reel.
   */
  lemma {:induction false} BuildParts(doc: seq<Instruction>, s: int)
    ensures PartsOf(BuildAll(doc), s) == PartsFor(doc, s)
    ensures s in BuildAll(doc).parts <==> |PartsFor(doc, s)| > 0
    ensures s in BuildAll(doc).parts ==> s in BuildAll(doc).reels
  {
    if |doc| > 0 {
      var pre := doc[..|doc| - 1];
      BuildParts(pre, s);
      AbsorbSlot(BuildAll(pre), doc[|doc| - 1], s);
    }
  }

  /**
   * What one record does to the reel of slot s: only a stack offset record for s sets its
   * offsets, only a feed spacing record for s its spacing, and nothing else of it changes.
   */
  lemma AbsorbReel(b: Built, i: Instruction, s: int)
    requires s in Absorb(b, i).reels
    ensures var r, r0 := Absorb(b, i).reels[s], ReelAt(b.reels, s);
      && r.reelNumber == r0.reelNumber && r.comment == r0.comment && r.rotation == r0.rotation
      && r.height == r0.height
      && (!(i.StackOffset? && i.stack == s) ==> r.stackX == r0.stackX && r.stackY == r0.stackY)
      && (!(i.FeedSpacing? && i.stack == s) ==> r.feedSpacing == r0.feedSpacing)
  {
  }

  /** Every rebuilt reel carries its own slot number and the defaults of a new Reel except for what the records set. */
  lemma {:induction false} BuildReelShape(doc: seq<Instruction>, s: int)
    requires s in BuildAll(doc).reels
    ensures var r := BuildAll(doc).reels[s];
      r.reelNumber == s && r.comment == None && r.rotation == 0 && r.height == Some(Dec(false, 0, 0))
    ensures (forall k :: 0 <= k < |doc| ==> !(doc[k].StackOffset? && doc[k].stack == s))
      ==> BuildAll(doc).reels[s].stackX == None && BuildAll(doc).reels[s].stackY == None
    ensures (forall k :: 0 <= k < |doc| ==> !(doc[k].FeedSpacing? && doc[k].stack == s))
      ==> BuildAll(doc).reels[s].feedSpacing == None
  {
    var pre := doc[..|doc| - 1];
    var b := BuildAll(pre);
    AbsorbReel(b, doc[|doc| - 1], s);
    if s in b.reels {
      BuildReelShape(pre, s);
      assert forall k :: 0 <= k < |pre| ==> pre[k] == doc[k];
    }
  }

  /** The stack offsets of a reel are those of the last stack offset record for its slot. */
  lemma {:induction false} BuildStackOffset(doc: seq<Instruction>, s: int, k: int)
    requires LastStackOffset(doc, s, k)
    ensures s in BuildAll(doc).reels
    ensures BuildAll(doc).reels[s].stackX == Some(RepresentDecimal(doc[k].x))
    ensures BuildAll(doc).reels[s].stackY == Some(RepresentDecimal(doc[k].y))
  {
    var pre := doc[..|doc| - 1];
    if k < |pre| {
      assert pre[k] == doc[k];
      BuildStackOffset(pre, s, k);
      AbsorbReel(BuildAll(pre), doc[|doc| - 1], s);
    }
  }

  /** The feed spacing of a reel is that of the last feed spacing record for its slot. */
  lemma {:induction false} BuildFeedSpacing(doc: seq<Instruction>, s: int, k: int)
    requires LastFeedSpacing(doc, s, k)
    ensures s in BuildAll(doc).reels
    ensures BuildAll(doc).reels[s].feedSpacing == Some(RepresentDecimal(doc[k].feedSpacing))
  {
    var pre := doc[..|doc| - 1];
    if k < |pre| {
      assert pre[k] == doc[k];
      BuildFeedSpacing(pre, s, k);
      AbsorbReel(BuildAll(pre), doc[|doc| - 1], s);
    }
  }

  // ---------------------------------------------------------------- heights

  /** Equal heights are equal both ways round, and equal to equal is equal. */
  lemma SameHeightTransitive(a: Option<Dec>, b: Option<Dec>, c: Option<Dec>)
    requires SameHeight(a, b) && SameHeight(b, c)
    ensures SameHeight(c, a) && SameHeight(a, c)
  {
    if a.Some? && b.Some? && c.Some? {
      SameValueTransitive(a.value, b.value, c.value);
    }
  }

  /** The first part's height is in the set, and the set only holds heights of the parts. */
  lemma {:induction false} HeightsHoldFirst(ps: seq<PartValue>)
    ensures |ps| > 0 ==> ps[0].height in Heights(ps)
    ensures forall x :: x in Heights(ps) ==> exists i :: 0 <= i < |ps| && ps[i].height == x
  {
    if |ps| > 0 {
      var pre := ps[..|ps| - 1];
      HeightsHoldFirst(pre);
      if |pre| > 0 {
        assert pre[0] == ps[0];
      }
      forall x | x in Heights(ps) ensures exists i :: 0 <= i < |ps| && ps[i].height == x {
        if x in Heights(pre) {
          var i :| 0 <= i < |pre| && pre[i].height == x;
          assert ps[i] == pre[i];
        } else {
          assert ps[|ps| - 1].height == x;
        }
      }
    }
  }

  /** Every part's height has an equal one in the set. */
  lemma {:induction false} HeightCovered(ps: seq<PartValue>, i: nat)
    requires i < |ps|
    ensures exists x :: x in Heights(ps) && SameHeight(x, ps[i].height)
  {
    var pre := ps[..|ps| - 1];
    var h := ps[|ps| - 1].height;
    if i < |pre| {
      HeightCovered(pre, i);
      var x :| x in Heights(pre) && SameHeight(x, pre[i].height);
      assert pre[i] == ps[i];
      assert x in Heights(ps);
    } else if !exists x :: x in Heights(pre) && SameHeight(x, h) {
      assert SameHeight(h, h) && h in Heights(ps);
    }
  }

  /** Parts whose heights all equal the first part's have that one height, as the set keeps it. */
  lemma {:induction false} SharedHeight(ps: seq<PartValue>)
    requires |ps| > 0 && forall i :: 0 <= i < |ps| ==> SameHeight(ps[i].height, ps[0].height)
    ensures Heights(ps) == {ps[0].height}
  {
    var pre := ps[..|ps| - 1];
    var h := ps[|ps| - 1].height;
    if |pre| == 0 {
      assert Heights(pre) == {};
    } else {
      assert forall i :: 0 <= i < |pre| ==> pre[i] == ps[i];
      SharedHeight(pre);
      assert SameHeight(ps[0].height, h) by {
        SameHeightTransitive(h, ps[0].height, ps[0].height);
      }
    }
  }

  /** Two parts of unequal heights give more than one height. */
  lemma MixedHeights(ps: seq<PartValue>, i: nat, j: nat)
    requires i < |ps| && j < |ps| && !SameHeight(ps[i].height, ps[j].height)
    ensures |Heights(ps)| > 1
  {
    var hs := Heights(ps);
    HeightCovered(ps, i);
    HeightCovered(ps, j);
    var x :| x in hs && SameHeight(x, ps[i].height);
    var y :| y in hs && SameHeight(y, ps[j].height);
    if x == y {
      SameHeightTransitive(ps[i].height, x, ps[j].height);
    }
    var rest := hs - {x};
    assert y in rest;
    assert |rest| == |hs| - 1;
  }

  /**
   * A reel whose parts all have heights equal to the first part's takes the first part's height
   * and is not warned about; nothing else of it changes.
   */
  lemma ReconcileShared(b: Built, s: int)
    requires s in b.reels && s in b.parts && |b.parts[s]| > 0
    requires forall i :: 0 <= i < |b.parts[s]| ==> SameHeight(b.parts[s][i].height, b.parts[s][0].height)
    ensures s in Reconcile(b) && Reconcile(b)[s] == b.reels[s].(height := b.parts[s][0].height)
    ensures s !in Conflicts(b, b.parts.Keys)
  {
    SharedHeight(b.parts[s]);
  }

  /** A reel whose parts disagree on their height keeps its own and is warned about. */
  lemma ReconcileMixed(b: Built, s: int, i: nat, j: nat)
    requires s in b.reels && s in b.parts && i < |b.parts[s]| && j < |b.parts[s]|
    requires !SameHeight(b.parts[s][i].height, b.parts[s][j].height)
    ensures s in Reconcile(b) && Reconcile(b)[s] == b.reels[s]
    ensures s in Conflicts(b, b.parts.Keys)
  {
    MixedHeights(b.parts[s], i, j);
  }

  /** part_heights after the slots in done: the heights of each such slot's parts, for the slots that have parts. */
  function HeightsOver(parts: map<int, seq<PartValue>>, done: set<int>): map<int, set<Option<Dec>>> {
    map s | s in done && s in parts && |parts[s]| > 0 :: Heights(parts[s])
  }

  /** Every part names the slot it is listed under. */
  predicate OnOwnSlots(parts: map<int, seq<PartValue>>) {
    forall s, i :: s in parts && 0 <= i < |parts[s]| ==> parts[s][i].reel == Some(s)
  }

  /** The next part's height is added to the heights seen so far, as set.add adds it. */
  lemma HeightsStep(ps: seq<PartValue>, j: nat)
    requires j < |ps|
    ensures Heights(ps[..j + 1]) == AddHeight(Heights(ps[..j]), ps[j].height)
  {
    assert ps[..j + 1][..j] == ps[..j];
  }

  /** When the parts have a single height, it is the first part's, the one the set kept. */
  lemma OneHeight(ps: seq<PartValue>, h: Option<Dec>)
    requires |ps| > 0 && |Heights(ps)| <= 1 && h in Heights(ps)
    ensures h == ps[0].height
  {
    HeightsHoldFirst(ps);
  }

  /** One record keeps every listed part on its own slot. */
  lemma AbsorbOnOwnSlots(b: Built, i: Instruction)
    requires OnOwnSlots(b.parts)
    ensures OnOwnSlots(Absorb(b, i).parts)
  {
    if i.PartPlacement? && !i.skip {
      assert Absorb(b, i) == Assigned(b, PartOf(i), i.stack);
      AssignedOnOwnSlots(b, PartOf(i), i.stack);
    } else {
      assert Absorb(b, i).parts == b.parts;
    }
  }

  /** An assigned part names its new slot, so every listed part stays on its own slot. */
  lemma AssignedOnOwnSlots(b: Built, p: PartValue, s: int)
    requires OnOwnSlots(b.parts)
    ensures OnOwnSlots(Assigned(b, p, s).parts)
  {
    var l: seq<PartValue> := if s in b.parts then b.parts[s] else [];
    var parts: map<int, seq<PartValue>> := Assigned(b, p, s).parts;
    assert parts == b.parts[s := l + [p.(reel := Some(s))]];
    forall t, k | t in parts && 0 <= k < |parts[t]| ensures parts[t][k].reel == Some(t) {
      if t == s && k < |l| {
        assert parts[t][k] == b.parts[s][k];
      }
    }
  }


  /** One more slot done: a reel whose parts share one height takes it, and nothing else changes. */
  lemma ReconcileStep(b: Built, done: set<int>, s: int)
    requires s !in done && s in b.parts && |b.parts[s]| > 0
    ensures s in b.reels ==> ReconcileOver(b, done + {s}) == ReconcileOver(b, done)[s :=
      if |Heights(b.parts[s])| == 1 then b.reels[s].(height := b.parts[s][0].height) else b.reels[s]]
    ensures s !in b.reels ==> ReconcileOver(b, done + {s}) == ReconcileOver(b, done)
  {
    var before, after := ReconcileOver(b, done), ReconcileOver(b, done + {s});
    assert after.Keys == before.Keys;
    forall t | t in after && t != s ensures after[t] == before[t] {
    }
  }

  /** One more slot done adds it to the warnings exactly when its parts disagree on their height. */
  lemma ConflictsStep(b: Built, done: set<int>, s: int)
    requires s !in done && s in b.parts
    ensures Conflicts(b, done + {s}) == Conflicts(b, done) + (if |Heights(b.parts[s])| > 1 then {s} else {})
  {
  }

  /** One more slot done adds the heights of its parts, when it has any. */
  lemma HeightsOverStep(parts: map<int, seq<PartValue>>, done: set<int>, s: int)
    requires s in parts
    ensures HeightsOver(parts, done + {s})
      == if |parts[s]| == 0 then HeightsOver(parts, done) else HeightsOver(parts, done)[s := Heights(parts[s])]
  {
  }

  /** A slot whose parts share the height h settles with its reel taking h; no warning is added. */
  lemma ReconcileSettle(b: Built, done: set<int>, s: int, h: Option<Dec>)
    requires s !in done && s in b.reels && s in b.parts && |b.parts[s]| > 0
    requires |Heights(b.parts[s])| <= 1 && h in Heights(b.parts[s])
    ensures var r := ReconcileOver(b, done);
      s in r && r[s := r[s].(height := h)] == ReconcileOver(b, done + {s})
    ensures Conflicts(b, done + {s}) == Conflicts(b, done)
  {
    OneHeight(b.parts[s], h);
    ReconcileStep(b, done, s);
    ConflictsStep(b, done, s);
  }

  /** A slot whose parts disagree settles with its reel unchanged and a warning. */
  lemma ReconcileWarn(b: Built, done: set<int>, s: int)
    requires s !in done && s in b.parts && |b.parts[s]| > 0 && |Heights(b.parts[s])| > 1
    ensures ReconcileOver(b, done + {s}) == ReconcileOver(b, done)
    ensures Conflicts(b, done + {s}) == Conflicts(b, done) + {s}
  {
    ReconcileStep(b, done, s);
    ConflictsStep(b, done, s);
  }

  /** Going over the slots part_heights holds is the same as going over every slot with a list. */
  lemma ReconcileBySlot(b: Built)
    ensures ReconcileOver(b, HeightsOver(b.parts, b.parts.Keys).Keys) == Reconcile(b)
    ensures Conflicts(b, HeightsOver(b.parts, b.parts.Keys).Keys) == Conflicts(b, b.parts.Keys)
  {
    var keys := HeightsOver(b.parts, b.parts.Keys).Keys;
    forall s | s in b.parts && |b.parts[s]| == 0 ensures |Heights(b.parts[s])| == 0 {
      assert Heights(b.parts[s]) == {};
    }
  }

  // ---------------------------------------------------------------- from_instructions as written

  /**
   * from_instructions as written: it asks for the global offset first, and then loops over the
   * document object itself, which defines no iteration, so the loop raises TypeError.
   */
  function FromInstructionsAsWritten(doc: seq<Instruction>): (r: Result<Built>)
    ensures r.Failure?
    ensures (forall k :: 0 <= k < |doc| ==> !doc[k].OriginOffset?) ==> r == Failure(NoOriginOffset)
    ensures (exists i, j :: 0 <= i < j < |doc| && doc[i].OriginOffset? && doc[j].OriginOffset?)
        ==> r == Failure(MultipleGlobalOffsets)
    ensures (exists k :: 0 <= k < |doc| && doc[k].OriginOffset? && Instructions.OnlyOrigin(doc, k))
        ==> r == Failure(NotIterable)
  {
    var offset :- Instructions.GlobalOffsetAsWritten(doc);
    Failure(NotIterable)
  }

  /**
   * The state of the loop in from_instructions as written: what is built so far, and the part
   * (with its slot) that the variable p holds from the last unskipped part record.
   */
  datatype Scan = Scan(built: Built, last: Option<(PartValue, int)>)

  /**
   * One record in the loop as written: the assignment of p sits outside the test of the skip
   * flag, so a skipped part record assigns the previous part once more, and a skipped record
   * before any unskipped one reads p before it was ever set.
   */
  function AbsorbAsWritten(sc: Scan, i: Instruction): Result<Scan> {
    match i
    case PartPlacement(_, _, s, _, _, _, _, skip, _, _) =>
      var last := if skip then sc.last else Some((PartOf(i), s));
      if last.None? then Failure(UnboundLocal)
      else Success(Scan(Assigned(sc.built, last.value.0, last.value.1), last))
    case _ => Success(sc.(built := Absorb(sc.built, i)))
  }

  function BuildAllAsWritten(doc: seq<Instruction>): Result<Scan> {
    if |doc| == 0 then Success(Scan(Built(map[], map[]), None))
    else
      var sc :- BuildAllAsWritten(doc[..|doc| - 1]);
      AbsorbAsWritten(sc, doc[|doc| - 1])
  }

  /** A skipped part record ahead of every unskipped one stops the loop as written. */
  lemma SkippedFirst(q: Instruction)
    requires q.PartPlacement? && q.skip
    ensures BuildAllAsWritten([q]) == Failure(UnboundLocal)
    ensures BuildAll([q]) == Built(map[], map[])
  {
    assert [q][..0] == [];
  }

  /** A skipped part record in the loop as written assigns the part p still holds once more. */
  lemma SkippedAgain(sc: Scan, q: Instruction, v: PartValue, s: int)
    requires q.PartPlacement? && q.skip && sc.last == Some((v, s))
    ensures AbsorbAsWritten(sc, q) == Success(Scan(Assigned(sc.built, v, s), sc.last))
  {
  }

  /** After an unskipped part, a skipped part record adds that part to its slot a second time. */
  lemma SkippedReused(p: Instruction, q: Instruction)
    requires p.PartPlacement? && !p.skip && q.PartPlacement? && q.skip
    ensures BuildAllAsWritten([p, q]).Success?
    ensures PartsOf(BuildAllAsWritten([p, q]).value.built, p.stack) == [PartOf(p), PartOf(p)]
    ensures PartsOf(BuildAll([p, q]), p.stack) == [PartOf(p)]
  {
    var v, s := PartOf(p), p.stack;
    var empty := Built(map[], map[]);
    var one := Scan(Assigned(empty, v, s), Some((v, s)));
    assert v.(reel := Some(s)) == v;
    assert one.built.parts[s] == [v];
    AsWrittenNext([], p);
    AsWrittenNext([p], q);
    assert [] + [p] == [p] && [p] + [q] == [p, q];
    assert BuildAll([]) == empty && BuildAllAsWritten([]) == Success(Scan(empty, None));
    assert Absorb(empty, p) == one.built;
    assert BuildAll([p]) == one.built;
    assert BuildAllAsWritten([p]) == Success(one);
    assert Absorb(one.built, q) == one.built;
    assert BuildAll([p, q]) == one.built;
    SkippedAgain(one, q, v, s);
    assert Assigned(one.built, v, s).parts[s] == [v, v];
  }

  /** Both loops read the records in order: one more record is one more step of each. */
  lemma AsWrittenNext(doc: seq<Instruction>, i: Instruction)
    ensures BuildAll(doc + [i]) == Absorb(BuildAll(doc), i)
    ensures BuildAllAsWritten(doc).Failure? ==> BuildAllAsWritten(doc + [i]) == BuildAllAsWritten(doc)
    ensures BuildAllAsWritten(doc).Success? ==>
      BuildAllAsWritten(doc + [i]) == AbsorbAsWritten(BuildAllAsWritten(doc).value, i)
  {
    assert (doc + [i])[..|doc|] == doc;
  }

  /** A file without skipped part records is read alike as written and as intended. */
  lemma {:induction false} NoSkipsAgree(doc: seq<Instruction>)
    requires forall k :: 0 <= k < |doc| && doc[k].PartPlacement? ==> !doc[k].skip
    ensures BuildAllAsWritten(doc).Success? && BuildAllAsWritten(doc).value.built == BuildAll(doc)
  {
    if |doc| > 0 {
      var pre := doc[..|doc| - 1];
      assert forall k :: 0 <= k < |pre| ==> pre[k] == doc[k];
      NoSkipsAgree(pre);
    }
  }

  /**
   * The height check as written: Python sets cannot be indexed, so every slot whose parts share
   * one height raises TypeError; a slot with several heights is only warned about.
   */
  function ReconcileAsWritten(b: Built): Result<map<int, ReelValue>> {
    if exists s :: s in b.parts && |b.parts[s]| > 0 && |Heights(b.parts[s])| == 1 then Failure(NotSubscriptable)
    else Success(b.reels)
  }

  /** One slot whose parts share a height is enough to make the check as written raise. */
  lemma ReconcileAsWrittenShared(b: Built, s: int)
    requires s in b.parts && |b.parts[s]| > 0
    requires forall i :: 0 <= i < |b.parts[s]| ==> SameHeight(b.parts[s][i].height, b.parts[s][0].height)
    ensures ReconcileAsWritten(b) == Failure(NotSubscriptable)
  {
    SharedHeight(b.parts[s]);
  }

  /** When every slot with parts mixes heights, the check as written and as intended agree. */
  lemma ReconcileAgrees(b: Built)
    requires forall s :: s in b.parts && |b.parts[s]| > 0 ==> |Heights(b.parts[s])| > 1
    ensures ReconcileAsWritten(b) == Success(Reconcile(b))
  {
    forall s | s in b.reels ensures Reconcile(b)[s] == b.reels[s] {
    }
    assert Reconcile(b) == b.reels;
    assert !exists s :: s in b.parts && |b.parts[s]| > 0 && |Heights(b.parts[s])| == 1;
  }
}
