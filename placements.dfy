/**
 * A placement job (tm2x0/placement.py): the reels in their feeder slots, the parts assigned to
 * each slot, the panel copies and the global offset, with the operations that change them and
 * the two conversions to and from a placement file.
 */
module Placements {
  import opened Wrappers
  import opened Decimals
  import opened Records
  import opened Reels
  import opened PartPlacements
  import opened Slots
  import opened Orders
  import opened PlacementSpec
  import opened Rebuild
  import Instructions

  /** The part objects listed under any slot. */
  ghost function PartObjects(m: map<int, seq<PartPlacement>>): set<PartPlacement> {
    set s, p | s in m && p in m[s] :: p
  }

  /** The values of the reels, slot by slot. */
  function ReelValuesOf(m: map<int, Reel>): (r: map<int, ReelValue>)
    reads m.Values
    ensures r.Keys == m.Keys
  {
    map s | s in m :: m[s].Value()
  }

  /** The values of the part lists, slot by slot. */
  function PartValuesOf(m: map<int, seq<PartPlacement>>): (r: map<int, seq<PartValue>>)
    reads PartObjects(m)
    ensures r.Keys == m.Keys
  {
    map s | s in m :: Values(m[s])
  }

  // ---------------------------------------------------------------- sorted by reference

  /** A run of parts whose references never go down. */
  ghost predicate ByReference(ps: seq<PartPlacement>)
    reads set p | p in ps
  {
    forall i, j :: 0 <= i < j < |ps| ==> !StrLess(ps[j].reference, ps[i].reference)
  }

  /** p placed before the first part whose reference is greater than its own. */
  function Insert(p: PartPlacement, s: seq<PartPlacement>): (r: seq<PartPlacement>)
    reads p, set q | q in s
    ensures forall q :: q in r ==> q == p || q in s
  {
    if |s| == 0 then [p]
    else if StrLess(p.reference, s[0].reference) then [p] + s
    else [s[0]] + Insert(p, s[1..])
  }

  /** sorted(parts, key=attrgetter("reference")), by insertion; equal references keep their order. */
  function SortByReference(ps: seq<PartPlacement>): (r: seq<PartPlacement>)
    reads set p | p in ps
    ensures forall q :: q in r ==> q in ps
  {
    if |ps| == 0 then []
    else Insert(ps[|ps| - 1], SortByReference(ps[..|ps| - 1]))
  }

  /** Insertion puts p at one place and moves nothing else. */
  lemma {:induction false} InsertAt(p: PartPlacement, s: seq<PartPlacement>) returns (k: nat)
    ensures k <= |s| && Insert(p, s) == s[..k] + [p] + s[k..]
  {
    if |s| == 0 || StrLess(p.reference, s[0].reference) {
      k := 0;
    } else {
      var j := InsertAt(p, s[1..]);
      k := j + 1;
      assert s[..k] == [s[0]] + s[1..][..j];
      assert s[k..] == s[1..][j..];
    }
  }

  /** Insertion into a run ordered by reference keeps it ordered. */
  lemma {:induction false} InsertOrdered(p: PartPlacement, s: seq<PartPlacement>)
    requires ByReference(s)
    ensures ByReference(Insert(p, s))
  {
    if |s| > 0 {
      var r := Insert(p, s);
      if StrLess(p.reference, s[0].reference) {
        forall i, j | 0 <= i < j < |r| ensures !StrLess(r[j].reference, r[i].reference) {
          if i == 0 {
            if StrLess(s[j - 1].reference, p.reference) {
              StrLessTransitive(s[j - 1].reference, p.reference, s[0].reference);
              if j - 1 == 0 { StrLessIrreflexive(s[0].reference); }
            }
          }
        }
      } else {
        var t := s[1..];
        InsertOrdered(p, t);
        var k := InsertAt(p, t);
        var tail := Insert(p, t);
        forall i, j | 0 <= i < j < |r| ensures !StrLess(r[j].reference, r[i].reference) {
          if i == 0 {
            assert r[j] == tail[j - 1];
            if j - 1 != k {
              assert tail[j - 1] in t;
            }
          } else {
            assert r[i] == tail[i - 1] && r[j] == tail[j - 1];
          }
        }
      }
    }
  }

  /** The sorted list holds the same parts, as many times each, in reference order. */
  lemma {:induction false} SortByReferenceSorts(ps: seq<PartPlacement>)
    ensures multiset(SortByReference(ps)) == multiset(ps)
    ensures ByReference(SortByReference(ps))
  {
    if |ps| > 0 {
      var pre := ps[..|ps| - 1];
      var last := ps[|ps| - 1];
      SortByReferenceSorts(pre);
      var k := InsertAt(last, SortByReference(pre));
      InsertOrdered(last, SortByReference(pre));
      var s := SortByReference(pre);
      assert s == s[..k] + s[k..];
      assert ps == pre + [last];
    }
  }

  // ---------------------------------------------------------------- objects and their values

  /** No Reel object serves two slots. */
  ghost predicate DistinctReels(m: map<int, Reel>) {
    forall s, t :: s in m && t in m && s != t ==> m[s] != m[t]
  }

  /** A reel object new to the map keeps the reels distinct. */
  lemma DistinctAdd(m: map<int, Reel>, s: int, r: Reel)
    requires s !in m && r !in m.Values
    ensures DistinctReels(m) ==> DistinctReels(m[s := r])
  {
  }

  /** The list of slot s, empty when there is none. */
  function ListOf(m: map<int, seq<PartPlacement>>, s: int): seq<PartPlacement> {
    if s in m then m[s] else []
  }

  /** Part lists whose objects the step did not touch have the values they had. */
  twostate lemma PartValuesKept(m: map<int, seq<PartPlacement>>)
    requires unchanged(PartObjects(m))
    ensures PartValuesOf(m) == old(PartValuesOf(m))
  {
    forall t | t in m ensures Values(m[t]) == old(Values(m[t])) {
      assert forall p :: p in m[t] ==> p in PartObjects(m);
      ValuesKept(m[t]);
    }
  }

  /** Reels the step did not touch have the values they had. */
  twostate lemma ReelValuesKept(m: map<int, Reel>)
    requires unchanged(m.Values)
    ensures ReelValuesOf(m) == old(ReelValuesOf(m))
  {
  }

  /** The part lists and reels before and after one assign_part_to_reel of part to slot. */
  datatype Assignment = Assignment(parts0: map<int, seq<PartPlacement>>, reels0: map<int, Reel>,
                                   part: PartPlacement, slot: int,
                                   parts1: map<int, seq<PartPlacement>>, reels1: map<int, Reel>)

  /**
   * The values after assign_part_to_reel: the lists and reels the step did not touch keep their
   * values, the part (listed nowhere before) gets the slot and joins its list, and a slot
   * without a reel gets one with the defaults.
   */
  twostate lemma AssignedValues(new a: Assignment)
    requires var m, r, p := a.parts0, a.reels0, a.part; old(allocated(m)) && old(allocated(r)) && old(allocated(p))
    requires unchanged(PartObjects(a.parts0)) && unchanged(a.reels0.Values) && a.part !in PartObjects(a.parts0)
    requires var p := a.part; p.Value() == old(p.Value()).(reel := Some(a.slot))
    requires a.parts1 == a.parts0[a.slot := ListOf(a.parts0, a.slot) + [a.part]]
    requires a.slot in a.reels0 ==> a.reels1 == a.reels0
    requires a.slot !in a.reels0 ==> (a.slot in a.reels1 && a.reels1 == a.reels0[a.slot := a.reels1[a.slot]]
      && a.reels1[a.slot].Value() == DefaultReel(a.slot))
    ensures var m, r, p := a.parts0, a.reels0, a.part;
      Built(ReelValuesOf(a.reels1), PartValuesOf(a.parts1))
        == Assigned(old(Built(ReelValuesOf(r), PartValuesOf(m))), old(p.Value()), a.slot)
  {
    var m0, r0, p, slot := a.parts0, a.reels0, a.part, a.slot;
    var rv0, pv0, v0 := old(ReelValuesOf(r0)), old(PartValuesOf(m0)), old(p.Value());
    assert ReelValuesOf(a.reels1) == rv0[slot := ReelAt(rv0, slot)] by {
      ReelValuesKept(a.reels0);
      if slot !in a.reels0 {
        ReelValuesUpdate(a.reels0, slot, a.reels1[slot]);
      }
    }
    assert PartValuesOf(a.parts1) == pv0[slot := (if slot in pv0 then pv0[slot] else []) + [v0.(reel := Some(slot))]] by {
      PartValuesKept(m0);
      ValuesAppend(ListOf(m0, slot), a.part);
      PartValuesUpdate(m0, slot, ListOf(m0, slot) + [a.part]);
      if slot in m0 {
        assert Values(m0[slot]) == PartValuesOf(m0)[slot];
      }
    }
  }

  /** Replacing the list of one slot replaces its values only. */
  lemma PartValuesUpdate(m: map<int, seq<PartPlacement>>, s: int, l: seq<PartPlacement>)
    ensures PartValuesOf(m[s := l]) == PartValuesOf(m)[s := Values(l)]
  {
  }

  /** Putting a reel in a slot replaces that slot's value only. */
  lemma ReelValuesUpdate(m: map<int, Reel>, s: int, r: Reel)
    ensures ReelValuesOf(m[s := r]) == ReelValuesOf(m)[s := r.Value()]
  {
  }

  /** An empty list for a slot without one adds no part. */
  lemma AddEmptyList(m: map<int, seq<PartPlacement>>, s: int)
    requires s !in m
    ensures PartObjects(m[s := []]) == PartObjects(m)
  {
    var m' := m[s := []];
    forall t, q | t in m' && q in m'[t] ensures q in PartObjects(m) {
      assert t != s;
    }
    forall t, q | t in m && q in m[t] ensures q in PartObjects(m') {
      assert m'[t] == m[t];
    }
  }

  /** A stack offset record gives the slot a reel if it had none, then sets that reel's offset. */
  lemma AbsorbStackOffsetIs(b: Built, i: Instruction)
    requires i.StackOffset?
    ensures var w := WithReel(b, i.stack);
      Absorb(b, i) == w.(reels := w.reels[i.stack := w.reels[i.stack].(stackX := Some(RepresentDecimal(i.x)), stackY := Some(RepresentDecimal(i.y)))])
  {
  }

  /** A feed spacing record gives the slot a reel if it had none, then sets that reel's spacing. */
  lemma AbsorbFeedSpacingIs(b: Built, i: Instruction)
    requires i.FeedSpacing?
    ensures var w := WithReel(b, i.stack);
      Absorb(b, i) == w.(reels := w.reels[i.stack := w.reels[i.stack].(feedSpacing := Some(RepresentDecimal(i.feedSpacing)))])
  {
  }

  /** An unskipped part record assigns the part made of it to its slot. */
  lemma AbsorbPartIs(b: Built, i: Instruction)
    requires i.PartPlacement? && !i.skip
    ensures Absorb(b, i) == Assigned(b, PartOf(i), i.stack)
  {
  }

  /** The values with a default reel for slot s when it had none. */
  function WithReel(b: Built, s: int): (r: Built)
    ensures r.parts == b.parts && s in r.reels
  {
    b.(reels := b.reels[s := ReelAt(b.reels, s)])
  }

  /** heights holds, for slots with parts and a reel, the heights of their parts. */
  ghost predicate HeightsOf(heights: map<int, set<Option<Dec>>>, b: Built) {
    forall s :: s in heights ==> s in b.reels && s in b.parts && |b.parts[s]| > 0 && heights[s] == Heights(b.parts[s])
  }

  lemma HeightsOfAll(b: Built)
    requires forall s :: s in b.parts ==> s in b.reels
    ensures HeightsOf(HeightsOver(b.parts, b.parts.Keys), b)
  {
  }

  /** The values with an empty list for slot s when it had none. */
  function Emptied(b: Built, s: int): (r: Built)
    ensures r.reels == b.reels && s in r.parts
  {
    if s in b.parts then b else b.(parts := b.parts[s := []])
  }

  /** Assigning to a slot that was given an empty list first is assigning to the slot as it was. */
  lemma AssignedToEmpty(b: Built, v: PartValue, s: int)
    ensures Assigned(Emptied(b, s), v, s) == Assigned(b, v, s)
  {
  }

  // ---------------------------------------------------------------- the placement

  class Placement {
    var parts: map<int, seq<PartPlacement>>
    var reels: map<int, Reel>
    var copies: seq<(Dec, Dec)>
    var offsetX: Dec
    var offsetY: Dec

    /** The reels and the part lists as plain values. */
    function State(): Built
      reads this, reels.Values, PartObjects(parts)
    {
      Built(ReelValuesOf(reels), PartValuesOf(parts))
    }

    /** No Reel object serves two slots, so that changing one reel changes one entry of State() only. */
    ghost predicate Distinct()
      reads this
    {
      DistinctReels(reels)
    }

    /** A missing argument (None) stands for a new empty dict or list; the offsets default to 0. */
    constructor (parts: Option<map<int, seq<PartPlacement>>> := None, reels: Option<map<int, Reel>> := None,
                 copies: Option<seq<(Dec, Dec)>> := None, offsetX: Dec := Dec(false, 0, 0), offsetY: Dec := Dec(false, 0, 0))
      ensures this.parts == (if parts.Some? then parts.value else map[])
      ensures this.reels == (if reels.Some? then reels.value else map[])
      ensures this.copies == (if copies.Some? then copies.value else [])
      ensures this.offsetX == offsetX && this.offsetY == offsetY
    {
      this.parts := if parts.Some? then parts.value else map[];
      this.reels := if reels.Some? then reels.value else map[];
      this.offsetX := offsetX;
      this.offsetY := offsetY;
      this.copies := if copies.Some? then copies.value else [];
    }

    /** clear_parts: every slot loses its part list; nothing else changes. */
    method ClearParts()
      modifies this`parts
      ensures parts == map[]
    {
      parts := map[];
    }

    /** A slot without a reel gets a new one that carries only its number. */
    method AddDefaultReel(slot: int)
      requires slot !in reels
      modifies this`reels
      ensures slot in reels && fresh(reels[slot]) && reels == old(reels)[slot := reels[slot]]
      ensures reels[slot].Value() == DefaultReel(slot)
      ensures old(Distinct()) ==> Distinct()
      ensures forall r :: r in reels.Values ==> r in old(reels.Values) || fresh(r)
    {
      var r := new Reel(slot);
      DistinctAdd(reels, slot, r);
      reels := reels[slot := r];
    }

    /**
     * assign_part_to_reel: the part now names the slot, the slot gets a new default reel if it
     * had none, and the part goes to the end of the slot's list. For a part not listed yet, the
     * values change exactly as Assigned says.
     */
    method AssignPartToReel(part: PartPlacement, slot: int)
      modifies this`reels, this`parts, part
      ensures part.Value() == old(part.Value()).(reel := Some(slot))
      ensures slot in old(reels) ==> reels == old(reels)
      ensures slot !in old(reels) ==> (slot in reels && fresh(reels[slot]) && reels == old(reels)[slot := reels[slot]]
        && reels[slot].Value() == DefaultReel(slot))
      ensures parts == old(parts)[slot := (if slot in old(parts) then old(parts)[slot] else []) + [part]]
      ensures old(Distinct()) ==> Distinct()
      ensures forall r :: r in reels.Values ==> r in old(reels.Values) || fresh(r)
      ensures part !in old(PartObjects(parts)) ==> State() == Assigned(old(State()), old(part.Value()), slot)
    {
      ghost var unlisted := part !in PartObjects(parts);
      ghost var m0, r0 := parts, reels;
      part.reel := Some(slot);
      if slot !in reels {
        AddDefaultReel(slot);
      }
      parts := parts[slot := ListOf(parts, slot) + [part]];
      if unlisted {
        AssignedValues(Assignment(m0, r0, part, slot, parts, reels));
      }
    }
  
    /**
     * unassign_part_from_reel: the first occurrence of the part leaves the slot's list. KeyError
     * for a slot without a list, ValueError for a part that is not in it; nothing changes then.
     */
    method UnassignPartFromReel(part: PartPlacement, slot: int) returns (r: Result<()>)
      modifies this`parts
      ensures slot !in old(parts) ==> r == Failure(MissingKey(Some(slot))) && parts == old(parts)
      ensures slot in old(parts) && part !in old(parts)[slot] ==> r == Failure(MissingPart) && parts == old(parts)
      ensures slot in old(parts) && part in old(parts)[slot] ==>
        r == Success(()) && parts == old(parts)[slot := RemoveFirst(old(parts)[slot], part)]
    {
      if slot !in parts {
        return Failure(MissingKey(Some(slot)));
      }
      if part !in parts[slot] {
        return Failure(MissingPart);
      }
      parts := parts[slot := RemoveFirst(parts[slot], part)];
      r := Success(());
    }

    /** get_reel_for_part: the reel of the part's slot; KeyError when the part has none or an unknown one. */
    function GetReelForPart(part: PartPlacement): (r: Result<Reel>)
      reads this, part
      ensures r.Success? <==> part.reel.Some? && part.reel.value in reels
      ensures r.Success? ==> r.value == reels[part.reel.value]
      ensures r.Failure? ==> r.error == MissingKey(part.reel)
    {
      if part.reel.Some? && part.reel.value in reels then Success(reels[part.reel.value])
      else Failure(MissingKey(part.reel))
    }

    /** get_parts_for_reel: the list of the reel's slot; KeyError when the slot has none. */
    function GetPartsForReel(reel: Reel): (r: Result<seq<PartPlacement>>)
      reads this, reel
      ensures r.Success? <==> reel.reelNumber in parts
      ensures r.Success? ==> r.value == parts[reel.reelNumber]
      ensures r.Failure? ==> r.error == MissingKey(Some(reel.reelNumber))
    {
      if reel.reelNumber in parts then Success(parts[reel.reelNumber])
      else Failure(MissingKey(Some(reel.reelNumber)))
    }

    /**
     * get_parts_sorted_by_reference: a new list of the slot's parts in reference order, each part
     * as often as in the slot's list; KeyError when the slot has none.
     */
    function GetPartsSortedByReference(slot: int): (r: Result<seq<PartPlacement>>)
      reads this, PartObjects(parts)
      ensures slot !in parts ==> r == Failure(MissingKey(Some(slot)))
      ensures slot in parts ==> r.Success? && multiset(r.value) == multiset(parts[slot]) && ByReference(r.value)
    {
      if slot !in parts then Failure(MissingKey(Some(slot)))
      else
        var ps := parts[slot];
        SortByReferenceSorts(ps);
        Success(SortByReference(ps))
    }

    // ---------------------------------------------------------------- generate_instructions

    /** The stack offset and feed spacing records of the reels of keys, in that order, or the first reel's exception. */
    method EmitReels(keys: seq<int>) returns (r: Result<seq<Instruction>>)
      requires forall i :: 0 <= i < |keys| ==> keys[i] in reels
      ensures r == ReelSection(keys, ReelValuesOf(reels))
    {
      ghost var rv := ReelValuesOf(reels);
      var out := [];
      var k := 0;
      while k < |keys|
        invariant 0 <= k <= |keys|
        invariant ReelSection(keys[..k], rv) == Success(out)
      {
        var reel := reels[keys[k]];
        assert rv[keys[k]] == reel.Value();
        ReelSectionStep(keys, rv, k);
        if reel.stackX.None? || reel.stackY.None? || reel.feedSpacing.None? {
          return Failure(BadDecimal("None"));
        }
        var comment := if reel.comment.Some? then reel.comment.value else "";
        out := out + [StackOffset(reel.reelNumber, reel.stackX.value, reel.stackY.value, comment),
                      FeedSpacing(reel.reelNumber, reel.feedSpacing.value)];
        k := k + 1;
      }
      assert keys[..k] == keys;
      r := Success(out);
    }

    /** The record of the part numbered n, or the exception its reel, coordinates or height raise. */
    function PartRecordOf(n: int, part: PartPlacement): (r: Result<Instruction>)
      reads this, reels.Values, part
      ensures r == PartRecord(n, part.Value(), ReelValuesOf(reels))
    {
      if part.reel.None? || part.reel.value !in reels then Failure(MissingKey(part.reel))
      else
        var reel := reels[part.reel.value];
        var x :- ParseDec(part.x);
        var y :- ParseDec(part.y);
        if reel.height.None? then Failure(BadDecimal("None"))
        else Success(PartPlacement(n, part.head, part.reel.value, x, y, part.rotation + reel.rotation,
                                   reel.height.value, false, "", ""))
    }

    /**
     * all_parts: the lists of the slots of keys, one after the other, and a warning (the slot)
     * for every part whose own reel is not the slot it is listed under.
     */
    method CollectParts(keys: seq<int>) returns (all: seq<PartPlacement>, misfiled: seq<int>)
      requires forall i :: 0 <= i < |keys| ==> keys[i] in parts
      ensures Values(all) == AllParts(keys, PartValuesOf(parts))
      ensures misfiled == Misfiled(keys, PartValuesOf(parts))
    {
      ghost var pv := PartValuesOf(parts);
      all, misfiled := [], [];
      var k := 0;
      while k < |keys|
        invariant 0 <= k <= |keys|
        invariant Values(all) == AllParts(keys[..k], pv)
        invariant misfiled == Misfiled(keys[..k], pv)
      {
        var key := keys[k];
        var warnings;
        all, warnings := AppendList(all, key, parts[key]);
        misfiled := misfiled + warnings;
        AllPartsStep(keys, pv, k);
        k := k + 1;
      }
      assert keys[..k] == keys;
      assert Values(all) == AllParts(keys, pv);
      assert pv == PartValuesOf(parts);
    }

    /** The inner loop of all_parts: the parts of one slot's list appended in order, with their warnings. */
    static method AppendList(all0: seq<PartPlacement>, key: int, list: seq<PartPlacement>)
      returns (all: seq<PartPlacement>, warnings: seq<int>)
      ensures Values(all) == Values(all0) + Values(list)
      ensures warnings == MisfiledIn(key, Values(list))
    {
      ghost var lv := Values(list);
      all, warnings := all0, [];
      var j := 0;
      while j < |list|
        invariant 0 <= j <= |list|
        invariant Values(all) == Values(all0) + lv[..j]
        invariant warnings == MisfiledIn(key, lv[..j])
      {
        MisfiledInStep(key, lv, j);
        if list[j].reel != Some(key) {
          warnings := warnings + [key];
        }
        ValuesAppend(all, list[j]);
        all := all + [list[j]];
        assert lv[..j + 1] == lv[..j] + [lv[j]];
        j := j + 1;
      }
      assert lv[..j] == lv;
    }

    /** The records of the parts in order, numbered from 1, or the first part's exception. */
    method EmitParts(all: seq<PartPlacement>) returns (r: Result<seq<Instruction>>)
      ensures r == PartSection(Values(all), ReelValuesOf(reels))
    {
      ghost var av, rv := Values(all), ReelValuesOf(reels);
      var out := [];
      var i := 0;
      while i < |all|
        invariant 0 <= i <= |all|
        invariant PartSection(av[..i], rv) == Success(out)
      {
        var record := PartRecordOf(i + 1, all[i]);
        assert record == PartRecord(i + 1, av[i], rv) by {
          assert av[i] == all[i].Value();
        }
        PartSectionStep(av, rv, i);
        if record.Failure? {
          return Failure(record.error);
        }
        out := out + [record.value];
        i := i + 1;
      }
      assert av[..i] == av;
      r := Success(out);
    }

    /**
     * generate_instructions: a new placement file holding the records Generate says, or the
     * first exception. The warnings about misfiled parts are returned instead of logged.
     */
    method GenerateInstructions() returns (r: Result<Instructions.PlacementInstructions>, misfiled: seq<int>)
      ensures var g := old(Generate(offsetX, offsetY, copies, ReelValuesOf(reels), PartValuesOf(parts)));
        && (r.Failure? ==> g == Failure(r.error))
        && (r.Success? ==> fresh(r.value) && g == Success(r.value.instructions))
      ensures misfiled == old(if ReelSection(SortedKeys(reels.Keys), ReelValuesOf(reels)).Success?
                              then Misfiled(SortedKeys(parts.Keys), PartValuesOf(parts)) else [])
    {
      var records;
      records, misfiled := EmitRecords();
      ReelValuesKept(reels);
      PartValuesKept(parts);
      if records.Failure? {
        r := Failure(records.error);
      } else {
        var doc := new Instructions.PlacementInstructions();
        doc.instructions := records.value;
        r := Success(doc);
      }
    }

    /**
     * The records generate_instructions appends, in order: the origin, the panel copies, the
     * reels in ascending slot order, then the parts; or the first exception raised on the way.
     * The warnings about misfiled parts come only once the reel section is done.
     */
    method EmitRecords() returns (r: Result<seq<Instruction>>, misfiled: seq<int>)
      ensures r == Generate(offsetX, offsetY, copies, ReelValuesOf(reels), PartValuesOf(parts))
      ensures misfiled == (if ReelSection(SortedKeys(reels.Keys), ReelValuesOf(reels)).Success?
                           then Misfiled(SortedKeys(parts.Keys), PartValuesOf(parts)) else [])
    {
      ghost var rv := ReelValuesOf(reels);
      misfiled := [];
      var panels := EmitPanels();
      var head := [OriginOffset(offsetX, offsetY)] + panels;
      var reelRecords := EmitReels(SortedKeys(reels.Keys));
      ReelValuesKept(reels);
      PartValuesKept(parts);
      if reelRecords.Failure? {
        r := Failure(reelRecords.error);
      } else {
        var partRecords;
        partRecords, misfiled := EmitAllParts();
        ReelValuesKept(reels);
        PartValuesKept(parts);
        if partRecords.Failure? {
          r := Failure(partRecords.error);
        } else {
          r := Success(head + reelRecords.value + partRecords.value);
        }
      }
    }

    /** The part section of generate_instructions: all_parts with its warnings, then one record per part. */
    method EmitAllParts() returns (r: Result<seq<Instruction>>, misfiled: seq<int>)
      ensures r == PartSection(AllParts(SortedKeys(parts.Keys), PartValuesOf(parts)), ReelValuesOf(reels))
      ensures misfiled == Misfiled(SortedKeys(parts.Keys), PartValuesOf(parts))
    {
      var all;
      all, misfiled := CollectParts(SortedKeys(parts.Keys));
      PartValuesKept(parts);
      ghost var av := Values(all);
      r := EmitParts(all);
      PartValuesKept(parts);
      assert Values(all) == av;
    }

    /** The panel record of every copy, in stored order. */
    method EmitPanels() returns (records: seq<Instruction>)
      ensures records == PanelSection(copies)
    {
      records := [];
      var i := 0;
      while i < |copies|
        invariant 0 <= i <= |copies|
        invariant records == PanelSection(copies[..i])
      {
        PanelStep(copies, i);
        records := records + [PanelizedBoard(copies[i].0, copies[i].1, false)];
        i := i + 1;
      }
      assert copies[..i] == copies;
    }

    // ---------------------------------------------------------------- from_instructions

    /** The slot s has a reel afterwards: a new one with only its number when it had none; nothing else changes. */
    method EnsureReel(s: int)
      requires Distinct()
      modifies this`reels
      ensures s in reels && Distinct()
      ensures State() == WithReel(old(State()), s)
      ensures forall r :: r in reels.Values ==> r in old(reels.Values) || fresh(r)
    {
      if s !in reels {
        ghost var b, m := State(), reels;
        ReelValuesKept(reels);
        PartValuesKept(parts);
        AddDefaultReel(s);
        ReelValuesUpdate(m, s, reels[s]);
        assert ReelValuesOf(reels) == b.reels[s := DefaultReel(s)];
        assert PartValuesOf(parts) == b.parts;
      }
    }

    /** The reel of slot s takes the stack offset (x, y); no other reel changes. */
    method SetStackOffset(s: int, x: Dec, y: Dec)
      requires s in reels && Distinct()
      modifies reels[s]
      ensures State() == old(State()).(reels := old(State()).reels[s := old(State()).reels[s].(stackX := Some(x), stackY := Some(y))])
    {
      reels[s].stackX := Some(x);
      reels[s].stackY := Some(y);
      forall t | t in reels && t != s ensures reels[t].Value() == old(reels[t].Value()) {
        assert reels[t] != reels[s];
      }
      PartValuesKept(parts);
    }

    /** The reel of slot s takes the feed spacing f; no other reel changes. */
    method SetFeedSpacing(s: int, f: Dec)
      requires s in reels && Distinct()
      modifies reels[s]
      ensures State() == old(State()).(reels := old(State()).reels[s := old(State()).reels[s].(feedSpacing := Some(f))])
    {
      reels[s].feedSpacing := Some(f);
      forall t | t in reels && t != s ensures reels[t].Value() == old(reels[t].Value()) {
        assert reels[t] != reels[s];
      }
      PartValuesKept(parts);
    }

    /** The reel of slot s takes the height h; no other reel changes. */
    method SetHeight(s: int, h: Option<Dec>)
      requires s in reels && Distinct()
      modifies reels[s]
      ensures State() == old(State()).(reels := old(State()).reels[s := old(State()).reels[s].(height := h)])
    {
      reels[s].height := h;
      forall t | t in reels && t != s ensures reels[t].Value() == old(reels[t].Value()) {
        assert reels[t] != reels[s];
      }
      PartValuesKept(parts);
    }

    /**
     * from_instructions, with the global offset read as evidently intended and the records walked
     * in file order: the placement holds what the records build, every slot whose parts agree on
     * one height gives that height to its reel, and the slots whose parts disagree come back as
     * warnings. A failing global offset is the only failure.
     */
    static method FromInstructions(doc: Instructions.PlacementInstructions)
      returns (r: Result<Placement>, warnings: set<int>)
      ensures var off := Instructions.IntendedGlobalOffset(doc.instructions);
        off.Failure? ==> r == Failure(off.error) && warnings == {}
      ensures var off := Instructions.IntendedGlobalOffset(doc.instructions);
        off.Success? ==>
          (r.Success? && fresh(r.value)
           && r.value.offsetX == off.value.0 && r.value.offsetY == off.value.1
           && r.value.copies == Instructions.Copies(doc.instructions))
      ensures r.Success? ==> var b := BuildAll(doc.instructions);
        && r.value.State() == Built(Reconcile(b), b.parts)
        && warnings == Conflicts(b, b.parts.Keys)
    {
      warnings := {};
      var offset := Instructions.IntendedGlobalOffset(doc.instructions);
      if offset.Failure? {
        r := Failure(offset.error);
        return;
      }
      var copies := doc.GetCopies();
      var out := Absorbed(doc.instructions, offset.value.0, offset.value.1, copies);
      ghost var b := out.State();
      forall s | s in b.parts ensures s in b.reels {
        BuildParts(doc.instructions, s);
      }
      warnings := out.CheckHeights();
      r := Success(out);
    }

    /** The record loop of from_instructions, on a new placement with the given offset and copies. */
    static method Absorbed(records: seq<Instruction>, offsetX: Dec, offsetY: Dec, copies: seq<(Dec, Dec)>)
      returns (out: Placement)
      ensures fresh(out) && out.Distinct() && out.State() == BuildAll(records)
      ensures out.offsetX == offsetX && out.offsetY == offsetY && out.copies == copies
      ensures forall r :: r in out.reels.Values ==> fresh(r)
    {
      out := new Placement(None, None, Some(copies), offsetX, offsetY);
      var k := 0;
      while k < |records|
        invariant 0 <= k <= |records|
        invariant fresh(out) && out.Distinct()
        invariant forall r :: r in out.reels.Values ==> fresh(r)
        invariant out.State() == BuildAll(records[..k])
        invariant out.offsetX == offsetX && out.offsetY == offsetY && out.copies == copies
      {
        assert records[..k + 1][..k] == records[..k];
        out.AbsorbRecord(records[k]);
        k := k + 1;
      }
      assert records[..k] == records;
    }

    /**
     * The height check of from_instructions: each slot whose parts share one height gives it to
     * its reel; the others are left alone and returned as warnings. The parts are not touched.
     */
    method CheckHeights() returns (warnings: set<int>)
      requires Distinct() && OnOwnSlots(PartValuesOf(parts))
      requires forall s :: s in PartValuesOf(parts) ==> s in ReelValuesOf(reels)
      modifies reels.Values
      ensures State() == Built(Reconcile(old(State())), old(State()).parts)
      ensures warnings == Conflicts(old(State()), old(State()).parts.Keys)
    {
      ghost var b := State();
      var heights := PartHeights();
      HeightsOfAll(b);
      assert heights == HeightsOver(b.parts, b.parts.Keys) && State() == b;
      warnings := ApplyHeights(heights);
      ReconcileBySlot(b);
      assert State() == Built(ReconcileOver(b, heights.Keys), b.parts);
    }

    /**
     * One pass of the record loop of from_instructions: a stack offset or feed spacing record
     * sets its slot's reel (made first when missing), an unskipped part record becomes a new
     * part assigned to its slot, and every other record is passed over.
     */
    method AbsorbRecord(i: Instruction)
      requires Distinct()
      modifies this`reels, this`parts, reels.Values
      ensures Distinct() && State() == Absorb(old(State()), i)
      ensures forall r :: r in reels.Values ==> r in old(reels.Values) || fresh(r)
    {
      match i
      case StackOffset(_, _, _, _) =>
        AbsorbStackOffset(i);
      case FeedSpacing(_, _) =>
        AbsorbFeedSpacing(i);
      case PartPlacement(_, _, _, _, _, _, _, skip, _, _) =>
        if !skip {
          AbsorbPart(i);
        }
      case _ =>
    }

    /** A stack offset record: the slot's reel, made first when missing, takes the offset. */
    method AbsorbStackOffset(i: Instruction)
      requires i.StackOffset? && Distinct()
      modifies this`reels, reels.Values
      ensures Distinct() && State() == Absorb(old(State()), i)
      ensures forall r :: r in reels.Values ==> r in old(reels.Values) || fresh(r)
    {
      ghost var b := State();
      var s := i.stack;
      EnsureReel(s);
      SetStackOffset(s, RepresentDecimal(i.x), RepresentDecimal(i.y));
      AbsorbStackOffsetIs(b, i);
    }

    /** A feed spacing record: the slot's reel, made first when missing, takes the spacing. */
    method AbsorbFeedSpacing(i: Instruction)
      requires i.FeedSpacing? && Distinct()
      modifies this`reels, this`parts, reels.Values
      ensures Distinct() && State() == Absorb(old(State()), i)
      ensures forall r :: r in reels.Values ==> r in old(reels.Values) || fresh(r)
    {
      ghost var b := State();
      var s := i.stack;
      EnsureReel(s);
      SetFeedSpacing(s, RepresentDecimal(i.feedSpacing));
      AbsorbFeedSpacingIs(b, i);
    }

    /** An unskipped part record: a new part made from it is assigned to its slot. */
    method AbsorbPart(i: Instruction)
      requires i.PartPlacement? && !i.skip && Distinct()
      modifies this`reels, this`parts
      ensures Distinct() && State() == Absorb(old(State()), i)
      ensures forall r :: r in reels.Values ==> r in old(reels.Values) || fresh(r)
    {
      var s := i.stack;
      ghost var b := State();
      var xt, yt := DecimalText(i.x), DecimalText(i.y);
      var height := Some(RepresentDecimal(i.height));
      ghost var v := PartOf(i);
      assert v == PartValue(Some(s), i.reference, None, None, xt, yt, height, i.rotation, Some(i.comment), i.pickupHead);
      var p := new PartPlacement(i.reference, xt, yt, i.rotation, height, None, None, Some(i.comment), Some(s), i.pickupHead);
      assert p.Value() == v;
      ReelValuesKept(reels);
      PartValuesKept(parts);
      assert State() == b && p !in PartObjects(parts);
      EnsureList(s);
      assert p.Value() == v;
      AssignPartToReel(p, s);
      assert State() == Assigned(Emptied(b, s), v, s);
      AssignedToEmpty(b, v, s);
      AbsorbPartIs(b, i);
    }

    /** The slot s has a part list afterwards: a new empty one when it had none; nothing else changes. */
    method EnsureList(s: int)
      modifies this`parts
      ensures s in parts && PartObjects(parts) == old(PartObjects(parts))
      ensures State() == Emptied(old(State()), s)
    {
      if s !in parts {
        AddEmptyList(parts, s);
        PartValuesUpdate(parts, s, []);
        parts := parts[s := []];
      }
    }

    // ---------------------------------------------------------------- the height check of from_instructions

    /** part_heights: for every slot with parts, the set of its parts' heights. */
    method PartHeights() returns (heights: map<int, set<Option<Dec>>>)
      requires OnOwnSlots(PartValuesOf(parts))
      ensures heights == HeightsOver(PartValuesOf(parts), parts.Keys)
    {
      ghost var pv := PartValuesOf(parts);
      heights := map[];
      var todo := parts.Keys;
      while todo != {}
        invariant todo <= parts.Keys
        invariant heights == HeightsOver(pv, parts.Keys - todo)
        decreases |todo|
      {
        Inhabited(todo);
        var s :| s in todo;
        ghost var done := parts.Keys - todo;
        assert pv[s] == Values(parts[s]);
        heights := AddHeights(heights, s, parts[s]);
        HeightsOverStep(pv, done, s);
        TakeOne(parts.Keys, todo, s);
        todo := todo - {s};
      }
      assert parts.Keys - todo == parts.Keys;
      assert pv == PartValuesOf(parts);
    }

    /**
     * The inner loop of part_heights for the list of slot s: the first part whose slot has no
     * entry yet starts an empty set, and every part adds its height to it.
     */
    static method AddHeights(heights0: map<int, set<Option<Dec>>>, s: int, list: seq<PartPlacement>)
      returns (heights: map<int, set<Option<Dec>>>)
      requires s !in heights0
      requires forall j :: 0 <= j < |list| ==> Values(list)[j].reel == Some(s)
      ensures heights == if |list| == 0 then heights0 else heights0[s := Heights(old(Values(list)))]
    {
      ghost var lv := Values(list);
      heights := heights0;
      var j := 0;
      while j < |list|
        invariant 0 <= j <= |list|
        invariant heights == if j == 0 then heights0 else heights0[s := Heights(lv[..j])]
      {
        var part := list[j];
        assert lv[j] == part.Value();
        if j == 0 {
          assert Heights(lv[..0]) == {};
        }
        if part.reel.None? || part.reel.value !in heights {
          heights := heights[s := {}];
        }
        heights := heights[s := AddHeight(heights[s], part.height)];
        HeightsStep(lv, j);
        j := j + 1;
      }
      assert lv[..j] == lv;
    }

    /**
     * The second loop of the height check, as evidently intended: a reel whose parts share one
     * height takes it, a reel whose parts disagree keeps its own and its slot is warned about.
     */
    method ApplyHeights(heights: map<int, set<Option<Dec>>>) returns (warnings: set<int>)
      requires Distinct() && HeightsOf(heights, State())
      modifies reels.Values
      ensures State() == Built(ReconcileOver(old(State()), heights.Keys), old(State()).parts)
      ensures warnings == Conflicts(old(State()), heights.Keys)
    {
      ghost var b := State();
      warnings := {};
      var todo := heights.Keys;
      while todo != {}
        invariant todo <= heights.Keys
        invariant State() == Built(ReconcileOver(b, heights.Keys - todo), b.parts)
        invariant warnings == Conflicts(b, heights.Keys - todo)
        decreases |todo|
      {
        Inhabited(todo);
        var s :| s in todo;
        ghost var done := heights.Keys - todo;
        warnings := SettleSlot(b, done, s, heights[s], warnings);
        TakeOne(heights.Keys, todo, s);
        todo := todo - {s};
      }
      assert heights.Keys - todo == heights.Keys;
    }

    /**
     * One slot of the height loop: when all its parts agree the reel takes their height,
     * otherwise the reel is left alone and the slot is warned about.
     */
    method SettleSlot(ghost b: Built, ghost done: set<int>, s: int, hs: set<Option<Dec>>, warnings0: set<int>)
      returns (warnings: set<int>)
      requires Distinct() && s !in done && s in b.reels && s in b.parts && |b.parts[s]| > 0
      requires hs == Heights(b.parts[s])
      requires State() == Built(ReconcileOver(b, done), b.parts) && warnings0 == Conflicts(b, done)
      modifies reels.Values
      ensures State() == Built(ReconcileOver(b, done + {s}), b.parts) && warnings == Conflicts(b, done + {s})
    {
      warnings := warnings0;
      if |hs| > 1 {
        ReconcileWarn(b, done, s);
        warnings := warnings + {s};
      } else {
        assert b.parts[s][0].height in hs by {
          HeightsHoldFirst(b.parts[s]);
        }
        var h :| h in hs;
        ghost var r := ReconcileOver(b, done);
        ReconcileSettle(b, done, s, h);
        SetHeight(s, h);
        assert State().reels == r[s := r[s].(height := h)];
      }
    }
  }
}
