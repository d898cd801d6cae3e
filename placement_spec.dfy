/**
 * What Placement.generate_instructions (tm2x0/placement.py) emits, stated over plain values:
 * the origin, the panel copies, two records per reel in slot order, then one record per part.
 */
module PlacementSpec {
  import opened Wrappers
  import opened Decimals
  import opened Records
  import opened Reels
  import opened PartPlacements
  import Instructions
  import opened Slots

  // ---------------------------------------------------------------- generate_instructions

  /** A reel comment as the stack-offset record stores it: missing or empty becomes "". */
  function CommentText(c: Option<string>): string {
    if c.Some? then c.value else ""
  }

  /**
   * The stack-offset record and the feed-spacing record of one reel. Decimal(str(None)) fails,
   * so a reel missing an offset or its feed spacing raises.
   */
  function ReelRecords(r: ReelValue): Result<seq<Instruction>> {
    if r.stackX.None? || r.stackY.None? || r.feedSpacing.None? then Failure(BadDecimal("None"))
    else Success([StackOffset(r.reelNumber, r.stackX.value, r.stackY.value, CommentText(r.comment)),
                  FeedSpacing(r.reelNumber, r.feedSpacing.value)])
  }

  /** True when a reel has everything its records need. */
  predicate Complete(r: ReelValue) {
    r.stackX.Some? && r.stackY.Some? && r.feedSpacing.Some?
  }

  /** The concatenation of a run of record lists. */
  function Flatten(groups: seq<seq<Instruction>>): seq<Instruction> {
    if |groups| == 0 then [] else Flatten(groups[..|groups| - 1]) + groups[|groups| - 1]
  }

  /** What each reel contributes, in the given slot order. */
  function ReelResults(keys: seq<int>, reels: map<int, ReelValue>): (r: seq<Result<seq<Instruction>>>)
    requires forall i :: 0 <= i < |keys| ==> keys[i] in reels
    ensures |r| == |keys|
    ensures forall i :: 0 <= i < |keys| ==> r[i] == ReelRecords(reels[keys[i]])
  {
    seq(|keys|, i requires 0 <= i < |keys| => ReelRecords(reels[keys[i]]))
  }

  /** The reel section: two records per reel, or the error of the first reel that lacks a setting. */
  function ReelSection(keys: seq<int>, reels: map<int, ReelValue>): Result<seq<Instruction>>
    requires forall i :: 0 <= i < |keys| ==> keys[i] in reels
  {
    var groups :- Instructions.Collect(ReelResults(keys, reels));
    Success(Flatten(groups))
  }

  /** all_parts: the parts of each slot in turn, each list in its stored order. */
  function AllParts(keys: seq<int>, parts: map<int, seq<PartValue>>): seq<PartValue>
    requires forall i :: 0 <= i < |keys| ==> keys[i] in parts
  {
    if |keys| == 0 then []
    else AllParts(keys[..|keys| - 1], parts) + parts[keys[|keys| - 1]]
  }

  /** The slot of every part whose own reel differs from the slot it is listed under, in visiting order. */
  function Misfiled(keys: seq<int>, parts: map<int, seq<PartValue>>): seq<int>
    requires forall i :: 0 <= i < |keys| ==> keys[i] in parts
  {
    if |keys| == 0 then []
    else
      var key := keys[|keys| - 1];
      Misfiled(keys[..|keys| - 1], parts) + MisfiledIn(key, parts[key])
  }

  /** One warning (the slot) per part of the list that is not on that slot. */
  function MisfiledIn(key: int, ps: seq<PartValue>): seq<int> {
    if |ps| == 0 then []
    else MisfiledIn(key, ps[..|ps| - 1]) + (if ps[|ps| - 1].reel != Some(key) then [key] else [])
  }

  /**
   * The part record numbered n: slot and head from the part, rotation the part's plus its
   * reel's, height the reel's, no reference or comment. Looking up the part's reel raises
   * KeyError when it has none or an unknown one; the coordinates and height are read back
   * through Decimal(str(...)).
   */
  function PartRecord(n: int, p: PartValue, reels: map<int, ReelValue>): Result<Instruction> {
    if p.reel.None? || p.reel.value !in reels then Failure(MissingKey(p.reel))
    else
      var reel := reels[p.reel.value];
      var x :- ParseDec(p.x);
      var y :- ParseDec(p.y);
      if reel.height.None? then Failure(BadDecimal("None"))
      else Success(PartPlacement(n, p.head, p.reel.value, x, y, p.rotation + reel.rotation,
                                 reel.height.value, false, "", ""))
  }

  /** The record of every part, numbered from 1. */
  function PartResults(all: seq<PartValue>, reels: map<int, ReelValue>): (r: seq<Result<Instruction>>)
    ensures |r| == |all|
  {
    seq(|all|, i requires 0 <= i < |all| => PartRecord(i + 1, all[i], reels))
  }

  /** One panel record per copy, never skipped. */
  function PanelSection(copies: seq<(Dec, Dec)>): (r: seq<Instruction>)
    ensures |r| == |copies|
    ensures forall i :: 0 <= i < |copies| ==> r[i] == PanelizedBoard(copies[i].0, copies[i].1, false)
  {
    seq(|copies|, i requires 0 <= i < |copies| => PanelizedBoard(copies[i].0, copies[i].1, false))
  }

  /** The records of every part of all_parts, numbered from 1, or the first exception. */
  function PartSection(all: seq<PartValue>, reels: map<int, ReelValue>): Result<seq<Instruction>> {
    Instructions.Collect(PartResults(all, reels))
  }

  /** Every reel has its settings. */
  predicate ReelsReady(reels: map<int, ReelValue>) {
    forall s :: s in reels ==> Complete(reels[s])
  }

  /** Every listed part can be placed. */
  predicate PartsPlaceable(parts: map<int, seq<PartValue>>, reels: map<int, ReelValue>) {
    forall s, p :: s in parts && p in parts[s] ==> PartReady(p, reels)
  }

  /** Every reel has its settings and every part can be placed. */
  predicate AllReady(reels: map<int, ReelValue>, parts: map<int, seq<PartValue>>) {
    ReelsReady(reels) && PartsPlaceable(parts, reels)
  }

  /**
   * generate_instructions: the origin record, the panel copies, the reels in ascending slot
   * order, then the parts; or the first exception raised on the way. It raises exactly when a
   * reel lacks a setting or a part cannot be placed.
   */
  function Generate(offsetX: Dec, offsetY: Dec, copies: seq<(Dec, Dec)>,
                    reels: map<int, ReelValue>, parts: map<int, seq<PartValue>>): (r: Result<seq<Instruction>>)
    ensures r.Success? <==> AllReady(reels, parts)
  {
    var head := [OriginOffset(offsetX, offsetY)] + PanelSection(copies);
    AssembleReady(head, reels, parts);
    Assemble(head, ReelSection(SortedKeys(reels.Keys), reels),
             PartSection(AllParts(SortedKeys(parts.Keys), parts), reels))
  }

  /** The fixed head, then the reel section, then the part section; the reel section's exception comes first. */
  function Assemble(head: seq<Instruction>, reelRecords: Result<seq<Instruction>>,
                    partRecords: Result<seq<Instruction>>): Result<seq<Instruction>>
  {
    var rs :- reelRecords;
    var ps :- partRecords;
    Success(head + rs + ps)
  }

  /** What generate_instructions needs of a part: a known reel with a height, and readable coordinates. */
  predicate PartReady(p: PartValue, reels: map<int, ReelValue>) {
    && p.reel.Some? && p.reel.value in reels
    && ParseDec(p.x).Success? && ParseDec(p.y).Success?
    && reels[p.reel.value].height.Some?
  }

  /** The record of a ready part; KeyError for a part with no reel or an unknown one. */
  lemma PartRecordCases(n: int, p: PartValue, reels: map<int, ReelValue>)
    ensures PartRecord(n, p, reels).Success? <==> PartReady(p, reels)
    ensures p.reel.None? || p.reel.value !in reels ==> PartRecord(n, p, reels) == Failure(MissingKey(p.reel))
    ensures PartReady(p, reels) ==>
      var reel := reels[p.reel.value];
      PartRecord(n, p, reels).value
        == PartPlacement(n, p.head, p.reel.value, ParseDec(p.x).value, ParseDec(p.y).value,
                         p.rotation + reel.rotation, reel.height.value, false, "", "")
  {
  }

  lemma {:induction false} AllPartsConcat(a: seq<int>, b: seq<int>, parts: map<int, seq<PartValue>>)
    requires forall i :: 0 <= i < |a| ==> a[i] in parts
    requires forall i :: 0 <= i < |b| ==> b[i] in parts
    ensures forall i :: 0 <= i < |a + b| ==> (a + b)[i] in parts
    ensures AllParts(a + b, parts) == AllParts(a, parts) + AllParts(b, parts)
  {
    assert forall i :: 0 <= i < |a + b| ==> (a + b)[i] in parts by {
      forall i | 0 <= i < |a + b| ensures (a + b)[i] in parts {
        if i >= |a| { assert (a + b)[i] == b[i - |a|]; }
      }
    }
    if |b| == 0 {
      assert a + b == a;
    } else {
      var b', ab := b[..|b| - 1], a + b;
      assert ab[..|ab| - 1] == a + b' && ab[|ab| - 1] == b[|b| - 1];
      AllPartsConcat(a, b', parts);
      assert AllParts(ab, parts) == AllParts(a + b', parts) + parts[b[|b| - 1]];
      assert AllParts(b, parts) == AllParts(b', parts) + parts[b[|b| - 1]];
    }
  }

  /** all_parts lists the parts of the k-th slot, in their stored order, right after those of the slots before it. */
  lemma AllPartsIndex(keys: seq<int>, parts: map<int, seq<PartValue>>, k: nat, j: nat)
    requires forall i :: 0 <= i < |keys| ==> keys[i] in parts
    requires k < |keys| && j < |parts[keys[k]]|
    ensures |AllParts(keys[..k], parts)| + j < |AllParts(keys, parts)|
    ensures AllParts(keys, parts)[|AllParts(keys[..k], parts)| + j] == parts[keys[k]][j]
  {
    assert keys == keys[..k + 1] + keys[k + 1..];
    AllPartsConcat(keys[..k + 1], keys[k + 1..], parts);
    assert keys[..k + 1][..k] == keys[..k];
  }

  /** A part is in all_parts exactly when it is listed under one of the visited slots. */
  lemma {:induction false} AllPartsMembers(keys: seq<int>, parts: map<int, seq<PartValue>>, p: PartValue)
    requires forall i :: 0 <= i < |keys| ==> keys[i] in parts
    ensures p in AllParts(keys, parts) <==> exists i :: 0 <= i < |keys| && p in parts[keys[i]]
  {
    if |keys| > 0 {
      var keys' := keys[..|keys| - 1];
      AllPartsMembers(keys', parts, p);
      if p in AllParts(keys, parts) && p !in parts[keys[|keys| - 1]] {
        var i :| 0 <= i < |keys'| && p in parts[keys'[i]];
        assert keys[i] == keys'[i];
      }
      if exists i :: 0 <= i < |keys| && p in parts[keys[i]] {
        var i :| 0 <= i < |keys| && p in parts[keys[i]];
        if i < |keys'| { assert keys'[i] == keys[i]; }
      }
    }
  }

  /** The number of parts over a run of slots. */
  function PartCount(keys: seq<int>, parts: map<int, seq<PartValue>>): nat
    requires forall i :: 0 <= i < |keys| ==> keys[i] in parts
  {
    if |keys| == 0 then 0 else |parts[keys[0]]| + PartCount(keys[1..], parts)
  }

  /** all_parts holds as many parts as the slots have between them. */
  lemma {:induction false} AllPartsCount(keys: seq<int>, parts: map<int, seq<PartValue>>)
    requires forall i :: 0 <= i < |keys| ==> keys[i] in parts
    ensures |AllParts(keys, parts)| == PartCount(keys, parts)
  {
    if |keys| > 0 {
      assert keys == [keys[0]] + keys[1..];
      AllPartsConcat([keys[0]], keys[1..], parts);
      AllPartsCount(keys[1..], parts);
      assert [keys[0]][..0] == [];
    }
  }

  /** A slot is warned about exactly when one of its parts names another reel. */
  lemma {:induction false} MisfiledInMembers(key: int, ps: seq<PartValue>)
    ensures |MisfiledIn(key, ps)| <= |ps|
    ensures forall x :: x in MisfiledIn(key, ps) ==> x == key
    ensures key in MisfiledIn(key, ps) <==> exists j :: 0 <= j < |ps| && ps[j].reel != Some(key)
  {
    if |ps| > 0 {
      var ps' := ps[..|ps| - 1];
      MisfiledInMembers(key, ps');
      if exists j :: 0 <= j < |ps'| && ps'[j].reel != Some(key) {
        var j :| 0 <= j < |ps'| && ps'[j].reel != Some(key);
        assert ps[j] == ps'[j];
      }
      if exists j :: 0 <= j < |ps| && ps[j].reel != Some(key) {
        var j :| 0 <= j < |ps| && ps[j].reel != Some(key);
        if j < |ps'| { assert ps'[j] == ps[j]; }
      }
    }
  }

  /** The warnings name exactly the slots holding a part assigned elsewhere. */
  lemma {:induction false} MisfiledMembers(keys: seq<int>, parts: map<int, seq<PartValue>>, s: int)
    requires forall i :: 0 <= i < |keys| ==> keys[i] in parts
    ensures s in Misfiled(keys, parts) <==>
      exists i, j :: 0 <= i < |keys| && keys[i] == s && 0 <= j < |parts[s]| && parts[s][j].reel != Some(s)
  {
    if |keys| > 0 {
      var keys' := keys[..|keys| - 1];
      var key := keys[|keys| - 1];
      MisfiledMembers(keys', parts, s);
      MisfiledInMembers(key, parts[key]);
      if exists i, j :: 0 <= i < |keys'| && keys'[i] == s && 0 <= j < |parts[s]| && parts[s][j].reel != Some(s) {
        var i, j :| 0 <= i < |keys'| && keys'[i] == s && 0 <= j < |parts[s]| && parts[s][j].reel != Some(s);
        assert keys[i] == s;
      }
      if exists i, j :: 0 <= i < |keys| && keys[i] == s && 0 <= j < |parts[s]| && parts[s][j].reel != Some(s) {
        var i, j :| 0 <= i < |keys| && keys[i] == s && 0 <= j < |parts[s]| && parts[s][j].reel != Some(s);
        if i < |keys'| { assert keys'[i] == s; }
      }
    }
  }

  /** A run of pairs flattens to twice its length, each pair in place. */
  lemma {:induction false} FlattenPairs(groups: seq<seq<Instruction>>)
    requires forall g :: 0 <= g < |groups| ==> |groups[g]| == 2
    ensures |Flatten(groups)| == 2 * |groups|
    ensures forall k :: 0 <= k < |groups| ==> Flatten(groups)[2 * k] == groups[k][0] && Flatten(groups)[2 * k + 1] == groups[k][1]
  {
    if |groups| > 0 {
      var groups' := groups[..|groups| - 1];
      FlattenPairs(groups');
      forall k | 0 <= k < |groups| ensures Flatten(groups)[2 * k] == groups[k][0] && Flatten(groups)[2 * k + 1] == groups[k][1] {
        if k < |groups'| { assert groups'[k] == groups[k]; }
      }
    }
  }

  /** The records of a complete reel stand at positions at and at+1 of out. */
  predicate ReelPairAt(out: seq<Instruction>, at: int, r: ReelValue) {
    && 0 <= at && at + 1 < |out| && Complete(r)
    && out[at] == StackOffset(r.reelNumber, r.stackX.value, r.stackY.value, CommentText(r.comment))
    && out[at + 1] == FeedSpacing(r.reelNumber, r.feedSpacing.value)
  }

  /** The reel section succeeds exactly when every reel is complete. */
  lemma ReelSectionSucceeds(keys: seq<int>, reels: map<int, ReelValue>)
    requires forall i :: 0 <= i < |keys| ==> keys[i] in reels
    ensures ReelSection(keys, reels).Success? <==> forall k :: 0 <= k < |keys| ==> Complete(reels[keys[k]])
  {
    var rr := ReelResults(keys, reels);
    Instructions.CollectEach(rr);
    assert forall k :: 0 <= k < |keys| ==> rr[k] == ReelRecords(reels[keys[k]]);
  }

  /** A reel section holds the two records of each reel, in the given slot order. */
  lemma ReelSectionLayout(keys: seq<int>, reels: map<int, ReelValue>)
    requires forall i :: 0 <= i < |keys| ==> keys[i] in reels
    requires ReelSection(keys, reels).Success?
    ensures |ReelSection(keys, reels).value| == 2 * |keys|
    ensures forall k :: 0 <= k < |keys| ==> ReelPairAt(ReelSection(keys, reels).value, 2 * k, reels[keys[k]])
  {
    var rr := ReelResults(keys, reels);
    var groups := Instructions.Collect(rr).value;
    Instructions.CollectEach(rr);
    assert forall k :: 0 <= k < |keys| ==> rr[k] == Success(groups[k]);
    FlattenPairs(groups);
    forall k | 0 <= k < |keys| ensures ReelPairAt(Flatten(groups), 2 * k, reels[keys[k]]) {
      assert ReelRecords(reels[keys[k]]) == rr[k];
    }
  }

  /** The part section succeeds exactly when every part is ready. */
  lemma PartSectionSucceeds(all: seq<PartValue>, reels: map<int, ReelValue>)
    ensures PartSection(all, reels).Success? <==> forall i :: 0 <= i < |all| ==> PartReady(all[i], reels)
  {
    var pr := PartResults(all, reels);
    Instructions.CollectEach(pr);
    forall i | 0 <= i < |all| ensures pr[i].Success? <==> PartReady(all[i], reels) {
      PartResultsAt(all, reels, i);
      PartRecordCases(i + 1, all[i], reels);
    }
  }

  /** A part section holds record i+1 for the i-th part. */
  lemma PartSectionLayout(all: seq<PartValue>, reels: map<int, ReelValue>)
    requires PartSection(all, reels).Success?
    ensures |PartSection(all, reels).value| == |all|
    ensures forall i :: 0 <= i < |all| ==> Success(PartSection(all, reels).value[i]) == PartRecord(i + 1, all[i], reels)
  {
    var pr := PartResults(all, reels);
    Instructions.CollectEach(pr);
    var v := Instructions.Collect(pr).value;
    forall i | 0 <= i < |all| ensures Success(v[i]) == PartRecord(i + 1, all[i], reels) {
      assert pr[i] == Success(v[i]);
      PartResultsAt(all, reels, i);
    }
  }

  /** The i-th part gets record number i+1. */
  lemma PartResultsAt(all: seq<PartValue>, reels: map<int, ReelValue>, i: nat)
    requires i < |all|
    ensures PartResults(all, reels)[i] == PartRecord(i + 1, all[i], reels)
  {
    var p := all[i];
    assert PartResults(all, reels)[i] == PartRecord(i + 1, p, reels);
  }

  /** The list is assembled exactly when both sections are. */
  lemma AssembleSucceeds(head: seq<Instruction>, reelRecords: Result<seq<Instruction>>,
                         partRecords: Result<seq<Instruction>>)
    ensures Assemble(head, reelRecords, partRecords).Success? <==> reelRecords.Success? && partRecords.Success?
  {
  }

  /** Whatever the head, the records are assembled exactly when every reel and every part is ready. */
  lemma AssembleReady(head: seq<Instruction>, reels: map<int, ReelValue>, parts: map<int, seq<PartValue>>)
    ensures Assemble(head, ReelSection(SortedKeys(reels.Keys), reels),
                     PartSection(AllParts(SortedKeys(parts.Keys), parts), reels)).Success?
        <==> AllReady(reels, parts)
  {
    var reelRecords := ReelSection(SortedKeys(reels.Keys), reels);
    var partRecords := PartSection(AllParts(SortedKeys(parts.Keys), parts), reels);
    ReelsComplete(reels);
    PartsReady(parts, reels);
    AssembleSucceeds(head, reelRecords, partRecords);
    assert AllReady(reels, parts) <==> reelRecords.Success? && partRecords.Success?;
  }

  /** The reel section over the sorted slots succeeds exactly when every reel is complete. */
  lemma ReelsComplete(reels: map<int, ReelValue>)
    ensures ReelSection(SortedKeys(reels.Keys), reels).Success? <==> ReelsReady(reels)
  {
    var keys := SortedKeys(reels.Keys);
    ReelSectionSucceeds(keys, reels);
    if forall k :: 0 <= k < |keys| ==> Complete(reels[keys[k]]) {
      forall s | s in reels ensures Complete(reels[s]) {
        var k := PositionOf(keys, s);
      }
    }
  }

  /** The part section over all_parts succeeds exactly when every listed part is ready. */
  lemma PartsReady(parts: map<int, seq<PartValue>>, reels: map<int, ReelValue>)
    ensures PartSection(AllParts(SortedKeys(parts.Keys), parts), reels).Success? <==> PartsPlaceable(parts, reels)
  {
    var all := AllParts(SortedKeys(parts.Keys), parts);
    PartSectionSucceeds(all, reels);
    if forall i :: 0 <= i < |all| ==> PartReady(all[i], reels) {
      forall s, p | s in parts && p in parts[s] ensures PartReady(p, reels) {
        AllPartsCovers(parts, p);
        var i := PositionOf(all, p);
      }
    }
    if forall s, p :: s in parts && p in parts[s] ==> PartReady(p, reels) {
      forall i | 0 <= i < |all| ensures PartReady(all[i], reels) {
        AllPartsCovers(parts, all[i]);
      }
    }
  }

  /** Where a member of a sequence sits. */
  lemma PositionOf<T>(s: seq<T>, x: T) returns (i: nat)
    requires x in s
    ensures i < |s| && s[i] == x
  {
    i :| i < |s| && s[i] == x;
  }

  /** all_parts over the sorted slots holds exactly the parts listed under some slot. */
  lemma AllPartsCovers(parts: map<int, seq<PartValue>>, p: PartValue)
    ensures p in AllParts(SortedKeys(parts.Keys), parts) <==> exists s :: s in parts && p in parts[s]
  {
    var keys := SortedKeys(parts.Keys);
    AllPartsMembers(keys, parts, p);
    if exists s :: s in parts && p in parts[s] {
      var s :| s in parts && p in parts[s];
      assert s in keys;
    }
  }

  /** Where each piece of an assembled list sits. */
  lemma AssembleCases(head: seq<Instruction>, reelRecords: Result<seq<Instruction>>,
                      partRecords: Result<seq<Instruction>>)
    ensures Assemble(head, reelRecords, partRecords).Success? <==> reelRecords.Success? && partRecords.Success?
    ensures reelRecords.Failure? ==> Assemble(head, reelRecords, partRecords) == Failure(reelRecords.error)
    ensures Assemble(head, reelRecords, partRecords).Success? ==>
      var out, rs, ps := Assemble(head, reelRecords, partRecords).value, reelRecords.value, partRecords.value;
      && |out| == |head| + |rs| + |ps|
      && (forall i :: 0 <= i < |head| ==> out[i] == head[i])
      && (forall k :: 0 <= k < |rs| ==> out[|head| + k] == rs[k])
      && (forall i :: 0 <= i < |ps| ==> out[|head| + |rs| + i] == ps[i])
  {
  }

  /** A generated list is the origin, the panels, the reel section and the part section, in that order. */
  lemma GenerateSplit(offsetX: Dec, offsetY: Dec, copies: seq<(Dec, Dec)>,
                      reels: map<int, ReelValue>, parts: map<int, seq<PartValue>>)
    requires Generate(offsetX, offsetY, copies, reels, parts).Success?
    ensures ReelSection(SortedKeys(reels.Keys), reels).Success?
    ensures PartSection(AllParts(SortedKeys(parts.Keys), parts), reels).Success?
    ensures Generate(offsetX, offsetY, copies, reels, parts).value
         == [OriginOffset(offsetX, offsetY)] + PanelSection(copies)
            + ReelSection(SortedKeys(reels.Keys), reels).value
            + PartSection(AllParts(SortedKeys(parts.Keys), parts), reels).value
  {
  }

  /** A generated list holds one origin, one record per copy, two per reel and one per part. */
  lemma GenerateLength(offsetX: Dec, offsetY: Dec, copies: seq<(Dec, Dec)>,
                       reels: map<int, ReelValue>, parts: map<int, seq<PartValue>>)
    requires Generate(offsetX, offsetY, copies, reels, parts).Success?
    ensures |Generate(offsetX, offsetY, copies, reels, parts).value|
         == 1 + |copies| + 2 * |reels| + |AllParts(SortedKeys(parts.Keys), parts)|
  {
    GenerateSplit(offsetX, offsetY, copies, reels, parts);
    ReelSectionLength(SortedKeys(reels.Keys), reels);
  }

  /** A successful reel section holds two records per slot. */
  lemma ReelSectionLength(keys: seq<int>, reels: map<int, ReelValue>)
    requires forall i :: 0 <= i < |keys| ==> keys[i] in reels
    requires ReelSection(keys, reels).Success?
    ensures |ReelSection(keys, reels).value| == 2 * |keys|
  {
    ReelSectionLayout(keys, reels);
  }

  /** A generated list opens with the origin record, then one panel record per copy in stored order. */
  lemma GenerateHead(offsetX: Dec, offsetY: Dec, copies: seq<(Dec, Dec)>,
                     reels: map<int, ReelValue>, parts: map<int, seq<PartValue>>)
    requires Generate(offsetX, offsetY, copies, reels, parts).Success?
    ensures var out := Generate(offsetX, offsetY, copies, reels, parts).value;
      && |out| > |copies|
      && out[0] == OriginOffset(offsetX, offsetY)
      && forall i :: 0 <= i < |copies| ==> out[1 + i] == PanelizedBoard(copies[i].0, copies[i].1, false)
  {
    GenerateSplit(offsetX, offsetY, copies, reels, parts);
    HeadRecords(offsetX, offsetY, copies, Generate(offsetX, offsetY, copies, reels, parts).value,
                ReelSection(SortedKeys(reels.Keys), reels).value,
                PartSection(AllParts(SortedKeys(parts.Keys), parts), reels).value);
  }

  /** What the origin and panel records put at the front of a list. */
  lemma HeadRecords(offsetX: Dec, offsetY: Dec, copies: seq<(Dec, Dec)>, out: seq<Instruction>,
                    reelRecords: seq<Instruction>, partRecords: seq<Instruction>)
    requires out == [OriginOffset(offsetX, offsetY)] + PanelSection(copies) + reelRecords + partRecords
    ensures && |out| > |copies|
            && out[0] == OriginOffset(offsetX, offsetY)
            && forall i :: 0 <= i < |copies| ==> out[1 + i] == PanelizedBoard(copies[i].0, copies[i].1, false)
  {
    var head := [OriginOffset(offsetX, offsetY)] + PanelSection(copies);
    forall i | 0 <= i < |copies| ensures out[1 + i] == PanelizedBoard(copies[i].0, copies[i].1, false) {
      assert out[1 + i] == head[1 + i] == PanelSection(copies)[i];
    }
  }

  /** A record that is neither a panel copy nor an origin offset. */
  predicate NeitherCopyNorOrigin(i: Instruction) {
    !i.PanelizedBoard? && !i.OriginOffset?
  }

  /** Records that are neither copies nor origins add nothing to get_copies or to the origins. */
  lemma {:induction false} NoCopiesNoOrigins(doc: seq<Instruction>)
    requires forall k :: 0 <= k < |doc| ==> NeitherCopyNorOrigin(doc[k])
    ensures Instructions.Copies(doc) == [] && Instructions.Origins(doc) == []
  {
    if |doc| > 0 {
      var init := doc[..|doc| - 1];
      assert forall k :: 0 <= k < |init| ==> init[k] == doc[k];
      NoCopiesNoOrigins(init);
    }
  }

  /** get_copies of the panel records gives back the copies they were made from, when those are rounded already. */
  lemma {:induction false} PanelCopies(copies: seq<(Dec, Dec)>)
    requires forall i :: 0 <= i < |copies| ==> IsCanonical(copies[i].0) && IsCanonical(copies[i].1)
    ensures Instructions.Copies(PanelSection(copies)) == copies
    ensures Instructions.Origins(PanelSection(copies)) == []
  {
    if |copies| > 0 {
      var n := |copies| - 1;
      var init, last := copies[..n], PanelizedBoard(copies[n].0, copies[n].1, false);
      assert copies[..n + 1] == copies;
      PanelStep(copies, n);
      var panels := PanelSection(copies);
      assert panels == PanelSection(init) + [last];
      assert panels[..n] == PanelSection(init) && panels[n] == last;
      assert forall i :: 0 <= i < |init| ==> init[i] == copies[i];
      PanelCopies(init);
      RepresentCanonical(copies[n].0);
      RepresentCanonical(copies[n].1);
      assert Instructions.CopyOf(last) == [copies[n]] && Instructions.OriginOf(last) == [];
      assert copies == init + [copies[n]];
    }
  }

  /** The reel records are stack offsets and feed spacings only. */
  lemma ReelRecordsPlain(keys: seq<int>, reels: map<int, ReelValue>)
    requires forall i :: 0 <= i < |keys| ==> keys[i] in reels
    requires ReelSection(keys, reels).Success?
    ensures forall j :: 0 <= j < |ReelSection(keys, reels).value| ==> NeitherCopyNorOrigin(ReelSection(keys, reels).value[j])
  {
    var out := ReelSection(keys, reels).value;
    ReelSectionLayout(keys, reels);
    forall j | 0 <= j < |out| ensures NeitherCopyNorOrigin(out[j]) {
      var k := j / 2;
      assert ReelPairAt(out, 2 * k, reels[keys[k]]);
    }
  }

  /** A part record that can be made is a part placement record. */
  lemma PartRecordPlain(n: int, p: PartValue, reels: map<int, ReelValue>, r: Instruction)
    requires PartRecord(n, p, reels) == Success(r)
    ensures NeitherCopyNorOrigin(r)
  {
    PartRecordCases(n, p, reels);
  }

  /** The part records are part placements only. */
  lemma PartRecordsPlain(all: seq<PartValue>, reels: map<int, ReelValue>, out: seq<Instruction>)
    requires PartSection(all, reels) == Success(out)
    ensures forall j :: 0 <= j < |out| ==> NeitherCopyNorOrigin(out[j])
  {
    PartSectionLayout(all, reels);
    forall j | 0 <= j < |out| ensures NeitherCopyNorOrigin(out[j]) {
      assert PartRecord(j + 1, all[j], reels) == Success(out[j]);
      PartRecordPlain(j + 1, all[j], reels, out[j]);
    }
  }

  /** The origin, the panels, then records of other kinds: one origin and the panel copies are read back. */
  lemma HeadReadsBack(offsetX: Dec, offsetY: Dec, copies: seq<(Dec, Dec)>, rs: seq<Instruction>, ps: seq<Instruction>)
    requires IsCanonical(offsetX) && IsCanonical(offsetY)
    requires forall i :: 0 <= i < |copies| ==> IsCanonical(copies[i].0) && IsCanonical(copies[i].1)
    requires forall k :: 0 <= k < |rs| ==> NeitherCopyNorOrigin(rs[k])
    requires forall k :: 0 <= k < |ps| ==> NeitherCopyNorOrigin(ps[k])
    ensures Instructions.Copies([OriginOffset(offsetX, offsetY)] + PanelSection(copies) + rs + ps) == copies
    ensures Instructions.Origins([OriginOffset(offsetX, offsetY)] + PanelSection(copies) + rs + ps) == [(offsetX, offsetY)]
  {
    var origin, panels := [OriginOffset(offsetX, offsetY)], PanelSection(copies);
    NoCopiesNoOrigins(rs);
    NoCopiesNoOrigins(ps);
    PanelCopies(copies);
    OriginReadsBack(offsetX, offsetY);
    var a := origin + panels;
    Instructions.CopiesAppend(origin, panels);
    Instructions.OriginsAppend(origin, panels);
    assert Instructions.Copies(a) == copies && Instructions.Origins(a) == [(offsetX, offsetY)];
    Instructions.CopiesAppend(a, rs);
    Instructions.OriginsAppend(a, rs);
    assert Instructions.Copies(a + rs) == copies && Instructions.Origins(a + rs) == [(offsetX, offsetY)];
    Instructions.CopiesAppend(a + rs, ps);
    Instructions.OriginsAppend(a + rs, ps);
  }

  /** The origin record alone reports its own offset and no copy. */
  lemma OriginReadsBack(offsetX: Dec, offsetY: Dec)
    requires IsCanonical(offsetX) && IsCanonical(offsetY)
    ensures Instructions.Copies([OriginOffset(offsetX, offsetY)]) == []
    ensures Instructions.Origins([OriginOffset(offsetX, offsetY)]) == [(offsetX, offsetY)]
  {
    var origin := [OriginOffset(offsetX, offsetY)];
    assert origin[..0] == [];
    RepresentCanonical(offsetX);
    RepresentCanonical(offsetY);
  }

  /**
   * Reading the generated records back: get_copies returns the placement's copies and the
   * global offset, read as intended, is the placement's offset, when these were rounded already
   * (as from_instructions leaves them).
   */
  lemma GenerateReadsBack(offsetX: Dec, offsetY: Dec, copies: seq<(Dec, Dec)>,
                          reels: map<int, ReelValue>, parts: map<int, seq<PartValue>>, out: seq<Instruction>)
    requires Generate(offsetX, offsetY, copies, reels, parts) == Success(out)
    requires IsCanonical(offsetX) && IsCanonical(offsetY)
    requires forall i :: 0 <= i < |copies| ==> IsCanonical(copies[i].0) && IsCanonical(copies[i].1)
    ensures Instructions.Copies(out) == copies
    ensures Instructions.IntendedGlobalOffset(out) == Success((offsetX, offsetY))
  {
    GenerateSplit(offsetX, offsetY, copies, reels, parts);
    var keys := SortedKeys(reels.Keys);
    var all := AllParts(SortedKeys(parts.Keys), parts);
    var rs := ReelSection(keys, reels).value;
    var ps := PartSection(all, reels).value;
    assert out == [OriginOffset(offsetX, offsetY)] + PanelSection(copies) + rs + ps;
    ReelRecordsPlain(keys, reels);
    PartRecordsPlain(all, reels, ps);
    HeadReadsBack(offsetX, offsetY, copies, rs, ps);
  }

  // ---------------------------------------------------------------- one step of each loop

  /** Each copy adds its panel record at the end. */
  lemma PanelStep(copies: seq<(Dec, Dec)>, i: nat)
    requires i < |copies|
    ensures PanelSection(copies[..i + 1]) == PanelSection(copies[..i]) + [PanelizedBoard(copies[i].0, copies[i].1, false)]
  {
  }

  /**
   * After reels that all succeeded, the next reel either adds its two records to the section or
   * decides the outcome of the whole section with its exception.
   */
  lemma ReelSectionStep(keys: seq<int>, reels: map<int, ReelValue>, k: nat)
    requires forall i :: 0 <= i < |keys| ==> keys[i] in reels
    requires k < |keys| && ReelSection(keys[..k], reels).Success?
    ensures ReelRecords(reels[keys[k]]).Success? ==>
      ReelSection(keys[..k + 1], reels) == Success(ReelSection(keys[..k], reels).value + ReelRecords(reels[keys[k]]).value)
    ensures ReelRecords(reels[keys[k]]).Failure? ==> ReelSection(keys, reels) == Failure(ReelRecords(reels[keys[k]]).error)
  {
    var a := ReelResults(keys[..k], reels);
    var rec := ReelRecords(reels[keys[k]]);
    assert ReelResults(keys[..k + 1], reels) == a + [rec];
    Instructions.CollectOne(rec);
    Instructions.CollectAppend(a, [rec]);
    if rec.Success? {
      var groups := Instructions.Collect(a).value;
      assert (groups + [rec.value])[..|groups|] == groups;
    } else {
      var all := ReelResults(keys, reels);
      var b := all[k..];
      assert all == a + b;
      assert b[0] == rec;
      Instructions.CollectAppend(a, b);
    }
  }

  /** After results that all succeeded, the next one is appended or its failure is the outcome. */
  lemma CollectStep<T>(rs: seq<Result<T>>, i: nat)
    requires i < |rs| && Instructions.Collect(rs[..i]).Success?
    ensures rs[i].Success? ==> Instructions.Collect(rs[..i + 1]) == Success(Instructions.Collect(rs[..i]).value + [rs[i].value])
    ensures rs[i].Failure? ==> Instructions.Collect(rs) == Failure(rs[i].error)
  {
    assert rs[..i + 1] == rs[..i] + [rs[i]];
    Instructions.CollectOne(rs[i]);
    Instructions.CollectAppend(rs[..i], [rs[i]]);
    if rs[i].Failure? {
      assert rs == rs[..i] + rs[i..];
      Instructions.CollectAppend(rs[..i], rs[i..]);
    }
  }

  /**
   * After parts that all succeeded, the next part either adds its record to the section or
   * decides the outcome of the whole section with its exception.
   */
  lemma PartSectionStep(all: seq<PartValue>, reels: map<int, ReelValue>, i: nat)
    requires i < |all| && PartSection(all[..i], reels).Success?
    ensures PartRecord(i + 1, all[i], reels).Success? ==>
      PartSection(all[..i + 1], reels) == Success(PartSection(all[..i], reels).value + [PartRecord(i + 1, all[i], reels).value])
    ensures PartRecord(i + 1, all[i], reels).Failure? ==> PartSection(all, reels) == Failure(PartRecord(i + 1, all[i], reels).error)
  {
    PartResultsPrefix(all, reels, i);
    PartResultsPrefix(all, reels, i + 1);
    CollectStep(PartResults(all, reels), i);
  }

  /** Numbering does not depend on what follows: a prefix's records are the prefix of the records. */
  lemma PartResultsPrefix(all: seq<PartValue>, reels: map<int, ReelValue>, i: nat)
    requires i <= |all|
    ensures PartResults(all[..i], reels) == PartResults(all, reels)[..i]
  {
  }

  /** The next slot adds its whole list to all_parts. */
  lemma AllPartsStep(keys: seq<int>, parts: map<int, seq<PartValue>>, k: nat)
    requires forall i :: 0 <= i < |keys| ==> keys[i] in parts
    requires k < |keys|
    ensures AllParts(keys[..k + 1], parts) == AllParts(keys[..k], parts) + parts[keys[k]]
    ensures Misfiled(keys[..k + 1], parts) == Misfiled(keys[..k], parts) + MisfiledIn(keys[k], parts[keys[k]])
  {
    assert keys[..k + 1][..k] == keys[..k];
  }

  /** The next part of a list adds one warning when it is not on the list's slot. */
  lemma MisfiledInStep(key: int, ps: seq<PartValue>, j: nat)
    requires j < |ps|
    ensures MisfiledIn(key, ps[..j + 1]) == MisfiledIn(key, ps[..j]) + (if ps[j].reel != Some(key) then [key] else [])
  {
    assert ps[..j + 1][..j] == ps[..j];
  }
}
