/**
 * One component to place (tm2x0/partplacement.py): where it goes, how it is turned, and the reel
 * it is taken from once it has been assigned to one.
 */
module PartPlacements {
  import opened Wrappers
  import opened Decimals
  import Text

  /**
   * A part's fields at one moment, as plain data; None stands for Python's None. x and y are
   * the texts str() gives for the coordinates, which is all generate_instructions reads of them.
   */
  datatype PartValue = PartValue(reel: Option<int>, reference: string, value: Option<string>,
                                 footprint: Option<string>, x: string, y: string,
                                 height: Option<Dec>, rotation: int, comment: Option<string>,
                                 head: int)

  /** str() of an optional text: the text, or "None". */
  function OptionText(s: Option<string>): string {
    if s.Some? then s.value else "None"
  }

  /** True when Python treats the optional text as true: present and not empty. */
  predicate Truthy(s: Option<string>) {
    s.Some? && s.value != ""
  }

  /** repr(): "<footprint @ value>", or "<footprint>" when the value is missing or empty. */
  function PartRepr(footprint: Option<string>, value: Option<string>): string {
    "<" + OptionText(footprint) + (if Truthy(value) then " @ " + value.value + ">" else ">")
  }

  class PartPlacement {
    var reel: Option<int>
    var reference: string
    var value: Option<string>
    var footprint: Option<string>
    var x: string
    var y: string
    var height: Option<Dec>
    var rotation: int
    var comment: Option<string>
    var head: int

    /** Every argument is stored unchanged; a new part is on no reel unless one is given. */
    constructor (reference: string, x: string, y: string, rotation: int := 0,
                 height: Option<Dec> := None, footprint: Option<string> := None,
                 value: Option<string> := None, comment: Option<string> := None,
                 reel: Option<int> := None, head: int := 1)
      ensures Value() == PartValue(reel, reference, value, footprint, x, y, height, rotation, comment, head)
    {
      this.reel := reel;
      this.reference := reference;
      this.value := value;
      this.footprint := footprint;
      this.x := x;
      this.y := y;
      this.height := height;
      this.rotation := rotation;
      this.comment := comment;
      this.head := head;
    }

    function Value(): PartValue
      reads this
    {
      PartValue(reel, reference, value, footprint, x, y, height, rotation, comment, head)
    }

    function Repr(): string
      reads this
    {
      PartRepr(footprint, value)
    }
  }

  /**
   * The repr opens with "<" and the footprint; it names the value after " @ " exactly when the
   * value is non-empty, and is just "<footprint>" otherwise.
   */
  lemma PartReprCases(footprint: Option<string>, value: Option<string>)
    ensures Text.StartsWith(PartRepr(footprint, value), "<" + OptionText(footprint))
    ensures Truthy(value) ==> Text.EndsWith(PartRepr(footprint, value), " @ " + value.value + ">")
    ensures !Truthy(value) ==> PartRepr(footprint, value) == "<" + OptionText(footprint) + ">"
    ensures |PartRepr(footprint, value)| == |OptionText(footprint)| + 2 + (if Truthy(value) then 3 + |value.value| else 0)
  {
    var front := "<" + OptionText(footprint);
    var back := if Truthy(value) then " @ " + value.value + ">" else ">";
    assert PartRepr(footprint, value) == front + back;
    Text.StartsWithAppend(front, back);
    assert (front + back)[|front|..] == back;
  }

  // ---------------------------------------------------------------- lists of parts

  /** The values of a list of parts, in order. */
  function Values(ps: seq<PartPlacement>): (r: seq<PartValue>)
    reads set p | p in ps
    ensures |r| == |ps|
  {
    seq(|ps|, i requires 0 <= i < |ps| reads set p | p in ps => ps[i].Value())
  }

  lemma ValuesAppend(ps: seq<PartPlacement>, p: PartPlacement)
    ensures Values(ps + [p]) == Values(ps) + [p.Value()]
  {
  }

  /** Values of a list whose objects the step did not touch are what they were. */
  twostate lemma ValuesKept(ps: seq<PartPlacement>)
    requires unchanged(set p | p in ps)
    ensures Values(ps) == old(Values(ps))
  {
  }
}
