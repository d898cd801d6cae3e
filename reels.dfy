/** A feeder slot's settings (tm2x0/reel.py): where its parts are picked up and how they sit on it. */
module Reels {
  import opened Wrappers
  import opened Decimals
  import opened Numerals
  import Text

  /**
   * A reel's fields at one moment, as plain data; None stands for Python's None. The
   * placement's specifications are stated over these values.
   */
  datatype ReelValue = ReelValue(reelNumber: int, stackX: Option<Dec>, stackY: Option<Dec>,
                                 feedSpacing: Option<Dec>, height: Option<Dec>,
                                 comment: Option<string>, rotation: int)

  /** The settings of a reel made with only its number: height 0, no extra rotation, nothing else set. */
  function DefaultReel(reelNumber: int): ReelValue {
    ReelValue(reelNumber, None, None, None, Some(Dec(false, 0, 0)), None, 0)
  }

  /** repr(): "<Reel n>". */
  function ReelRepr(reelNumber: int): string {
    "<Reel " + IntToString(reelNumber) + ">"
  }

  class Reel {
    var reelNumber: int
    var stackX: Option<Dec>
    var stackY: Option<Dec>
    var feedSpacing: Option<Dec>
    var height: Option<Dec>
    var comment: Option<string>
    var rotation: int

    /** Every argument is stored unchanged in the field of the same name. */
    constructor (reelNumber: int, stackX: Option<Dec> := None, stackY: Option<Dec> := None,
                 feedSpacing: Option<Dec> := None, height: Option<Dec> := Some(Dec(false, 0, 0)),
                 comment: Option<string> := None, rotation: int := 0)
      ensures Value() == ReelValue(reelNumber, stackX, stackY, feedSpacing, height, comment, rotation)
    {
      this.reelNumber := reelNumber;
      this.stackX := stackX;
      this.stackY := stackY;
      this.feedSpacing := feedSpacing;
      this.height := height;
      this.comment := comment;
      this.rotation := rotation;
    }

    function Value(): ReelValue
      reads this
    {
      ReelValue(reelNumber, stackX, stackY, feedSpacing, height, comment, rotation)
    }

    function Repr(): string
      reads this
    {
      ReelRepr(reelNumber)
    }
  }

  /** The repr names the reel, and its number can be read back from it. */
  lemma ReelReprReadsBack(n: int)
    ensures Text.StartsWith(ReelRepr(n), "<Reel ") && Text.EndsWith(ReelRepr(n), ">")
    ensures ParseInt(ReelRepr(n)[6..|ReelRepr(n)| - 1]) == Success(n)
  {
    var s := ReelRepr(n);
    assert s == "<Reel " + (IntToString(n) + ">");
    assert s[..6] == "<Reel ";
    assert s[6..|s| - 1] == IntToString(n);
    ParseIntToString(n);
  }
}
