/** The byte iterator the chunk readers pull from: an owned buffer and a
    forward-only position. Once exhausted it keeps answering None. */
module Cursor {
  import opened Wrappers
  import opened Words

  class ByteCursor {
    const data: seq<u8>
    var pos: nat

    ghost predicate Valid()
      reads this
    {
      pos <= |data|
    }

    /** The bytes not yet pulled. */
    ghost function Remaining(): seq<u8>
      reads this
      requires Valid()
    {
      data[pos..]
    }

    constructor (bytes: seq<u8>)
      ensures Valid() && data == bytes && pos == 0
    {
      data := bytes;
      pos := 0;
    }

    /** `Iterator::next`: the next byte, or None at the end without moving. */
    method Next() returns (b: Option<u8>)
      requires Valid()
      modifies this
      ensures Valid()
      ensures old(pos) < |data| ==> b == Some(data[old(pos)]) && pos == old(pos) + 1
      ensures old(pos) == |data| ==> b == None && pos == old(pos)
    {
      if pos < |data| {
        b := Some(data[pos]);
        pos := pos + 1;
      } else {
        b := None;
      }
    }
  }
}
