/** UTF-8 decoding as `String::from_utf8` does it: the well-formed byte
    sequences of the Unicode Standard (Table 3-7), each giving one scalar
    value; anything else makes the whole conversion fail. */
module Utf8 {
  import opened Wrappers
  import opened Words

  predicate IsContinuation(b: u8)
  {
    0x80 <= b <= 0xBF
  }

  /** The length of the well-formed sequence that starts s, or 0 if s does
      not start with one. */
  function SequenceLength(s: seq<u8>): (n: nat)
    requires |s| > 0
    ensures n <= 4 && n <= |s|
  {
    var b0 := s[0];
    if b0 <= 0x7F then 1
    else if 0xC2 <= b0 <= 0xDF then
      if |s| >= 2 && IsContinuation(s[1]) then 2 else 0
    else if 0xE0 <= b0 <= 0xEF then
      var lo := if b0 == 0xE0 then 0xA0 else 0x80;
      var hi := if b0 == 0xED then 0x9F else 0xBF;
      if |s| >= 3 && lo <= s[1] <= hi && IsContinuation(s[2]) then 3 else 0
    else if 0xF0 <= b0 <= 0xF4 then
      var lo := if b0 == 0xF0 then 0x90 else 0x80;
      var hi := if b0 == 0xF4 then 0x8F else 0xBF;
      if |s| >= 4 && lo <= s[1] <= hi && IsContinuation(s[2]) && IsContinuation(s[3]) then 4 else 0
    else 0
  }

  /** The scalar value a well-formed sequence encodes. */
  function ScalarValue(s: seq<u8>): char
    requires |s| > 0 && SequenceLength(s) > 0
  {
    var n := SequenceLength(s);
    var b0: int := s[0];
    if n == 1 then b0 as char
    else
      var b1: int := s[1];
      if n == 2 then ((b0 - 0xC0) * 0x40 + (b1 - 0x80)) as char
      else
        var b2: int := s[2];
        if n == 3 then ((b0 - 0xE0) * 0x1000 + (b1 - 0x80) * 0x40 + (b2 - 0x80)) as char
        else
          var b3: int := s[3];
          ((b0 - 0xF0) * 0x4_0000 + (b1 - 0x80) * 0x1000 + (b2 - 0x80) * 0x40 + (b3 - 0x80)) as char
  }

  /** The text the bytes encode, or None if they are not well-formed UTF-8. */
  function Decode(s: seq<u8>): Option<string>
    decreases |s|
  {
    if s == [] then Some([])
    else
      var n := SequenceLength(s);
      if n == 0 then None
      else match Decode(s[n..])
        case None => None
        case Some(rest) => Some([ScalarValue(s)] + rest)
  }

  /** ASCII bytes decode one to one into the same characters. */
  lemma {:induction false} AsciiDecodes(s: seq<u8>)
    requires forall i :: 0 <= i < |s| ==> s[i] <= 0x7F
    ensures Decode(s).Some? && |Decode(s).value| == |s|
    ensures forall i :: 0 <= i < |s| ==> Decode(s).value[i] == s[i] as char
  {
    if s != [] {
      AsciiDecodes(s[1..]);
    }
  }

  /** A continuation byte cannot start a character, nor can the overlong
      leads 0xC0 and 0xC1 or the leads above 0xF4; an encoded surrogate is
      rejected too. */
  lemma IllFormedRejected(b: u8, rest: seq<u8>)
    ensures (0x80 <= b <= 0xC1 || b >= 0xF5) ==> Decode([b] + rest) == None
    ensures Decode([0xED, 0xA0, 0x80] + rest) == None
  {
  }
}
