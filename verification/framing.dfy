/** Length-prefixed framing, shared by the signed commands (`u64` prefixes) and the
    associated data of a state snapshot (`u32` prefixes). */
module Framing {
  import opened Bytes

  /** One part behind its length. A length that does not fit the prefix saturates. */
  function Frame(width: nat, part: Blob): Blob {
    BigEndian(if |part| < Pow256(width) then |part| else Pow256(width) - 1, width) + part
  }

  function Frames(width: nat, parts: seq<Blob>): Blob {
    if parts == [] then [] else Frame(width, parts[0]) + Frames(width, parts[1..])
  }

  /** Every part is short enough for its prefix, as every Rust slice is for a `u64`. */
  ghost predicate Fits(width: nat, parts: seq<Blob>) {
    forall i :: 0 <= i < |parts| ==> |parts[i]| < Pow256(width)
  }

  /** A parser for the framing: `None` when a prefix is cut short or promises too much. */
  function Unframe(width: nat, encoded: Blob): Option<seq<Blob>>
    requires width > 0
    decreases |encoded|
  {
    if encoded == [] then Some([])
    else if |encoded| < width then None
    else
      var length := FromBigEndian(encoded[..width]);
      if |encoded| - width < length then None
      else
        match Unframe(width, encoded[width + length..])
        case None => None
        case Some(rest) => Some([encoded[width..width + length]] + rest)
  }

  lemma {:induction false} UnframeUndoesFrames(width: nat, parts: seq<Blob>)
    requires width > 0 && Fits(width, parts)
    ensures Unframe(width, Frames(width, parts)) == Some(parts)
  {
    if parts == [] {
    } else {
      var part, rest := parts[0], Frames(width, parts[1..]);
      var encoded := Frames(width, parts);
      assert |part| < Pow256(width);
      BigEndianRoundTrip(|part|, width);
      assert encoded[..width] == BigEndian(|part|, width);
      assert encoded[width..width + |part|] == part;
      assert encoded[width + |part|..] == rest;
      UnframeUndoesFrames(width, parts[1..]);
      assert [part] + parts[1..] == parts;
    }
  }

  lemma FramesInjective(width: nat, a: seq<Blob>, b: seq<Blob>)
    requires width > 0 && Fits(width, a) && Fits(width, b)
    requires Frames(width, a) == Frames(width, b)
    ensures a == b
  {
    UnframeUndoesFrames(width, a);
    UnframeUndoesFrames(width, b);
  }

  lemma {:induction false} FramesAppend(width: nat, parts: seq<Blob>, part: Blob)
    ensures Frames(width, parts + [part]) == Frames(width, parts) + Frame(width, part)
  {
    if parts == [] {
      assert Frames(width, [part][1..]) == [];
    } else {
      assert (parts + [part])[1..] == parts[1..] + [part];
      FramesAppend(width, parts[1..], part);
    }
  }
}
