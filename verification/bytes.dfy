// Byte strings, and lists of them.

module Bytes {

  predicate AreBytes(s: seq<nat>) { forall i :: 0 <= i < |s| ==> s[i] < 256 }

  /** Any number of pieces, one after the other. */
  function Concat(pieces: seq<seq<nat>>): seq<nat> {
    if pieces == [] then [] else pieces[0] + Concat(pieces[1..])
  }
}
