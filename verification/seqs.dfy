/** Sequence helpers, and the byte type, shared by the other modules. */
module Seqs {

  /** A byte, as the decoder's `u8` samples and the WAV bytes sent to the
      server. */
  type U8 = x: int | 0 <= x < 256

  /** Flattens a sequence of sequences, in order. */
  function Concat<T>(parts: seq<seq<T>>): seq<T>
    decreases |parts|
  {
    if |parts| == 0 then [] else Concat(parts[..|parts| - 1]) + parts[|parts| - 1]
  }

  /** Flattening from the front agrees with the definition from the back. */
  lemma {:induction false} ConcatCons<T>(first: seq<T>, rest: seq<seq<T>>)
    ensures Concat([first] + rest) == first + Concat(rest)
    decreases |rest|
  {
    var parts := [first] + rest;
    if |rest| > 0 {
      var n := |rest|;
      assert parts[..|parts| - 1] == [first] + rest[..n - 1];
      ConcatCons(first, rest[..n - 1]);
    } else {
      assert parts[..0] == [];
    }
  }

  lemma AppendAssoc<T>(a: seq<T>, b: seq<T>, c: seq<T>)
    ensures a + (b + c) == (a + b) + c
  {
  }

  /** `n` zeros. */
  function Zeros(n: nat): (z: seq<real>)
    ensures |z| == n && forall i | 0 <= i < n :: z[i] == 0.0
  {
    seq(n, _ => 0.0)
  }
}
