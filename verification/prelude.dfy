/**
  The byte codec `BytesPassthrough` used by the client's socket layer, and
  the `basic_usage` unit test of `BitMatrix`, replayed on the model.
*/
module Prelude {
  import opened Common
  import opened Bitmap

  /**
    `BytesPassthrough::encode`: the bytes unchanged. Its error type is
    `Infallible`, so the model has no error branch.
  */
  function Encode(v: seq<bv8>): (r: seq<bv8>)
    ensures r == v
  {
    v
  }

  /** `BytesPassthrough::decode`: the slice copied into a vector. */
  function Decode(s: seq<bv8>): (r: seq<bv8>)
    ensures r == s
  {
    s
  }

  /** Decoding an encoding, or encoding a decoding, changes nothing. */
  lemma PassthroughRoundTrip(v: seq<bv8>)
    ensures Decode(Encode(v)) == v
    ensures Encode(Decode(v)) == v
  {
  }

  /**
    The `basic_usage` test: a fresh 4 x 3 matrix, one bit set at (2, 1),
    out-of-bounds reads and writes refused, then cleared, after which
    (0, 2) can still be written. (The test calls a
    `set_to_one` that `BitMatrix` does not have; its comment and the count
    it expects afterwards say it means `clear`.)
  */
  lemma BasicUsage()
    ensures var m0 := New(4, 3, false);
      && Dimensions(m0) == (4, 3)
      && CountOnes(m0) == 0
      && Get(m0, 2, 1) == Some(false)
      && var (m1, wrote) := Set(m0, 2, 1, true);
      && wrote
      && Get(m1, 2, 1) == Some(true)
      && CountOnes(m1) == 1
      && Get(m1, 10, 10) == None
      && var (m2, wroteOutside) := Set(m1, 10, 0, true);
      && !wroteOutside
      && CountOnes(Clear(m2)) == 0
      && Set(Clear(m2), 0, 2, true).1
  {
    var m0 := New(4, 3, false);
    CountNewFalse(4, 3);
    CountAfterSet(m0, 2, 1, true);
  }
}
