/** Bytes, and words in the byte order of the bus, least significant byte first. */
module Bytes {

  type byte = b: int | 0 <= b < 256

  function Zeros(n: nat): (z: seq<byte>)
    ensures |z| == n && forall i :: 0 <= i < n ==> z[i] == 0
  {
    seq(n, i => 0)
  }

  function Low(w: nat): byte { w % 256 }
  function High(w: nat): byte { w / 256 % 256 }

  function Le16(n: nat): seq<byte>
  {
    [Low(n), High(n)]
  }

  /** The word at `i`. */
  function Word(b: seq<byte>, i: nat): (w: nat)
    requires i + 2 <= |b|
    ensures w < 0x1_0000
  {
    b[i] as int + 256 * b[i + 1] as int
  }

  lemma {:induction false} WordRoundTrip(w: nat)
    requires w < 0x1_0000
    ensures Low(w) as int + 256 * High(w) as int == w
  {
  }

  function Min(a: nat, b: nat): nat
  {
    if a > b then b else a
  }

  // ----- Buffers -----

  /** The buffer with `data` from `at` on. */
  function Overwrite(buf: seq<byte>, at: nat, data: seq<byte>): (r: seq<byte>)
    requires at + |data| <= |buf|
    ensures |r| == |buf|
  {
    buf[..at] + data + buf[at + |data|..]
  }

  method CopyTo(buf: array<byte>, at: nat, data: seq<byte>)
    requires at + |data| <= buf.Length
    modifies buf
    ensures buf[..] == Overwrite(old(buf[..]), at, data)
    ensures buf[..at + |data|] == old(buf[..at]) + data
  {
    forall i | 0 <= i < |data| {
      buf[at + i] := data[i];
    }
  }
}
