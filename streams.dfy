/**
 * The three output files of a compile run: two append-only text streams and
 * one seekable byte stream (a file behind a `BufWriter`, where a seek flushes
 * the buffer and moves the file cursor).
 */
module Streams {
  import opened Wrappers

  type Byte = x: int | 0 <= x < 256

  /** A text output that is only ever appended to. */
  class TextStream {
    var text: string

    /** A freshly created (truncated) file. */
    constructor ()
      ensures text == []
    {
      text := [];
    }

    method WriteAll(s: string)
      modifies this
      ensures text == old(text) + s
    {
      text := text + s;
    }
  }

  /** Target of a seek: from the start, relative to the cursor, or from the end. */
  datatype SeekFrom = Start(offset: nat) | Current(delta: int) | End(delta: int)

  /** Seeking to a position before byte 0 is refused. */
  datatype IoError = InvalidSeek

  function SeekTarget(from: SeekFrom, pos: nat, len: nat): int
  {
    match from
    case Start(offset) => offset
    case Current(delta) => pos + delta
    case End(delta) => len + delta
  }

  function Max(a: int, b: int): int { if a < b then b else a }

  function ZeroBytes(n: nat): (z: seq<Byte>)
    ensures |z| == n && forall k :: 0 <= k < n ==> z[k] == 0
  {
    seq(n, _ => 0)
  }

  /** The file contents after writing `d` at offset `at`: bytes under the write
      are replaced, a gap between the old end and `at` reads as zeros, and the
      rest is kept. Writing nothing leaves the file as it was, even past its end. */
  function Overwrite(b: seq<Byte>, at: nat, d: seq<Byte>): (r: seq<Byte>)
    ensures d == [] ==> r == b
    ensures d != [] ==> |r| == Max(|b|, at + |d|)
    ensures forall k :: 0 <= k < |d| ==> r[at + k] == d[k]
    ensures forall k :: 0 <= k < |b| && (k < at || at + |d| <= k) ==> r[k] == b[k]
    ensures d != [] ==> forall k :: |b| <= k < at ==> r[k] == 0
  {
    if d == [] then b
    else
      var filled := if at > |b| then b + ZeroBytes(at - |b|) else b;
      filled[..at] + d + (if at + |d| < |filled| then filled[at + |d|..] else [])
  }

  /** A byte output file with a cursor that can be moved past the end. */
  class ByteStream {
    var bytes: seq<Byte>
    var pos: nat

    /** A freshly created (truncated) file. */
    constructor ()
      ensures bytes == [] && pos == 0
    {
      bytes, pos := [], 0;
    }

    /** Writes `d` at the cursor and advances the cursor past it. */
    method WriteAll(d: seq<Byte>)
      modifies this
      ensures bytes == Overwrite(old(bytes), old(pos), d)
      ensures pos == old(pos) + |d|
    {
      bytes := Overwrite(bytes, pos, d);
      pos := pos + |d|;
    }

    /** Moves the cursor and returns its new position; the contents do not change. */
    method Seek(from: SeekFrom) returns (r: Result<nat, IoError>)
      modifies this`pos
      ensures var t := SeekTarget(from, old(pos), |bytes|);
        if t >= 0 then r == Ok(t) && pos == t else r == Err(InvalidSeek) && pos == old(pos)
    {
      var t := SeekTarget(from, pos, |bytes|);
      if t >= 0 {
        pos := t;
        r := Ok(t);
      } else {
        r := Err(InvalidSeek);
      }
    }
  }

  // ---------------------------------------------------------------------------
  // Little-endian integers (`u64::to_le_bytes`)
  // ---------------------------------------------------------------------------

  function Pow256(width: nat): (p: nat)
    ensures p >= 1
  {
    if width == 0 then 1 else 256 * Pow256(width - 1)
  }

  /** The `width` low-order bytes of `n`, least significant first. */
  function EncodeLE(n: nat, width: nat): (r: seq<Byte>)
    ensures |r| == width
  {
    if width == 0 then [] else [n % 256] + EncodeLE(n / 256, width - 1)
  }

  /** The number a little-endian byte string denotes. */
  function DecodeLE(b: seq<Byte>): nat
  {
    if b == [] then 0 else b[0] + 256 * DecodeLE(b[1..])
  }

  /** The eight bytes Rust's `u64::to_le_bytes` produces. */
  function U64LE(n: nat): seq<Byte>
  {
    EncodeLE(n, 8)
  }

  /** Decoding an encoding gives back every number that fits in the width. */
  lemma {:induction false} DecodeEncode(n: nat, width: nat)
    requires n < Pow256(width)
    ensures DecodeLE(EncodeLE(n, width)) == n
    decreases width
  {
    if width > 0 {
      var e := EncodeLE(n, width);
      assert e[1..] == EncodeLE(n / 256, width - 1);
      assert n / 256 < Pow256(width - 1);
      DecodeEncode(n / 256, width - 1);
    }
  }

  /** Every byte string is the encoding of the number it denotes, and that number fits. */
  lemma {:induction false} EncodeDecode(b: seq<Byte>)
    ensures DecodeLE(b) < Pow256(|b|)
    ensures EncodeLE(DecodeLE(b), |b|) == b
    decreases |b|
  {
    if b != [] {
      var rest := DecodeLE(b[1..]);
      EncodeDecode(b[1..]);
      var n := b[0] + 256 * rest;
      assert n % 256 == b[0] && n / 256 == rest;
      assert b == [b[0]] + b[1..];
    }
  }
}
