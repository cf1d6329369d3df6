/**
 * The length-prefixed framing of the client TCP connection (server/conn.go):
 * a frame is the body's length as a 4-byte big-endian int32 followed by the
 * body. The protobuf body is opaque bytes here.
 */
module Framing {
  import opened Wire

  const Two32: int := 0x1_0000_0000
  const Two31: int := 0x8000_0000

  /** The 4 big-endian bytes of a 32-bit word. */
  function Be32(w: int): (b: Bytes)
    requires 0 <= w < Two32
    ensures |b| == 4
  {
    var q1 := w / 0x100;
    var q2 := q1 / 0x100;
    [q2 / 0x100, q2 % 0x100, q1 % 0x100, w % 0x100]
  }

  /** The 32-bit word of 4 big-endian bytes. */
  function Word(b: Bytes): (w: int)
    requires |b| == 4
    ensures 0 <= w < Two32
  {
    ((b[0] as int * 0x100 + b[1] as int) * 0x100 + b[2] as int) * 0x100 + b[3] as int
  }

  lemma WordBe32(w: int)
    requires 0 <= w < Two32
    ensures Word(Be32(w)) == w
  {
    var q1 := w / 0x100;
    var q2 := q1 / 0x100;
    assert w == q1 * 0x100 + w % 0x100;
    assert q1 == q2 * 0x100 + q1 % 0x100;
    assert q2 == (q2 / 0x100) * 0x100 + q2 % 0x100;
  }

  /** Go's `int32(n)`: the low 32 bits of `n` read as a two's-complement number. */
  function Int32(n: int): (v: int)
    requires n >= 0
    ensures -Two31 <= v < Two31
    ensures (v - n) % Two32 == 0
    ensures n < Two31 ==> v == n
  {
    var low := n % Two32;
    if low < Two31 then low else low - Two32
  }

  /** The 32-bit word that stores the int32 `v` (its two's-complement bits). */
  function Bits(v: int): (w: int)
    requires -Two31 <= v < Two31
    ensures 0 <= w < Two32
  {
    if v < 0 then v + Two32 else v
  }

  /** The int32 that the word `w` stores. */
  function Signed(w: int): (v: int)
    requires 0 <= w < Two32
    ensures -Two31 <= v < Two31
    ensures Bits(v) == w
  {
    if w < Two31 then w else w - Two32
  }

  /** `write`'s output for a marshalled body: the header `int32(len(body))`, big-endian, then the body. */
  function Frame(body: Bytes): (f: Bytes)
    ensures |f| == 4 + |body| && f[4..] == body
  {
    Be32(Bits(Int32(|body|))) + body
  }

  /**
   * Why `read` failed: the stream ended before any byte (`io.EOF`), ended
   * inside the header or the body (`io.ErrUnexpectedEOF`), or the size was
   * negative, which makes the source's `make` panic.
   */
  datatype ReadError = EOF | UnexpectedEOF | NegativeSize

  /** The outcome of `read` on a stream, with what remains of the stream. */
  datatype ReadOutcome = Body(body: Bytes, rest: Bytes) | Failed(error: ReadError, rest: Bytes)

  /**
   * `read` without the decoding step: read the int32 size with
   * `binary.Read`, then exactly that many bytes with `io.ReadFull`.
   * `io.ReadFull` reports `io.EOF` when it got no byte at all and
   * `io.ErrUnexpectedEOF` when it got some but not all.
   */
  function ReadFrame(s: Bytes): (r: ReadOutcome)
    ensures |s| < 4 ==> r == Failed(if |s| == 0 then EOF else UnexpectedEOF, [])
    ensures |s| >= 4 ==> (r.Body? <==> 0 <= HeaderSize(s) <= |s| - 4)
    ensures r.Body? ==> |s| >= 4 && |r.body| == HeaderSize(s) && s == s[..4] + r.body + r.rest
    ensures |s| >= 4 && HeaderSize(s) < 0 ==> r == Failed(NegativeSize, s[4..])
    ensures |s| >= 4 && HeaderSize(s) > |s| - 4 ==> r == Failed(if |s| == 4 then EOF else UnexpectedEOF, [])
    ensures |r.rest| < |s| || (s == [] && r == Failed(EOF, []))
  {
    if |s| == 0 then Failed(EOF, [])
    else if |s| < 4 then Failed(UnexpectedEOF, [])
    else
      var size := HeaderSize(s);
      var tail := s[4..];
      if size < 0 then Failed(NegativeSize, tail)
      else if size == 0 then Body([], tail)
      else if |tail| == 0 then Failed(EOF, [])
      else if |tail| < size then Failed(UnexpectedEOF, [])
      else
        assert s == s[..4] + tail[..size] + tail[size..];
        Body(tail[..size], tail[size..])
  }

  /** The length a frame's header announces: its first four bytes, big-endian, as an `int32`. */
  function HeaderSize(s: Bytes): int
    requires |s| >= 4
  {
    Signed(Word(s[..4]))
  }

  /**
   * Round trip: reading the frame `write` produces for a body shorter than
   * 2^31 bytes gives back exactly that body and consumes exactly that frame.
   */
  lemma ReadWrite(body: Bytes, rest: Bytes)
    requires |body| < Two31
    ensures ReadFrame(Frame(body) + rest) == Body(body, rest)
  {
    var s := Frame(body) + rest;
    WordBe32(|body|);
    assert s[..4] == Be32(|body|);
    assert s[4..] == body + rest;
    assert (body + rest)[..|body|] == body;
    assert (body + rest)[|body|..] == rest;
  }

  /**
   * A body of 2^31 bytes or more gets a header that does not hold its
   * length: with exactly 2^31 bytes the header reads as a negative size.
   */
  lemma LongBodyHeaderNegative(body: Bytes, rest: Bytes)
    requires |body| == Two31
    ensures ReadFrame(Frame(body) + rest).Failed?
    ensures ReadFrame(Frame(body) + rest).error == NegativeSize
  {
    var s := Frame(body) + rest;
    WordBe32(Two31);
    assert s[..4] == Be32(Two31);
  }
}
