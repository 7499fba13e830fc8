/**
 * The two reads the descriptor locator makes through protobuf's
 * `CodedInputStream` over a window of the blob: `readRawVarint32` and
 * `readTag`. Both follow the Protocol Buffers wire format: base-128 varints,
 * least significant group first, at most ten bytes.
 */
module Varint {
  import opened Bytes

  /**
   * A base-128 varint of at most `budget` bytes at the start of `w`: its
   * unbounded value and its size in bytes, or `None` when the window ends
   * first (truncated) or the budget runs out (malformed).
   */
  function DecodeBounded(w: seq<byte>, budget: nat): (r: Option<(nat, nat)>)
    ensures r.Some? ==> 1 <= r.value.1 <= budget && r.value.1 <= |w|
  {
    if budget == 0 || |w| == 0 then None
    else if w[0] < 128 then Some((w[0] as nat, 1))
    else
      match DecodeBounded(w[1..], budget - 1)
      case None => None
      case Some((v, n)) => Some(((w[0] - 128) as nat + 128 * v, n + 1))
  }

  /** Two's-complement reading of the low 32 bits of `v`, as Java's `(int)` cast. */
  function Int32(v: int): (r: int)
    ensures -0x8000_0000 <= r < 0x8000_0000
  {
    var low := v % 0x1_0000_0000;
    if low < 0x8000_0000 then low else low - 0x1_0000_0000
  }

  /** The cast keeps `v` modulo 2^32. */
  lemma Int32Congruent(v: int)
    ensures (Int32(v) - v) % 0x1_0000_0000 == 0
  {
  }

  /**
   * `readRawVarint32` on the window `w`: up to ten bytes are consumed (the
   * upper five only to skip the rest of a 64-bit varint), the value is cut to
   * its low 32 bits as a signed int, and a window that ends early or a tenth
   * byte that still has its continuation bit set is an error.
   */
  function ReadRawVarint32(w: seq<byte>): (r: Option<(int, nat)>)
    ensures r.Some? ==> 1 <= r.value.1 <= 10 && r.value.1 <= |w|
  {
    match DecodeBounded(w, 10)
    case None => None
    case Some((v, n)) => Some((Int32(v), n))
  }

  /** Field number of a tag: the tag read as an unsigned 32-bit value, shifted right by three. */
  function TagFieldNumber(tag: int): nat
  {
    (tag % 0x1_0000_0000) / 8
  }

  /**
   * `readTag` on the window `w`: 0 at the end of the window, otherwise a
   * varint that must name a field number other than 0.
   */
  function ReadTag(w: seq<byte>): (r: Option<int>)
  {
    if |w| == 0 then Some(0)
    else
      match ReadRawVarint32(w)
      case None => None
      case Some((tag, _)) => if TagFieldNumber(tag) == 0 then None else Some(tag)
  }

  /** A tag read from a non-empty window never has field number 0. */
  lemma ReadTagFieldNonZero(w: seq<byte>)
    ensures ReadTag(w).Some? && |w| > 0 ==> TagFieldNumber(ReadTag(w).value) != 0
  {
  }

  /** The varint encoding of `n`, the inverse of the reader. */
  function Encode(n: nat): (e: seq<byte>)
    ensures 1 <= |e|
    decreases n
  {
    if n < 128 then [n as byte] else [(n % 128 + 128) as byte] + Encode(n / 128)
  }

  /** A value below 128^k encodes in at most k bytes. */
  lemma {:induction false} EncodeSize(n: nat, k: nat)
    requires k >= 1 && n < Pow128(k)
    ensures |Encode(n)| <= k
    decreases k
  {
    if n >= 128 {
      assert Pow128(1) == 128;
      EncodeSize(n / 128, k - 1);
    }
  }

  function Pow128(k: nat): nat
  {
    if k == 0 then 1 else 128 * Pow128(k - 1)
  }

  /** Reading back an encoding, whatever follows it, yields the value and the encoding's size. */
  lemma {:induction false} DecodeEncode(n: nat, rest: seq<byte>, budget: nat)
    requires |Encode(n)| <= budget
    ensures DecodeBounded(Encode(n) + rest, budget) == Some((n, |Encode(n)|))
    decreases n
  {
    var w := Encode(n) + rest;
    if n >= 128 {
      DecodeEncode(n / 128, rest, budget - 1);
      assert w[1..] == Encode(n / 128) + rest;
    }
  }

  /**
   * The round trip the locator relies on: a length between 0 and 2^31 - 1
   * written as a varint is read back by `readRawVarint32` with its size, and
   * bytes after it are not read.
   */
  lemma ReadEncoded(n: nat, rest: seq<byte>)
    requires n < 0x8000_0000
    ensures ReadRawVarint32(Encode(n) + rest) == Some((n, |Encode(n)|))
    ensures |Encode(n)| <= 5
  {
    assert Pow128(5) == 0x8_0000_0000;
    EncodeSize(n, 5);
    DecodeEncode(n, rest, 10);
  }

  /**
   * Reading back a written tag, whatever follows it: a tag below 8 names
   * field 0 and is rejected, any other tag below 2^31 is read unchanged.
   */
  lemma ReadTagEncoded(tag: nat, rest: seq<byte>)
    requires tag < 0x8000_0000
    ensures ReadTag(Encode(tag) + rest) == if tag < 8 then None else Some(tag)
  {
    ReadEncoded(tag, rest);
  }

  /** The tag of field 1 with wire type 2 (length-delimited) is 10 and is one byte long. */
  lemma NameTag()
    ensures Encode(1 * 8 + 2) == [10]
    ensures ReadTag([10]) == Some(10)
    ensures TagFieldNumber(10) == 1 && 10 % 8 == 2
  {
  }
}
