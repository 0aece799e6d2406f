/**
 * Bytes: the byte type, an Option type and the ASCII character classes
 * that the AT command front end and the DER reader share.
 */
module Bytes {

  /** An unsigned 8-bit value, as stored in the firmware's uint8_t buffers. */
  newtype byte = x: int | 0 <= x < 0x100

  /** 2^32: uint32_t arithmetic in the firmware wraps modulo this value. */
  const UINT32_MODULUS: int := 0x1_0000_0000

  datatype Option<T> = None | Some(value: T)

  /**
   * The byte at index i of a buffer. The firmware's scanners read the
   * buffer without a bound; an index outside the buffer reads as 0 here,
   * a byte that ends every scan.
   */
  function At(buf: seq<byte>, i: int): byte
  {
    if 0 <= i < |buf| then buf[i] else 0
  }

  // ASCII codes used by the command syntax
  const LF: byte := 0x0A
  const CR: byte := 0x0D
  const SPACE: byte := 0x20
  const QUOTE: byte := 0x22
  const COMMA: byte := 0x2C
  const DOT: byte := 0x2E
  const COLON: byte := 0x3A
  const EQUALS: byte := 0x3D
  const QUESTION: byte := 0x3F
  const BACKSLASH: byte := 0x5C
  const DIGIT_ZERO: byte := 0x30

  predicate IsDigit(b: byte)
  {
    0x30 <= b <= 0x39
  }

  /** Arduino's isAlpha: an ASCII letter. */
  predicate IsAlpha(b: byte)
  {
    (0x41 <= b <= 0x5A) || (0x61 <= b <= 0x7A)
  }

  /** C's isxdigit: a decimal digit or a letter a-f / A-F. */
  predicate IsXDigit(b: byte)
  {
    IsDigit(b) || (0x41 <= b <= 0x46) || (0x61 <= b <= 0x66)
  }

  /** The ASCII encoding of a text whose characters are all below 0x100. */
  function Ascii(s: string): (r: seq<byte>)
    requires forall i :: 0 <= i < |s| ==> s[i] as int < 0x100
    ensures |r| == |s|
    ensures forall i :: 0 <= i < |s| ==> r[i] as int == s[i] as int
  {
    if s == [] then [] else [s[0] as int as byte] + Ascii(s[1..])
  }

  /** Appending the head of t and then its tail appends t. */
  lemma AppendHead<T>(acc: seq<T>, t: seq<T>)
    requires t != []
    ensures acc + [t[0]] + t[1..] == acc + t
  {
    assert [t[0]] + t[1..] == t;
  }

  /** A prefix one longer is the prefix and the next element. */
  lemma PrefixSnoc<T>(s: seq<T>, i: nat)
    requires i < |s|
    ensures s[..i + 1] == s[..i] + [s[i]]
  {
  }

  lemma AppendEmpty<T>(acc: seq<T>, t: seq<T>)
    requires acc == [] || t == []
    ensures acc + t == if acc == [] then t else acc
  {
  }

  /** buf holds the text t at off, byte by byte. */
  ghost predicate HoldsAt(buf: seq<byte>, off: nat, t: seq<byte>)
  {
    off + |t| <= |buf| && forall k :: 0 <= k < |t| ==> At(buf, off + k) == t[k]
  }

  lemma HoldsAtIndex(buf: seq<byte>, off: nat, t: seq<byte>, k: nat)
    requires HoldsAt(buf, off, t) && k < |t|
    ensures At(buf, off + k) == t[k]
  {
  }

  lemma HoldsAtSplit(buf: seq<byte>, off: nat, t: seq<byte>, u: seq<byte>)
    requires HoldsAt(buf, off, t + u)
    ensures HoldsAt(buf, off, t) && HoldsAt(buf, off + |t|, u)
  {
    forall k | 0 <= k < |t| ensures At(buf, off + k) == t[k] {
      assert (t + u)[k] == t[k];
    }
    forall k | 0 <= k < |u| ensures At(buf, off + |t| + k) == u[k] {
      assert (t + u)[|t| + k] == u[k];
    }
  }

  lemma HoldsAtByte(buf: seq<byte>, off: nat, b: byte)
    requires HoldsAt(buf, off, [b])
    ensures At(buf, off) == b
  {
    HoldsAtIndex(buf, off, [b], 0);
  }

  /** A buffer holds its own suffix. */
  lemma HoldsAtSuffix(buf: seq<byte>, off: nat)
    requires off <= |buf|
    ensures HoldsAt(buf, off, buf[off..])
  {
  }

  /** What a buffer holds at an offset is the slice there. */
  lemma HoldsAtSlice(buf: seq<byte>, off: nat, t: seq<byte>)
    requires HoldsAt(buf, off, t)
    ensures off + |t| <= |buf| && buf[off..off + |t|] == t
  {
    forall k | 0 <= k < |t|
      ensures buf[off..off + |t|][k] == t[k]
    {
      HoldsAtIndex(buf, off, t, k);
    }
  }
}
