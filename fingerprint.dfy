/**
 * Fingerprint: the parser of the SHA-1 certificate fingerprint that
 * AT+CIPSSLFP stores (ESP_ATMod/command.cpp:2779-2808). The fingerprint is
 * twenty bytes written as forty hexadecimal digits, either packed or with
 * a colon between bytes, between double quotes that open at offset 12 of
 * the command line.
 */
module Fingerprint {
  import opened Bytes
  import opened Scanners

  /** The size of a SHA-1 digest. */
  const FINGERPRINT_LENGTH: nat := 20

  /** Where the first hex digit stands: just past AT+CIPSSLFP=" */
  const FINGERPRINT_OFFSET: nat := 13

  /** Where the parse loop stops: the byte index reached, the offset and the bytes read. */
  datatype FpState = FpState(i: nat, offset: nat, fp: seq<byte>)

  /** The byte two hex digits spell: readHex(hi) << 4 | readHex(lo). */
  function HexByte(hi: byte, lo: byte): (b: byte)
    requires IsXDigit(hi) && IsXDigit(lo)
    ensures b as int / 16 == ReadHex(hi) as int && b as int % 16 == ReadHex(lo) as int
  {
    (ReadHex(hi) as int * 16 + ReadHex(lo) as int) as byte
  }

  /**
   * The parse loop from byte i on. It stops at the first pair that is not
   * two hex digits and, when colons separate the bytes, at a missing colon
   * after any byte but the last; the byte before the missing colon is read
   * and the colon position skipped, but the index does not advance.
   */
  function FingerprintLoop(buf: seq<byte>, off: nat, i: nat, colons: bool, fp: seq<byte>): (r: FpState)
    requires i <= FINGERPRINT_LENGTH && |fp| == i
    ensures r.i <= FINGERPRINT_LENGTH
    ensures r.i == FINGERPRINT_LENGTH ==> |r.fp| == FINGERPRINT_LENGTH
    decreases FINGERPRINT_LENGTH - i
  {
    if i == FINGERPRINT_LENGTH then FpState(i, off, fp)
    else if !IsXDigit(At(buf, off)) || !IsXDigit(At(buf, off + 1)) then FpState(i, off, fp)
    else
      var fp' := fp + [HexByte(At(buf, off), At(buf, off + 1))];
      if i < FINGERPRINT_LENGTH - 1 && colons then
        if At(buf, off + 2) != COLON then FpState(i, off + 3, fp')
        else FingerprintLoop(buf, off + 3, i + 1, colons, fp')
      else FingerprintLoop(buf, off + 2, i + 1, colons, fp')
  }

  /** The set form of AT+CIPSSLFP: the twenty bytes when all of them and the closing quote are there. */
  function FingerprintScan(buf: seq<byte>, colons: bool): (r: Option<seq<byte>>)
    ensures r.Some? ==> |r.value| == FINGERPRINT_LENGTH
  {
    var s := FingerprintLoop(buf, FINGERPRINT_OFFSET, 0, colons, []);
    if s.i == FINGERPRINT_LENGTH && At(buf, s.offset) == QUOTE then Some(s.fp) else None
  }

  /**
   * The parse of command.cpp:2781-2797 into a local array of twenty bytes;
   * colons is the line-length test inputBufferCnt == 75.
   */
  method ParseFingerprint(inputBuffer: array<byte>, colons: bool) returns (fp: Option<seq<byte>>)
    ensures fp == FingerprintScan(inputBuffer[..], colons)
  {
    ghost var buf := inputBuffer[..];
    var bytes := new byte[FINGERPRINT_LENGTH];
    var offset := FINGERPRINT_OFFSET;
    var i := 0;
    ghost var loop := FingerprintLoop(buf, offset, 0, colons, []);
    while i < FINGERPRINT_LENGTH
      invariant i <= FINGERPRINT_LENGTH
      invariant FingerprintLoop(buf, offset, i, colons, bytes[..i]) == loop
      decreases FINGERPRINT_LENGTH - i
    {
      var hi, lo := At(inputBuffer[..], offset), At(inputBuffer[..], offset + 1);
      if !IsXDigit(hi) || !IsXDigit(lo) {
        FingerprintLoopStops(buf, offset, i, colons, bytes[..i]);
        break;
      }
      ghost var before, from := bytes[..i], offset;
      bytes[i] := HexByte(hi, lo);
      PrefixSnoc(bytes[..], i);
      offset := offset + 2;
      if i < FINGERPRINT_LENGTH - 1 && colons {
        var sep := At(inputBuffer[..], offset);
        offset := offset + 1;
        if sep != COLON {
          FingerprintLoopMissesColon(buf, from, i, colons, before, HexByte(hi, lo));
          break;
        }
      }
      FingerprintLoopStep(buf, from, i, colons, before, HexByte(hi, lo));
      i := i + 1;
    }
    assert (loop.i == FINGERPRINT_LENGTH) == (i == FINGERPRINT_LENGTH);
    if i == FINGERPRINT_LENGTH && At(inputBuffer[..], offset) == QUOTE {
      assert bytes[..i] == bytes[..];
      fp := Some(bytes[..]);
    } else {
      fp := None;
    }
  }

  /** A byte as two lower-case hex digits, as %02x prints it. */
  function HexPair(b: byte): seq<byte>
  {
    [HexDigit(b as int / 16), HexDigit(b as int % 16)]
  }

  /** The fingerprint as the query form prints it (with colons) or packed. */
  function FingerprintText(fp: seq<byte>, colons: bool): seq<byte>
    requires |fp| >= 1
  {
    if |fp| == 1 then HexPair(fp[0])
    else HexPair(fp[0]) + (if colons then [COLON] else []) + FingerprintText(fp[1..], colons)
  }

  /**
   * The text of twenty bytes is 40 digits packed and 59 with colons: with
   * the 13 bytes before it, the closing quote and CR LF, the line lengths
   * 56 and 75 that the set form tests.
   */
  lemma {:induction false} FingerprintTextLength(fp: seq<byte>, colons: bool)
    requires |fp| >= 1
    ensures |FingerprintText(fp, colons)| == 2 * |fp| + (if colons then |fp| - 1 else 0)
    decreases |fp|
  {
    if |fp| > 1 {
      FingerprintTextLength(fp[1..], colons);
    }
  }

  /** The width of one byte in the text: two digits, and a colon unless it is the last. */
  function PairWidth(more: bool, colons: bool): nat
  {
    if more && colons then 3 else 2
  }

  /** The two digits of a byte read back as that byte. */
  lemma HexByteOfPair(b: byte)
    ensures IsXDigit(HexPair(b)[0]) && IsXDigit(HexPair(b)[1]) && HexByte(HexPair(b)[0], HexPair(b)[1]) == b
  {
  }

  /** The text of fp at off: its first byte's two digits, the colon, then the text of the rest. */
  lemma FingerprintTextHead(buf: seq<byte>, off: nat, fp: seq<byte>, colons: bool)
    requires |fp| >= 1 && HoldsAt(buf, off, FingerprintText(fp, colons))
    ensures IsXDigit(At(buf, off)) && IsXDigit(At(buf, off + 1)) && HexByte(At(buf, off), At(buf, off + 1)) == fp[0]
    ensures |fp| > 1 && colons ==> At(buf, off + 2) == COLON
    ensures |fp| == 1 ==> |FingerprintText(fp, colons)| == 2
    ensures |fp| > 1 ==> HoldsAt(buf, off + PairWidth(true, colons), FingerprintText(fp[1..], colons))
    ensures |fp| > 1 ==> |FingerprintText(fp, colons)| == PairWidth(true, colons) + |FingerprintText(fp[1..], colons)|
  {
    var pair := HexPair(fp[0]);
    HexByteOfPair(fp[0]);
    if |fp| > 1 {
      var sep: seq<byte> := if colons then [COLON] else [];
      HoldsAtSplit(buf, off, pair + sep, FingerprintText(fp[1..], colons));
      HoldsAtSplit(buf, off, pair, sep);
      if colons {
        HoldsAtByte(buf, off + 2, COLON);
      }
    }
    HoldsAtIndex(buf, off, pair, 0);
    HoldsAtIndex(buf, off, pair, 1);
  }

  /** A pair that is not two hex digits ends the parse loop where it stands. */
  lemma FingerprintLoopStops(buf: seq<byte>, off: nat, i: nat, colons: bool, acc: seq<byte>)
    requires i < FINGERPRINT_LENGTH && |acc| == i
    requires !IsXDigit(At(buf, off)) || !IsXDigit(At(buf, off + 1))
    ensures FingerprintLoop(buf, off, i, colons, acc) == FpState(i, off, acc)
  {
  }

  /** A missing colon ends the parse loop after the byte before it, with the index not advanced. */
  lemma FingerprintLoopMissesColon(buf: seq<byte>, off: nat, i: nat, colons: bool, acc: seq<byte>, b: byte)
    requires i < FINGERPRINT_LENGTH - 1 && colons && |acc| == i
    requires IsXDigit(At(buf, off)) && IsXDigit(At(buf, off + 1)) && HexByte(At(buf, off), At(buf, off + 1)) == b
    requires At(buf, off + 2) != COLON
    ensures FingerprintLoop(buf, off, i, colons, acc) == FpState(i, off + 3, acc + [b])
  {
  }

  /** One turn of the parse loop over a byte's two digits and, when colons are in use, its colon. */
  lemma FingerprintLoopStep(buf: seq<byte>, off: nat, i: nat, colons: bool, acc: seq<byte>, b: byte)
    requires i < FINGERPRINT_LENGTH && |acc| == i
    requires IsXDigit(At(buf, off)) && IsXDigit(At(buf, off + 1)) && HexByte(At(buf, off), At(buf, off + 1)) == b
    requires i < FINGERPRINT_LENGTH - 1 && colons ==> At(buf, off + 2) == COLON
    ensures FingerprintLoop(buf, off, i, colons, acc)
         == FingerprintLoop(buf, off + PairWidth(i < FINGERPRINT_LENGTH - 1, colons), i + 1, colons, acc + [b])
  {
  }

  /** The parse loop reads back the text of the bytes still to come. */
  lemma {:induction false} FingerprintLoopOfText(buf: seq<byte>, off: nat, i: nat, colons: bool, acc: seq<byte>, fp: seq<byte>)
    requires |fp| >= 1 && i + |fp| == FINGERPRINT_LENGTH && |acc| == i
    requires HoldsAt(buf, off, FingerprintText(fp, colons))
    ensures FingerprintLoop(buf, off, i, colons, acc)
         == FpState(FINGERPRINT_LENGTH, off + |FingerprintText(fp, colons)|, acc + fp)
    decreases |fp|
  {
    FingerprintTextHead(buf, off, fp, colons);
    FingerprintLoopStep(buf, off, i, colons, acc, fp[0]);
    if |fp| == 1 {
      assert acc + [fp[0]] == acc + fp;
    } else {
      var w := PairWidth(true, colons);
      AppendHead(acc, fp);
      FingerprintLoopOfText(buf, off + w, i + 1, colons, acc + [fp[0]], fp[1..]);
    }
  }

  /**
   * Round trip: the fingerprint as the query form prints it, or packed,
   * set again between double quotes, parses back to the same twenty bytes.
   */
  lemma FingerprintRoundTrip(buf: seq<byte>, fp: seq<byte>, colons: bool)
    requires |fp| == FINGERPRINT_LENGTH
    requires HoldsAt(buf, FINGERPRINT_OFFSET, FingerprintText(fp, colons) + [QUOTE])
    ensures FingerprintScan(buf, colons) == Some(fp)
  {
    var t := FingerprintText(fp, colons);
    HoldsAtSplit(buf, FINGERPRINT_OFFSET, t, [QUOTE]);
    HoldsAtByte(buf, FINGERPRINT_OFFSET + |t|, QUOTE);
    FingerprintLoopOfText(buf, FINGERPRINT_OFFSET, 0, colons, [], fp);
    AppendEmpty([], fp);
  }
}
