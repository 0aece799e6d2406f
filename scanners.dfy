/**
 * Scanners: the cursor-based readers of the AT command front end
 * (readNumber, readIpAddress, readStringFromBuffer, readHex in
 * ESP_ATMod/command.cpp). Each reader takes the buffer and an in/out
 * offset; here the offset comes in as a parameter and goes out as a
 * result. Every reader is specified by a function over the buffer's
 * contents, and the properties the firmware relies on are lemmas about
 * those functions.
 */
module Scanners {
  import opened Bytes

  /** What a scanner leaves behind: success, the new offset, the value read. */
  datatype Scanned<T> = Scanned(ok: bool, next: nat, value: T)

  // ---------------------------------------------------------------------------
  // readNumber

  /** The length of the run of ASCII digits that starts at off: maximal by construction. */
  function DigitRun(buf: seq<byte>, off: nat): (n: nat)
    ensures !IsDigit(At(buf, off + n))
    ensures n > 0 ==> off + n <= |buf|
    decreases |buf| - off
  {
    if IsDigit(At(buf, off)) then 1 + DigitRun(buf, off + 1) else 0
  }

  function DigitValue(b: byte): int
    requires IsDigit(b)
  {
    b as int - 0x30
  }

  /** All n bytes from off are digits. */
  ghost predicate AllDigits(buf: seq<byte>, off: nat, n: nat)
  {
    forall k :: off <= k < off + n ==> IsDigit(At(buf, k))
  }

  /**
   * The uint32_t value readNumber accumulates from the n digits at off:
   * out = out * 10 + digit, each step modulo 2^32.
   */
  function WrappedDecimal(buf: seq<byte>, off: nat, n: nat): (v: int)
    ensures 0 <= v < UINT32_MODULUS
  {
    if n == 0 then 0
    else (WrappedDecimal(buf, off, n - 1) * 10 + (At(buf, off + n - 1) as int - 0x30)) % UINT32_MODULUS
  }

  /** The number the n digits at off denote, without any wrap-around. */
  function Decimal(buf: seq<byte>, off: nat, n: nat): (v: nat)
    requires AllDigits(buf, off, n)
  {
    if n == 0 then 0 else Decimal(buf, off, n - 1) * 10 + DigitValue(At(buf, off + n - 1))
  }

  /** readNumber as a function of the buffer: value is the new output. */
  function NumberScan(buf: seq<byte>, off: nat, output: int): (r: Scanned<int>)
  {
    var n := DigitRun(buf, off);
    if n == 0 then Scanned(false, off, output) else Scanned(true, off + n, WrappedDecimal(buf, off, n))
  }

  /**
   * readNumber (command.cpp:3276-3291): consumes the maximal digit run at
   * offset. It succeeds iff there is at least one digit; then the offset is
   * past the run and the output is the run's value modulo 2^32; otherwise
   * neither the offset nor the output changes.
   */
  method ReadNumber(inpBuf: array<byte>, offset: nat, output: int) returns (ret: bool, offset': nat, output': int)
    ensures Scanned(ret, offset', output') == NumberScan(inpBuf[..], offset, output)
  {
    ghost var buf := inpBuf[..];
    ret := false;
    var out := 0;
    offset' := offset;
    while offset' < inpBuf.Length && IsDigit(inpBuf[offset'])
      invariant offset <= offset'
      invariant DigitRun(buf, offset) == (offset' - offset) + DigitRun(buf, offset')
      invariant ret <==> offset' > offset
      invariant out == WrappedDecimal(buf, offset, offset' - offset)
      decreases inpBuf.Length - offset'
    {
      out := (out * 10 + (inpBuf[offset'] as int - 0x30)) % UINT32_MODULUS;
      offset' := offset' + 1;
      ret := true;
    }
    output' := if ret then out else output;
  }

  /**
   * What readNumber promises: it succeeds exactly when a digit stands at
   * off, then stops at the first non-digit with the run's wrapped value;
   * otherwise it leaves the offset and the output as they were.
   */
  lemma NumberScanConsumesRun(buf: seq<byte>, off: nat, output: int)
    ensures NumberScan(buf, off, output).ok <==> IsDigit(At(buf, off))
    ensures !IsDigit(At(buf, NumberScan(buf, off, output).next))
    ensures NumberScan(buf, off, output).ok ==> AllDigits(buf, off, NumberScan(buf, off, output).next - off)
    ensures NumberScan(buf, off, output).ok ==> NumberScan(buf, off, output).value
                                                == WrappedDecimal(buf, off, NumberScan(buf, off, output).next - off)
    ensures !NumberScan(buf, off, output).ok ==> NumberScan(buf, off, output) == Scanned(false, off, output)
  {
    DigitRunDigits(buf, off);
  }

  lemma ModuloStep(a: nat, d: nat)
    ensures ((a % UINT32_MODULUS) * 10 + d) % UINT32_MODULUS == (a * 10 + d) % UINT32_MODULUS
  {
    var q := a / UINT32_MODULUS;
    var r := a % UINT32_MODULUS;
    assert a == q * UINT32_MODULUS + r;
    assert a * 10 + d == (r * 10 + d) + (q * 10) * UINT32_MODULUS;
  }

  /** The wrap-around is exactly reduction of the true decimal value modulo 2^32. */
  lemma {:induction false} WrappedIsDecimalModulo(buf: seq<byte>, off: nat, n: nat)
    requires AllDigits(buf, off, n)
    ensures WrappedDecimal(buf, off, n) == Decimal(buf, off, n) % UINT32_MODULUS
  {
    if n > 0 {
      WrappedIsDecimalModulo(buf, off, n - 1);
      ModuloStep(Decimal(buf, off, n - 1), DigitValue(At(buf, off + n - 1)));
    }
  }

  /** The decimal text of n, without leading zeros: what the firmware prints with %d. */
  function DecimalText(n: nat): (s: seq<byte>)
    ensures |s| > 0
    ensures forall k :: 0 <= k < |s| ==> IsDigit(s[k])
  {
    if n < 10 then [(0x30 + n) as byte] else DecimalText(n / 10) + [(0x30 + n % 10) as byte]
  }

  /** The run DigitRun measures is made of digits only. */
  lemma {:induction false} DigitRunDigits(buf: seq<byte>, off: nat)
    ensures AllDigits(buf, off, DigitRun(buf, off))
    decreases |buf| - off
  {
    if IsDigit(At(buf, off)) {
      DigitRunDigits(buf, off + 1);
    }
  }

  lemma {:induction false} DigitRunOfDigits(buf: seq<byte>, off: nat, n: nat)
    requires AllDigits(buf, off, n)
    requires !IsDigit(At(buf, off + n))
    ensures DigitRun(buf, off) == n
    decreases n
  {
    if n > 0 {
      assert IsDigit(At(buf, off));
      DigitRunOfDigits(buf, off + 1, n - 1);
    }
  }

  lemma {:induction false} DecimalOfText(buf: seq<byte>, off: nat, n: nat)
    requires HoldsAt(buf, off, DecimalText(n))
    ensures AllDigits(buf, off, |DecimalText(n)|)
    ensures Decimal(buf, off, |DecimalText(n)|) == n
  {
    var t := DecimalText(n);
    forall k | off <= k < off + |t| ensures IsDigit(At(buf, k)) {
      HoldsAtIndex(buf, off, t, k - off);
    }
    HoldsAtIndex(buf, off, t, |t| - 1);
    if n >= 10 {
      var u := DecimalText(n / 10);
      HoldsAtSplit(buf, off, u, [(0x30 + n % 10) as byte]);
      DecimalOfText(buf, off, n / 10);
    }
  }

  /**
   * Round trip: reading back the decimal text of n, followed by a non-digit,
   * consumes exactly that text and yields n modulo 2^32.
   */
  lemma NumberScanOfDecimalText(buf: seq<byte>, off: nat, n: nat, output: int)
    requires HoldsAt(buf, off, DecimalText(n))
    requires !IsDigit(At(buf, off + |DecimalText(n)|))
    ensures NumberScan(buf, off, output) == Scanned(true, off + |DecimalText(n)|, n % UINT32_MODULUS)
    ensures n < UINT32_MODULUS ==> NumberScan(buf, off, output).value == n
  {
    var m := |DecimalText(n)|;
    DecimalOfText(buf, off, n);
    NumberScanOfRun(buf, off, m, output);
    WrappedIsDecimalModulo(buf, off, m);
  }

  /** readNumber over a run of m > 0 digits: the run is consumed and its wrapped value read. */
  lemma NumberScanOfRun(buf: seq<byte>, off: nat, m: nat, output: int)
    requires m > 0 && AllDigits(buf, off, m) && !IsDigit(At(buf, off + m))
    ensures NumberScan(buf, off, output) == Scanned(true, off + m, WrappedDecimal(buf, off, m))
  {
    DigitRunOfDigits(buf, off, m);
  }

  /** The uint32_t wrap of readNumber: the decimal text of 2^32 + 1 reads as 1. */
  lemma NumberScanWrapsExample()
    ensures NumberScan(DecimalText(UINT32_MODULUS + 1), 0, 0).value == 1
  {
    var t := DecimalText(UINT32_MODULUS + 1);
    HoldsAtSuffix(t, 0);
    assert t[0..] == t;
    NumberScanOfDecimalText(t, 0, UINT32_MODULUS + 1, 0);
  }

  // ---------------------------------------------------------------------------
  // readIpAddress

  /**
   * The octet loop of readIpAddress, with the octets read so far: an octet
   * is a digit run of value at most 255, and octets are separated by dots.
   * ok when the fourth octet is read; value lists the octets taken in.
   */
  function OctetLoop(buf: seq<byte>, off: nat, octets: seq<int>): (r: Scanned<seq<int>>)
    requires |octets| < 4
    ensures r.ok ==> |r.value| == 4
    decreases 4 - |octets|
  {
    var n := NumberScan(buf, off, 0);
    if !n.ok || n.value > 255 then Scanned(false, n.next, octets)
    else if |octets| == 3 then Scanned(true, n.next, octets + [n.value])
    else if At(buf, n.next) != DOT then Scanned(false, n.next, octets + [n.value])
    else OctetLoop(buf, n.next + 1, octets + [n.value])
  }

  /**
   * The word readIpAddress packs from a list of octets: each is shifted in
   * from the top, out = (out >> 8) | (octet << 24). For octets below 256 the
   * two parts never overlap, so the bitwise or is a sum.
   */
  function ShiftIn(octets: seq<int>): int
  {
    if octets == [] then 0 else ShiftIn(octets[..|octets| - 1]) / 0x100 + octets[|octets| - 1] * 0x100_0000
  }

  /** Shifting in one more octet. */
  lemma ShiftInSnoc(octets: seq<int>, x: int)
    ensures ShiftIn(octets + [x]) == ShiftIn(octets) / 0x100 + x * 0x100_0000
  {
    assert (octets + [x])[..|octets|] == octets;
  }

  /** readIpAddress as a function of the buffer: value is the new output. */
  function IpAddressScan(buf: seq<byte>, off: nat, output: int): Scanned<int>
  {
    if At(buf, off) != QUOTE then Scanned(false, off, output)
    else
      var r := OctetLoop(buf, off + 1, []);
      if At(buf, r.next) != QUOTE then Scanned(false, r.next, output)
      else if r.ok then Scanned(true, r.next + 1, ShiftIn(r.value))
      else Scanned(false, r.next + 1, output)
  }

  /** An octet that is missing or above 255 ends the loop in failure. */
  lemma OctetLoopStops(buf: seq<byte>, off: nat, octets: seq<int>, ok: bool, next: nat, octet: int)
    requires |octets| < 4 && Scanned(ok, next, octet) == NumberScan(buf, off, 0)
    requires !ok || octet > 255
    ensures OctetLoop(buf, off, octets) == Scanned(false, next, octets)
  {
  }

  /** The fourth octet ends the loop in success. */
  lemma OctetLoopLast(buf: seq<byte>, off: nat, octets: seq<int>, next: nat, x: int)
    requires |octets| == 3 && x <= 255 && NumberScan(buf, off, 0) == Scanned(true, next, x)
    ensures OctetLoop(buf, off, octets) == Scanned(true, next, octets + [x])
  {
  }

  /** An earlier octet not followed by a dot ends the loop in failure. */
  lemma OctetLoopNoDot(buf: seq<byte>, off: nat, octets: seq<int>, next: nat, x: int)
    requires |octets| < 3 && x <= 255 && NumberScan(buf, off, 0) == Scanned(true, next, x)
    requires At(buf, next) != DOT
    ensures OctetLoop(buf, off, octets) == Scanned(false, next, octets + [x])
  {
  }

  lemma OctetLoopContinues(buf: seq<byte>, off: nat, octets: seq<int>, next: nat, x: int)
    requires |octets| < 3 && x <= 255
    requires NumberScan(buf, off, 0) == Scanned(true, next, x) && At(buf, next) == DOT
    ensures OctetLoop(buf, off, octets) == OctetLoop(buf, next + 1, octets + [x])
  {
  }

  /**
   * The for loop of readIpAddress (command.cpp:3307-3323): up to four
   * octets separated by dots. ret is the loop's success, offset' the offset
   * it leaves and out the word packed so far.
   */
  method ReadOctets(inpBuf: array<byte>, offset: nat) returns (ret: bool, offset': nat, out: int)
    ensures ret == OctetLoop(inpBuf[..], offset, []).ok && offset' == OctetLoop(inpBuf[..], offset, []).next
    ensures out == ShiftIn(OctetLoop(inpBuf[..], offset, []).value)
  {
    ghost var buf := inpBuf[..];
    ghost var result := OctetLoop(buf, offset, []);
    ghost var octets: seq<int> := [];
    offset' := offset;
    ret := false;
    out := 0;
    var i := 1;
    while true
      invariant i == |octets| + 1 <= 4
      invariant !ret && out == ShiftIn(octets)
      invariant OctetLoop(buf, offset', octets) == result
      decreases 4 - |octets|
    {
      ghost var here := offset';
      var okNum, next, octet := ReadNumber(inpBuf, offset', 0);
      if !okNum || octet > 255 {
        OctetLoopStops(buf, here, octets, okNum, next, octet);
        offset' := next;
        break;
      }
      offset' := next;
      ShiftInSnoc(octets, octet);
      out := out / 0x100 + octet * 0x100_0000;
      if i == 4 {
        OctetLoopLast(buf, here, octets, next, octet);
        octets := octets + [octet];
        ret := true;
        break;
      } else if At(inpBuf[..], offset') != DOT {
        OctetLoopNoDot(buf, here, octets, next, octet);
        octets := octets + [octet];
        break;
      }
      OctetLoopContinues(buf, here, octets, next, octet);
      octets := octets + [octet];
      offset' := offset' + 1;
      i := i + 1;
    }
  }

  /**
   * readIpAddress (command.cpp:3297-3334): a quoted dotted quad of octets
   * of at most 255. The output is written only on success; without an
   * opening quote the offset does not move, and the closing quote is
   * checked, and consumed, even after a failed octet.
   */
  method ReadIpAddress(inpBuf: array<byte>, offset: nat, output: int) returns (ret: bool, offset': nat, output': int)
    ensures Scanned(ret, offset', output') == IpAddressScan(inpBuf[..], offset, output)
  {
    ret, offset', output' := false, offset, output;
    if At(inpBuf[..], offset) != QUOTE {
      return;
    }
    var out;
    ret, offset', out := ReadOctets(inpBuf, offset + 1);
    if At(inpBuf[..], offset') != QUOTE {
      ret := false;
      return;
    }
    offset' := offset' + 1;
    if ret {
      output' := out;
    }
  }

  /** The decimal texts of the octets, joined by dots. */
  function DottedText(xs: seq<nat>): seq<byte>
    requires |xs| >= 1
  {
    if |xs| == 1 then DecimalText(xs[0]) else DecimalText(xs[0]) + [DOT] + DottedText(xs[1..])
  }

  /** The quoted dotted-quad text of an address, as "a.b.c.d". */
  function IpText(a: nat, b: nat, c: nat, d: nat): seq<byte>
  {
    [QUOTE] + DottedText([a, b, c, d]) + [QUOTE]
  }

  /** a | b << 8 | c << 16 | d << 24: the first octet lands in the low byte. */
  function PackIp(a: nat, b: nat, c: nat, d: nat): int
  {
    a + b * 0x100 + c * 0x1_0000 + d * 0x100_0000
  }

  /** Shifting four octets in from the top leaves the first in the low byte. */
  lemma ShiftInFour(a: nat, b: nat, c: nat, d: nat)
    requires a <= 255 && b <= 255 && c <= 255 && d <= 255
    ensures ShiftIn([a, b, c, d]) == PackIp(a, b, c, d)
  {
    assert [a, b, c, d][..3] == [a, b, c];
    assert [a, b, c][..2] == [a, b];
    assert [a, b][..1] == [a];
    assert [a][..0] == [];
    assert ShiftIn([a]) == a * 0x100_0000;
    assert ShiftIn([a, b]) == a * 0x1_0000 + b * 0x100_0000;
    assert ShiftIn([a, b, c]) == a * 0x100 + b * 0x1_0000 + c * 0x100_0000;
  }

  lemma DottedTextSplit(xs: seq<nat>)
    requires |xs| >= 2
    ensures DottedText(xs) + [QUOTE] == (DecimalText(xs[0]) + [DOT]) + (DottedText(xs[1..]) + [QUOTE])
    ensures |DottedText(xs)| == |DecimalText(xs[0])| + 1 + |DottedText(xs[1..])|
  {
  }

  /**
   * The octets xs stand at off as readNumber sees them: each is read back
   * with a value of at most 255, followed by a dot, and the last by the
   * closing quote.
   */
  ghost predicate OctetsAt(buf: seq<byte>, off: nat, xs: seq<int>)
    decreases |xs|
  {
    var n := NumberScan(buf, off, 0);
    |xs| >= 1 && n.ok && n.value == xs[0] && xs[0] <= 255 &&
    if |xs| == 1 then At(buf, n.next) == QUOTE
    else At(buf, n.next) == DOT && OctetsAt(buf, n.next + 1, xs[1..])
  }

  /** Where the last of the octets xs at off ends. */
  ghost function OctetsEnd(buf: seq<byte>, off: nat, xs: seq<int>): nat
    requires |xs| >= 1
    decreases |xs|
  {
    var n := NumberScan(buf, off, 0);
    if |xs| == 1 then n.next else OctetsEnd(buf, n.next + 1, xs[1..])
  }

  /** The dotted text of the octets, up to the closing quote, stands for them. */
  lemma {:induction false} OctetsOfText(buf: seq<byte>, off: nat, xs: seq<nat>)
    requires |xs| >= 1
    requires forall k :: 0 <= k < |xs| ==> xs[k] <= 255
    requires HoldsAt(buf, off, DottedText(xs) + [QUOTE])
    ensures OctetsAt(buf, off, xs)
    ensures OctetsEnd(buf, off, xs) == off + |DottedText(xs)|
    decreases |xs|
  {
    var t := DecimalText(xs[0]);
    if |xs| == 1 {
      HoldsAtSplit(buf, off, t, [QUOTE]);
      HoldsAtByte(buf, off + |t|, QUOTE);
      NumberScanOfDecimalText(buf, off, xs[0], 0);
      OctetsLast(buf, off, off + |t|, xs);
    } else {
      var rest := DottedText(xs[1..]);
      DottedTextSplit(xs);
      HoldsAtSplit(buf, off, t + [DOT], rest + [QUOTE]);
      HoldsAtSplit(buf, off, t, [DOT]);
      HoldsAtByte(buf, off + |t|, DOT);
      NumberScanOfDecimalText(buf, off, xs[0], 0);
      OctetsOfText(buf, off + |t| + 1, xs[1..]);
      OctetsCons(buf, off, off + |t|, xs);
    }
  }

  /** A single octet, read as xs[0] and followed by the closing quote. */
  lemma OctetsLast(buf: seq<byte>, off: nat, next: nat, xs: seq<int>)
    requires |xs| == 1 && 0 <= xs[0] <= 255
    requires NumberScan(buf, off, 0) == Scanned(true, next, xs[0]) && At(buf, next) == QUOTE
    ensures OctetsAt(buf, off, xs) && OctetsEnd(buf, off, xs) == next
  {
  }

  /** The octet loop reads the octets that stand at off and appends them. */
  lemma {:induction false} OctetLoopOfOctets(buf: seq<byte>, off: nat, octets: seq<int>, xs: seq<int>)
    requires |octets| + |xs| == 4
    requires OctetsAt(buf, off, xs)
    ensures OctetLoop(buf, off, octets) == Scanned(true, OctetsEnd(buf, off, xs), octets + xs)
    decreases |xs|
  {
    var n := NumberScan(buf, off, 0);
    if |xs| > 1 {
      OctetLoopContinues(buf, off, octets, n.next, xs[0]);
      OctetLoopOfOctets(buf, n.next + 1, octets + [xs[0]], xs[1..]);
      assert octets + [xs[0]] + xs[1..] == octets + xs;
    } else {
      OctetLoopLast(buf, off, octets, n.next, xs[0]);
      assert xs == [xs[0]];
    }
  }

  /**
   * The converse of OctetLoopOfOctets: when the loop succeeds and a quote
   * follows, the octets it appended stand at off, each a digit run whose
   * wrapped value is at most 255, separated by dots.
   */
  lemma {:induction false} OctetLoopAccepts(buf: seq<byte>, off: nat, octets: seq<int>)
    requires |octets| < 4 && OctetLoop(buf, off, octets).ok
    requires At(buf, OctetLoop(buf, off, octets).next) == QUOTE
    ensures OctetLoop(buf, off, octets).value[..|octets|] == octets
    ensures OctetsAt(buf, off, OctetLoop(buf, off, octets).value[|octets|..])
    ensures OctetsEnd(buf, off, OctetLoop(buf, off, octets).value[|octets|..]) == OctetLoop(buf, off, octets).next
    decreases 4 - |octets|
  {
    var r := OctetLoop(buf, off, octets);
    var n := NumberScan(buf, off, 0);
    var ys := r.value[|octets|..];
    if |octets| == 3 {
      assert ys == [n.value];
    } else {
      var more := octets + [n.value];
      OctetLoopAccepts(buf, n.next + 1, more);
      assert r.value[..|more|][..|octets|] == r.value[..|octets|];
      assert ys[1..] == r.value[|more|..];
    }
  }

  /**
   * What readIpAddress accepts: an opening quote, four digit runs separated
   * by dots whose values modulo 2^32 are at most 255, and a closing quote
   * just before the new offset; the output is the packed word.
   */
  lemma IpAddressScanAccepts(buf: seq<byte>, off: nat, output: int)
    requires IpAddressScan(buf, off, output).ok
    ensures At(buf, off) == QUOTE
    ensures var xs := OctetLoop(buf, off + 1, []).value;
            |xs| == 4 && OctetsAt(buf, off + 1, xs)
            && At(buf, OctetsEnd(buf, off + 1, xs)) == QUOTE
            && IpAddressScan(buf, off, output) == Scanned(true, OctetsEnd(buf, off + 1, xs) + 1, ShiftIn(xs))
  {
    var r := OctetLoop(buf, off + 1, []);
    OctetLoopAccepts(buf, off + 1, []);
    assert r.value[0..] == r.value;
  }

  /**
   * Round trip: the quoted dotted-quad text of four octets reads back as
   * their packed word, and the offset ends just past the closing quote.
   */
  lemma IpAddressRoundTrip(buf: seq<byte>, off: nat, a: nat, b: nat, c: nat, d: nat, output: int)
    requires a <= 255 && b <= 255 && c <= 255 && d <= 255
    requires HoldsAt(buf, off, IpText(a, b, c, d))
    ensures IpAddressScan(buf, off, output) == Scanned(true, off + |IpText(a, b, c, d)|, PackIp(a, b, c, d))
  {
    var xs := [a, b, c, d];
    var body := DottedText(xs);
    assert IpText(a, b, c, d) == [QUOTE] + (body + [QUOTE]);
    HoldsAtSplit(buf, off, [QUOTE], body + [QUOTE]);
    HoldsAtByte(buf, off, QUOTE);
    OctetsOfText(buf, off + 1, xs);
    IpAddressScanOfOctets(buf, off, xs, output);
    ShiftInFour(a, b, c, d);
  }

  /** An octet read as xs[0] and followed by a dot, in front of the octets xs[1..]. */
  lemma OctetsCons(buf: seq<byte>, off: nat, next: nat, xs: seq<int>)
    requires |xs| >= 2 && 0 <= xs[0] <= 255
    requires NumberScan(buf, off, 0) == Scanned(true, next, xs[0]) && At(buf, next) == DOT
    requires OctetsAt(buf, next + 1, xs[1..])
    ensures OctetsAt(buf, off, xs) && OctetsEnd(buf, off, xs) == OctetsEnd(buf, next + 1, xs[1..])
  {
  }

  /** The last of the octets is followed by the closing quote. */
  lemma {:induction false} OctetsEndAtQuote(buf: seq<byte>, off: nat, xs: seq<int>)
    requires OctetsAt(buf, off, xs)
    ensures At(buf, OctetsEnd(buf, off, xs)) == QUOTE
    decreases |xs|
  {
    if |xs| > 1 {
      OctetsEndAtQuote(buf, NumberScan(buf, off, 0).next + 1, xs[1..]);
    }
  }

  /** Four octets in quotes read as their packed word, past the closing quote. */
  lemma IpAddressScanOfOctets(buf: seq<byte>, off: nat, xs: seq<int>, output: int)
    requires |xs| == 4 && At(buf, off) == QUOTE && OctetsAt(buf, off + 1, xs)
    ensures IpAddressScan(buf, off, output) == Scanned(true, OctetsEnd(buf, off + 1, xs) + 1, ShiftIn(xs))
  {
    OctetLoopOfOctets(buf, off + 1, [], xs);
    AppendEmpty([], xs);
    OctetsEndAtQuote(buf, off + 1, xs);
  }

  /**
   * An address whose first octet is read by readNumber as x, followed by
   * the dotted text of three more octets and the closing quote.
   */
  lemma FirstOctetThenRest(buf: seq<byte>, off: nat, first: nat, x: int, b: nat, c: nat, d: nat, output: int)
    requires b <= 255 && c <= 255 && d <= 255 && 0 <= x <= 255
    requires At(buf, off) == QUOTE
    requires NumberScan(buf, off + 1, 0) == Scanned(true, off + 1 + first, x)
    requires HoldsAt(buf, off + 1 + first, [DOT] + (DottedText([b, c, d]) + [QUOTE]))
    ensures IpAddressScan(buf, off, output) == Scanned(true, off + first + |DottedText([b, c, d])| + 3, PackIp(x, b, c, d))
  {
    var at := off + 1 + first;
    var rest := DottedText([b, c, d]);
    HoldsAtSplit(buf, at, [DOT], rest + [QUOTE]);
    HoldsAtByte(buf, at, DOT);
    OctetsOfText(buf, at + 1, [b, c, d]);
    var xs := [x, b, c, d];
    assert xs[1..] == [b, c, d];
    OctetsCons(buf, off + 1, at, xs);
    IpAddressScanOfOctets(buf, off, xs, output);
    ShiftInFour(x, b, c, d);
  }

  /**
   * readIpAddress checks each octet after readNumber's 32-bit wrap: a first
   * octet whose decimal value is above 255 is accepted when its value
   * modulo 2^32 is at most 255, and stands for that value.
   */
  lemma IpAddressWrappedOctet(buf: seq<byte>, off: nat, a: nat, b: nat, c: nat, d: nat, output: int)
    requires a % UINT32_MODULUS <= 255 && b <= 255 && c <= 255 && d <= 255
    requires HoldsAt(buf, off, IpText(a, b, c, d))
    ensures IpAddressScan(buf, off, output)
            == Scanned(true, off + |IpText(a, b, c, d)|, PackIp(a % UINT32_MODULUS, b, c, d))
  {
    var t := DecimalText(a);
    IpTextFirstOctet(a, b, c, d);
    HoldsFirstOctet(buf, off, t, DottedText([b, c, d]));
    NumberScanOfDecimalText(buf, off + 1, a, 0);
    FirstOctetThenRest(buf, off, |t|, a % UINT32_MODULUS, b, c, d, output);
  }

  /** The text of an address, with its first octet apart. */
  lemma IpTextFirstOctet(a: nat, b: nat, c: nat, d: nat)
    ensures IpText(a, b, c, d) == [QUOTE] + (DecimalText(a) + ([DOT] + (DottedText([b, c, d]) + [QUOTE])))
  {
    DottedTextSplit([a, b, c, d]);
    assert [a, b, c, d][1..] == [b, c, d];
  }

  /** The pieces of a quoted address whose first octet is the text t. */
  lemma HoldsFirstOctet(buf: seq<byte>, off: nat, t: seq<byte>, rest: seq<byte>)
    requires HoldsAt(buf, off, [QUOTE] + (t + ([DOT] + (rest + [QUOTE]))))
    ensures At(buf, off) == QUOTE && HoldsAt(buf, off + 1, t)
    ensures HoldsAt(buf, off + 1 + |t|, [DOT] + (rest + [QUOTE])) && At(buf, off + 1 + |t|) == DOT
  {
    HoldsAtSplit(buf, off, [QUOTE], t + ([DOT] + (rest + [QUOTE])));
    HoldsAtByte(buf, off, QUOTE);
    HoldsAtSplit(buf, off + 1, t, [DOT] + (rest + [QUOTE]));
    HoldsAtSplit(buf, off + 1 + |t|, [DOT], rest + [QUOTE]);
    HoldsAtByte(buf, off + 1 + |t|, DOT);
  }

  /** The quoted text "4294967296.1.2.3" is accepted as the address 0.1.2.3. */
  lemma IpAddressWrapExample(output: int)
    ensures IpAddressScan(IpText(UINT32_MODULUS, 1, 2, 3), 0, output).ok
    ensures IpAddressScan(IpText(UINT32_MODULUS, 1, 2, 3), 0, output).value == PackIp(0, 1, 2, 3)
  {
    var t := IpText(UINT32_MODULUS, 1, 2, 3);
    HoldsAtSuffix(t, 0);
    assert t[0..] == t;
    IpAddressWrappedOctet(t, 0, UINT32_MODULUS, 1, 2, 3, output);
  }

  /** A leading zero adds nothing to the value of a digit run. */
  lemma {:induction false} DecimalLeadingZero(buf: seq<byte>, off: nat, m: nat)
    requires At(buf, off) == DIGIT_ZERO && AllDigits(buf, off + 1, m)
    ensures AllDigits(buf, off, m + 1)
    ensures Decimal(buf, off, m + 1) == Decimal(buf, off + 1, m)
  {
    if m > 0 {
      DecimalLeadingZero(buf, off, m - 1);
    }
  }

  /** readNumber reads a decimal text with a leading zero as the text itself. */
  lemma NumberScanLeadingZero(buf: seq<byte>, off: nat, n: nat, output: int)
    requires At(buf, off) == DIGIT_ZERO && HoldsAt(buf, off + 1, DecimalText(n))
    requires !IsDigit(At(buf, off + 1 + |DecimalText(n)|))
    ensures NumberScan(buf, off, output) == Scanned(true, off + 1 + |DecimalText(n)|, n % UINT32_MODULUS)
  {
    var m := |DecimalText(n)|;
    DecimalOfText(buf, off + 1, n);
    DecimalLeadingZero(buf, off, m);
    NumberScanOfRun(buf, off, m + 1, output);
    WrappedIsDecimalModulo(buf, off, m + 1);
  }

  /**
   * readIpAddress accepts an octet written with a leading zero: "0" before
   * the first octet of a dotted quad changes neither the success nor the
   * address, only the offset.
   */
  lemma IpAddressLeadingZero(buf: seq<byte>, off: nat, a: nat, b: nat, c: nat, d: nat, output: int)
    requires a <= 255 && b <= 255 && c <= 255 && d <= 255
    requires HoldsAt(buf, off, [QUOTE, DIGIT_ZERO] + DottedText([a, b, c, d]) + [QUOTE])
    ensures IpAddressScan(buf, off, output) == Scanned(true, off + |IpText(a, b, c, d)| + 1, PackIp(a, b, c, d))
  {
    var t := DecimalText(a);
    var rest := DottedText([b, c, d]);
    IpTextFirstOctet(a, b, c, d);
    assert [QUOTE, DIGIT_ZERO] + DottedText([a, b, c, d]) + [QUOTE]
        == [QUOTE] + (([DIGIT_ZERO] + t) + ([DOT] + (rest + [QUOTE])));
    HoldsFirstOctet(buf, off, [DIGIT_ZERO] + t, rest);
    HoldsAtSplit(buf, off + 1, [DIGIT_ZERO], t);
    HoldsAtByte(buf, off + 1, DIGIT_ZERO);
    NumberScanLeadingZero(buf, off + 1, a, 0);
    FirstOctetThenRest(buf, off, |t| + 1, a, b, c, d, output);
  }

  // ---------------------------------------------------------------------------
  // readStringFromBuffer

  /** The size of the local buffer readStringFromBuffer collects the text in. */
  const STRING_CAPACITY: nat := 200

  /**
   * How the collecting loop of readStringFromBuffer is bounded: it breaks
   * once the collected text reaches stopAt bytes, and with checkEscaped it
   * breaks at an escape whose escaped byte is a control byte.
   */
  datatype StringRules = StringRules(stopAt: nat, checkEscaped: bool)

  /**
   * The rules of command.cpp:3246-3258 as written: the overflow test
   * ps - s > 200 runs after the write, so the 201st byte is stored; and the
   * control-byte test looks at the backslash itself, so it never fires.
   */
  const AS_WRITTEN: StringRules := StringRules(STRING_CAPACITY + 1, false)

  /** The evidently intended rules: at most 200 bytes, no escaped control byte. */
  const INTENDED: StringRules := StringRules(STRING_CAPACITY, true)

  /**
   * The collecting loop from off with the text acc collected so far: it runs
   * up to a double quote or a control byte; with escape, a backslash takes
   * the next byte literally. Yields where the loop stops and the text.
   */
  function StringBody(buf: seq<byte>, off: nat, escape: bool, rules: StringRules, acc: seq<byte>): (r: (nat, seq<byte>))
    requires |acc| < rules.stopAt
    ensures |acc| <= |r.1| <= rules.stopAt
    decreases |buf| - off
  {
    var c := At(buf, off);
    if c == QUOTE || c < SPACE then (off, acc)
    else if escape && c == BACKSLASH then
      var e := At(buf, off + 1);
      if rules.checkEscaped && e < SPACE then (off, acc)
      else if |acc| + 1 >= rules.stopAt then (off + 2, acc + [e])
      else StringBody(buf, off + 2, escape, rules, acc + [e])
    else if |acc| + 1 >= rules.stopAt then (off + 1, acc + [c])
    else StringBody(buf, off + 1, escape, rules, acc + [c])
  }

  /**
   * The collecting loop only appends to the text, and under the intended
   * rules every byte it appends is printable.
   */
  lemma {:induction false} StringBodyAppends(buf: seq<byte>, off: nat, escape: bool, rules: StringRules, acc: seq<byte>)
    requires |acc| < rules.stopAt
    ensures var r := StringBody(buf, off, escape, rules, acc);
      r.1[..|acc|] == acc && (rules.checkEscaped ==> forall k :: |acc| <= k < |r.1| ==> r.1[k] >= SPACE)
    decreases |buf| - off
  {
    var c := At(buf, off);
    if c == QUOTE || c < SPACE {
    } else {
      var width := if escape && c == BACKSLASH then 2 else 1;
      var x := if width == 2 then At(buf, off + 1) else c;
      if width == 2 && rules.checkEscaped && x < SPACE {
      } else if |acc| + 1 < rules.stopAt {
        StringBodyAppends(buf, off + width, escape, rules, acc + [x]);
        var r := StringBody(buf, off + width, escape, rules, acc + [x]);
        assert r.1[..|acc|] == (r.1[..|acc| + 1])[..|acc|];
      }
    }
  }

  /**
   * readStringFromBuffer as a function of the buffer. On success the text
   * and the offset past the closing quote; otherwise the empty text, with
   * the offset unchanged when there is no opening quote and left where the
   * loop stopped when there is no closing quote or the text is empty but
   * must not be.
   */
  function QuotedString(buf: seq<byte>, off: nat, escape: bool, allowEmpty: bool, rules: StringRules): (r: Scanned<seq<byte>>)
    requires rules.stopAt > 0
    ensures |r.value| <= rules.stopAt
    ensures rules.checkEscaped ==> forall k :: 0 <= k < |r.value| ==> r.value[k] >= SPACE
    ensures r.ok ==> r.value != [] || allowEmpty
    ensures !r.ok ==> r.value == []
    ensures At(buf, off) != QUOTE ==> r == Scanned(false, off, [])
  {
    if At(buf, off) != QUOTE then Scanned(false, off, [])
    else
      StringBodyAppends(buf, off + 1, escape, rules, []);
      var (stop, text) := StringBody(buf, off + 1, escape, rules, []);
      if At(buf, stop) == QUOTE && (text != [] || allowEmpty) then Scanned(true, stop + 1, text)
      else Scanned(false, stop, [])
  }

  /**
   * readStringFromBuffer (command.cpp:3234-3271), with the two corrections
   * that INTENDED describes: the text is collected in an array of
   * STRING_CAPACITY bytes, and every write stays inside it.
   */
  method ReadStringFromBuffer(inpBuf: array<byte>, offset: nat, escape: bool, allowEmpty: bool) returns (sRet: seq<byte>, offset': nat)
    ensures var r := QuotedString(inpBuf[..], offset, escape, allowEmpty, INTENDED);
      sRet == r.value && offset' == r.next
  {
    ghost var buf := inpBuf[..];
    sRet, offset' := [], offset;
    if At(inpBuf[..], offset') != QUOTE {
      return;
    }
    var s := new byte[STRING_CAPACITY];
    var ps := 0;
    offset' := offset' + 1;
    while At(inpBuf[..], offset') != QUOTE && At(inpBuf[..], offset') >= SPACE
      invariant ps < STRING_CAPACITY
      invariant StringBody(buf, offset', escape, INTENDED, s[..ps]) == StringBody(buf, offset + 1, escape, INTENDED, [])
      decreases |buf| - offset'
    {
      ghost var acc, from := s[..ps], offset';
      var c := inpBuf[offset'];
      if !escape || c != BACKSLASH {
        s[ps] := c;
      } else {
        var e := At(inpBuf[..], offset' + 1);
        if e < SPACE {
          break;
        }
        offset' := offset' + 1;
        s[ps] := e;
      }
      ps := ps + 1;
      offset' := offset' + 1;
      assert s[..ps] == acc + [s[ps - 1]];
      if ps >= STRING_CAPACITY {
        break;
      }
      assert StringBody(buf, from, escape, INTENDED, acc) == StringBody(buf, offset', escape, INTENDED, s[..ps]);
    }
    if At(inpBuf[..], offset') == QUOTE && (ps != 0 || allowEmpty) {
      sRet := s[..ps];
      offset' := offset' + 1;
    }
  }

  /** A text with its double quotes and backslashes escaped by a backslash. */
  function Escape(t: seq<byte>): seq<byte>
  {
    if t == [] then []
    else (if t[0] == QUOTE || t[0] == BACKSLASH then [BACKSLASH, t[0]] else [t[0]]) + Escape(t[1..])
  }

  /** How a text is written between the quotes: escaped, or as it is. */
  function Encoded(t: seq<byte>, escape: bool): seq<byte>
  {
    if escape then Escape(t) else t
  }

  /** A text the reader can carry: no control byte, and no bare quote when nothing is escaped. */
  predicate Printable(t: seq<byte>, escape: bool)
  {
    forall k :: 0 <= k < |t| ==> t[k] >= SPACE && (escape || t[k] != QUOTE)
  }

  /** At off stands the byte c as the collecting loop reads it: plain (width 1) or escaped (width 2). */
  ghost predicate ByteAt(buf: seq<byte>, off: nat, c: byte, escape: bool, width: nat)
  {
    || (width == 1 && At(buf, off) == c && c != QUOTE && !(escape && c == BACKSLASH))
    || (width == 2 && escape && At(buf, off) == BACKSLASH && At(buf, off + 1) == c)
  }

  /** A printable byte that fills the text up to the bound ends the collecting loop. */
  lemma StringBodyLast(buf: seq<byte>, off: nat, escape: bool, rules: StringRules, acc: seq<byte>, c: byte, width: nat)
    requires |acc| < rules.stopAt <= |acc| + 1 && c >= SPACE && ByteAt(buf, off, c, escape, width)
    ensures StringBody(buf, off, escape, rules, acc) == (off + width, acc + [c])
  {
  }

  /** Below the bound, the collecting loop appends a printable byte and goes on. */
  lemma StringBodyNext(buf: seq<byte>, off: nat, escape: bool, rules: StringRules, acc: seq<byte>, c: byte, width: nat)
    requires |acc| + 1 < rules.stopAt && c >= SPACE && ByteAt(buf, off, c, escape, width)
    ensures StringBody(buf, off, escape, rules, acc) == StringBody(buf, off + width, escape, rules, acc + [c])
  {
  }

  /** How one byte is written between the quotes. */
  function EncodedByte(c: byte, escape: bool): (e: seq<byte>)
    ensures |e| == 1 || |e| == 2
  {
    if escape && (c == QUOTE || c == BACKSLASH) then [BACKSLASH, c] else [c]
  }

  lemma {:induction false} EncodedFirst(t: seq<byte>, escape: bool)
    requires t != []
    ensures Encoded(t, escape) == EncodedByte(t[0], escape) + Encoded(t[1..], escape)
  {
  }

  /** The reader sees the first byte of an encoded text as the collecting loop expects. */
  lemma EncodedByteAt(buf: seq<byte>, off: nat, c: byte, escape: bool, tail: seq<byte>)
    requires HoldsAt(buf, off, EncodedByte(c, escape) + tail)
    ensures At(buf, off) == EncodedByte(c, escape)[0]
    ensures |EncodedByte(c, escape)| == 2 ==> At(buf, off + 1) == c
    ensures HoldsAt(buf, off + |EncodedByte(c, escape)|, tail)
  {
    var head := EncodedByte(c, escape);
    HoldsAtSplit(buf, off, head, tail);
    HoldsAtIndex(buf, off, head, 0);
    if |head| == 2 {
      HoldsAtIndex(buf, off, head, 1);
    }
  }

  lemma PrintableFirst(t: seq<byte>, escape: bool)
    requires Printable(t, escape) && t != []
    ensures t[0] >= SPACE && (escape || t[0] != QUOTE) && Printable(t[1..], escape)
  {
    forall k | 0 <= k < |t[1..]| ensures t[1..][k] >= SPACE && (escape || t[1..][k] != QUOTE) {
      assert t[1..][k] == t[k + 1];
    }
  }

  /** The first byte of an encoded printable text, and where the rest of it stands. */
  lemma EncodedTextFirst(buf: seq<byte>, off: nat, escape: bool, t: seq<byte>)
    requires Printable(t, escape) && t != []
    requires HoldsAt(buf, off, Encoded(t, escape))
    ensures t[0] >= SPACE && ByteAt(buf, off, t[0], escape, |EncodedByte(t[0], escape)|)
    ensures |Encoded(t, escape)| == |EncodedByte(t[0], escape)| + |Encoded(t[1..], escape)|
    ensures HoldsAt(buf, off + |EncodedByte(t[0], escape)|, Encoded(t[1..], escape))
    ensures Printable(t[1..], escape)
  {
    var c := t[0];
    EncodedFirst(t, escape);
    EncodedByteAt(buf, off, c, escape, Encoded(t[1..], escape));
    PrintableFirst(t, escape);
  }

  /**
   * The collecting loop reads back an encoded text that is followed by a
   * double quote, or that fills the text up to the bound.
   */
  lemma {:induction false} StringBodyOfText(buf: seq<byte>, off: nat, escape: bool, rules: StringRules, acc: seq<byte>, t: seq<byte>)
    requires Printable(t, escape)
    requires |acc| < rules.stopAt && |acc| + |t| <= rules.stopAt
    requires HoldsAt(buf, off, Encoded(t, escape))
    requires At(buf, off + |Encoded(t, escape)|) == QUOTE || (t != [] && |acc| + |t| == rules.stopAt)
    ensures StringBody(buf, off, escape, rules, acc) == (off + |Encoded(t, escape)|, acc + t)
    decreases |t|
  {
    if t == [] {
      AppendEmpty(acc, t);
    } else {
      var c, w := t[0], |EncodedByte(t[0], escape)|;
      EncodedTextFirst(buf, off, escape, t);
      if |acc| + 1 >= rules.stopAt {
        StringBodyLast(buf, off, escape, rules, acc, c, w);
        assert t == [c];
      } else {
        StringBodyNext(buf, off, escape, rules, acc, c, w);
        StringBodyOfText(buf, off + w, escape, rules, acc + [c], t[1..]);
        AppendHead(acc, t);
      }
    }
  }

  /**
   * Round trip: a printable text of at most stopAt bytes, encoded and put
   * between double quotes, reads back as itself, and the offset ends just
   * past the closing quote.
   */
  lemma QuotedStringRoundTrip(buf: seq<byte>, off: nat, t: seq<byte>, escape: bool, allowEmpty: bool, rules: StringRules)
    requires Printable(t, escape) && 0 < rules.stopAt && |t| <= rules.stopAt
    requires t != [] || allowEmpty
    requires HoldsAt(buf, off, [QUOTE] + (Encoded(t, escape) + [QUOTE]))
    ensures QuotedString(buf, off, escape, allowEmpty, rules) == Scanned(true, off + |Encoded(t, escape)| + 2, t)
  {
    var e := Encoded(t, escape);
    HoldsAtSplit(buf, off, [QUOTE], e + [QUOTE]);
    HoldsAtByte(buf, off, QUOTE);
    HoldsAtSplit(buf, off + 1, e, [QUOTE]);
    HoldsAtByte(buf, off + 1 + |e|, QUOTE);
    StringBodyOfText(buf, off + 1, escape, rules, [], t);
    AppendEmpty([], t);
    assert StringBody(buf, off + 1, escape, rules, []) == (off + 1 + |e|, t);
  }

  /**
   * As written, the overflow test lets a quoted text of 201 bytes through
   * whole, one byte more than the 200-byte buffer holds.
   */
  lemma AsWrittenStoresByte201()
    ensures var t := seq(STRING_CAPACITY + 1, _ => 0x61 as byte);
      var buf := [QUOTE] + (t + [QUOTE]);
      |QuotedString(buf, 0, false, false, AS_WRITTEN).value| == STRING_CAPACITY + 1
  {
    var t := seq(STRING_CAPACITY + 1, _ => 0x61 as byte);
    var buf := [QUOTE] + (t + [QUOTE]);
    HoldsAtSuffix(buf, 0);
    assert buf[0..] == buf;
    QuotedStringRoundTrip(buf, 0, t, false, false, AS_WRITTEN);
  }

  /** With the intended bound, the same 201-byte text is refused. */
  lemma IntendedRefusesByte201()
    ensures var t := seq(STRING_CAPACITY + 1, _ => 0x61 as byte);
      var buf := [QUOTE] + (t + [QUOTE]);
      !QuotedString(buf, 0, false, false, INTENDED).ok
  {
    var t := seq(STRING_CAPACITY + 1, _ => 0x61 as byte);
    var buf := [QUOTE] + (t + [QUOTE]);
    var u := t[..STRING_CAPACITY];
    assert buf == [QUOTE] + (u + ([0x61] + [QUOTE]));
    HoldsAtSuffix(buf, 0);
    assert buf[0..] == buf;
    HoldsAtSplit(buf, 0, [QUOTE], u + ([0x61] + [QUOTE]));
    HoldsAtSplit(buf, 1, u, [0x61] + [QUOTE]);
    assert Printable(u, false);
    StringBodyOfText(buf, 1, false, INTENDED, [], u);
    assert At(buf, 1 + STRING_CAPACITY) == 0x61;
  }

  /**
   * As written, an escaped control byte is stored: "a\<TAB>" reads as
   * the two bytes a and TAB; with the intended test the read fails.
   */
  lemma AsWrittenKeepsEscapedControl()
    ensures QuotedString([QUOTE, 0x61, BACKSLASH, 0x09, QUOTE], 0, true, false, AS_WRITTEN) == Scanned(true, 5, [0x61, 0x09])
    ensures !QuotedString([QUOTE, 0x61, BACKSLASH, 0x09, QUOTE], 0, true, false, INTENDED).ok
  {
    var buf: seq<byte> := [QUOTE, 0x61, BACKSLASH, 0x09, QUOTE];
    assert At(buf, 1) == 0x61 && At(buf, 2) == BACKSLASH && At(buf, 3) == 0x09 && At(buf, 4) == QUOTE;
    assert INTENDED.checkEscaped && !AS_WRITTEN.checkEscaped && AS_WRITTEN.stopAt == 201;
    assert [0x61] + [0x09] == [0x61, 0x09] && [] + [0x61] == [0x61];
    assert StringBody(buf, 4, true, AS_WRITTEN, [0x61, 0x09]) == (4, [0x61, 0x09]);
    assert StringBody(buf, 2, true, AS_WRITTEN, [0x61]) == (4, [0x61, 0x09]);
    assert StringBody(buf, 1, true, AS_WRITTEN, []) == (4, [0x61, 0x09]);
    assert StringBody(buf, 2, true, INTENDED, [0x61]) == (2, [0x61]);
    assert StringBody(buf, 1, true, INTENDED, []) == (2, [0x61]);
  }

  // ---------------------------------------------------------------------------
  // readHex

  /**
   * readHex (command.cpp:3339-3349): the value of a hexadecimal digit. The
   * subtraction is on an 8-bit char and wraps for bytes that are not hex
   * digits; the callers test isxdigit first.
   */
  function ReadHex(c: byte): (v: byte)
    ensures IsDigit(c) ==> v as int == c as int - 0x30
    ensures 0x41 <= c <= 0x46 ==> v as int == c as int - 0x41 + 10
    ensures 0x61 <= c <= 0x66 ==> v as int == c as int - 0x61 + 10
  {
    if c >= 0x61 then ((c as int - 87) % 0x100) as byte
    else if c >= 0x41 then ((c as int - 55) % 0x100) as byte
    else ((c as int - 48) % 0x100) as byte
  }

  /** The lower-case hexadecimal digit of n, as printf's %x writes it. */
  function HexDigit(n: nat): (c: byte)
    requires n < 16
    ensures IsXDigit(c) && ReadHex(c) as int == n
  {
    if n < 10 then (0x30 + n) as byte else (0x61 + n - 10) as byte
  }

  /** The upper-case hexadecimal digit of n. */
  function UpperHexDigit(n: nat): (c: byte)
    requires n < 16
    ensures IsXDigit(c) && ReadHex(c) as int == n
  {
    if n < 10 then (0x30 + n) as byte else (0x41 + n - 10) as byte
  }
}
