/**
 * Arguments: how the AT command handlers read their arguments from the
 * line in inputBuffer (ESP_ATMod/command.cpp). Each function gives what
 * a handler goes on with, or None where the handler answers ERROR and
 * changes nothing.
 */
module Arguments {
  import opened Bytes
  import opened Scanners
  import CommandTable
  import Settings

  // ---------------------------------------------------------------------------
  // A number in a range that closes the line

  /**
   * The argument of ATE, AT+CIPMUX=, AT+CIPSTO=, AT+CIPSERVERMAXCONN= and
   * AT+CIPSSLAUTH=: readNumber at off, a value from lo to hi, and the line
   * ending (CR LF) right after the digits.
   */
  function RangedArg(buf: seq<byte>, len: nat, off: nat, lo: int, hi: int): (r: Option<int>)
    ensures r.Some? ==> lo <= r.value <= hi
  {
    var n := NumberScan(buf, off, 0);
    if n.ok && lo <= n.value <= hi && len == n.next + 2 then Some(n.value) else None
  }

  /**
   * The decimal text of n followed by CR LF is read back as n when n lies
   * in the range, and refused otherwise.
   */
  lemma RangedArgOfText(buf: seq<byte>, off: nat, n: nat, lo: int, hi: int)
    requires n < UINT32_MODULUS
    requires HoldsAt(buf, off, DecimalText(n) + [CR, LF])
    ensures RangedArg(buf, off + |DecimalText(n)| + 2, off, lo, hi) == if lo <= n <= hi then Some(n) else None
  {
    HoldsAtSplit(buf, off, DecimalText(n), [CR, LF]);
    HoldsAtIndex(buf, off + |DecimalText(n)|, [CR, LF], 0);
    NumberScanOfDecimalText(buf, off, n, 0);
  }

  /** Where each ranged argument starts: just past "ATE", "AT+CIPMUX=" and so on. */
  const ECHO_ARG: nat := 3
  const MUX_ARG: nat := 10
  const TIMEOUT_ARG: nat := 10
  const MAXCONN_ARG: nat := 20
  const SSLAUTH_ARG: nat := 14

  // ---------------------------------------------------------------------------
  // AT+UART (command.cpp:509-628)

  /** The bit positions in the UART register: data bits at UCBN, stop bits at UCSBN. */
  const UCBN: nat := 2
  const UCSBN: nat := 4

  /** A frame format as AT+UART states it. */
  datatype UartFormat = UartFormat(dataBits: int, stopBits: int, parity: int)

  /** The formats AT+UART= accepts. */
  predicate ValidFormat(f: UartFormat)
  {
    5 <= f.dataBits <= 8 && 1 <= f.stopBits <= 3 && 0 <= f.parity <= 2
  }

  /**
   * ((dataBits - 5) << UCBN) | (stopBits << UCSBN) | parity
   * (command.cpp:597): the three fields are two bits wide each and do not
   * overlap, so the bitwise or is a sum.
   */
  function UartPack(f: UartFormat): (cfg: nat)
    requires ValidFormat(f)
    ensures cfg < 0x40
  {
    (f.dataBits - 5) * 4 + f.stopBits * 16 + f.parity
  }

  /** The query's decoding of a register value (command.cpp:547-549). */
  function UartUnpack(cfg: nat): (f: UartFormat)
    ensures 5 <= f.dataBits <= 8 && 0 <= f.stopBits <= 3 && 0 <= f.parity <= 3
  {
    UartFormat(5 + (cfg / 4) % 4, (cfg / 16) % 4, cfg % 4)
  }

  /** What the query reports is the format that was set. */
  lemma UartRoundTrip(f: UartFormat)
    requires ValidFormat(f)
    ensures UartUnpack(UartPack(f)) == f
  {
    var cfg := UartPack(f);
    assert cfg / 4 == (f.dataBits - 5) + f.stopBits * 4;
    assert cfg / 16 == f.stopBits;
  }

  /** The default configuration, SERIAL_8N1, is eight data bits, one stop bit and no parity. */
  lemma DefaultFormat()
    ensures UartPack(UartFormat(8, 1, 0)) == Settings.SERIAL_8N1
    ensures UartUnpack(Settings.SERIAL_8N1) == UartFormat(8, 1, 0)
  {
  }

  /** The arguments of AT+UART=, once checked. */
  datatype UartSetting = UartSetting(baudRate: int, format: UartFormat)

  /**
   * The argument list of AT+UART= from off (just past '='): baud rate
   * 110..921600, data bits 5..8, stop bits 1..3, parity 0..2, separated by
   * commas, then a flow control value 0..3 that closes the line. A flow
   * control other than 0 is refused as not implemented.
   */
  function UartArg(buf: seq<byte>, len: nat, off: nat): (r: Option<UartSetting>)
    ensures r.Some? ==> 110 <= r.value.baudRate <= 921600 && ValidFormat(r.value.format)
  {
    var b := NumberScan(buf, off, 0);
    if !b.ok || b.value < 110 || b.value > 921600 || At(buf, b.next) != COMMA then None
    else UartDataBitsArg(buf, len, b.next + 1, b.value)
  }

  /** The rest of the UART argument after the baud rate and its comma. */
  function UartDataBitsArg(buf: seq<byte>, len: nat, off: nat, baudRate: int): (r: Option<UartSetting>)
    ensures r.Some? ==> r.value.baudRate == baudRate && ValidFormat(r.value.format)
  {
    var d := NumberScan(buf, off, 0);
    if !d.ok || d.value < 5 || d.value > 8 || At(buf, d.next) != COMMA then None
    else UartStopBitsArg(buf, len, d.next + 1, baudRate, d.value)
  }

  /** The rest of the UART argument after the data bits and their comma. */
  function UartStopBitsArg(buf: seq<byte>, len: nat, off: nat, baudRate: int, dataBits: int): (r: Option<UartSetting>)
    ensures r.Some? ==> r.value.baudRate == baudRate && r.value.format.dataBits == dataBits
                        && 1 <= r.value.format.stopBits <= 3 && 0 <= r.value.format.parity <= 2
  {
    var s := NumberScan(buf, off, 0);
    if !s.ok || s.value < 1 || s.value > 3 || At(buf, s.next) != COMMA then None
    else UartParityArg(buf, len, s.next + 1, baudRate, dataBits, s.value)
  }

  /**
   * The rest of the UART argument after the stop bits and their comma: the
   * parity, then the flow control, which must be 0 (flow control is not
   * implemented).
   */
  function UartParityArg(buf: seq<byte>, len: nat, off: nat, baudRate: int, dataBits: int, stopBits: int)
    : (r: Option<UartSetting>)
    ensures r.Some? ==> r.value.baudRate == baudRate && r.value.format.dataBits == dataBits
                        && r.value.format.stopBits == stopBits && 0 <= r.value.format.parity <= 2
  {
    var p := NumberScan(buf, off, 0);
    if !p.ok || p.value > 2 || At(buf, p.next) != COMMA then None
    else
      var flow := NumberScan(buf, p.next + 1, 0);
      if !flow.ok || flow.value > 3 || len != flow.next + 2 || flow.value != 0 then None
      else Some(UartSetting(baudRate, UartFormat(dataBits, stopBits, p.value)))
  }

  /** Where the argument of AT+UART, AT+UART_CUR and AT+UART_DEF starts ('?' or '='). */
  function UartOffset(cmd: CommandTable.Command): nat
  {
    if cmd == CommandTable.CmdAtUartCur || cmd == CommandTable.CmdAtUartDef then 11 else 7
  }

  // ---------------------------------------------------------------------------
  // AT+CIPSTA= and AT+CIPAP= (command.cpp:1253-1302, 1380-1428)

  /**
   * (ip & 0x00ffffff) | 0x01000000 for a 32-bit ip: the gateway keeps the
   * first three octets and has 1 as the last.
   */
  function Gateway(ip: int): int
  {
    ip % 0x100_0000 + 0x100_0000
  }

  /** 255.255.255.0, a /24 mask, with the first octet in the low byte. */
  const NETMASK_24: int := 0x00ff_ffff

  /** The ipConfig_t the handler fills; None is a field it leaves uninitialised. */
  datatype ParsedConfig = ParsedConfig(ip: int, gw: Option<int>, mask: Option<int>)

  /**
   * The address list as written: one quoted address that closes the line,
   * or three separated by commas. With one address the gateway and mask
   * are derived only when the address is not 0; for 0 they stay unset.
   */
  function IpConfigArgAsWritten(buf: seq<byte>, len: nat, off: nat): (r: Option<ParsedConfig>)
    ensures r.Some? && r.value.ip != 0 ==> r.value.gw.Some? && r.value.mask.Some?
  {
    var a := IpAddressScan(buf, off, 0);
    if !a.ok then None
    else if At(buf, a.next) != COMMA then
      if len != a.next + 2 then None
      else if a.value != 0 then Some(ParsedConfig(a.value, Some(Gateway(a.value)), Some(NETMASK_24)))
      else Some(ParsedConfig(0, None, None))
    else ConfigGatewayArg(buf, len, a.next + 1, a.value)
  }

  /** The rest of the address list after the address and its comma: the gateway. */
  function ConfigGatewayArg(buf: seq<byte>, len: nat, off: nat, ip: int): (r: Option<ParsedConfig>)
    ensures r.Some? ==> r.value.ip == ip && r.value.gw.Some? && r.value.mask.Some?
  {
    var g := IpAddressScan(buf, off, 0);
    if !g.ok || At(buf, g.next) != COMMA then None
    else ConfigMaskArg(buf, len, g.next + 1, ip, g.value)
  }

  /** The rest of the address list after the gateway and its comma: the mask, which closes the line. */
  function ConfigMaskArg(buf: seq<byte>, len: nat, off: nat, ip: int, gw: int): (r: Option<ParsedConfig>)
    ensures r.Some? ==> r.value.ip == ip && r.value.gw == Some(gw) && r.value.mask.Some?
  {
    var m := IpAddressScan(buf, off, 0);
    if !m.ok || len != m.next + 2 then None
    else Some(ParsedConfig(ip, Some(gw), Some(m.value)))
  }

  /** An unset field taken as 0. */
  function OrZero(x: Option<int>): int
  {
    if x.Some? then x.value else 0
  }

  /**
   * The address list with the lone address 0 giving an all-zero
   * configuration instead of an uninitialised gateway and mask.
   */
  function IpConfigArg(buf: seq<byte>, len: nat, off: nat): (r: Option<Settings.IpConfig>)
    ensures r.Some? <==> IpConfigArgAsWritten(buf, len, off).Some?
    ensures r.Some? ==> r.value.ip == IpConfigArgAsWritten(buf, len, off).value.ip
  {
    match IpConfigArgAsWritten(buf, len, off)
    case None => None
    case Some(p) => Some(Settings.IpConfig(p.ip, OrZero(p.gw), OrZero(p.mask)))
  }

  /** Where the argument of AT+CIPSTA, AT+CIPSTA_CUR and AT+CIPSTA_DEF starts. */
  function CipStaOffset(cmd: CommandTable.Command): nat
  {
    if cmd == CommandTable.CmdAtCipsta then 9 else 13
  }

  /** Where the argument of AT+CIPAP, AT+CIPAP_CUR and AT+CIPAP_DEF starts. */
  function CipApOffset(cmd: CommandTable.Command): nat
  {
    if cmd == CommandTable.CmdAtCipap then 8 else 12
  }

  /** The derived gateway of a.b.c.d is a.b.c.1, and the mask is 255.255.255.0. */
  lemma GatewayOfAddress(a: nat, b: nat, c: nat, d: nat)
    requires a <= 255 && b <= 255 && c <= 255 && d <= 255
    ensures Gateway(PackIp(a, b, c, d)) == PackIp(a, b, c, 1)
    ensures NETMASK_24 == PackIp(255, 255, 255, 0)
  {
    var low := a + b * 0x100 + c * 0x1_0000;
    assert 0 <= low < 0x100_0000;
    assert PackIp(a, b, c, d) == low + d * 0x100_0000;
  }

  /**
   * A lone quoted address a.b.c.d that closes the line gives the address,
   * the gateway a.b.c.1 and the mask 255.255.255.0; with the unset fields
   * taken as 0, the address 0.0.0.0 gives an all-zero configuration.
   */
  lemma LoneAddressConfig(buf: seq<byte>, off: nat, a: nat, b: nat, c: nat, d: nat)
    requires a <= 255 && b <= 255 && c <= 255 && d <= 255
    requires HoldsAt(buf, off, IpText(a, b, c, d) + [CR, LF])
    ensures IpConfigArg(buf, off + |IpText(a, b, c, d)| + 2, off)
         == Some(if PackIp(a, b, c, d) != 0
                 then Settings.IpConfig(PackIp(a, b, c, d), PackIp(a, b, c, 1), PackIp(255, 255, 255, 0))
                 else Settings.IpConfig(0, 0, 0))
  {
    LoneAddressAsWritten(buf, off, a, b, c, d);
    GatewayOfAddress(a, b, c, d);
  }

  /** One address and no comma after it: the configuration of a lone address. */
  lemma LoneAddressArg(buf: seq<byte>, len: nat, off: nat)
    requires IpAddressScan(buf, off, 0).ok && At(buf, IpAddressScan(buf, off, 0).next) != COMMA
    requires len == IpAddressScan(buf, off, 0).next + 2
    ensures var ip := IpAddressScan(buf, off, 0).value;
      IpConfigArgAsWritten(buf, len, off)
      == Some(if ip != 0 then ParsedConfig(ip, Some(Gateway(ip)), Some(NETMASK_24)) else ParsedConfig(0, None, None))
  {
  }

  /** A lone quoted address that closes the line is read, and no comma follows it. */
  lemma LoneAddressScan(buf: seq<byte>, off: nat, a: nat, b: nat, c: nat, d: nat)
    requires a <= 255 && b <= 255 && c <= 255 && d <= 255
    requires HoldsAt(buf, off, IpText(a, b, c, d) + [CR, LF])
    ensures IpAddressScan(buf, off, 0) == Scanned(true, off + |IpText(a, b, c, d)|, PackIp(a, b, c, d))
    ensures At(buf, off + |IpText(a, b, c, d)|) == CR
  {
    HoldsAtSplit(buf, off, IpText(a, b, c, d), [CR, LF]);
    HoldsAtIndex(buf, off + |IpText(a, b, c, d)|, [CR, LF], 0);
    IpAddressRoundTrip(buf, off, a, b, c, d, 0);
  }

  /**
   * A lone quoted address a.b.c.d that closes the line: as written, the
   * gateway and the mask are derived when the address is not 0.0.0.0 and
   * left uninitialised when it is.
   */
  lemma LoneAddressAsWritten(buf: seq<byte>, off: nat, a: nat, b: nat, c: nat, d: nat)
    requires a <= 255 && b <= 255 && c <= 255 && d <= 255
    requires HoldsAt(buf, off, IpText(a, b, c, d) + [CR, LF])
    ensures var ip := PackIp(a, b, c, d);
      IpConfigArgAsWritten(buf, off + |IpText(a, b, c, d)| + 2, off)
      == Some(if ip != 0 then ParsedConfig(ip, Some(Gateway(ip)), Some(NETMASK_24)) else ParsedConfig(0, None, None))
  {
    LoneAddressScan(buf, off, a, b, c, d);
    LoneAddressArg(buf, off + |IpText(a, b, c, d)| + 2, off);
  }

  // ---------------------------------------------------------------------------
  // Link ids of AT+CIPSEND= and AT+CIPRECVDATA= (command.cpp:1819, 2312)

  /** The number of entries in clients. */
  const CLIENT_COUNT: nat := 5

  /** The highest link digit the handlers accept as written, '5', and the highest with a client, '4'. */
  const LAST_LINK_AS_WRITTEN: byte := 0x35
  const LAST_LINK: byte := 0x34

  /** A link digit from '0' to last, followed by a comma, at `at`. */
  function LinkAt(buf: seq<byte>, at: nat, last: byte): (r: Option<int>)
    ensures r.Some? ==> 0 <= r.value <= last as int - DIGIT_ZERO as int
  {
    var c := At(buf, at);
    if DIGIT_ZERO <= c <= last && At(buf, at + 1) == COMMA then Some(c as int - DIGIT_ZERO as int) else None
  }

  /**
   * As written, link digit '5' is taken as link 5, one past the last of the
   * CLIENT_COUNT clients; with '4' as the last digit the same line has no
   * link id, and every link taken indexes a client.
   */
  lemma LinkFive(buf: seq<byte>, at: nat)
    requires At(buf, at) == 0x35 && At(buf, at + 1) == COMMA
    ensures LinkAt(buf, at, LAST_LINK_AS_WRITTEN) == Some(CLIENT_COUNT)
    ensures LinkAt(buf, at, LAST_LINK) == None
  {
  }

  /** Where AT+CIPSEND reads its link digit. */
  const SEND_LINK: nat := 11

  /** The link AT+CIPSEND= arms and the number of bytes it will read for it. */
  datatype SendTarget = SendTarget(link: int, size: int)

  /**
   * The argument of AT+CIPSEND= (command.cpp:1815-1853) with link digits up
   * to last: an optional link digit and comma, allowed only in
   * multiple-connection mode, then a size of at most 2048 that closes the
   * line. Without a link digit the link is 0.
   */
  function SendArg(buf: seq<byte>, len: nat, mux: int, last: byte): (r: Option<SendTarget>)
    requires DIGIT_ZERO <= last
    ensures r.Some? ==> 0 <= r.value.link <= last as int - DIGIT_ZERO as int && 0 <= r.value.size <= 2048
    ensures r.Some? && mux == 0 ==> r.value.link == 0
  {
    if At(buf, 10) != EQUALS then None
    else
      var link := LinkAt(buf, SEND_LINK, last);
      if link.Some? && mux == 0 then None
      else
        var n := NumberScan(buf, if link.Some? then SEND_LINK + 2 else SEND_LINK, 0);
        if !n.ok || len != n.next + 2 || n.value > 2048 then None
        else Some(SendTarget(if link.Some? then link.value else 0, n.value))
  }

  /**
   * As written, "AT+CIPSEND=5,size" in multiple-connection mode arms link 5,
   * one past the last client; with '4' as the last link digit the same
   * line is refused.
   */
  lemma SendLinkFive(buf: seq<byte>, mux: int, size: nat)
    requires mux != 0 && size <= 2048
    requires HoldsAt(buf, 10, [EQUALS, 0x35, COMMA] + DecimalText(size) + [CR, LF])
    ensures var len := 13 + |DecimalText(size)| + 2;
      SendArg(buf, len, mux, LAST_LINK_AS_WRITTEN) == Some(SendTarget(CLIENT_COUNT, size))
      && SendArg(buf, len, mux, LAST_LINK) == None
  {
    var t := DecimalText(size);
    HoldsAtSplit(buf, 10, [EQUALS, 0x35, COMMA] + t, [CR, LF]);
    HoldsAtSplit(buf, 10, [EQUALS, 0x35, COMMA], t);
    HoldsAtIndex(buf, 10, [EQUALS, 0x35, COMMA], 0);
    HoldsAtIndex(buf, 10, [EQUALS, 0x35, COMMA], 1);
    HoldsAtIndex(buf, 10, [EQUALS, 0x35, COMMA], 2);
    HoldsAtIndex(buf, 13 + |t|, [CR, LF], 0);
    NumberScanOfDecimalText(buf, 13, size, 0);
    NumberScanConsumesRun(buf, SEND_LINK, 0);
  }

  // ---------------------------------------------------------------------------
  // AT+CIPCLOSE (command.cpp:1939-1960)

  /** The link id that closes every link. */
  const ALL_LINKS: int := 5

  /**
   * The link AT+CIPCLOSE closes: with '=' a number up to 5 that closes the
   * line, in multiple-connection mode only; without it, the bare command
   * in single-connection mode, which closes link 0.
   */
  function CloseArg(buf: seq<byte>, len: nat, mux: int): (r: Option<int>)
    ensures r.Some? ==> 0 <= r.value <= ALL_LINKS
    ensures r.Some? ==> (mux == 0 <==> At(buf, 11) != EQUALS)
  {
    if At(buf, 11) == EQUALS then
      var n := NumberScan(buf, 12, 0);
      if !n.ok || n.value > ALL_LINKS || len != n.next + 2 || mux == 0 then None else Some(n.value)
    else if len != 13 || mux != 0 then None
    else Some(0)
  }

  // ---------------------------------------------------------------------------
  // AT+CIPSERVER= (command.cpp:2089-2122)

  /** Start (stop false) or stop a server; port 0 when stopping means any port. */
  datatype ServerArg = ServerArg(stop: bool, port: int)

  /** The server port of the AT firmware, used when none is given. */
  const DEFAULT_SERVER_PORT: int := 333

  /**
   * The argument of AT+CIPSERVER=: '0' (stop) or '1' (start), then
   * optionally a comma and a port up to 65535 that closes the line.
   * Without a port, start uses 333 and stop uses 0.
   */
  function ServerArgOf(buf: seq<byte>, len: nat): (r: Option<ServerArg>)
    ensures r.Some? ==> 0 <= r.value.port <= 65535
    ensures r.Some? && len <= 16 ==> r.value.port == if r.value.stop then 0 else DEFAULT_SERVER_PORT
  {
    if At(buf, 12) != EQUALS then None
    else
      var c := At(buf, 13);
      if c != 0x30 && c != 0x31 then None
      else
        var stop := c == 0x30;
        if len > 16 then
          if At(buf, 14) != COMMA then None
          else
            var n := NumberScan(buf, 15, 0);
            if !n.ok || n.value > 65535 || len != n.next + 2 then None
            else Some(ServerArg(stop, n.value))
        else if !stop then Some(ServerArg(false, DEFAULT_SERVER_PORT))
        else Some(ServerArg(true, 0))
  }

  // ---------------------------------------------------------------------------
  // AT+CIPSSLSIZE= (command.cpp:1770-1798)

  /** The SSL buffer size: 512, 1024, 2048, 4096, or 16384 kept as 0, the default. */
  function SslSizeArg(buf: seq<byte>, len: nat): (r: Option<int>)
    ensures r.Some? ==> r.value == 0 || r.value == 512 || r.value == 1024 || r.value == 2048 || r.value == 4096
  {
    if At(buf, 13) != EQUALS then None
    else
      var n := NumberScan(buf, 14, 0);
      if !n.ok || len != n.next + 2 then None
      else if n.value == 512 || n.value == 1024 || n.value == 2048 || n.value == 4096 then Some(n.value)
      else if n.value == 16384 then Some(0)
      else None
  }

  // ---------------------------------------------------------------------------
  // AT+CIPSSLCERT (command.cpp:2850-2974)

  /** What an AT+CIPSSLCERT line asks for; a number is None when readNumber failed. */
  datatype CertRequest =
    | LoadCert
    | ListCerts
    | ShowCert(number: Option<int>)
    | DeleteCert(number: Option<int>)
    | BadCertRequest

  /**
   * The branches of cmd_AT_CIPSSLCERT, tried in order: the bare command
   * loads, "?" lists, "?n" shows certificate n, "=DELETE,n" deletes it.
   */
  function CertRequestOf(buf: seq<byte>, len: nat): (r: CertRequest)
    ensures r == LoadCert <==> len == 15
    ensures r == ListCerts <==> At(buf, 13) == QUESTION && len == 16
    ensures r.ShowCert? <==> At(buf, 13) == QUESTION && 17 <= len <= 18
    ensures r.ShowCert? ==> (r.number.Some? <==> NumberScan(buf, 14, 0).ok)
    ensures r.DeleteCert? <==> CommandTable.TextAt(buf, 13, "=DELETE,") && 22 <= len <= 25
    ensures r.DeleteCert? ==> (r.number.Some? <==> NumberScan(buf, 21, 0).ok)
    ensures r == BadCertRequest <==>
              len != 15 && !(At(buf, 13) == QUESTION && 16 <= len <= 18)
              && !(CommandTable.TextAt(buf, 13, "=DELETE,") && 22 <= len <= 25)
  {
    if len == 15 then LoadCert
    else if At(buf, 13) == QUESTION && len == 16 then ListCerts
    else if At(buf, 13) == QUESTION && 16 <= len <= 18 then
      var n := NumberScan(buf, 14, 0);
      ShowCert(if n.ok then Some(n.value) else None)
    else if CommandTable.TextAt(buf, 13, "=DELETE,") && 22 <= len <= 25 then
      var n := NumberScan(buf, 21, 0);
      DeleteCert(if n.ok then Some(n.value) else None)
    else BadCertRequest
  }
}
