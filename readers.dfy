/**
 * Readers: the argument parsing of the AT+UART, AT+CIPSTA / AT+CIPAP,
 * AT+CIPCLOSE and AT+CIPSERVER handlers (ESP_ATMod/command.cpp), as
 * methods over the input buffer and its fill count. Each is proved equal
 * to the argument function of the Arguments module.
 */
module Readers {
  import opened Bytes
  import opened Scanners
  import opened Arguments
  import Settings

  // ---------------------------------------------------------------------------
  // AT+UART= (command.cpp:568-597)

  /** The five readNumber calls of the set form, with their checks: the baud rate first. */
  method ReadUartSetting(inputBuffer: array<byte>, inputBufferCnt: nat, off: nat) returns (setting: Option<UartSetting>)
    ensures setting == UartArg(inputBuffer[..], inputBufferCnt, off)
  {
    var ok, next, baudRate := ReadNumber(inputBuffer, off, 0);
    if !ok || baudRate < 110 || baudRate > 921600 || At(inputBuffer[..], next) != COMMA {
      return None;
    }
    setting := ReadUartDataBits(inputBuffer, inputBufferCnt, next + 1, baudRate);
  }

  /** The data bits, 5 to 8. */
  method ReadUartDataBits(inputBuffer: array<byte>, inputBufferCnt: nat, off: nat, baudRate: int) returns (setting: Option<UartSetting>)
    ensures setting == UartDataBitsArg(inputBuffer[..], inputBufferCnt, off, baudRate)
  {
    var ok, next, dataBits := ReadNumber(inputBuffer, off, 0);
    if !ok || dataBits < 5 || dataBits > 8 || At(inputBuffer[..], next) != COMMA {
      return None;
    }
    setting := ReadUartStopBits(inputBuffer, inputBufferCnt, next + 1, baudRate, dataBits);
  }

  /** The stop bits, 1 to 3. */
  method ReadUartStopBits(inputBuffer: array<byte>, inputBufferCnt: nat, off: nat, baudRate: int, dataBits: int) returns (setting: Option<UartSetting>)
    ensures setting == UartStopBitsArg(inputBuffer[..], inputBufferCnt, off, baudRate, dataBits)
  {
    var ok, next, stopBits := ReadNumber(inputBuffer, off, 0);
    if !ok || stopBits < 1 || stopBits > 3 || At(inputBuffer[..], next) != COMMA {
      return None;
    }
    setting := ReadUartParity(inputBuffer, inputBufferCnt, next + 1, baudRate, dataBits, stopBits);
  }

  /** The parity, 0 to 2, and the flow control, which must be 0. */
  method ReadUartParity(inputBuffer: array<byte>, inputBufferCnt: nat, off: nat, baudRate: int, dataBits: int, stopBits: int) returns (setting: Option<UartSetting>)
    ensures setting == UartParityArg(inputBuffer[..], inputBufferCnt, off, baudRate, dataBits, stopBits)
  {
    var ok, next, parity := ReadNumber(inputBuffer, off, 0);
    if !ok || parity > 2 || At(inputBuffer[..], next) != COMMA {
      return None;
    }
    var flow;
    ok, next, flow := ReadNumber(inputBuffer, next + 1, 0);
    if !ok || flow > 3 || inputBufferCnt != next + 2 {
      return None;
    }
    if flow != 0 {
      // NOT IMPLEMENTED
      return None;
    }
    return Some(UartSetting(baudRate, UartFormat(dataBits, stopBits, parity)));
  }

  // ---------------------------------------------------------------------------
  // AT+CIPSTA= and AT+CIPAP= (command.cpp:1253-1302, 1380-1428)

  /**
   * The address list of the set form, with a lone address 0 read as an
   * all-zero configuration.
   */
  method ReadIpConfig(inputBuffer: array<byte>, inputBufferCnt: nat, off: nat) returns (cfg: Option<Settings.IpConfig>)
    ensures cfg == IpConfigArg(inputBuffer[..], inputBufferCnt, off)
  {
    var parsed := ReadParsedConfig(inputBuffer, inputBufferCnt, off);
    if parsed.None? {
      return None;
    }
    var p := parsed.value;
    if p.ip != 0 || p.gw.Some? {
      return Some(Settings.IpConfig(p.ip, p.gw.value, p.mask.value));
    }
    return Some(Settings.IpConfig(0, 0, 0));
  }

  /** The address list as the handler reads it: one address that closes the line, or three. */
  method ReadParsedConfig(inputBuffer: array<byte>, inputBufferCnt: nat, off: nat) returns (parsed: Option<ParsedConfig>)
    ensures parsed == IpConfigArgAsWritten(inputBuffer[..], inputBufferCnt, off)
  {
    var ok, next, ip := ReadIpAddress(inputBuffer, off, 0);
    if !ok {
      return None;
    }
    if At(inputBuffer[..], next) != COMMA {
      if inputBufferCnt != next + 2 {
        return None;
      }
      if ip != 0 {
        return Some(ParsedConfig(ip, Some(Gateway(ip)), Some(NETMASK_24)));
      }
      return Some(ParsedConfig(0, None, None));
    }
    parsed := ReadGateway(inputBuffer, inputBufferCnt, next + 1, ip);
  }

  /** The gateway and its comma. */
  method ReadGateway(inputBuffer: array<byte>, inputBufferCnt: nat, off: nat, ip: int) returns (parsed: Option<ParsedConfig>)
    ensures parsed == ConfigGatewayArg(inputBuffer[..], inputBufferCnt, off, ip)
  {
    var ok, next, gw := ReadIpAddress(inputBuffer, off, 0);
    if !ok || At(inputBuffer[..], next) != COMMA {
      return None;
    }
    parsed := ReadMask(inputBuffer, inputBufferCnt, next + 1, ip, gw);
  }

  /** The mask, which closes the line. */
  method ReadMask(inputBuffer: array<byte>, inputBufferCnt: nat, off: nat, ip: int, gw: int) returns (parsed: Option<ParsedConfig>)
    ensures parsed == ConfigMaskArg(inputBuffer[..], inputBufferCnt, off, ip, gw)
  {
    var ok, next, mask := ReadIpAddress(inputBuffer, off, 0);
    if !ok || inputBufferCnt != next + 2 {
      return None;
    }
    return Some(ParsedConfig(ip, Some(gw), Some(mask)));
  }

  // ---------------------------------------------------------------------------
  // AT+CIPCLOSE (command.cpp:1939-1960)

  /** The link AT+CIPCLOSE names. */
  method ReadCloseLink(inputBuffer: array<byte>, inputBufferCnt: nat, mux: int) returns (link: Option<int>)
    ensures link == CloseArg(inputBuffer[..], inputBufferCnt, mux)
  {
    if At(inputBuffer[..], 11) == EQUALS {
      var ok, offset, linkId := ReadNumber(inputBuffer, 12, 0);
      if !ok || linkId > ALL_LINKS || inputBufferCnt != offset + 2 || mux == 0 {
        return None;
      }
      return Some(linkId);
    } else if inputBufferCnt != 13 || mux != 0 {
      return None;
    }
    return Some(0);
  }

  // ---------------------------------------------------------------------------
  // AT+CIPSERVER= (command.cpp:2095-2121)

  /** The argument of AT+CIPSERVER=. */
  method ReadServerArg(inputBuffer: array<byte>, inputBufferCnt: nat) returns (arg: Option<ServerArg>)
    ensures arg == ServerArgOf(inputBuffer[..], inputBufferCnt)
  {
    if At(inputBuffer[..], 12) != EQUALS {
      return None;
    }
    var c := At(inputBuffer[..], 13);
    if c != 0x30 && c != 0x31 {
      return None;
    }
    var stop := c == 0x30;
    if inputBufferCnt > 16 {
      if At(inputBuffer[..], 14) != COMMA {
        return None;
      }
      var ok, offset, port := ReadNumber(inputBuffer, 15, 0);
      if !ok || port > 65535 || inputBufferCnt != offset + 2 {
        return None;
      }
      return Some(ServerArg(stop, port));
    } else if !stop {
      return Some(ServerArg(false, DEFAULT_SERVER_PORT));
    }
    return Some(ServerArg(true, 0));
  }
}
