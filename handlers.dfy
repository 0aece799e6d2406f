/**
 * Handlers: the global state of the AT command front end and the command
 * handlers that check their arguments and change it
 * (ESP_ATMod/command.cpp, ESP_ATMod/ESP_ATMod.h).
 *
 * The globals are the fields of Engine. WiFi, TCP and TLS work is not
 * modelled: where a handler depends on its outcome (the WiFi mode, whether
 * a server starts, whether the PEM buffer is allocated) the outcome is a
 * parameter, and replies are reduced to OK or ERROR.
 */
module Handlers {
  import opened Bytes
  import opened Scanners
  import opened CommandTable
  import opened Fingerprint
  import opened Arguments
  import opened Tables
  import opened Readers
  import Settings

  /** INPUT_BUFFER_LEN: the size of inputBuffer. */
  const INPUT_BUFFER_LEN: nat := 100

  /** What a handler prints last: MSG_OK or MSG_ERROR. */
  datatype Reply = Ok | Error

  /** WiFi.getMode(). */
  datatype WifiMode = WifiOff | WifiSta | WifiAp | WifiApSta

  /** Outcomes of code outside the model that the handlers branch on. */
  datatype World = World(wifiMode: WifiMode, pemAllocated: bool, serverBegins: bool)

  /** What an AT+UART query reports: the baud rate and the frame format. */
  datatype UartReport = UartReport(baudRate: int, format: UartFormat)

  /** The report of AT+UART_DEF? for the stored settings. */
  function StoredUartReport(f: Settings.Fields): UartReport
  {
    UartReport(f.uartBaudRate, UartUnpack(f.uartConfig))
  }

  /**
   * After AT+UART_DEF= (or AT+UART=) stores a setting, the next
   * AT+UART_DEF? reports it back.
   */
  lemma UartSetThenQuery(f: Settings.Fields, crc: Settings.Crc, s: UartSetting)
    requires 110 <= s.baudRate && ValidFormat(s.format)
    ensures StoredUartReport(Settings.Current(Settings.Seal(
              f.(uartBaudRate := s.baudRate, uartConfig := UartPack(s.format)), crc), crc))
            == UartReport(s.baudRate, s.format)
  {
    Settings.CurrentOfSealed(f.(uartBaudRate := s.baudRate, uartConfig := UartPack(s.format)), crc);
    UartRoundTrip(s.format);
  }

  /**
   * AT+CIPSSLAUTH=mode is taken when mode 1 has a valid fingerprint and
   * mode 2 a loaded CA certificate.
   */
  predicate SslAuthAllowed(mode: int, fingerprintValid: bool, certCount: nat)
  {
    !(mode == 1 && !fingerprintValid) && !(mode == 2 && certCount == 0)
  }

  /** The scalar globals, as one value. */
  datatype State = State(
    inputBufferCnt: nat, gsEchoEnabled: bool, gsCipMux: int, gsCwDhcp: int,
    gsLinkIdReading: int, dataRead: int, gsCertLoading: bool, gsCipSslAuth: int,
    gsCipSslSize: int, gsServersMaxConn: int, gsServerConnTimeout: int,
    gsCipStaCfg: Settings.IpConfig, gsCipApCfg: Settings.IpConfig, apIpConfig: Settings.IpConfig,
    serialBaudRate: nat, serialConfig: nat,
    fingerprintValid: bool, caStore: seq<seq<byte>>, maximumCertificates: int)

  /** A received line: the buffer's bytes and the count of those received. */
  datatype Line = Line(buf: seq<byte>, len: nat)

  /**
   * The globals but inputBufferCnt, the client and server tables, the
   * fingerprint and the stored settings record.
   */
  datatype Snapshot = Snapshot(vars: State, clients: seq<Client>, servers: seq<Server>,
                               fingerprint: seq<byte>, image: Settings.Record)

  /** The commands of the echo, UART and address handlers. */
  predicate SetupCommand(cmd: Command)
  {
    match cmd
    case CmdAte | CmdAtUart | CmdAtUartCur | CmdAtUartDef | CmdAtCipsta | CmdAtCipstaCur |
      CmdAtCipstaDef | CmdAtCipap | CmdAtCipapCur | CmdAtCipapDef => true
    case _ => false
  }

  /** The commands of the link and server handlers. */
  predicate LinkCommand(cmd: Command)
  {
    match cmd
    case CmdAtCipsslsize | CmdAtCipsend | CmdAtCipclose | CmdAtCipmux | CmdAtCipserver |
      CmdAtCipservermaxconn | CmdAtCipsto => true
    case _ => false
  }

  /** The commands of the TLS handlers. */
  predicate TlsCommand(cmd: Command)
  {
    match cmd
    case CmdAtCipsslauth | CmdAtCipsslfp | CmdAtCipsslcert => true
    case _ => false
  }

  /** The commands whose handlers may rewrite the stored settings. */
  predicate StoresSettings(cmd: Command)
  {
    match cmd
    case CmdAtUart | CmdAtUartCur | CmdAtUartDef | CmdAtCipsta | CmdAtCipstaCur |
      CmdAtCipstaDef => true
    case _ => false
  }

  /** The commands whose handlers this model covers. */
  predicate Modelled(cmd: Command)
  {
    cmd == CmdError || cmd == CmdAt || SetupCommand(cmd) || LinkCommand(cmd) || TlsCommand(cmd)
  }

  class Engine {
    /** inputBuffer and inputBufferCnt: the received line. */
    const inputBuffer: array<byte>
    var inputBufferCnt: nat

    var gsEchoEnabled: bool
    var gsCipMux: int
    var gsCwDhcp: int
    var gsLinkIdReading: int
    var dataRead: int
    var gsCertLoading: bool
    var gsCipSslAuth: int
    var gsCipSslSize: int
    var gsServersMaxConn: int
    var gsServerConnTimeout: int
    var gsCipStaCfg: Settings.IpConfig
    var gsCipApCfg: Settings.IpConfig
    /** The stored SoftAP configuration of Settings::getApIpConfig / setApIpConfig. */
    var apIpConfig: Settings.IpConfig
    /** The running serial port: Serial.baudRate() and the USC0 register. */
    var serialBaudRate: nat
    var serialConfig: nat

    const clients: array<Client>
    const servers: array<Server>

    /** fingerprint[20], fingerprintValid and the CA store CAcert with its limit. */
    const fingerprint: array<byte>
    var fingerprintValid: bool
    var caStore: seq<seq<byte>>
    var maximumCertificates: int

    /** The EEPROM behind Settings, and its CRC-32. */
    const eeprom: Settings.Eeprom
    const crc: Settings.Crc

    ghost predicate Valid()
      reads this
    {
      inputBuffer.Length == INPUT_BUFFER_LEN && clients.Length == CLIENT_COUNT
      && fingerprint.Length == FINGERPRINT_LENGTH && inputBuffer != fingerprint
      && inputBufferCnt <= INPUT_BUFFER_LEN
    }

    function Globals(): State
      reads this
    {
      State(inputBufferCnt, gsEchoEnabled, gsCipMux, gsCwDhcp, gsLinkIdReading, dataRead,
              gsCertLoading, gsCipSslAuth, gsCipSslSize, gsServersMaxConn, gsServerConnTimeout,
              gsCipStaCfg, gsCipApCfg, apIpConfig, serialBaudRate, serialConfig,
              fingerprintValid, caStore, maximumCertificates)
    }

    /** The globals but inputBufferCnt, which processCommandBuffer clears after every command. */
    function Vars(): State
      reads this
    {
      Globals().(inputBufferCnt := 0)
    }

    /** The received line: inputBuffer and inputBufferCnt. */
    function Input(): Line
      reads this, inputBuffer
    {
      Line(inputBuffer[..], inputBufferCnt)
    }

    /** Everything a handler may change, as one value. */
    function Now(): Snapshot
      reads this, clients, servers, fingerprint, eeprom
    {
      Snapshot(Vars(), clients[..], servers[..], fingerprint[..], eeprom.image)
    }

    /**
     * The globals as the firmware starts. Their initialisation is not part
     * of this model: every value starts at zero, every slot empty and every
     * server closed; the servers array holds serversCount entries, and the
     * certificate maximum is maxCertificates, the value the firmware reads
     * from the settings at start-up.
     */
    constructor(serversCount: nat, maxCertificates: nat, eeprom: Settings.Eeprom, crc: Settings.Crc)
      ensures Valid() && servers.Length == serversCount
      ensures this.eeprom == eeprom && this.crc == crc && maximumCertificates == maxCertificates
      ensures inputBufferCnt == 0 && caStore == [] && !fingerprintValid
      ensures forall i :: 0 <= i < CLIENT_COUNT ==> !clients[i].present
      ensures forall i :: 0 <= i < serversCount ==> !servers[i].open
    {
      inputBuffer := new byte[INPUT_BUFFER_LEN];
      inputBufferCnt := 0;
      gsEchoEnabled, gsCipMux, gsCwDhcp, gsLinkIdReading, dataRead := false, 0, 0, 0, 0;
      gsCertLoading, gsCipSslAuth, gsCipSslSize := false, 0, 0;
      gsServersMaxConn, gsServerConnTimeout := 0, 0;
      gsCipStaCfg, gsCipApCfg, apIpConfig := Settings.IpConfig(0, 0, 0), Settings.IpConfig(0, 0, 0), Settings.IpConfig(0, 0, 0);
      serialBaudRate, serialConfig := 0, 0;
      clients := new Client[CLIENT_COUNT](_ => Client(false, false, TypeNone, 0, 0));
      servers := new Server[serversCount](_ => Server(0, false));
      fingerprint := new byte[FINGERPRINT_LENGTH];
      fingerprintValid, caStore, maximumCertificates := false, [], maxCertificates;
      this.eeprom := eeprom;
      this.crc := crc;
    }

    // -------------------------------------------------------------------------
    // processCommandBuffer (command.cpp:210-422)

    /**
     * Resolves the line with findCommand, runs the handler of the command
     * and clears the buffer. reply is None for the commands whose handlers
     * are not part of this model; those leave the state as it was.
     */
    method ProcessCommandBuffer(world: World) returns (cmd: Command, reply: Option<Reply>)
      requires Valid()
      modifies this, clients, servers, fingerprint, eeprom
      ensures Valid()
      ensures cmd == Resolve(old(inputBuffer[..]), old(inputBufferCnt))
      ensures inputBufferCnt == 0 && inputBuffer[..] == old(inputBuffer[..])
      ensures reply.Some? <==> Modelled(cmd)
      ensures (reply, Now()) == Effect(old(Input()), old(Now()), cmd, world)
      ensures !StoresSettings(cmd) ==> eeprom.writes == old(eeprom.writes)
    {
      cmd := FindCommand(inputBuffer, inputBufferCnt);
      reply := Execute(cmd, world);
    }

    /** Runs the handler of cmd and clears the buffer. */
    method Execute(cmd: Command, world: World) returns (reply: Option<Reply>)
      requires Valid()
      modifies this, clients, servers, fingerprint, eeprom
      ensures Valid()
      ensures inputBufferCnt == 0 && inputBuffer[..] == old(inputBuffer[..])
      ensures reply.Some? <==> Modelled(cmd)
      ensures (reply, Now()) == Effect(old(Input()), old(Now()), cmd, world)
      ensures !StoresSettings(cmd) ==> eeprom.writes == old(eeprom.writes)
    {
      reply := Dispatch(cmd, world);
      ghost var handled := Now();
      inputBufferCnt := 0;
      assert Now() == handled;
    }

    /** The switch of processCommandBuffer: the handler of cmd, with the line still in the buffer. */
    method Dispatch(cmd: Command, world: World) returns (reply: Option<Reply>)
      requires Valid()
      modifies this, clients, servers, fingerprint, eeprom
      ensures Valid() && inputBufferCnt == old(inputBufferCnt)
      ensures reply.Some? <==> Modelled(cmd)
      ensures (reply, Now()) == Effect(old(Input()), old(Now()), cmd, world)
      ensures !StoresSettings(cmd) ==> eeprom.writes == old(eeprom.writes)
    {
      if SetupCommand(cmd) {
        var r := RunSetup(cmd, world);
        reply := Some(r);
      } else if LinkCommand(cmd) {
        var r := RunLink(cmd, world);
        reply := Some(r);
      } else if TlsCommand(cmd) {
        var r := RunTls(cmd, world);
        reply := Some(r);
      } else if cmd == CmdAt {
        reply := Some(Ok);
      } else if cmd == CmdError {
        reply := Some(Error);
      } else {
        reply := None;
      }
    }

    /**
     * What processCommandBuffer does for cmd: the reply and the new state
     * of its handler; "AT" is OK and the error command ERROR, and those and
     * the commands whose handlers are not part of this model (no reply)
     * change nothing.
     */
    function Effect(line: Line, before: Snapshot, cmd: Command, world: World): (Option<Reply>, Snapshot)
      requires |before.clients| == CLIENT_COUNT
    {
      if SetupCommand(cmd) then var o := SetupEffect(line, before, cmd, world); (Some(o.0), o.1)
      else if LinkCommand(cmd) then var o := LinkEffect(line, before, cmd, world); (Some(o.0), o.1)
      else if TlsCommand(cmd) then var o := TlsEffect(line, before, cmd, world); (Some(o.0), o.1)
      else if cmd == CmdAt then (Some(Ok), before)
      else if cmd == CmdError then (Some(Error), before)
      else (None, before)
    }

    /** The effect of the echo, UART or address handler for cmd. */
    function SetupEffect(line: Line, before: Snapshot, cmd: Command, world: World): (Reply, Snapshot)
    {
      if cmd == CmdAte then AteEffect(line, before)
      else if cmd == CmdAtCipsta || cmd == CmdAtCipstaCur || cmd == CmdAtCipstaDef then
        CipStaEffect(line, before, cmd, world.wifiMode)
      else if cmd == CmdAtCipap || cmd == CmdAtCipapCur || cmd == CmdAtCipapDef then
        CipApEffect(line, before, cmd, world.wifiMode)
      else UartEffect(line, before, cmd)
    }

    /** The effect of the link or server handler for cmd. */
    function LinkEffect(line: Line, before: Snapshot, cmd: Command, world: World): (Reply, Snapshot)
      requires |before.clients| == CLIENT_COUNT
    {
      if cmd == CmdAtCipsslsize then CipSslSizeEffect(line, before)
      else if cmd == CmdAtCipsend then CipSendEffect(line, before)
      else if cmd == CmdAtCipclose then CipCloseEffect(line, before)
      else if cmd == CmdAtCipmux then CipMuxEffect(line, before)
      else if cmd == CmdAtCipserver then CipServerEffect(line, before, world.serverBegins)
      else if cmd == CmdAtCipservermaxconn then CipServerMaxConnEffect(line, before)
      else CipStoEffect(line, before)
    }

    /** The effect of the TLS handler for cmd. */
    function TlsEffect(line: Line, before: Snapshot, cmd: Command, world: World): (Reply, Snapshot)
    {
      if cmd == CmdAtCipsslauth then CipSslAuthEffect(line, before)
      else if cmd == CmdAtCipsslfp then CipSslFpEffect(line, before)
      else CipSslCertEffect(line, before, world.pemAllocated)
    }

    /** The branches of processCommandBuffer for echo, UART and addresses. */
    method RunSetup(cmd: Command, world: World) returns (r: Reply)
      requires Valid() && SetupCommand(cmd)
      modifies this, eeprom
      ensures Valid() && inputBufferCnt == old(inputBufferCnt)
      ensures (r, Now()) == SetupEffect(old(Input()), old(Now()), cmd, world)
      ensures !StoresSettings(cmd) ==> eeprom.writes == old(eeprom.writes)
    {
      if cmd == CmdAte {
        r := Ate();
      } else if cmd == CmdAtCipsta || cmd == CmdAtCipstaCur || cmd == CmdAtCipstaDef {
        r := CipSta(cmd, world.wifiMode);
      } else if cmd == CmdAtCipap || cmd == CmdAtCipapCur || cmd == CmdAtCipapDef {
        r := CipAp(cmd, world.wifiMode);
      } else {
        var report;
        r, report := Uart(cmd);
      }
    }

    /** The branches of processCommandBuffer for links and servers. */
    method RunLink(cmd: Command, world: World) returns (r: Reply)
      requires Valid() && LinkCommand(cmd)
      modifies this, clients, servers
      ensures Valid() && inputBufferCnt == old(inputBufferCnt)
      ensures (r, Now()) == LinkEffect(old(Input()), old(Now()), cmd, world)
    {
      if cmd == CmdAtCipsslsize {
        r := CipSslSize();
      } else if cmd == CmdAtCipsend {
        r := CipSend();
      } else if cmd == CmdAtCipclose {
        r := CipClose();
      } else if cmd == CmdAtCipmux {
        r := CipMux();
      } else if cmd == CmdAtCipserver {
        r := CipServer(world.serverBegins);
      } else if cmd == CmdAtCipservermaxconn {
        r := CipServerMaxConn();
      } else {
        r := CipSto();
      }
    }

    /** The branches of processCommandBuffer for TLS authentication. */
    method RunTls(cmd: Command, world: World) returns (r: Reply)
      requires Valid() && TlsCommand(cmd)
      modifies this, fingerprint
      ensures Valid() && inputBufferCnt == old(inputBufferCnt)
      ensures (r, Now()) == TlsEffect(old(Input()), old(Now()), cmd, world)
    {
      if cmd == CmdAtCipsslauth {
        r := CipSslAuth();
      } else if cmd == CmdAtCipsslfp {
        r := CipSslFp();
      } else {
        var shown;
        r, shown := CipSslCert(world.pemAllocated);
      }
    }

    // -------------------------------------------------------------------------
    // ATE (command.cpp:479-491)

    /** ATE0 turns echo off, ATE1 on; anything else is ERROR and changes nothing. */
    function AteEffect(line: Line, before: Snapshot): (Reply, Snapshot)
    {
      var arg := RangedArg(line.buf, line.len, ECHO_ARG, 0, 1);
      if arg.Some? then (Ok, before.(vars := before.vars.(gsEchoEnabled := arg.value == 1)))
      else (Error, before)
    }

    /** ATE0 / ATE1: echo off or on; any other argument is an error. */
    method Ate() returns (reply: Reply)
      requires Valid()
      modifies this
      ensures Valid() && inputBufferCnt == old(inputBufferCnt)
      ensures (reply, Now()) == AteEffect(old(Input()), old(Now()))
    {
      var ok, offset, echo := ReadNumber(inputBuffer, ECHO_ARG, 0);
      if !ok || echo > 1 || inputBufferCnt != offset + 2 {
        return Error;
      }
      gsEchoEnabled := echo == 1;
      return Ok;
    }

    // -------------------------------------------------------------------------
    // AT+UART, AT+UART_CUR, AT+UART_DEF (command.cpp:509-628)

    /**
     * The UART command's effect: the query changes no global (a _DEF query
     * rewrites the stored record sealed); the set form with five valid
     * numbers reconfigures the port and, except for _CUR, stores the
     * setting; anything else is ERROR and changes nothing.
     */
    function UartEffect(line: Line, before: Snapshot, cmd: Command): (Reply, Snapshot)
    {
      var buf, len, off := line.buf, line.len, UartOffset(cmd);
      var arg := UartArg(buf, len, off + 1);
      if At(buf, off) == QUESTION && len == off + 3 then
        (Ok, if cmd == CmdAtUartDef then before.(image := Settings.Seal(Settings.Current(before.image, crc), crc))
             else before)
      else if At(buf, off) == EQUALS && arg.Some? then
        var baudRate, config := arg.value.baudRate, UartPack(arg.value.format);
        (Ok, before.(vars := before.vars.(serialBaudRate := baudRate, serialConfig := config),
                     image := if cmd != CmdAtUartCur
                              then Settings.Seal(Settings.Current(before.image, crc).(
                                     uartBaudRate := baudRate, uartConfig := config), crc)
                              else before.image))
      else (Error, before)
    }

    /** What the UART query reports: the stored setting for _DEF, the running port's otherwise. */
    function UartReportOf(line: Line, before: Snapshot, cmd: Command): Option<UartReport>
    {
      var off := UartOffset(cmd);
      if At(line.buf, off) == QUESTION && line.len == off + 3
      then Some(if cmd == CmdAtUartDef then StoredUartReport(Settings.Current(before.image, crc))
                else UartReport(before.vars.serialBaudRate, UartUnpack(before.vars.serialConfig)))
      else None
    }

    /**
     * The UART command: the query reports the stored setting (_DEF) or the
     * running port's; the set form reconfigures the port and, except for
     * _CUR, stores the setting.
     */
    method Uart(cmd: Command) returns (reply: Reply, report: Option<UartReport>)
      requires Valid() && (cmd == CmdAtUart || cmd == CmdAtUartCur || cmd == CmdAtUartDef)
      modifies this, eeprom
      ensures Valid() && inputBufferCnt == old(inputBufferCnt)
      ensures (reply, Now()) == UartEffect(old(Input()), old(Now()), cmd)
      ensures report == UartReportOf(old(Input()), old(Now()), cmd)
    {
      var off := UartOffset(cmd);
      if At(inputBuffer[..], off) == QUESTION && inputBufferCnt == off + 3 {
        var r := UartQuery(cmd);
        return Ok, Some(r);
      } else if At(inputBuffer[..], off) == EQUALS {
        var setting := ReadUartSetting(inputBuffer, inputBufferCnt, off + 1);
        if setting.None? {
          return Error, None;
        }
        UartSet(cmd, setting.value);
        return Ok, None;
      }
      return Error, None;
    }

    /** The query form: the stored setting for _DEF, the running port's otherwise. */
    method UartQuery(cmd: Command) returns (report: UartReport)
      modifies eeprom
      ensures report == if cmd == CmdAtUartDef then StoredUartReport(Settings.Current(old(eeprom.image), crc))
                        else UartReport(serialBaudRate, UartUnpack(serialConfig))
      ensures eeprom.image == if cmd == CmdAtUartDef then Settings.Seal(Settings.Current(old(eeprom.image), crc), crc)
                              else old(eeprom.image)
    {
      if cmd == CmdAtUartDef {
        ghost var before := Settings.Current(eeprom.image, crc);
        var config := Settings.GetUartConfig(eeprom, crc);
        Settings.CurrentOfSealed(before, crc);
        var baudRate := Settings.GetUartBaudRate(eeprom, crc);
        report := UartReport(baudRate, UartUnpack(config));
      } else {
        report := UartReport(serialBaudRate, UartUnpack(serialConfig));
      }
    }

    /** The set form, once its five numbers are read: the port restarts with the setting. */
    method UartSet(cmd: Command, setting: UartSetting)
      requires 110 <= setting.baudRate && ValidFormat(setting.format)
      modifies this, eeprom
      ensures Globals() == old(Globals()).(serialBaudRate := setting.baudRate, serialConfig := UartPack(setting.format))
      ensures eeprom.image == if cmd != CmdAtUartCur
                              then Settings.Seal(Settings.Current(old(eeprom.image), crc).(
                                     uartBaudRate := setting.baudRate, uartConfig := UartPack(setting.format)), crc)
                              else old(eeprom.image)
    {
      var baudRate, config := setting.baudRate, UartPack(setting.format);
      serialBaudRate, serialConfig := baudRate, config;
      if cmd != CmdAtUartCur {
        StoreUart(baudRate, config);
      }
    }

    /** Settings::setUartBaudRate followed by Settings::setUartConfig. */
    method StoreUart(baudRate: nat, config: nat)
      modifies eeprom
      ensures eeprom.image == Settings.Seal(Settings.Current(old(eeprom.image), crc).(
                uartBaudRate := baudRate, uartConfig := config), crc)
    {
      ghost var before := Settings.Current(eeprom.image, crc);
      Settings.SetUartBaudRate(eeprom, crc, baudRate);
      Settings.CurrentOfSealed(before.(uartBaudRate := baudRate), crc);
      Settings.SetUartConfig(eeprom, crc, config);
    }

    // -------------------------------------------------------------------------
    // AT+CIPSTA and AT+CIPAP (command.cpp:1208-1322, 1327-1442)

    /**
     * AT+CIPSTA's effect outside SoftAP-only mode: the query changes no
     * global (a _DEF query rewrites the stored record sealed); the set form
     * with valid addresses takes the station configuration, stops DHCP and,
     * except for _CUR, stores both; anything else is ERROR and changes nothing.
     */
    function CipStaEffect(line: Line, before: Snapshot, cmd: Command, mode: WifiMode): (Reply, Snapshot)
    {
      var buf, len, off := line.buf, line.len, CipStaOffset(cmd);
      if mode == WifiAp then (Error, before)
      else if At(buf, off) == QUESTION && len == off + 3 then
        (Ok, if cmd == CmdAtCipstaDef then before.(image := Settings.Seal(Settings.Current(before.image, crc), crc))
             else before)
      else if At(buf, off) == EQUALS then CipStaSetEffect(line, before, cmd)
      else (Error, before)
    }

    /** The set form of AT+CIPSTA, from the '=' on. */
    function CipStaSetEffect(line: Line, before: Snapshot, cmd: Command): (Reply, Snapshot)
    {
      match IpConfigArg(line.buf, line.len, CipStaOffset(cmd) + 1)
      case None => (Error, before)
      case Some(cfg) => (Ok, StationApplied(before, cmd, cfg))
    }

    /**
     * Static addressing with cfg: the station configuration is taken, DHCP
     * stops and, except for _CUR, both are stored.
     */
    function StationApplied(before: Snapshot, cmd: Command, cfg: Settings.IpConfig): Snapshot
    {
      before.(vars := before.vars.(gsCipStaCfg := cfg, gsCwDhcp := 1),
              image := if cmd != CmdAtCipstaCur
                       then Settings.Seal(Settings.Current(before.image, crc).(netConfig := cfg, dhcpMode := 1), crc)
                       else before.image)
    }

    /**
     * AT+CIPAP's effect outside station-only mode: the set form with valid
     * addresses takes the SoftAP configuration and, except for _CUR,
     * stores it; the query changes nothing; anything else is ERROR.
     */
    function CipApEffect(line: Line, before: Snapshot, cmd: Command, mode: WifiMode): (Reply, Snapshot)
    {
      var buf, len, off := line.buf, line.len, CipApOffset(cmd);
      var arg := IpConfigArg(buf, len, off + 1);
      if mode == WifiSta then (Error, before)
      else if At(buf, off) == QUESTION && len == off + 3 then (Ok, before)
      else if At(buf, off) == EQUALS && arg.Some? then
        (Ok, before.(vars := before.vars.(gsCipApCfg := arg.value,
                                          apIpConfig := if cmd != CmdAtCipapCur then arg.value else before.vars.apIpConfig)))
      else (Error, before)
    }

    /**
     * AT+CIPSTA: refused in SoftAP-only mode. The set form takes the
     * station configuration, stops DHCP and, except for _CUR, stores both.
     */
    method CipSta(cmd: Command, mode: WifiMode) returns (reply: Reply)
      requires Valid() && (cmd == CmdAtCipsta || cmd == CmdAtCipstaCur || cmd == CmdAtCipstaDef)
      modifies this, eeprom
      ensures Valid() && inputBufferCnt == old(inputBufferCnt)
      ensures (reply, Now()) == CipStaEffect(old(Input()), old(Now()), cmd, mode)
    {
      if mode == WifiAp {
        return Error;
      }
      var off := CipStaOffset(cmd);
      if At(inputBuffer[..], off) == QUESTION && inputBufferCnt == off + 3 {
        if cmd == CmdAtCipstaDef {
          var cfg := Settings.GetNetConfig(eeprom, crc);
        }
        return Ok;
      } else if At(inputBuffer[..], off) == EQUALS {
        reply := CipStaSet(cmd);
        return;
      }
      return Error;
    }

    /** AT+CIPSTA=: read the three addresses and, when they are valid, apply them. */
    method CipStaSet(cmd: Command) returns (reply: Reply)
      requires Valid() && (cmd == CmdAtCipsta || cmd == CmdAtCipstaCur || cmd == CmdAtCipstaDef)
      modifies this, eeprom
      ensures Valid() && inputBufferCnt == old(inputBufferCnt)
      ensures (reply, Now()) == CipStaSetEffect(old(Input()), old(Now()), cmd)
    {
      var cfg := ReadIpConfig(inputBuffer, inputBufferCnt, CipStaOffset(cmd) + 1);
      if cfg.None? {
        return Error;
      }
      ApplyStationConfig(cmd, cfg.value);
      return Ok;
    }

    /** The set form, once the addresses are read: static addressing with cfg. */
    method ApplyStationConfig(cmd: Command, cfg: Settings.IpConfig)
      modifies this, eeprom
      ensures Now() == StationApplied(old(Now()), cmd, cfg)
      ensures Globals() == old(Globals()).(gsCipStaCfg := cfg, gsCwDhcp := 1)
      ensures eeprom.image == if cmd != CmdAtCipstaCur
                              then Settings.Seal(Settings.Current(old(eeprom.image), crc).(netConfig := cfg, dhcpMode := 1), crc)
                              else old(eeprom.image)
    {
      if cmd != CmdAtCipstaCur {
        StoreNetConfig(cfg);
      }
      gsCipStaCfg := cfg;
      gsCwDhcp := 1;
    }

    /** Settings::setNetConfig followed by Settings::setDhcpMode(1). */
    method StoreNetConfig(cfg: Settings.IpConfig)
      modifies eeprom
      ensures eeprom.image == Settings.Seal(Settings.Current(old(eeprom.image), crc).(netConfig := cfg, dhcpMode := 1), crc)
    {
      ghost var before := Settings.Current(eeprom.image, crc);
      Settings.SetNetConfig(eeprom, crc, cfg);
      Settings.CurrentOfSealed(before.(netConfig := cfg), crc);
      Settings.SetDhcpMode(eeprom, crc, 1);
    }

    /**
     * AT+CIPAP: refused in station-only mode. The set form takes the
     * SoftAP configuration and, except for _CUR, stores it.
     */
    method CipAp(cmd: Command, mode: WifiMode) returns (reply: Reply)
      requires Valid() && (cmd == CmdAtCipap || cmd == CmdAtCipapCur || cmd == CmdAtCipapDef)
      modifies this
      ensures Valid() && inputBufferCnt == old(inputBufferCnt)
      ensures (reply, Now()) == CipApEffect(old(Input()), old(Now()), cmd, mode)
    {
      if mode == WifiSta {
        return Error;
      }
      var off := CipApOffset(cmd);
      if At(inputBuffer[..], off) == QUESTION && inputBufferCnt == off + 3 {
        return Ok;
      } else if At(inputBuffer[..], off) == EQUALS {
        var cfg := ReadIpConfig(inputBuffer, inputBufferCnt, off + 1);
        if cfg.None? {
          return Error;
        }
        ApplyApConfig(cmd, cfg.value);
        return Ok;
      }
      return Error;
    }

    /** The set form, once the addresses are read. */
    method ApplyApConfig(cmd: Command, cfg: Settings.IpConfig)
      modifies this
      ensures Globals() == old(Globals()).(gsCipApCfg := cfg,
                                           apIpConfig := if cmd != CmdAtCipapCur then cfg else old(apIpConfig))
    {
      gsCipApCfg := cfg;
      if cmd != CmdAtCipapCur {
        apIpConfig := cfg;
      }
    }

    // -------------------------------------------------------------------------
    // AT+CIPSSLSIZE (command.cpp:1770-1798)

    /** A valid AT+CIPSSLSIZE size is taken (16384 kept as 0); anything else is ERROR. */
    function CipSslSizeEffect(line: Line, before: Snapshot): (Reply, Snapshot)
    {
      var arg := SslSizeArg(line.buf, line.len);
      if arg.Some? then (Ok, before.(vars := before.vars.(gsCipSslSize := arg.value))) else (Error, before)
    }

    method CipSslSize() returns (reply: Reply)
      requires Valid()
      modifies this
      ensures Valid() && inputBufferCnt == old(inputBufferCnt)
      ensures (reply, Now()) == CipSslSizeEffect(old(Input()), old(Now()))
    {
      if At(inputBuffer[..], 13) != EQUALS {
        return Error;
      }
      var ok, offset, sslSize := ReadNumber(inputBuffer, 14, 0);
      if ok && inputBufferCnt == offset + 2
         && (sslSize == 512 || sslSize == 1024 || sslSize == 2048 || sslSize == 4096 || sslSize == 16384) {
        if sslSize == 16384 {
          sslSize := 0;
        }
        gsCipSslSize := sslSize;
        return Ok;
      }
      return Error;
    }

    // -------------------------------------------------------------------------
    // AT+CIPSEND (command.cpp:1803-1869)

    /**
     * AT+CIPSEND's effect: with a valid link and size, on a link whose
     * client is there and connected, the link is armed for size bytes;
     * anything else is ERROR and changes nothing.
     */
    function CipSendEffect(line: Line, before: Snapshot): (Reply, Snapshot)
      requires |before.clients| == CLIENT_COUNT
    {
      var arg := SendArg(line.buf, line.len, before.vars.gsCipMux, LAST_LINK);
      if arg.Some? && before.clients[arg.value.link].present && before.clients[arg.value.link].connected then
        var link := arg.value.link;
        (Ok, before.(vars := before.vars.(gsLinkIdReading := link, dataRead := 0),
                     clients := before.clients[link := before.clients[link].(sendLength := arg.value.size)]))
      else (Error, before)
    }

    /**
     * Arms the link for the data that follows: the client must be there
     * and connected. The link digit stops at '4', the last client.
     */
    method CipSend() returns (reply: Reply)
      requires Valid()
      modifies this, clients
      ensures Valid() && inputBufferCnt == old(inputBufferCnt)
      ensures (reply, Now()) == CipSendEffect(old(Input()), old(Now()))
    {
      if At(inputBuffer[..], 10) != EQUALS {
        return Error;
      }
      var linkId, offset := 0, SEND_LINK;
      var c := At(inputBuffer[..], SEND_LINK);
      if DIGIT_ZERO <= c <= LAST_LINK && At(inputBuffer[..], SEND_LINK + 1) == COMMA {
        if gsCipMux == 0 {
          return Error;
        }
        linkId, offset := c as int - DIGIT_ZERO as int, SEND_LINK + 2;
      }
      if !clients[linkId].present || !clients[linkId].connected {
        return Error;
      }
      var ok, next, size := ReadNumber(inputBuffer, offset, 0);
      if !ok || next + 2 != inputBufferCnt || size > 2048 {
        return Error;
      }
      ArmLink(linkId, size);
      return Ok;
    }

    /** gsLinkIdReading, dataRead and the client's sendLength for the data that follows. */
    method ArmLink(linkId: nat, size: int)
      requires Valid() && linkId < CLIENT_COUNT
      modifies this, clients
      ensures Valid()
      ensures clients[..] == old(clients[..])[linkId := old(clients[linkId]).(sendLength := size)]
      ensures Globals() == old(Globals()).(gsLinkIdReading := linkId, dataRead := 0)
    {
      clients[linkId] := clients[linkId].(sendLength := size);
      gsLinkIdReading := linkId;
      dataRead := 0;
    }

    // -------------------------------------------------------------------------
    // AT+CIPCLOSE (command.cpp:1928-2001)

    /**
     * AT+CIPCLOSE's effect: a valid link that has a client, or link 5 for
     * all, is released; anything else is ERROR and changes nothing.
     */
    function CipCloseEffect(line: Line, before: Snapshot): (Reply, Snapshot)
      requires |before.clients| == CLIENT_COUNT
    {
      var link := CloseArg(line.buf, line.len, before.vars.gsCipMux);
      if link.Some? && (link.value == ALL_LINKS || before.clients[link.value].present)
      then (Ok, before.(clients := AfterCloseAll(before.clients, link.value)))
      else (Error, before)
    }

    /**
     * Closes one link, or every link for link 5; closing a single link
     * that has no client is an error and changes nothing.
     */
    method CipClose() returns (reply: Reply)
      requires Valid()
      modifies clients
      ensures (reply, Now()) == CipCloseEffect(old(Input()), old(Now()))
    {
      var link := ReadCloseLink(inputBuffer, inputBufferCnt, gsCipMux);
      if link.None? {
        return Error;
      }
      var linkId := link.value;
      for id := 0 to CLIENT_COUNT
        invariant forall i :: 0 <= i < id ==> clients[i] == AfterClose(old(clients[i]), i, linkId)
        invariant forall i :: id <= i < CLIENT_COUNT ==> clients[i] == old(clients[i])
        invariant linkId != ALL_LINKS && linkId < id ==> old(clients[linkId]).present
      {
        if id == linkId || linkId == ALL_LINKS {
          if !clients[id].present {
            if linkId != ALL_LINKS {
              assert clients[..] == old(clients[..]);
              return Error;
            }
          } else {
            clients[id] := Released(clients[id]);
          }
        }
      }
      assert clients[..] == AfterCloseAll(old(clients[..]), linkId);
      return Ok;
    }

    // -------------------------------------------------------------------------
    // AT+CIPMUX (command.cpp:2021-2070)

    /**
     * AT+CIPMUX's effect: the mode changes to a valid 0 or 1 only while no
     * client and no listening server is there; the query changes nothing;
     * anything else is ERROR.
     */
    function CipMuxEffect(line: Line, before: Snapshot): (Reply, Snapshot)
    {
      var buf, len := line.buf, line.len;
      var arg := RangedArg(buf, len, MUX_ARG, 0, 1);
      if At(buf, 9) == QUESTION && len == 12 then (Ok, before)
      else if At(buf, 9) == EQUALS && arg.Some?
              && !AnyClient(before.clients) && FirstServer(before.servers, 0, Listening()).None?
      then (Ok, before.(vars := before.vars.(gsCipMux := arg.value)))
      else (Error, before)
    }

    /** Switches between single and multiple connections while no link and no server is open. */
    method CipMux() returns (reply: Reply)
      requires Valid()
      modifies this
      ensures Valid() && inputBufferCnt == old(inputBufferCnt)
      ensures (reply, Now()) == CipMuxEffect(old(Input()), old(Now()))
    {
      if At(inputBuffer[..], 9) == QUESTION && inputBufferCnt == 12 {
        return Ok;
      } else if At(inputBuffer[..], 9) == EQUALS {
        var ok, offset, mux := ReadNumber(inputBuffer, MUX_ARG, 0);
        if ok && mux <= 1 && inputBufferCnt == offset + 2 {
          var linked := HasClient();
          if linked {
            return Error;
          }
          var listening := FindServer(Listening());
          if listening.Some? {
            return Error;
          }
          gsCipMux := mux;
          return Ok;
        }
      }
      return Error;
    }

    /** The loop over the client slots: some slot has a client. */
    method HasClient() returns (linked: bool)
      ensures linked == AnyClient(clients[..])
    {
      for i := 0 to clients.Length
        invariant forall k :: 0 <= k < i ==> !clients[k].present
      {
        if clients[i].present {
          assert clients[..][i].present;
          return true;
        }
      }
      return false;
    }

    /** A loop over the servers: the first one want accepts. */
    method FindServer(want: Server -> bool) returns (found: Option<nat>)
      ensures found == FirstServer(servers[..], 0, want)
    {
      ghost var ss := servers[..];
      var i := 0;
      while i < servers.Length
        invariant i <= servers.Length
        invariant FirstServer(ss, i, want) == FirstServer(ss, 0, want)
      {
        if want(servers[i]) {
          return Some(i);
        }
        i := i + 1;
      }
      return None;
    }

    // -------------------------------------------------------------------------
    // AT+CIPSERVER (command.cpp:2075-2171)

    /**
     * AT+CIPSERVER's effect, in multiple-connection mode with a valid
     * argument: the server table as ServerCommand leaves it; otherwise
     * ERROR and no change.
     */
    function CipServerEffect(line: Line, before: Snapshot, begins: bool): (Reply, Snapshot)
    {
      var arg := ServerArgOf(line.buf, line.len);
      if before.vars.gsCipMux != 0 && arg.Some? then
        var r := ServerCommand(before.servers, arg.value.stop, arg.value.port, begins);
        (if r.ok then Ok else Error, before.(servers := r.servers))
      else (Error, before)
    }

    /** Starts or stops a server, in multiple-connection mode only. */
    method CipServer(begins: bool) returns (reply: Reply)
      requires Valid()
      modifies servers
      ensures (reply, Now()) == CipServerEffect(old(Input()), old(Now()), begins)
    {
      if gsCipMux == 0 {
        return Error;
      }
      var arg := ReadServerArg(inputBuffer, inputBufferCnt);
      if arg.None? {
        return Error;
      }
      var port := arg.value.port;
      if arg.value.stop {
        var i := FindServer(Stoppable(port));
        if i.None? {
          return Error;
        }
        servers[i.value] := servers[i.value].(open := false);
        return Ok;
      }
      var running := FindServer(Running(port));
      if running.Some? {
        return Error;
      }
      var idle := FindServer(Idle());
      if idle.None? {
        return Ok;
      }
      if !begins {
        return Error;
      }
      servers[idle.value] := Server(port, true);
      return Ok;
    }

    // -------------------------------------------------------------------------
    // AT+CIPSERVERMAXCONN (command.cpp:2176-2201) and AT+CIPSTO (2206-2231)

    /** The query answers; the set form takes 1 to 5 connections. */
    function CipServerMaxConnEffect(line: Line, before: Snapshot): (Reply, Snapshot)
    {
      var buf := line.buf;
      var arg := RangedArg(buf, line.len, MAXCONN_ARG, 1, 5);
      if At(buf, 19) == EQUALS && arg.Some? then (Ok, before.(vars := before.vars.(gsServersMaxConn := arg.value)))
      else (if At(buf, 19) == QUESTION then Ok else Error, before)
    }

    method CipServerMaxConn() returns (reply: Reply)
      requires Valid()
      modifies this
      ensures Valid() && inputBufferCnt == old(inputBufferCnt)
      ensures (reply, Now()) == CipServerMaxConnEffect(old(Input()), old(Now()))
    {
      if At(inputBuffer[..], 19) == QUESTION {
        return Ok;
      }
      if At(inputBuffer[..], 19) != EQUALS {
        return Error;
      }
      var ok, offset, max := ReadNumber(inputBuffer, MAXCONN_ARG, 0);
      if !ok || max < 1 || max > 5 || inputBufferCnt != offset + 2 {
        return Error;
      }
      gsServersMaxConn := max;
      return Ok;
    }

    /** The query answers; the set form takes up to 7200 seconds, kept in milliseconds. */
    function CipStoEffect(line: Line, before: Snapshot): (Reply, Snapshot)
    {
      var buf := line.buf;
      var arg := RangedArg(buf, line.len, TIMEOUT_ARG, 0, 7200);
      if At(buf, 9) == EQUALS && arg.Some? then (Ok, before.(vars := before.vars.(gsServerConnTimeout := arg.value * 1000)))
      else (if At(buf, 9) == QUESTION then Ok else Error, before)
    }

    method CipSto() returns (reply: Reply)
      requires Valid()
      modifies this
      ensures Valid() && inputBufferCnt == old(inputBufferCnt)
      ensures (reply, Now()) == CipStoEffect(old(Input()), old(Now()))
    {
      if At(inputBuffer[..], 9) == QUESTION {
        return Ok;
      }
      if At(inputBuffer[..], 9) != EQUALS {
        return Error;
      }
      var ok, offset, to := ReadNumber(inputBuffer, TIMEOUT_ARG, 0);
      if !ok || to > 7200 || inputBufferCnt != offset + 2 {
        return Error;
      }
      gsServerConnTimeout := to * 1000;
      return Ok;
    }

    // -------------------------------------------------------------------------
    // AT+CIPSSLAUTH (command.cpp:2707-2748)

    /** A mode from 0 to 2 whose fingerprint or certificate is there is taken; the query changes nothing. */
    function CipSslAuthEffect(line: Line, before: Snapshot): (Reply, Snapshot)
    {
      var buf, len := line.buf, line.len;
      var arg := RangedArg(buf, len, SSLAUTH_ARG, 0, 2);
      if At(buf, 13) == QUESTION && len == 16 then (Ok, before)
      else if At(buf, 13) == EQUALS && arg.Some?
              && SslAuthAllowed(arg.value, before.vars.fingerprintValid, |before.vars.caStore|)
      then (Ok, before.(vars := before.vars.(gsCipSslAuth := arg.value)))
      else (Error, before)
    }

    /**
     * Selects no authentication (0), the fingerprint (1) or the CA chain
     * (2); the mode changes only when what it needs is there.
     */
    method CipSslAuth() returns (reply: Reply)
      requires Valid()
      modifies this
      ensures Valid() && inputBufferCnt == old(inputBufferCnt)
      ensures (reply, Now()) == CipSslAuthEffect(old(Input()), old(Now()))
    {
      if At(inputBuffer[..], 13) == QUESTION && inputBufferCnt == 16 {
        return Ok;
      } else if At(inputBuffer[..], 13) == EQUALS {
        var ok, offset, sslAuth := ReadNumber(inputBuffer, SSLAUTH_ARG, 0);
        if ok && sslAuth <= 2 && inputBufferCnt == offset + 2 {
          if sslAuth == 1 && !fingerprintValid {
            return Error;
          } else if sslAuth == 2 && |caStore| == 0 {
            return Error;
          }
          gsCipSslAuth := sslAuth;
          return Ok;
        }
      }
      return Error;
    }

    // -------------------------------------------------------------------------
    // AT+CIPSSLFP (command.cpp:2755-2813)

    /**
     * AT+CIPSSLFP's effect: a set form that scans stores the fingerprint
     * and marks it valid; the query is OK when one is set; anything else
     * is ERROR and changes nothing.
     */
    function CipSslFpEffect(line: Line, before: Snapshot): (Reply, Snapshot)
    {
      var buf, len := line.buf, line.len;
      var fp := FingerprintScan(buf, len == 75);
      if At(buf, 11) == QUESTION && len == 14 then (if before.vars.fingerprintValid then Ok else Error, before)
      else if At(buf, 11) == EQUALS && At(buf, 12) == QUOTE && (len == 56 || len == 75) && fp.Some?
      then (Ok, before.(vars := before.vars.(fingerprintValid := true), fingerprint := fp.value))
      else (Error, before)
    }

    /**
     * The query answers when a fingerprint is set. The set form takes forty
     * hex digits, or twenty colon-separated pairs when the line is 75 bytes
     * long, and stores them as the fingerprint.
     */
    method CipSslFp() returns (reply: Reply)
      requires Valid()
      modifies this, fingerprint
      ensures Valid() && inputBufferCnt == old(inputBufferCnt)
      ensures (reply, Now()) == CipSslFpEffect(old(Input()), old(Now()))
    {
      if At(inputBuffer[..], 11) == QUESTION && inputBufferCnt == 14 {
        return if fingerprintValid then Ok else Error;
      } else if At(inputBuffer[..], 11) == EQUALS && At(inputBuffer[..], 12) == QUOTE
                && (inputBufferCnt == 56 || inputBufferCnt == 75) {
        var fp := ParseFingerprint(inputBuffer, inputBufferCnt == 75);
        if fp.None? {
          return Error;
        }
        StoreFingerprint(fp.value);
        fingerprintValid := true;
        return Ok;
      }
      return Error;
    }

    /** memcpy(fingerprint, fp, sizeof(fingerprint)). */
    method StoreFingerprint(fp: seq<byte>)
      requires Valid() && |fp| == FINGERPRINT_LENGTH
      modifies fingerprint
      ensures fingerprint[..] == fp
    {
      for k := 0 to FINGERPRINT_LENGTH
        invariant forall j :: 0 <= j < k ==> fingerprint[j] == fp[j]
      {
        fingerprint[k] := fp[k];
      }
      assert fingerprint[..] == fp;
    }

    // -------------------------------------------------------------------------
    // AT+CIPSSLCERT (command.cpp:2850-2974)

    /**
     * AT+CIPSSLCERT's effect: loading starts below the limit when the PEM
     * buffer is there; listing and showing change nothing; deleting an
     * existing certificate removes it and keeps the others in order.
     */
    function CipSslCertEffect(line: Line, before: Snapshot, pemAllocated: bool): (Reply, Snapshot)
    {
      var count, store := |before.vars.caStore|, before.vars.caStore;
      match CertRequestOf(line.buf, line.len)
      case LoadCert =>
        if count < before.vars.maximumCertificates && pemAllocated
        then (Ok, before.(vars := before.vars.(gsCertLoading := true)))
        else (Error, before)
      case ListCerts => (Ok, before)
      case ShowCert(n) => (if n.Some? && 1 <= n.value <= count then Ok else Error, before)
      case DeleteCert(n) =>
        if n.Some? && 1 <= n.value <= count
        then (Ok, before.(vars := before.vars.(caStore := store[..n.value - 1] + store[n.value..])))
        else (Error, before)
      case BadCertRequest => (Error, before)
    }

    /** The certificate "?n" shows: its 0-based index when it exists. */
    function CertShownOf(line: Line, before: Snapshot): Option<nat>
    {
      match CertRequestOf(line.buf, line.len)
      case ShowCert(n) => if n.Some? && 1 <= n.value <= |before.vars.caStore| then Some(n.value - 1) else None
      case _ => None
    }

    /**
     * The certificate store command. The bare command starts loading a
     * certificate while the store is below its limit; "?n" shows
     * certificate n (shown is its 0-based index); "=DELETE,n" removes it.
     */
    method CipSslCert(pemAllocated: bool) returns (reply: Reply, shown: Option<nat>)
      requires Valid()
      modifies this
      ensures Valid() && inputBufferCnt == old(inputBufferCnt)
      ensures (reply, Now()) == CipSslCertEffect(old(Input()), old(Now()), pemAllocated)
      ensures shown == CertShownOf(old(Input()), old(Now()))
    {
      shown := None;
      if inputBufferCnt == 15 {
        if |caStore| >= maximumCertificates || !pemAllocated {
          return Error, None;
        }
        gsCertLoading := true;
        return Ok, None;
      } else if At(inputBuffer[..], 13) == QUESTION && inputBufferCnt == 16 {
        return Ok, None;
      } else if At(inputBuffer[..], 13) == QUESTION && 16 <= inputBufferCnt <= 18 {
        var ok, offset, certNumber := ReadNumber(inputBuffer, 14, 0);
        if !ok || certNumber == 0 || certNumber > |caStore| {
          return Error, None;
        }
        return Ok, Some(certNumber - 1);
      } else if TextAt(inputBuffer[..], 13, "=DELETE,") && 22 <= inputBufferCnt <= 25 {
        var ok, offset, n := ReadNumber(inputBuffer, 21, 0);
        if |caStore| == 0 || !ok || n > |caStore| || n == 0 {
          return Error, None;
        }
        DeleteCertificate(n);
        return Ok, None;
      }
      return Error, None;
    }

    /**
     * The order-preserving rebuild of CAcert: every certificate but number
     * n is copied to a new list, and the store is rebuilt from it.
     */
    method DeleteCertificate(n: nat)
      requires 1 <= n <= |caStore|
      modifies this
      ensures Globals() == old(Globals()).(caStore := old(caStore)[..n - 1] + old(caStore)[n..])
    {
      var store := caStore;
      var certList: seq<seq<byte>> := [];
      for i := 0 to |store|
        invariant certList == Kept(store[..i], n)
        invariant unchanged(this)
      {
        if n != i + 1 {
          certList := certList + [store[i]];
        }
        KeptSnoc(store[..i], store[i], n);
        PrefixSnoc(store, i);
      }
      assert store[..|store|] == store;
      KeptRemovesOne(store, n);
      var rebuilt: seq<seq<byte>> := [];
      for i := 0 to |certList|
        invariant rebuilt == certList[..i]
        invariant unchanged(this)
      {
        PrefixSnoc(certList, i);
        rebuilt := rebuilt + [certList[i]];
      }
      assert certList[..|certList|] == certList;
      caStore := rebuilt;
    }
  }
}
