/**
 * Settings: the record the firmware keeps in EEPROM
 * (ESP_ATMod/settings.h, ESP_ATMod/settings.cpp).
 *
 * The record is eepromData_t: six settings and, last, the CRC-32 of the
 * bytes before it. Every access goes through a short-lived EEPROMData
 * object: its constructor loads the record and falls back to the
 * defaults when the CRC does not match, its destructor writes the record
 * back when it changed. The CRC-32 routine is a parameter of the model
 * (any function of the covered fields), and the EEPROM is an object that
 * holds one record and counts the writes made to it.
 */
module Settings {

  /** ipConfig_t: address, gateway and net mask, each a uint32_t. */
  datatype IpConfig = IpConfig(ip: int, gw: int, mask: int)

  /** dnsConfig_t: two DNS server addresses. */
  datatype DnsConfig = DnsConfig(dns1: int, dns2: int)

  /** The fields of eepromData_t that crc32 covers: all of them but crc32 itself. */
  datatype Fields = Fields(
    uartBaudRate: nat, uartConfig: nat, dhcpMode: nat,
    netConfig: IpConfig, dnsConfig: DnsConfig, maximumCertificates: int)

  /** eepromData_t: the covered fields, then crc32 as the last field. */
  datatype Record = Record(fields: Fields, crc32: nat)

  /** The CRC-32 of the covered bytes, crc32(&data, sizeof(data) - 4). */
  type Crc = Fields -> nat

  /**
   * SERIAL_8N1 in the UART register layout: eight data bits (3 at bit 2),
   * one stop bit (1 at bit 4), no parity.
   */
  const SERIAL_8N1: nat := 0x1C

  /** What resetData assigns. */
  const DEFAULT_FIELDS: Fields := Fields(115200, SERIAL_8N1, 3, IpConfig(0, 0, 0), DnsConfig(0, 0), 5)

  /** The record's crc32 matches its fields. */
  predicate Valid(r: Record, crc: Crc)
  {
    r.crc32 == crc(r.fields)
  }

  /** The record with its crc32 computed from its fields, as the destructor writes it. */
  function Seal(f: Fields, crc: Crc): (r: Record)
    ensures Valid(r, crc) && r.fields == f
  {
    Record(f, crc(f))
  }

  /**
   * What the constructor leaves in data after EEPROM.get: the stored image
   * when its CRC matches, otherwise the defaults (resetData does not touch
   * crc32, so the stale value stays).
   */
  function Loaded(image: Record, crc: Crc): (r: Record)
    ensures Valid(image, crc) ==> r == image
    ensures !Valid(image, crc) ==> r.fields == DEFAULT_FIELDS && r.crc32 == image.crc32
  {
    if Valid(image, crc) then image else Record(DEFAULT_FIELDS, image.crc32)
  }

  /** The EEPROM: the stored image and the number of EEPROM.put calls made. */
  class Eeprom {
    var image: Record
    var writes: nat

    constructor(image: Record)
      ensures this.image == image && writes == 0
    {
      this.image := image;
      writes := 0;
    }
  }

  /** Settings::EEPROMData: the record loaded from the EEPROM for the span of one access. */
  class EepromData {
    var data: Record
    const eeprom: Eeprom
    const crc: Crc

    /** The constructor (settings.cpp:148-166): load, then reset when the CRC does not match. */
    constructor(eeprom: Eeprom, crc: Crc)
      ensures this.eeprom == eeprom && this.crc == crc
      ensures data == Loaded(eeprom.image, crc)
    {
      this.eeprom := eeprom;
      this.crc := crc;
      data := eeprom.image;
      new;
      if crc(data.fields) != data.crc32 {
        ResetData();
      }
    }

    /** Settings::resetData through getDataPtr (settings.cpp:134-142): every field but crc32. */
    method ResetData()
      modifies this
      ensures data == Record(DEFAULT_FIELDS, old(data.crc32))
    {
      var f := data.fields;
      f := f.(uartBaudRate := 115200);
      f := f.(uartConfig := SERIAL_8N1);
      f := f.(dhcpMode := 3);
      f := f.(netConfig := IpConfig(0, 0, 0));
      f := f.(dnsConfig := DnsConfig(0, 0));
      f := f.(maximumCertificates := 5);
      data := data.(fields := f);
    }

    /**
     * The destructor as written (settings.cpp:168-182): the record, with
     * the crc32 it was loaded with, is compared to the stored image; only
     * when they differ is crc32 recomputed and the record written.
     */
    method CloseAsWritten()
      modifies this, eeprom
      ensures eeprom.image == StoredAsWritten(old(eeprom.image), crc, old(data))
      ensures eeprom.writes == old(eeprom.writes) + if old(data) != old(eeprom.image) then 1 else 0
    {
      if data != eeprom.image {
        data := data.(crc32 := crc(data.fields));
        eeprom.image := data;
        eeprom.writes := eeprom.writes + 1;
      }
    }

    /**
     * The destructor with crc32 recomputed before the comparison: the
     * record is written when its sealed form differs from the stored image.
     */
    method Close()
      modifies this, eeprom
      ensures eeprom.image == Seal(old(data.fields), crc)
      ensures eeprom.writes == old(eeprom.writes) + if Seal(old(data.fields), crc) != old(eeprom.image) then 1 else 0
    {
      data := data.(crc32 := crc(data.fields));
      if data != eeprom.image {
        eeprom.image := data;
        eeprom.writes := eeprom.writes + 1;
      }
    }

    // The inline getters and setters of settings.h:87-99.

    // Read straight after the load, each getter gives the stored field, or
    // its default when the CRC does not match.

    function GetUartBaudRate(): (baudRate: nat)
      reads this, eeprom
      ensures data == Loaded(eeprom.image, crc) ==> baudRate == Current(eeprom.image, crc).uartBaudRate
    {
      data.fields.uartBaudRate
    }

    function GetUartConfig(): (config: nat)
      reads this, eeprom
      ensures data == Loaded(eeprom.image, crc) ==> config == Current(eeprom.image, crc).uartConfig
    {
      data.fields.uartConfig
    }

    function GetDhcpMode(): (mode: nat)
      reads this, eeprom
      ensures data == Loaded(eeprom.image, crc) ==> mode == Current(eeprom.image, crc).dhcpMode
    {
      data.fields.dhcpMode
    }

    function GetNetConfig(): (netCfg: IpConfig)
      reads this, eeprom
      ensures data == Loaded(eeprom.image, crc) ==> netCfg == Current(eeprom.image, crc).netConfig
    {
      data.fields.netConfig
    }

    function GetDnsConfig(): (dnsCfg: DnsConfig)
      reads this, eeprom
      ensures data == Loaded(eeprom.image, crc) ==> dnsCfg == Current(eeprom.image, crc).dnsConfig
    {
      data.fields.dnsConfig
    }

    function GetMaximumCertificates(): (maximumCertificates: int)
      reads this, eeprom
      ensures data == Loaded(eeprom.image, crc) ==> maximumCertificates == Current(eeprom.image, crc).maximumCertificates
    {
      data.fields.maximumCertificates
    }

    method SetUartBaudRate(baudRate: nat)
      modifies this
      ensures data == old(data).(fields := old(data.fields).(uartBaudRate := baudRate))
    {
      data := data.(fields := data.fields.(uartBaudRate := baudRate));
    }

    method SetUartConfig(config: nat)
      modifies this
      ensures data == old(data).(fields := old(data.fields).(uartConfig := config))
    {
      data := data.(fields := data.fields.(uartConfig := config));
    }

    method SetDhcpMode(mode: nat)
      modifies this
      ensures data == old(data).(fields := old(data.fields).(dhcpMode := mode))
    {
      data := data.(fields := data.fields.(dhcpMode := mode));
    }

    method SetNetConfig(netCfg: IpConfig)
      modifies this
      ensures data == old(data).(fields := old(data.fields).(netConfig := netCfg))
    {
      data := data.(fields := data.fields.(netConfig := netCfg));
    }

    method SetDnsConfig(dnsCfg: DnsConfig)
      modifies this
      ensures data == old(data).(fields := old(data.fields).(dnsConfig := dnsCfg))
    {
      data := data.(fields := data.fields.(dnsConfig := dnsCfg));
    }

    method SetMaximumCertificates(maximumCertificates: int)
      modifies this
      ensures data == old(data).(fields := old(data.fields).(maximumCertificates := maximumCertificates))
    {
      data := data.(fields := data.fields.(maximumCertificates := maximumCertificates));
    }
  }

  /** The stored image the destructor as written leaves. */
  function StoredAsWritten(image: Record, crc: Crc, data: Record): Record
  {
    if data != image then Seal(data.fields, crc) else image
  }

  // ---------------------------------------------------------------------------
  // The static Settings interface (settings.cpp:39-132): each call opens an
  // EEPROMData, reads or changes one field, and closes it.

  /** The fields one access sees: the stored ones, or the defaults when the CRC does not match. */
  function Current(image: Record, crc: Crc): (f: Fields)
    ensures Valid(image, crc) ==> f == image.fields
    ensures !Valid(image, crc) ==> f == DEFAULT_FIELDS
  {
    Loaded(image, crc).fields
  }

  method SetUartBaudRate(eeprom: Eeprom, crc: Crc, baudRate: nat)
    modifies eeprom
    ensures eeprom.image == Seal(Current(old(eeprom.image), crc).(uartBaudRate := baudRate), crc)
    ensures eeprom.writes == old(eeprom.writes) + if Seal(Current(old(eeprom.image), crc).(uartBaudRate := baudRate), crc) != old(eeprom.image) then 1 else 0
  {
    var e := new EepromData(eeprom, crc);
    e.SetUartBaudRate(baudRate);
    e.Close();
  }

  method GetUartBaudRate(eeprom: Eeprom, crc: Crc) returns (baudRate: nat)
    modifies eeprom
    ensures baudRate == Current(old(eeprom.image), crc).uartBaudRate
    ensures eeprom.image == Seal(Current(old(eeprom.image), crc), crc)
    ensures eeprom.writes == old(eeprom.writes) + if Seal(Current(old(eeprom.image), crc), crc) != old(eeprom.image) then 1 else 0
  {
    var e := new EepromData(eeprom, crc);
    baudRate := e.GetUartBaudRate();
    e.Close();
  }

  method SetUartConfig(eeprom: Eeprom, crc: Crc, config: nat)
    modifies eeprom
    ensures eeprom.image == Seal(Current(old(eeprom.image), crc).(uartConfig := config), crc)
    ensures eeprom.writes == old(eeprom.writes) + if Seal(Current(old(eeprom.image), crc).(uartConfig := config), crc) != old(eeprom.image) then 1 else 0
  {
    var e := new EepromData(eeprom, crc);
    e.SetUartConfig(config);
    e.Close();
  }

  method GetUartConfig(eeprom: Eeprom, crc: Crc) returns (config: nat)
    modifies eeprom
    ensures config == Current(old(eeprom.image), crc).uartConfig
    ensures eeprom.image == Seal(Current(old(eeprom.image), crc), crc)
    ensures eeprom.writes == old(eeprom.writes) + if Seal(Current(old(eeprom.image), crc), crc) != old(eeprom.image) then 1 else 0
  {
    var e := new EepromData(eeprom, crc);
    config := e.GetUartConfig();
    e.Close();
  }

  method SetDhcpMode(eeprom: Eeprom, crc: Crc, mode: nat)
    modifies eeprom
    ensures eeprom.image == Seal(Current(old(eeprom.image), crc).(dhcpMode := mode), crc)
    ensures eeprom.writes == old(eeprom.writes) + if Seal(Current(old(eeprom.image), crc).(dhcpMode := mode), crc) != old(eeprom.image) then 1 else 0
  {
    var e := new EepromData(eeprom, crc);
    e.SetDhcpMode(mode);
    e.Close();
  }

  method GetDhcpMode(eeprom: Eeprom, crc: Crc) returns (mode: nat)
    modifies eeprom
    ensures mode == Current(old(eeprom.image), crc).dhcpMode
    ensures eeprom.image == Seal(Current(old(eeprom.image), crc), crc)
    ensures eeprom.writes == old(eeprom.writes) + if Seal(Current(old(eeprom.image), crc), crc) != old(eeprom.image) then 1 else 0
  {
    var e := new EepromData(eeprom, crc);
    mode := e.GetDhcpMode();
    e.Close();
  }

  method SetNetConfig(eeprom: Eeprom, crc: Crc, netCfg: IpConfig)
    modifies eeprom
    ensures eeprom.image == Seal(Current(old(eeprom.image), crc).(netConfig := netCfg), crc)
    ensures eeprom.writes == old(eeprom.writes) + if Seal(Current(old(eeprom.image), crc).(netConfig := netCfg), crc) != old(eeprom.image) then 1 else 0
  {
    var e := new EepromData(eeprom, crc);
    e.SetNetConfig(netCfg);
    e.Close();
  }

  method GetNetConfig(eeprom: Eeprom, crc: Crc) returns (netCfg: IpConfig)
    modifies eeprom
    ensures netCfg == Current(old(eeprom.image), crc).netConfig
    ensures eeprom.image == Seal(Current(old(eeprom.image), crc), crc)
    ensures eeprom.writes == old(eeprom.writes) + if Seal(Current(old(eeprom.image), crc), crc) != old(eeprom.image) then 1 else 0
  {
    var e := new EepromData(eeprom, crc);
    netCfg := e.GetNetConfig();
    e.Close();
  }

  method SetDnsConfig(eeprom: Eeprom, crc: Crc, dnsCfg: DnsConfig)
    modifies eeprom
    ensures eeprom.image == Seal(Current(old(eeprom.image), crc).(dnsConfig := dnsCfg), crc)
    ensures eeprom.writes == old(eeprom.writes) + if Seal(Current(old(eeprom.image), crc).(dnsConfig := dnsCfg), crc) != old(eeprom.image) then 1 else 0
  {
    var e := new EepromData(eeprom, crc);
    e.SetDnsConfig(dnsCfg);
    e.Close();
  }

  method GetDnsConfig(eeprom: Eeprom, crc: Crc) returns (dnsCfg: DnsConfig)
    modifies eeprom
    ensures dnsCfg == Current(old(eeprom.image), crc).dnsConfig
    ensures eeprom.image == Seal(Current(old(eeprom.image), crc), crc)
    ensures eeprom.writes == old(eeprom.writes) + if Seal(Current(old(eeprom.image), crc), crc) != old(eeprom.image) then 1 else 0
  {
    var e := new EepromData(eeprom, crc);
    dnsCfg := e.GetDnsConfig();
    e.Close();
  }

  method SetMaximumCertificates(eeprom: Eeprom, crc: Crc, maximumCertificates: int)
    modifies eeprom
    ensures eeprom.image == Seal(Current(old(eeprom.image), crc).(maximumCertificates := maximumCertificates), crc)
    ensures eeprom.writes == old(eeprom.writes) + if Seal(Current(old(eeprom.image), crc).(maximumCertificates := maximumCertificates), crc) != old(eeprom.image) then 1 else 0
  {
    var e := new EepromData(eeprom, crc);
    e.SetMaximumCertificates(maximumCertificates);
    e.Close();
  }

  method GetMaximumCertificates(eeprom: Eeprom, crc: Crc) returns (maximumCertificates: int)
    modifies eeprom
    ensures maximumCertificates == Current(old(eeprom.image), crc).maximumCertificates
    ensures eeprom.image == Seal(Current(old(eeprom.image), crc), crc)
    ensures eeprom.writes == old(eeprom.writes) + if Seal(Current(old(eeprom.image), crc), crc) != old(eeprom.image) then 1 else 0
  {
    var e := new EepromData(eeprom, crc);
    maximumCertificates := e.GetMaximumCertificates();
    e.Close();
  }

  /** Settings::reset (settings.cpp:127-132): resetData on the loaded record, then close. */
  method Reset(eeprom: Eeprom, crc: Crc)
    modifies eeprom
    ensures eeprom.image == Seal(DEFAULT_FIELDS, crc)
    ensures eeprom.writes == old(eeprom.writes) + if Seal(DEFAULT_FIELDS, crc) != old(eeprom.image) then 1 else 0
  {
    var e := new EepromData(eeprom, crc);
    e.ResetData();
    e.Close();
  }

  // ---------------------------------------------------------------------------
  // Properties

  /** A sealed image is loaded as it is: what was written is what the next access sees. */
  lemma CurrentOfSealed(f: Fields, crc: Crc)
    ensures Current(Seal(f, crc), crc) == f
  {
  }

  /**
   * Set then get: after setX(v) the stored CRC is valid, so the next getX
   * returns v, and every other field is the one the setter's access saw.
   */
  lemma SetThenGetUartBaudRate(image: Record, crc: Crc, v: nat)
    ensures Current(Seal(Current(image, crc).(uartBaudRate := v), crc), crc).uartBaudRate == v
    ensures Current(Seal(Current(image, crc).(uartBaudRate := v), crc), crc).(uartBaudRate := 0)
         == Current(image, crc).(uartBaudRate := 0)
  {
    CurrentOfSealed(Current(image, crc).(uartBaudRate := v), crc);
  }

  /** A getter on a valid image writes nothing back: the sealed record is the image. */
  lemma ReadOfValidImageWritesNothing(image: Record, crc: Crc)
    requires Valid(image, crc)
    ensures Seal(Current(image, crc), crc) == image
  {
  }

  /** After reset every later access sees the defaults. */
  lemma ResetGivesDefaults(crc: Crc)
    ensures Valid(Seal(DEFAULT_FIELDS, crc), crc)
    ensures Current(Seal(DEFAULT_FIELDS, crc), crc) == DEFAULT_FIELDS
  {
    CurrentOfSealed(DEFAULT_FIELDS, crc);
  }

  /** The record the constructor loads is valid, or holds the defaults. */
  lemma LoadedIsValidOrDefault(image: Record, crc: Crc)
    ensures Valid(Loaded(image, crc), crc) || Loaded(image, crc).fields == DEFAULT_FIELDS
    ensures Loaded(image, crc).crc32 == image.crc32
  {
  }

  /**
   * As written, the destructor compares a record whose crc32 is the stale
   * one it was loaded with. A stored image with a bad CRC whose fields are
   * the defaults but for a baud rate of 9600 is reset on load; setting the
   * baud rate to 9600 then makes the record equal to the image byte for
   * byte, nothing is written, and the next read gives 115200.
   */
  lemma StaleCrcLosesSetting(crc: Crc)
    ensures var image := Record(DEFAULT_FIELDS.(uartBaudRate := 9600), crc(DEFAULT_FIELDS.(uartBaudRate := 9600)) + 1);
            var data := Loaded(image, crc);
            var after := StoredAsWritten(image, crc, data.(fields := data.fields.(uartBaudRate := 9600)));
            after == image && Current(after, crc).uartBaudRate == 115200
  {
  }

  /** With crc32 recomputed before the comparison, the same sequence keeps 9600. */
  lemma SealedCloseKeepsSetting(crc: Crc)
    ensures var image := Record(DEFAULT_FIELDS.(uartBaudRate := 9600), crc(DEFAULT_FIELDS.(uartBaudRate := 9600)) + 1);
            Current(Seal(Current(image, crc).(uartBaudRate := 9600), crc), crc).uartBaudRate == 9600
  {
    SetThenGetUartBaudRate(Record(DEFAULT_FIELDS.(uartBaudRate := 9600), crc(DEFAULT_FIELDS.(uartBaudRate := 9600)) + 1), crc, 9600);
  }
}
