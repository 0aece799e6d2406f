# ESP_ATMod command front end, in Dafny

ESP_ATMod is firmware for the ESP8266. It answers the Espressif AT command set on the serial port. This project models the part of it that reads a received command line and acts on it:

- **Command table and dispatch** (`command_table.dfy`, `handlers.dfy`):
  - the command table `commandList`;
  - `findCommand`, which resolves a line in `inputBuffer` to a command;
  - `processCommandBuffer`, which runs the handler and clears the buffer.
- **Argument scanners** (`scanners.dfy`, `fingerprint.dfy`):
  - `readNumber`, with its 32-bit wrap-around;
  - `readIpAddress`;
  - `readStringFromBuffer`;
  - `readHex`;
  - the SHA-1 fingerprint parse of AT+CIPSSLFP.
- **Argument grammars** (`arguments.dfy`, `readers.dfy`): the argument grammar of each modelled handler, once as a function and once as a method over the input array.
- **Handlers** (`handlers.dfy`):
  - ATE;
  - AT+UART (`_CUR`, `_DEF`);
  - AT+CIPSTA and AT+CIPAP (`_CUR`, `_DEF`);
  - AT+CIPSSLSIZE, AT+CIPSEND, AT+CIPCLOSE, AT+CIPMUX, AT+CIPSERVER, AT+CIPSERVERMAXCONN, AT+CIPSTO;
  - AT+CIPSSLAUTH, AT+CIPSSLFP, AT+CIPSSLCERT.

  The globals the handlers change are the fields of the class `Handlers.Engine`. These include the client slots, the server table, the fingerprint and the CA store.
- **Client slots, servers and CA store** (`tables.dfy`).
- **Certificate decoding** (`asn.dfy`): the DER reader of `asnDecode.cpp`, that is, `readHeader` and `getCnFromDer`, which finds the issuer common name of a certificate.
- **Settings** (`settings.dfy`): the EEPROM settings record of `settings.cpp`/`settings.h`:
  - the `EEPROMData` load and CRC check;
  - the write-back destructor;
  - the static getters and setters.

A read past the end of a buffer is modelled as a 0 byte (`Bytes.At`). A dispatched line ends in CR LF, so every scanner stops before it reaches the end.

The integers of the source are unbounded here, except where width matters:

- `readNumber` wraps modulo 2^32;
- the CIPSSLFP byte is built from two hex digits;
- a DER header's long-form length is at most two bytes, so at most 0xFFFF.

## Model

| member | source | states |
|---|---|---|
| CommandTable.CommandList | ESP_ATMod/command.cpp:60-129 | the table has one entry per command, in the source's order |
| CommandTable.Check | ESP_ATMod/command.cpp:3187-3220 | an entry decides only when its text stands after "AT"; it decides for another command only as CMD_ERROR, for a query form of the wrong length |
| CommandTable.Resolve | ESP_ATMod/command.cpp:3172-3228 | a line that is not framed by "AT" and CR LF is CMD_ERROR; the bare "AT\r\n" is CMD_AT |
| CommandTable.FindCommand | ESP_ATMod/command.cpp:3172-3228 | the table loop returns the command of the first entry that decides, or CMD_ERROR |
| CommandTable.ScanTable | ESP_ATMod/command.cpp:3183-3227 | the loop over the table yields the first entry's decision |
| CommandTable.FirstDecisionPicksFirst | ESP_ATMod/command.cpp:3183-3227 | when entries i..k-1 pass over the line and entry k decides, the scan returns entry k's decision |
| CommandTable.FirstDecisionNone | ESP_ATMod/command.cpp:3183-3227 | when no entry decides, the result is CMD_ERROR |
| CommandTable.CipstartIsNotCipsta | ESP_ATMod/command.cpp:3172-3228 | "AT+CIPSTART…" resolves to CIPSTART, not to the earlier CIPSTA entry (the prefix test plus the no-letter-follows rule) |
| CommandTable.QueryWithTailIsError | ESP_ATMod/command.cpp:3198-3206 | the query of any QUERY_SET entry with anything between '?' and CR LF is CMD_ERROR, once no earlier entry has decided |
| CommandTable.CwmodeQueryWithTailIsError | ESP_ATMod/command.cpp:3198-3206 | "AT+CWMODE?" with anything more before CR LF is CMD_ERROR |
| CommandTable.TextStartsWithPlusOrE | ESP_ATMod/command.cpp:60-129 | every text of the table starts with '+', save "E" |
| CommandTable.TextLineIsNotBare | ESP_ATMod/command.cpp:3172-3181 | a line that holds an entry's text after "AT" is not the bare "AT\r\n" |
| CommandTable.EntryDecidesOwnLine | ESP_ATMod/command.cpp:3187-3220 | every entry decides its own command on its canonical line (its text, '?' for a QUERY_SET entry, CR LF) |
| CommandTable.CanonicalLineResolves | ESP_ATMod/command.cpp:3172-3228 | the canonical line of entry i resolves to entry i's command once every earlier entry passes over it |
| CommandTable.CwlapLineResolves | ESP_ATMod/command.cpp:76-77 | "AT+CWLAP\r\n" is CMD_AT_CWLAP: the earlier +CWLAPOPT entry does not shadow it |
| CommandTable.CipstamacLineResolves | ESP_ATMod/command.cpp:86 | "AT+CIPSTAMAC=…", and "AT+CIPSTAMAC?" on a line of 15 bytes, are CMD_AT_CIPSTAMAC |
| CommandTable.CipstaLineResolves | ESP_ATMod/command.cpp:86-92 | "AT+CIPSTA=…", and "AT+CIPSTA?" on a line of 12 bytes, are CMD_AT_CIPSTA: the earlier +CIPSTAMAC entries do not shadow it |
| CommandTable.CipsslcertNotShadowedByMax | ESP_ATMod/command.cpp:3172-3228 | a framed line "AT+CIPSSLCERT" followed by a non-letter resolves to CMD_AT_CIPSSLCERT: none of the 62 entries before it, +CIPSSLCERTMAX included, decides the line |
| Scanners.DigitRun | ESP_ATMod/command.cpp:3281-3285 | the run of digits stops at a byte that is not a digit |
| Scanners.WrappedDecimal | ESP_ATMod/command.cpp:3283 | out = out * 10 + digit in uint32_t is always below 2^32 |
| Scanners.ReadNumber | ESP_ATMod/command.cpp:3276-3291 | the loop returns exactly the scan's success, end offset and value; the output is untouched when there is no digit |
| Scanners.NumberScanConsumesRun | ESP_ATMod/command.cpp:3276-3291 | success iff the first byte is a digit; the scan stops after the whole digit run; its value is the run's value modulo 2^32; on failure the offset and output are unchanged |
| Scanners.WrappedIsDecimalModulo | ESP_ATMod/command.cpp:3283 | the wrapped accumulation equals the decimal value modulo 2^32 |
| Scanners.NumberScanOfDecimalText | ESP_ATMod/command.cpp:3276-3291 | reading the decimal text of n gives n modulo 2^32 and ends just after the text (round trip) |
| Scanners.NumberScanWrapsExample | ESP_ATMod/command.cpp:3283 | "4294967297" reads as 1 |
| Scanners.OctetLoop | ESP_ATMod/command.cpp:3307-3323 | a successful octet loop has read exactly four octets |
| Scanners.ShiftInSnoc | ESP_ATMod/command.cpp:3314 | each octet enters at the top byte and the earlier ones shift down by 8 bits |
| Scanners.ReadOctets | ESP_ATMod/command.cpp:3307-3323 | the for loop yields the octet loop's success, offset and the octets packed by the shifts |
| Scanners.ReadIpAddress | ESP_ATMod/command.cpp:3297-3334 | the method returns exactly the scan of a quoted dotted quad |
| Scanners.ShiftInFour | ESP_ATMod/command.cpp:3314 | four shifts put the first octet in the low byte (network order in a little-endian word) |
| Scanners.IpAddressRoundTrip | ESP_ATMod/command.cpp:3297-3334 | reading "a.b.c.d" (quoted) gives the packed address and ends after the closing quote |
| Scanners.OctetLoopAccepts | ESP_ATMod/command.cpp:3307-3323 | when the loop succeeds and a quote follows, the octets it took stand at the offset: digit runs whose values modulo 2^32 are at most 255, separated by dots |
| Scanners.IpAddressScanAccepts | ESP_ATMod/command.cpp:3297-3334 | what readIpAddress accepts: an opening quote, four digit runs separated by dots whose values modulo 2^32 are at most 255, and a closing quote just before the new offset; the output is their packed word |
| Scanners.IpAddressScanOfOctets | ESP_ATMod/command.cpp:3297-3334 | four such octets between quotes read as their packed word, ending past the closing quote |
| Scanners.NumberScanOfRun | ESP_ATMod/command.cpp:3276-3291 | a maximal run of digits is consumed whole and read as its wrapped value |
| Scanners.IpAddressWrappedOctet | ESP_ATMod/command.cpp:3297-3334 | a first octet above 255 is accepted when its value modulo 2^32 is at most 255, and stands for that value |
| Scanners.IpAddressWrapExample | ESP_ATMod/command.cpp:3297-3334 | the quoted text "4294967296.1.2.3" is accepted as the address 0.1.2.3 |
| Scanners.DecimalLeadingZero | ESP_ATMod/command.cpp:3283 | a leading zero adds nothing to the value of a digit run |
| Scanners.NumberScanLeadingZero | ESP_ATMod/command.cpp:3276-3291 | readNumber reads "0" followed by the decimal text of n as n modulo 2^32 |
| Scanners.IpAddressLeadingZero | ESP_ATMod/command.cpp:3297-3334 | a leading zero on the first octet is accepted and gives the same address |
| Scanners.StringBody | ESP_ATMod/command.cpp:3246-3258 | the collected text only grows and never exceeds the rule's bound |
| Scanners.StringBodyAppends | ESP_ATMod/command.cpp:3246-3258 | the loop appends to the text; under the intended rules every appended byte is printable |
| Scanners.QuotedString | ESP_ATMod/command.cpp:3234-3271 | the text is bounded; on failure it is empty; an empty text is returned only when allowed; no opening quote means failure at the same offset |
| Scanners.ReadStringFromBuffer | ESP_ATMod/command.cpp:3234-3271 | the method over a 200-byte array returns the intended scan's text and offset |
| Scanners.QuotedStringRoundTrip | ESP_ATMod/command.cpp:3234-3271 | reading the quoted, escaped form of a printable text gives the text back and ends after the closing quote |
| Scanners.AsWrittenStoresByte201 | ESP_ATMod/command.cpp:3257 | as written, a 201-byte quoted text is taken whole |
| Scanners.IntendedRefusesByte201 | ESP_ATMod/command.cpp:3257 | under the intended bound the same text is refused |
| Scanners.AsWrittenKeepsEscapedControl | ESP_ATMod/command.cpp:3250-3251 | as written, an escaped TAB is stored; the intended test refuses it |
| Scanners.ReadHex | ESP_ATMod/command.cpp:3339-3349 | the value of a decimal, upper-case or lower-case hex digit |
| Scanners.HexDigit | ESP_ATMod/command.cpp:3339-3349 | readHex inverts the lower-case digit of every nibble |
| Scanners.UpperHexDigit | ESP_ATMod/command.cpp:3339-3349 | readHex inverts the upper-case digit of every nibble |
| Fingerprint.HexByte | ESP_ATMod/command.cpp:2790 | the high nibble comes from the first digit and the low nibble from the second |
| Fingerprint.FingerprintLoop | ESP_ATMod/command.cpp:2785-2795 | a loop that completes twenty rounds has twenty bytes |
| Fingerprint.FingerprintScan | ESP_ATMod/command.cpp:2781-2797 | a successful parse has twenty bytes |
| Fingerprint.ParseFingerprint | ESP_ATMod/command.cpp:2781-2797 | the loop into the local fp[20] returns exactly the parse |
| Fingerprint.FingerprintTextLength | ESP_ATMod/command.cpp:2779 | the text is 40 digits, or 59 bytes with colons (line lengths 56 and 75) |
| Fingerprint.HexByteOfPair | ESP_ATMod/command.cpp:2790 | the two hex digits of a byte read back as that byte |
| Fingerprint.FingerprintLoopOfText | ESP_ATMod/command.cpp:2785-2795 | the loop reads the hex text of the remaining bytes back |
| Fingerprint.FingerprintRoundTrip | ESP_ATMod/command.cpp:2779-2797 | a fingerprint written as hex, with or without colons, and closed by a quote parses back to itself |
| Asn.HeaderIn | ESP_ATMod/asnDecode.cpp:249-282 | a header read needs two bytes before the limit; its tag is the first byte; data starts 2 or 4 bytes in; the element ends within the limit |
| Asn.ReadHeader | ESP_ATMod/asnDecode.cpp:249-282 | dataPos 0 signals failure and leaves pos; otherwise the header and the advanced pos are the ones HeaderIn describes |
| Asn.HeaderAsWritten | ESP_ATMod/asnDecode.cpp:249-282 | readHeader as written: nothing at or past the limit; the tag is the first byte; data starts 2 or 4 bytes in, within the limit; the next position is the element end modulo 2^16, with the content length unchecked |
| Asn.HeaderInRefinesAsWritten | ESP_ATMod/asnDecode.cpp:249-282 | the checked header read agrees with the code as written exactly when the element's content also fits |
| Asn.ReadHeaderOverReads | ESP_ATMod/asnDecode.cpp:261 | as written, a one-byte buffer makes readHeader read the byte at index 1 |
| Asn.ContentLengthUnchecked | ESP_ATMod/asnDecode.cpp:275-279 | as written, a header whose length runs past the limit is accepted; the checked read refuses it |
| Asn.Expect | ESP_ATMod/asnDecode.cpp:128-131 | a header with the expected tag, as read |
| Asn.RdnStep | ESP_ATMod/asnDecode.cpp:189-236 | one RDN either passes to a later position within the issuer or stops; a found value is a PrintableString inside the issuer |
| Asn.IssuerScan | ESP_ATMod/asnDecode.cpp:186-239 | a common name found is a PrintableString inside the issuer |
| Asn.CommonName | ESP_ATMod/asnDecode.cpp:118-240 | a result is a PrintableString within the certificate's length |
| Asn.GetCnFromDer | ESP_ATMod/asnDecode.cpp:118-240 | a null pointer gives no name; otherwise the result is exactly the functional decoding |
| Asn.ReadRdn | ESP_ATMod/asnDecode.cpp:189-236 | the body of the issuer loop is one RDN step |
| Asn.ScanIssuer | ESP_ATMod/asnDecode.cpp:186-239 | the issuer loop yields the issuer scan |
| Asn.ScanText | ESP_ATMod/asnDecode.cpp:235 | a name text exists exactly when a name header was found |
| Asn.PrintedNameOfShortForm | ESP_ATMod/asnDecode.cpp:235 | for a short-form length, the length-prefixed pointer that is returned prints the whole name |
| Asn.LongFormNameTruncated | ESP_ATMod/asnDecode.cpp:235 | a 300-byte name with a two-byte length prints as 44 bytes |
| Asn.HeaderOfTlv | ESP_ATMod/asnDecode.cpp:249-282 | reading the header of an encoded TLV gives its tag, length and data position (encode/decode round trip) |
| Asn.RdnStepOfAttribute | ESP_ATMod/asnDecode.cpp:189-236 | one encoded RDN passes when its OID is not 2.5.4.3, and yields its value when it is |
| Asn.CommonNameOidOfText | ESP_ATMod/asnDecode.cpp:222 | the OID test matches exactly the bytes 55 04 03 |
| Asn.IssuerScanOfName | ESP_ATMod/asnDecode.cpp:186-239 | the loop over an encoded issuer name finds the value of its first common-name attribute |
| Asn.CommonNameOfLayout | ESP_ATMod/asnDecode.cpp:127-183 | the path Certificate, TBSCertificate, version, serialNumber, signature, issuer leads to the issuer scan |
| Asn.CommonNameOfCertificate | ESP_ATMod/asnDecode.cpp:118-240 | for every encoded certificate, getCnFromDer yields the issuer's first common name |
| Settings.Seal | ESP_ATMod/settings.cpp:173-179 | a record written back carries the CRC of its fields and is therefore valid |
| Settings.Current | ESP_ATMod/settings.cpp:148-166 | a getter sees the stored fields when the CRC matches, and the defaults otherwise |
| Settings.EepromData.constructor | ESP_ATMod/settings.cpp:148-166 | the record loaded, reset to defaults when the CRC does not match |
| Settings.EepromData.ResetData | ESP_ATMod/settings.cpp:134-142 | every field takes its default; crc32 is untouched |
| Settings.EepromData.CloseAsWritten | ESP_ATMod/settings.cpp:168-182 | as written: a write, and one EEPROM write counted, only when the record differs from the stored one |
| Settings.EepromData.Close | ESP_ATMod/settings.cpp:168-182 | the intended write-back: the stored image is the sealed fields |
| Settings.EepromData.SetUartBaudRate | ESP_ATMod/settings.h:94 | only the baud rate field changes |
| Settings.EepromData.SetUartConfig | ESP_ATMod/settings.h:95 | only the UART config field changes; crc32 and the other fields stay |
| Settings.EepromData.SetDhcpMode | ESP_ATMod/settings.h:96 | only the DHCP mode field changes; crc32 and the other fields stay |
| Settings.EepromData.SetNetConfig | ESP_ATMod/settings.h:97 | only the network configuration field changes; crc32 and the other fields stay |
| Settings.EepromData.SetDnsConfig | ESP_ATMod/settings.h:98 | only the DNS configuration field changes; crc32 and the other fields stay |
| Settings.EepromData.SetMaximumCertificates | ESP_ATMod/settings.h:99 | only the certificate limit field changes; crc32 and the other fields stay |
| Settings.EepromData.GetUartBaudRate | ESP_ATMod/settings.h:87 | read straight after the load, the stored baud rate, or its default when the CRC does not match |
| Settings.EepromData.GetUartConfig | ESP_ATMod/settings.h:88 | read straight after the load, the stored UART config, or its default when the CRC does not match |
| Settings.EepromData.GetDhcpMode | ESP_ATMod/settings.h:89 | read straight after the load, the stored DHCP mode, or its default when the CRC does not match |
| Settings.EepromData.GetNetConfig | ESP_ATMod/settings.h:90 | read straight after the load, the stored network configuration, or its default when the CRC does not match |
| Settings.EepromData.GetDnsConfig | ESP_ATMod/settings.h:91 | read straight after the load, the stored DNS configuration, or its default when the CRC does not match |
| Settings.EepromData.GetMaximumCertificates | ESP_ATMod/settings.h:92 | read straight after the load, the stored certificate limit, or its default when the CRC does not match |
| Settings.Loaded | ESP_ATMod/settings.cpp:148-166 | the record after the load: the stored image when its CRC matches, otherwise the default fields with the stale crc32 kept |
| Settings.SetUartBaudRate | ESP_ATMod/settings.cpp:39-44 | the stored record is the current fields with the new baud rate, sealed; one EEPROM write is counted exactly when that differs from the stored image |
| Settings.GetUartBaudRate | ESP_ATMod/settings.cpp:46-51 | returns the current baud rate; the image is resealed, and one write is counted only when that changes it |
| Settings.SetUartConfig | ESP_ATMod/settings.cpp:53-58 | the stored record is the current fields with the new UART config, sealed; one EEPROM write is counted exactly when that differs from the stored image |
| Settings.GetUartConfig | ESP_ATMod/settings.cpp:60-65 | returns the current UART config; the image is resealed, and one write is counted only when that changes it |
| Settings.SetDhcpMode | ESP_ATMod/settings.cpp:67-72 | the stored record is the current fields with the new DHCP mode, sealed; one EEPROM write is counted exactly when that differs from the stored image |
| Settings.GetDhcpMode | ESP_ATMod/settings.cpp:74-79 | returns the current DHCP mode; the image is resealed, and one write is counted only when that changes it |
| Settings.SetNetConfig | ESP_ATMod/settings.cpp:81-86 | the stored record is the current fields with the new network configuration, sealed; one EEPROM write is counted exactly when that differs from the stored image |
| Settings.GetNetConfig | ESP_ATMod/settings.cpp:88-93 | returns the current network configuration; the image is resealed, and one write is counted only when that changes it |
| Settings.SetDnsConfig | ESP_ATMod/settings.cpp:95-100 | the stored record is the current fields with the new DNS configuration, sealed; one EEPROM write is counted exactly when that differs from the stored image |
| Settings.GetDnsConfig | ESP_ATMod/settings.cpp:102-107 | returns the current DNS configuration; the image is resealed, and one write is counted only when that changes it |
| Settings.SetMaximumCertificates | ESP_ATMod/settings.cpp:109-114 | the stored record is the current fields with the new certificate limit, sealed; one EEPROM write is counted exactly when that differs from the stored image |
| Settings.GetMaximumCertificates | ESP_ATMod/settings.cpp:116-121 | returns the current certificate limit; the image is resealed, and one write is counted only when that changes it |
| Settings.Reset | ESP_ATMod/settings.cpp:127-132 | the stored record is the defaults, sealed; one EEPROM write is counted exactly when that differs from the stored image |
| Settings.CurrentOfSealed | ESP_ATMod/settings.cpp:155-164 | a sealed record reads back its own fields |
| Settings.ReadOfValidImageWritesNothing | ESP_ATMod/settings.cpp:168-182 | a getter on a valid image writes nothing back |
| Settings.SetThenGetUartBaudRate | ESP_ATMod/settings.cpp:39-51 | after setUartBaudRate(v), getUartBaudRate returns v and no other field changes |
| Settings.ResetGivesDefaults | ESP_ATMod/settings.cpp:127-142 | after reset the record is valid and reads as the defaults |
| Settings.LoadedIsValidOrDefault | ESP_ATMod/settings.cpp:148-166 | the loaded record is valid or holds the defaults; its crc32 is the stored one |
| Settings.StaleCrcLosesSetting | ESP_ATMod/settings.cpp:173-179 | as written, setting 9600 over a stored 9600 with a bad CRC writes nothing, and the next read gives 115200 |
| Settings.SealedCloseKeepsSetting | ESP_ATMod/settings.cpp:168-182 | with the sealed write-back the same set reads back 9600 |
| Tables.Released | ESP_ATMod/command.cpp:1978-1983 | a closed slot holds no client |
| Tables.AfterCloseAll | ESP_ATMod/command.cpp:1960-1990 | the slot loop of AT+CIPCLOSE keeps the table size, and slot i is that slot after the close of link i or of all links |
| Tables.CloseAllSlots | ESP_ATMod/command.cpp:1960-1990 | AT+CIPCLOSE=5 leaves no slot with a client; closing any other link leaves the other slots as they were |
| Tables.FirstServer | ESP_ATMod/command.cpp:2048-2056 | the first server the test accepts: every earlier one fails the test, and None means none passes |
| Tables.ServerCommand | ESP_ATMod/command.cpp:2120-2165 | the server table keeps its size |
| Tables.ServerCommandKeepsPortsDistinct | ESP_ATMod/command.cpp:2120-2165 | no two running servers ever share a port; a start that is accepted while an idle server exists leaves a server running on the port |
| Tables.Kept | ESP_ATMod/command.cpp:2938-2957 | the rebuilt store is one entry shorter exactly when 1 <= n <= the number of entries, and as long otherwise |
| Tables.KeptRemovesOne | ESP_ATMod/command.cpp:2938-2957 | copying every certificate but number n, in order, leaves the store with exactly entry n removed |
| Arguments.RangedArg | ESP_ATMod/command.cpp:484 | a number that closes the line is taken only within its range (the shape of the ATE, CIPMUX, CIPSERVERMAXCONN, CIPSTO and CIPSSLAUTH checks) |
| Arguments.RangedArgOfText | ESP_ATMod/command.cpp:484 | the decimal text of n then CR LF is taken exactly when n is in range |
| Arguments.UartPack | ESP_ATMod/command.cpp:597 | the packed frame format fits in six bits |
| Arguments.UartUnpack | ESP_ATMod/command.cpp:547-549 | the decoded fields are within their two-bit ranges |
| Arguments.UartRoundTrip | ESP_ATMod/command.cpp:547-597 | the query decodes exactly the format the set form packed |
| Arguments.UartArg | ESP_ATMod/command.cpp:568-597 | an accepted setting has a baud rate of 110..921600 and a valid frame format |
| Arguments.UartParityArg | ESP_ATMod/command.cpp:583-595 | parity is 0..2; any flow control but 0 is refused |
| Arguments.IpConfigArgAsWritten | ESP_ATMod/command.cpp:1263-1291 | as written, a non-zero lone address gets a gateway and mask; the lone address 0 leaves both unset |
| Arguments.ConfigMaskArg | ESP_ATMod/command.cpp:1288-1291 | the mask closes the line; the address and the gateway are kept |
| Arguments.IpConfigArg | ESP_ATMod/command.cpp:1263-1291 | the corrected list is accepted exactly when the as-written one is, with the same address |
| Arguments.GatewayOfAddress | ESP_ATMod/command.cpp:1275-1276 | the derived gateway is a.b.c.1 and the mask 255.255.255.0 |
| Arguments.LoneAddressConfig | ESP_ATMod/command.cpp:1266-1279 | a lone address gives (ip, a.b.c.1, /24), and the address 0 gives all zeros |
| Arguments.LoneAddressAsWritten | ESP_ATMod/command.cpp:1266-1279 | as written, the lone address 0 leaves gateway and mask uninitialised |
| Arguments.LinkAt | ESP_ATMod/command.cpp:1819-1828 | a link id is at most the last link digit |
| Arguments.LinkFive | ESP_ATMod/command.cpp:1819 | as written, "5," selects link 5, one past the last client slot; with '4' as the last digit it does not |
| Arguments.SendArg | ESP_ATMod/command.cpp:1815-1853 | link and size are in range (size at most 2048); in single-connection mode the link is 0 |
| Arguments.SendLinkFive | ESP_ATMod/command.cpp:1819-1853 | as written, "AT+CIPSEND=5,n" is accepted for link 5; the corrected grammar refuses it |
| Arguments.CloseArg | ESP_ATMod/command.cpp:1934-1958 | the link is 0..5; the argument form is taken in multiple-connection mode only, and the bare form in single mode only |
| Arguments.ServerArgOf | ESP_ATMod/command.cpp:2083-2118 | the port is at most 65535; without a port, start uses 333 and stop uses 0 |
| Arguments.SslSizeArg | ESP_ATMod/command.cpp:1770-1798 | only 512, 1024, 2048 and 4096 are taken, and 16384 is kept as 0 |
| Arguments.CertRequestOf | ESP_ATMod/command.cpp:2850-2974 | load exactly for the bare command (length 15); list exactly for '?' closing the line; show for '?' and one or two more bytes; delete for "=DELETE," on a line of 22 to 25 bytes; a number is present exactly when readNumber succeeds; any other line is refused |
| Readers.ReadUartSetting | ESP_ATMod/command.cpp:568-597 | the reads over inputBuffer give exactly the UART argument grammar |
| Readers.ReadIpConfig | ESP_ATMod/command.cpp:1263-1291 | the reads give exactly the corrected address list |
| Readers.ReadParsedConfig | ESP_ATMod/command.cpp:1263-1291 | the reads give exactly the address list as written |
| Readers.ReadCloseLink | ESP_ATMod/command.cpp:1934-1958 | the reads give exactly the CIPCLOSE argument |
| Readers.ReadServerArg | ESP_ATMod/command.cpp:2083-2118 | the reads give exactly the CIPSERVER argument |
| Handlers.UartSetThenQuery | ESP_ATMod/command.cpp:536-617 | after AT+UART_DEF= stores a setting, AT+UART_DEF? reports that baud rate and format |
| Handlers.Engine.constructor | ESP_ATMod/ESP_ATMod.h:63-75 | an empty buffer, no clients, closed servers, no fingerprint and an empty CA store; the certificate maximum is the start-up value passed in |
| Handlers.Engine.ProcessCommandBuffer | ESP_ATMod/command.cpp:210-422 | the command is findCommand's; the buffer count is 0 afterwards; the reply and the whole new state (globals, client slots, servers, fingerprint, stored settings) are those of the command's handler; CMD_AT replies OK and CMD_ERROR ERROR, and both change nothing; a command whose handler is not part of this model gets no reply and changes nothing; the EEPROM write count changes only for AT+UART and AT+CIPSTA |
| Handlers.Engine.Execute | ESP_ATMod/command.cpp:214-421 | the handler's reply and state, then the buffer cleared |
| Handlers.Engine.Dispatch | ESP_ATMod/command.cpp:214-416 | the if-chain runs exactly the handler of cmd: its reply and its new state |
| Handlers.Engine.Ate | ESP_ATMod/command.cpp:479-491 | ATE0/ATE1 set the echo flag and reply OK; anything else replies ERROR and changes nothing |
| Handlers.Engine.Uart | ESP_ATMod/command.cpp:509-628 | the query reports the stored setting for _DEF and the running port otherwise; an accepted set restarts the port with the setting and, except for _CUR, stores it; a refused set changes nothing |
| Handlers.Engine.UartQuery | ESP_ATMod/command.cpp:536-549 | the _DEF query reads the config then the baud rate through Settings |
| Handlers.Engine.UartSet | ESP_ATMod/command.cpp:597-617 | the port takes the setting; _UART and _DEF store baud rate and config |
| Handlers.Engine.CipSta | ESP_ATMod/command.cpp:1208-1322 | ERROR in SoftAP-only mode; an accepted set takes the configuration, stops DHCP and, except for _CUR, stores both; otherwise nothing changes |
| Handlers.Engine.CipStaSet | ESP_ATMod/command.cpp:1256-1316 | valid addresses are taken, DHCP stops and, except for _CUR, both are stored, with reply OK; otherwise ERROR and nothing changes |
| Handlers.Engine.ApplyStationConfig | ESP_ATMod/command.cpp:1297-1309 | the station configuration and DHCP mode 1 are taken, and stored unless _CUR; nothing else changes |
| Handlers.Engine.CipAp | ESP_ATMod/command.cpp:1327-1442 | ERROR in station-only mode; an accepted set takes the SoftAP configuration and, except for _CUR, stores it |
| Handlers.Engine.CipSslSize | ESP_ATMod/command.cpp:1770-1798 | an accepted size is taken and replies OK; otherwise ERROR and nothing changes |
| Handlers.Engine.CipSend | ESP_ATMod/command.cpp:1803-1869 | the link is armed (sendLength, gsLinkIdReading, dataRead = 0) exactly when the argument is valid and the link's client is present and connected |
| Handlers.Engine.CipClose | ESP_ATMod/command.cpp:1928-2001 | link 5 closes every slot; one link closes that slot only; closing an empty single slot is ERROR and changes nothing |
| Handlers.Engine.CipMux | ESP_ATMod/command.cpp:2021-2070 | the mode changes only when no client is present and no server is running |
| Handlers.Engine.HasClient | ESP_ATMod/command.cpp:2039-2046 | the loop finds a client exactly when some slot holds one |
| Handlers.Engine.FindServer | ESP_ATMod/command.cpp:2048-2056 | the loop returns the first server the test accepts |
| Handlers.Engine.CipServer | ESP_ATMod/command.cpp:2075-2171 | ERROR in single-connection mode or on a bad argument; otherwise the reply and the server table follow the server rules |
| Handlers.Engine.CipServerMaxConn | ESP_ATMod/command.cpp:2176-2201 | the query replies OK; the set form takes 1..5 |
| Handlers.Engine.CipSto | ESP_ATMod/command.cpp:2206-2231 | the query replies OK; the set form takes 0..7200 seconds, kept in milliseconds |
| Handlers.Engine.CipSslAuth | ESP_ATMod/command.cpp:2707-2748 | mode 1 needs a valid fingerprint and mode 2 a loaded CA certificate; otherwise the mode is taken |
| Handlers.Engine.CipSslFp | ESP_ATMod/command.cpp:2755-2813 | the query replies OK only with a valid fingerprint; an accepted set stores the parsed twenty bytes and marks them valid; anything else changes nothing |
| Handlers.Engine.StoreFingerprint | ESP_ATMod/command.cpp:2799 | the fingerprint array holds the parsed bytes |
| Handlers.Engine.CipSslCert | ESP_ATMod/command.cpp:2850-2974 | load starts below the limit when the PEM buffer is allocated; "?n" shows certificate n when it exists; "=DELETE,n" removes certificate n when it exists; otherwise ERROR and nothing changes |
| Handlers.Engine.DeleteCertificate | ESP_ATMod/command.cpp:2938-2957 | the store loses exactly entry n, in order; no other global changes |

## Left out

- WiFi, TCP/UDP and TLS traffic, and everything printed other than the final OK or ERROR. Outcomes of that code that a handler branches on are parameters:
  - the WiFi mode;
  - whether the PEM buffer is allocated;
  - whether `servers[i].begin` starts the server.
- The handlers of the other commands in the table. `Handlers.Engine.ProcessCommandBuffer` returns no reply for them and leaves the state as it was. This includes AT+CIPSSLCERTMAX, the CIPSTART family and AT+CIPRECVDATA; `Arguments.LinkAt` covers the link-id test that AT+CIPRECVDATA shares with AT+CIPSEND.
- `Serial.begin` is modelled by the two fields `serialBaudRate` and `serialConfig`. The USC0 register is the packed config alone. The flush, the delay and the restart are not modelled.
- The effects of `WiFi.config`, `setDhcpMode()` and `applyCipAp()` on the network stack are not modelled. The non-`_DEF` queries of AT+CIPSTA and AT+CIPAP read the WiFi stack and are modelled as replying OK.
- `Settings::getApIpConfig`/`setApIpConfig` are not declared in settings.h. Their storage is the abstract field `apIpConfig`.
- The CRC-32 function is a parameter (`Settings.Crc`). The EEPROM is a record image with a write counter.
- `DeleteClient`'s body is not part of this model. Its effect is taken to be that the slot has no client.
- SERIAL_8N1's value and SERVERS_COUNT are parameters or constants of the model. The globals' initial values are not modelled: `Handlers.Engine.constructor` starts from zeros, except for the certificate maximum (next line).
- Handlers.Engine.constructor: the start-up value of `maximumCertificates` is the parameter `maxCertificates`. The firmware reads it from the settings record (default 5, settings.cpp:141), and that start-up code is not part of this model.
- The PEM loading that AT+CIPSSLCERT starts is out of scope. Its buffer position and count are not modelled, and neither is the certificate list's own storage: the CA store is a sequence of DER byte strings.
- Settings.SetThenGetUartBaudRate: the set-then-get law is stated for the baud rate only; the other setters have the same shape.
- Tables.ServerCommand: its own contract states only the size of the table; the server rules are stated by Tables.ServerCommandKeepsPortsDistinct and by Handlers.Engine.CipServer.
- Handlers.Engine.ProcessCommandBuffer: the EEPROM write count is stated unchanged for every command that stores no setting; for AT+UART and AT+CIPSTA it is left free, since the number of writes depends on how each Settings call compares its sealed record with the stored one.
- CommandTable.CanonicalLineResolves: it takes as a hypothesis that every earlier entry passes over the line. That no entry shadows a later one is proved for the lines of CommandTable.CipstartIsNotCipsta, CommandTable.CwlapLineResolves, CommandTable.CipstamacLineResolves, CommandTable.CipstaLineResolves and CommandTable.CipsslcertNotShadowedByMax, not for every pair of the table.
- Asn.GetCnFromDer, like Asn.CommonName, Asn.IssuerScan, Asn.RdnStep, Asn.ReadRdn, Asn.ScanIssuer and Asn.CommonNameOfCertificate, walks the certificate with the checked header reader Asn.HeaderIn / Asn.ReadHeader, not with readHeader as written. A certificate whose header or content length runs past the buffer (an outer `30 82 FF FF` over a shorter buffer, or an RDN SET longer than the issuer) gives no name here, where the firmware reads on and may return one.
- Handlers.Engine.CipSta, like Handlers.Engine.CipStaSet, Handlers.Engine.ApplyStationConfig and Handlers.Engine.CipAp, stores the corrected configuration of Arguments.IpConfigArg: for a lone address 0 that is the all-zero configuration, where the firmware stores an uninitialised gateway and mask.
- Settings.SetUartBaudRate, like the other static getters and setters and Settings.Reset, closes through the corrected destructor Settings.EepromData.Close, not the one as written; the write-back as written is Settings.EepromData.CloseAsWritten, and Settings.StaleCrcLosesSetting shows where the two differ.

## Findings

| source | as written | input that shows it | evidently intended | confidence | as-written member | corrected member |
|---|---|---|---|---|---|---|
| ESP_ATMod/command.cpp:3257 | the overflow test `ps - s > sizeof(s)` runs after the write, so a 201st byte is written one past `s[200]` | a quoted text of 201 letters | stop at 200 bytes and refuse the string | high, not executed | Scanners.AsWrittenStoresByte201 | Scanners.IntendedRefusesByte201, Scanners.ReadStringFromBuffer |
| ESP_ATMod/command.cpp:3250 | the escaped-control test looks at the backslash itself, so it never fires | `"a\<TAB>"` with escape on | refuse an escaped control byte | medium, not executed | Scanners.AsWrittenKeepsEscapedControl | Scanners.ReadStringFromBuffer |
| ESP_ATMod/asnDecode.cpp:254-276 | `der[pos + 1]` (and `der[pos + 3]`) are read before the header is checked against the limit, and the content length is never checked against it | a DER buffer of one byte; a header whose length runs past the limit | check the whole header and the content against the limit first | high, not executed | Asn.ReadHeaderOverReads, Asn.ContentLengthUnchecked | Asn.ReadHeader, Asn.HeaderInRefinesAsWritten, Asn.RdnStep, Asn.IssuerScan, Asn.CommonName, Asn.GetCnFromDer, Asn.ReadRdn, Asn.ScanIssuer, Asn.CommonNameOfCertificate |
| ESP_ATMod/asnDecode.cpp:235 | the name is returned as the byte before its data, taken as a one-byte length | a common name of 300 bytes with a two-byte length | return the name with its real length | high, not executed | Asn.LongFormNameTruncated | Asn.ScanText, Asn.CommonNameOfCertificate |
| ESP_ATMod/settings.cpp:173-179 | the destructor compares the record, including the stale crc32, with the stored one, so a set to the value already stored under a bad CRC writes nothing | stored baud rate 9600 with a bad CRC, then setUartBaudRate(9600) | write back whenever the sealed record differs | medium, not executed | Settings.EepromData.CloseAsWritten, Settings.StaleCrcLosesSetting | Settings.EepromData.Close, Settings.SealedCloseKeepsSetting, Settings.SetUartBaudRate and the other static getters and setters, Settings.Reset |
| ESP_ATMod/command.cpp:1273-1279 | with a lone address 0, `cfg.gw` and `cfg.mask` stay uninitialised and are stored | `AT+CIPSTA="0.0.0.0"` | an all-zero configuration | medium, not executed | Arguments.IpConfigArgAsWritten, Arguments.LoneAddressAsWritten | Arguments.IpConfigArg, Arguments.LoneAddressConfig, Readers.ReadIpConfig, Handlers.Engine.CipSta, Handlers.Engine.CipStaSet, Handlers.Engine.ApplyStationConfig, Handlers.Engine.CipAp |
| ESP_ATMod/command.cpp:1819 | link digits up to '5' are accepted, and link 5 indexes `clients[5]`, one past the array | `AT+CIPSEND=5,10` in multiple-connection mode | link digits up to '4' | high, not executed | Arguments.SendLinkFive, Arguments.LinkFive | Arguments.SendArg, Handlers.Engine.CipSend |
