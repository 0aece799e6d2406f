/**
 * Asn: the DER reader that finds the issuer commonName of an X.509
 * certificate (ESP_ATMod/asnDecode.cpp). readHeader decodes one
 * tag-length header (identifier octet, then a short or a two-byte long
 * definite length as in ITU-T X.690 sections 8.1.2, 8.1.3.4 and 8.1.3.5);
 * getCnFromDer walks Certificate, TBSCertificate and the issuer Name of
 * RFC 5280 section 4.1 to the first id-at-commonName attribute.
 */
module Asn {
  import opened Bytes

  // Identifier octets the reader expects (asnTypes | asnMethods)
  const TAG_INTEGER: byte := 0x02
  const TAG_OID: byte := 0x06
  const TAG_PRINTABLE_STRING: byte := 0x13
  const TAG_SEQUENCE: byte := 0x30       // ASN_SEQUENCE | ASN_CONSTRUCTED
  const TAG_SET: byte := 0x31            // ASN_SET | ASN_CONSTRUCTED
  const TAG_VERSION: byte := 0xA0        // ASN_CONTEXT_SPECIFIC | ASN_CONSTRUCTED, [0]

  /** The long-form length octet the reader accepts: two length bytes follow. */
  const LONG_FORM_2: byte := 0x82

  /** 2^16: the firmware keeps positions in uint16_t. */
  const UINT16_MODULUS: nat := 0x1_0000

  /**
   * asnHeader_t: the tag, the content length and the position of the
   * content. A dataPos of 0 means the header could not be read.
   */
  datatype Header = Header(tag: byte, length: nat, dataPos: nat)

  const NO_HEADER: Header := Header(0, 0, 0)

  /** The position just past the content: the next element of the same level. */
  function End(h: Header): nat
  {
    h.dataPos + h.length
  }

  // ---------------------------------------------------------------- readHeader

  /**
   * readHeader with its reads kept inside [pos, limit) and the content
   * required to end by limit. This is the header reader the rest of the
   * model uses.
   */
  function HeaderIn(der: seq<byte>, pos: nat, limit: nat): (r: Option<Header>)
    requires limit <= |der|
    ensures r.Some? ==> pos + 2 <= limit && r.value.tag == der[pos] && r.value.dataPos in {pos + 2, pos + 4}
    ensures r.Some? ==> End(r.value) <= limit
  {
    if pos + 2 > limit then None
    else if der[pos + 1] < 0x80 then
      var h := Header(der[pos], der[pos + 1] as nat, pos + 2);
      if End(h) <= limit then Some(h) else None
    else if der[pos + 1] == LONG_FORM_2 && pos + 4 <= limit then
      var h := Header(der[pos], der[pos + 2] as nat * 0x100 + der[pos + 3] as nat, pos + 4);
      if End(h) <= limit then Some(h) else None
    else None
  }

  /**
   * readHeader: on success the header and the position of the next
   * element; otherwise a header with dataPos 0 and pos unchanged.
   */
  method ReadHeader(der: array<byte>, pos: nat, limit: nat) returns (hdr: Header, pos': nat)
    requires limit <= der.Length
    ensures hdr.dataPos != 0 <==> HeaderIn(der[..], pos, limit).Some?
    ensures hdr.dataPos != 0 ==> HeaderIn(der[..], pos, limit) == Some(hdr) && pos' == End(hdr)
    ensures hdr.dataPos == 0 ==> pos' == pos
  {
    if pos >= limit || pos + 1 >= limit {
      return NO_HEADER, pos;
    }
    var hdrsize: nat;
    var length: nat;
    if der[pos + 1] < 0x80 {
      length := der[pos + 1] as nat;
      hdrsize := 2;
    } else if der[pos + 1] == LONG_FORM_2 && pos + 4 <= limit {
      length := der[pos + 2] as nat * 0x100 + der[pos + 3] as nat;
      hdrsize := 4;
    } else {
      return NO_HEADER, pos;
    }
    if pos + hdrsize + length > limit {
      return NO_HEADER, pos;
    }
    hdr := Header(der[pos], length, pos + hdrsize);
    pos' := pos + hdrsize + length;
  }

  /**
   * readHeader as written: bytes outside the buffer read as 0, the length
   * octets are read before the bound check, the content length is not
   * compared with limit, and the next position wraps as a uint16_t.
   */
  function HeaderAsWritten(der: seq<byte>, pos: nat, limit: nat): (r: Option<(Header, nat)>)
    ensures pos >= limit ==> r.None?
    ensures r.Some? ==> r.value.0.tag == At(der, pos)
    ensures r.Some? ==> r.value.0.dataPos in {pos + 2, pos + 4} && r.value.0.dataPos <= limit
    ensures r.Some? ==> r.value.1 == End(r.value.0) % UINT16_MODULUS
  {
    if pos >= limit then None
    else
      var b := At(der, pos + 1);
      var sizeLen: Option<(nat, nat)> :=
        if b < 0x80 then Some((2, b as nat))
        else if b == LONG_FORM_2 then Some((4, At(der, pos + 2) as nat * 0x100 + At(der, pos + 3) as nat))
        else None;
      if sizeLen.None? || pos + sizeLen.value.0 > limit then None
      else
        var h := Header(At(der, pos), sizeLen.value.1, pos + sizeLen.value.0);
        Some((h, End(h) % UINT16_MODULUS))
  }

  /** The buffer indices readHeader as written reads. */
  function ReadsAsWritten(der: seq<byte>, pos: nat, limit: nat): set<nat>
  {
    if pos >= limit then {}
    else if At(der, pos + 1) == LONG_FORM_2 then {pos, pos + 1, pos + 2, pos + 3}
    else {pos, pos + 1}
  }

  /**
   * The corrected reader agrees with readHeader as written wherever the
   * content fits the limit, and refuses exactly the headers whose content
   * runs past it.
   */
  lemma HeaderInRefinesAsWritten(der: seq<byte>, pos: nat, limit: nat)
    requires limit <= |der| && limit < UINT16_MODULUS
    ensures HeaderIn(der, pos, limit).Some? <==>
              HeaderAsWritten(der, pos, limit).Some? && End(HeaderAsWritten(der, pos, limit).value.0) <= limit
    ensures HeaderIn(der, pos, limit).Some? ==>
              HeaderAsWritten(der, pos, limit).value == (HeaderIn(der, pos, limit).value, End(HeaderIn(der, pos, limit).value))
  {
  }

  /** readHeader as written reads the length octet of a header that starts on the last byte. */
  lemma ReadHeaderOverReads()
    ensures var der: seq<byte> := [TAG_SEQUENCE];
            1 in ReadsAsWritten(der, 0, 1) && 1 >= |der| && HeaderAsWritten(der, 0, 1).None?
  {
  }

  /** readHeader as written accepts a header whose content runs past the limit. */
  lemma ContentLengthUnchecked()
    ensures var der: seq<byte> := [TAG_SEQUENCE, 0x05];
            HeaderAsWritten(der, 0, 2) == Some((Header(TAG_SEQUENCE, 5, 2), 7))
            && HeaderIn(der, 0, 2).None?
  {
  }

  // ---------------------------------------------------------------- getCnFromDer

  /** The header at pos when it has the expected tag. */
  function Expect(der: seq<byte>, pos: nat, limit: nat, tag: byte): (r: Option<Header>)
    requires limit <= |der|
    ensures r.Some? ==> r == HeaderIn(der, pos, limit) && r.value.tag == tag
  {
    var h := HeaderIn(der, pos, limit);
    if h.Some? && h.value.tag == tag then h else None
  }

  /** The attribute type is OID 2.5.4.3, id-at-commonName, encoded 55 04 03. */
  predicate IsCommonNameOid(der: seq<byte>, oid: Header)
    requires End(oid) <= |der|
  {
    oid.length == 3 && der[oid.dataPos] == 0x55 && der[oid.dataPos + 1] == 0x04 && der[oid.dataPos + 2] == 0x03
  }

  /** What one RelativeDistinguishedName decides: the result of the scan, or the position of the next one. */
  datatype Step = Stop(result: Option<Header>) | Pass(next: nat)

  /**
   * One RelativeDistinguishedName at pos: it must be a SET holding a
   * SEQUENCE whose first element is an OID; a commonName ends the scan
   * with its value if that is a PrintableString, any other attribute
   * passes to the next SET.
   */
  function RdnStep(der: seq<byte>, pos: nat, end: nat): (s: Step)
    requires end <= |der|
    ensures s.Pass? ==> pos < s.next <= end
    ensures s.Stop? && s.result.Some? ==> s.result.value.tag == TAG_PRINTABLE_STRING && End(s.result.value) <= end
  {
    var rdn := Expect(der, pos, end, TAG_SET);
    if rdn.None? then Stop(None)
    else
      var attr := Expect(der, rdn.value.dataPos, End(rdn.value), TAG_SEQUENCE);
      if attr.None? then Stop(None)
      else
        var oid := Expect(der, attr.value.dataPos, End(attr.value), TAG_OID);
        if oid.None? then Stop(None)
        else if IsCommonNameOid(der, oid.value) then
          var value := HeaderIn(der, End(oid.value), End(attr.value));
          if value.None? || value.value.tag != TAG_PRINTABLE_STRING then Stop(None) else Stop(value)
        else Pass(End(rdn.value))
  }

  /** The scan of the issuer's RelativeDistinguishedNames from pos to end. */
  function IssuerScan(der: seq<byte>, pos: nat, end: nat): (r: Option<Header>)
    requires end <= |der|
    ensures r.Some? ==> r.value.tag == TAG_PRINTABLE_STRING && End(r.value) <= end
    decreases end - pos
  {
    if pos >= end then None
    else
      match RdnStep(der, pos, end)
      case Stop(result) => result
      case Pass(next) => IssuerScan(der, next, end)
  }

  /**
   * getCnFromDer on a certificate of length bytes: Certificate,
   * TBSCertificate, version, serialNumber, signature and issuer in turn,
   * then the issuer scan.
   */
  function CommonName(der: seq<byte>, length: nat): (r: Option<Header>)
    requires length <= |der|
    ensures r.Some? ==> r.value.tag == TAG_PRINTABLE_STRING && End(r.value) <= length
  {
    var cert := Expect(der, 0, length, TAG_SEQUENCE);
    if cert.None? then None
    else
      var tbs := Expect(der, cert.value.dataPos, End(cert.value), TAG_SEQUENCE);
      if tbs.None? then None
      else
        var tbsEnd := End(tbs.value);
        var version := Expect(der, tbs.value.dataPos, tbsEnd, TAG_VERSION);
        if version.None? then None
        else
          var serial := Expect(der, End(version.value), tbsEnd, TAG_INTEGER);
          if serial.None? then None
          else
            var signature := Expect(der, End(serial.value), tbsEnd, TAG_SEQUENCE);
            if signature.None? then None
            else
              var issuer := Expect(der, End(signature.value), tbsEnd, TAG_SEQUENCE);
              if issuer.None? then None
              else IssuerScan(der, issuer.value.dataPos, End(issuer.value))
  }

  /**
   * getCnFromDer: the header of the commonName value, or None where the
   * firmware returns nullptr (a null input among them).
   */
  method GetCnFromDer(der: array?<byte>, length: nat) returns (cn: Option<Header>)
    requires der != null ==> length <= der.Length
    ensures der == null ==> cn.None?
    ensures der != null ==> cn == CommonName(der[..], length)
  {
    if der == null {
      return None;
    }
    var header, pos := ReadHeader(der, 0, length);
    if header.dataPos == 0 || header.tag != TAG_SEQUENCE {
      return None;
    }
    header, pos := ReadHeader(der, header.dataPos, End(header));
    if header.dataPos == 0 || header.tag != TAG_SEQUENCE {
      return None;
    }
    var tbsCertPos, tbsCertEnd := header.dataPos, End(header);
    header, tbsCertPos := ReadHeader(der, tbsCertPos, tbsCertEnd);
    if header.dataPos == 0 || header.tag != TAG_VERSION {
      return None;
    }
    header, tbsCertPos := ReadHeader(der, tbsCertPos, tbsCertEnd);
    if header.dataPos == 0 || header.tag != TAG_INTEGER {
      return None;
    }
    header, tbsCertPos := ReadHeader(der, tbsCertPos, tbsCertEnd);
    if header.dataPos == 0 || header.tag != TAG_SEQUENCE {
      return None;
    }
    header, tbsCertPos := ReadHeader(der, tbsCertPos, tbsCertEnd);
    if header.dataPos == 0 || header.tag != TAG_SEQUENCE {
      return None;
    }
    cn := ScanIssuer(der, header.dataPos, End(header));
  }

  /** The scan at a RelativeDistinguishedName that decides it. */
  lemma IssuerScanStep(der: seq<byte>, pos: nat, end: nat)
    requires end <= |der| && pos < end
    ensures RdnStep(der, pos, end).Stop? ==> IssuerScan(der, pos, end) == RdnStep(der, pos, end).result
    ensures RdnStep(der, pos, end).Pass? ==> IssuerScan(der, pos, end) == IssuerScan(der, RdnStep(der, pos, end).next, end)
  {
  }

  /**
   * The body of the loop of getCnFromDer: one RelativeDistinguishedName
   * at pos, read header by header.
   */
  method ReadRdn(der: array<byte>, pos: nat, issuerEnd: nat) returns (step: Step)
    requires issuerEnd <= der.Length
    ensures step == RdnStep(der[..], pos, issuerEnd)
  {
    ghost var bytes := der[..];
    var header, next := ReadHeader(der, pos, issuerEnd);
    if header.dataPos == 0 || header.tag != TAG_SET {
      return Stop(None);
    }
    ghost var rdn := header;
    assert Expect(bytes, pos, issuerEnd, TAG_SET) == Some(rdn);
    var setPos, setEnd := header.dataPos, End(header);
    header, setPos := ReadHeader(der, setPos, setEnd);
    if header.dataPos == 0 || header.tag != TAG_SEQUENCE {
      return Stop(None);
    }
    ghost var attr := header;
    assert Expect(bytes, rdn.dataPos, End(rdn), TAG_SEQUENCE) == Some(attr);
    var attrPos, attrEnd := header.dataPos, End(header);
    header, attrPos := ReadHeader(der, attrPos, attrEnd);
    if header.dataPos == 0 || header.tag != TAG_OID {
      return Stop(None);
    }
    assert Expect(bytes, attr.dataPos, End(attr), TAG_OID) == Some(header);
    if header.length == 3 && der[header.dataPos] == 0x55 && der[header.dataPos + 1] == 0x04
       && der[header.dataPos + 2] == 0x03 {
      assert IsCommonNameOid(bytes, header);
      header, attrPos := ReadHeader(der, attrPos, attrEnd);
      if header.dataPos == 0 || header.tag != TAG_PRINTABLE_STRING {
        return Stop(None);
      }
      return Stop(Some(header));
    }
    return Pass(next);
  }

  /** The loop of getCnFromDer over the RelativeDistinguishedNames of the issuer. */
  method ScanIssuer(der: array<byte>, issuerPos: nat, issuerEnd: nat) returns (cn: Option<Header>)
    requires issuerEnd <= der.Length
    ensures cn == IssuerScan(der[..], issuerPos, issuerEnd)
  {
    ghost var bytes := der[..];
    var pos := issuerPos;
    ghost var scan := IssuerScan(bytes, pos, issuerEnd);
    while pos < issuerEnd
      invariant IssuerScan(bytes, pos, issuerEnd) == scan
      decreases issuerEnd - pos
    {
      IssuerScanStep(bytes, pos, issuerEnd);
      var step := ReadRdn(der, pos, issuerEnd);
      match step
      case Stop(result) =>
        return result;
      case Pass(next) =>
        pos := next;
    }
    return None;
  }

  // ---------------------------------------------------------------- the name the caller prints

  /** The commonName text: the content of the PrintableString. */
  function CnText(der: seq<byte>, value: Header): (t: seq<byte>)
    requires End(value) <= |der|
    ensures |t| == value.length
  {
    der[value.dataPos..End(value)]
  }

  /** The text of a result of the scan. */
  function ScanText(der: seq<byte>, r: Option<Header>): (t: Option<seq<byte>>)
    requires r.Some? ==> End(r.value) <= |der|
    ensures t.Some? <==> r.Some?
  {
    if r.None? then None else Some(CnText(der, r.value))
  }

  /**
   * The text printCertificateName copies from the pointer getCnFromDer
   * returns, dataPos - 1: as many bytes as the byte before the content
   * says.
   */
  function PrintedNameAsWritten(der: seq<byte>, value: Header): seq<byte>
    requires 0 < value.dataPos && End(value) <= |der|
  {
    var count := der[value.dataPos - 1] as nat;
    if value.dataPos + count <= |der| then der[value.dataPos..value.dataPos + count] else der[value.dataPos..]
  }

  /**
   * The byte before the content is the whole length only in the short
   * form: there the printed name is the commonName.
   */
  lemma PrintedNameOfShortForm(der: seq<byte>, pos: nat, limit: nat)
    requires limit <= |der| && HeaderIn(der, pos, limit).Some?
    requires der[pos + 1] < 0x80
    ensures PrintedNameAsWritten(der, HeaderIn(der, pos, limit).value) == CnText(der, HeaderIn(der, pos, limit).value)
  {
  }

  /**
   * A 300-byte PrintableString in the 0x82 form: the byte before the
   * content is 0x2C, so 44 bytes of the 300 are printed.
   */
  lemma LongFormNameTruncated()
    ensures var der := [TAG_PRINTABLE_STRING, LONG_FORM_2, 0x01, 0x2C] + seq(300, _ => 0x41 as byte);
            var h := Header(TAG_PRINTABLE_STRING, 300, 4);
            HeaderIn(der, 0, |der|) == Some(h)
            && |CnText(der, h)| == 300 && |PrintedNameAsWritten(der, h)| == 44
  {
    var der := [TAG_PRINTABLE_STRING, LONG_FORM_2, 0x01, 0x2C] + seq(300, _ => 0x41 as byte);
    assert der[1] == LONG_FORM_2 && der[2] == 0x01 && der[3] == 0x2C && der[0] == TAG_PRINTABLE_STRING;
  }

  // ---------------------------------------------------------------- DER encoding, the reader's partner

  /** The definite length octets of X.690 section 8.1.3 in the two forms the reader knows. */
  function EncodeLength(n: nat): (e: seq<byte>)
    requires n < UINT16_MODULUS
    ensures |e| == 1 || |e| == 3
  {
    if n < 0x80 then [n as byte] else [LONG_FORM_2, (n / 0x100) as byte, (n % 0x100) as byte]
  }

  /** A tag-length-value element. */
  function Tlv(tag: byte, content: seq<byte>): (e: seq<byte>)
    requires |content| < UINT16_MODULUS
    ensures |e| == 1 + |EncodeLength(|content|)| + |content|
  {
    [tag] + EncodeLength(|content|) + content
  }

  /** The header of a tag-length-value element encoded at pos. */
  function TlvHeader(pos: nat, tag: byte, content: seq<byte>): (h: Header)
    requires |content| < UINT16_MODULUS
    ensures End(h) == pos + |Tlv(tag, content)|
  {
    Header(tag, |content|, pos + 1 + |EncodeLength(|content|)|)
  }

  /**
   * Round trip of readHeader: an element encoded at pos and ending by
   * the limit reads back as its tag and length, with its content at
   * dataPos.
   */
  lemma HeaderOfTlv(der: seq<byte>, pos: nat, limit: nat, tag: byte, content: seq<byte>)
    requires limit <= |der| && |content| < UINT16_MODULUS
    requires HoldsAt(der, pos, Tlv(tag, content)) && pos + |Tlv(tag, content)| <= limit
    ensures HeaderIn(der, pos, limit) == Some(TlvHeader(pos, tag, content))
    ensures HoldsAt(der, TlvHeader(pos, tag, content).dataPos, content)
  {
    var len := EncodeLength(|content|);
    HoldsAtSplit(der, pos, [tag] + len, content);
    HoldsAtSplit(der, pos, [tag], len);
    HoldsAtIndex(der, pos, [tag], 0);
    HoldsAtIndex(der, pos + 1, len, 0);
    if |content| >= 0x80 {
      HoldsAtIndex(der, pos + 1, len, 1);
      HoldsAtIndex(der, pos + 1, len, 2);
    }
  }

  /** The same round trip through the tag test of getCnFromDer. */
  lemma ExpectOfTlv(der: seq<byte>, pos: nat, limit: nat, tag: byte, content: seq<byte>)
    requires limit <= |der| && |content| < UINT16_MODULUS
    requires HoldsAt(der, pos, Tlv(tag, content)) && pos + |Tlv(tag, content)| <= limit
    ensures Expect(der, pos, limit, tag) == Some(TlvHeader(pos, tag, content))
    ensures HoldsAt(der, TlvHeader(pos, tag, content).dataPos, content)
  {
    HeaderOfTlv(der, pos, limit, tag, content);
  }

  /** One AttributeTypeAndValue: the OID's content octets, the value's tag and its content. */
  datatype Attribute = Attribute(oid: seq<byte>, tag: byte, value: seq<byte>)

  /** Sizes for which every element of an encoded attribute has a valid length. */
  predicate Fits(a: Attribute)
  {
    |a.oid| < 0x80 && |a.value| < 0x800
  }

  /** The content of the attribute's SEQUENCE: the OID, then the value. */
  function AttributeContent(a: Attribute): (e: seq<byte>)
    requires Fits(a)
    ensures |e| < 0x900
  {
    Tlv(TAG_OID, a.oid) + Tlv(a.tag, a.value)
  }

  /** An attribute alone in its RelativeDistinguishedName: SET { SEQUENCE { OID, value } }. */
  function RdnTlv(a: Attribute): (e: seq<byte>)
    requires Fits(a)
    ensures |e| <= 0x1000
  {
    Tlv(TAG_SET, Tlv(TAG_SEQUENCE, AttributeContent(a)))
  }

  /** The content octets of an issuer Name: its RelativeDistinguishedNames in order. */
  function NameContent(attrs: seq<Attribute>): (e: seq<byte>)
    requires forall k :: 0 <= k < |attrs| ==> Fits(attrs[k])
    ensures |e| <= 0x1000 * |attrs|
  {
    if |attrs| == 0 then [] else RdnTlv(attrs[0]) + NameContent(attrs[1..])
  }

  /** The attribute type is id-at-commonName. */
  predicate IsCommonName(a: Attribute)
  {
    a.oid == [0x55, 0x04, 0x03]
  }

  /** What the reader makes of a commonName attribute: its value if it is a PrintableString. */
  function AttributeCn(a: Attribute): Option<seq<byte>>
  {
    if a.tag == TAG_PRINTABLE_STRING then Some(a.value) else None
  }

  /** The value of the first commonName attribute, if it is a PrintableString. */
  function IssuerCn(attrs: seq<Attribute>): Option<seq<byte>>
  {
    if |attrs| == 0 then None
    else if IsCommonName(attrs[0]) then AttributeCn(attrs[0])
    else IssuerCn(attrs[1..])
  }

  /** An OID header whose content is text names commonName exactly when text is 55 04 03. */
  lemma CommonNameOidOfText(der: seq<byte>, oid: Header, text: seq<byte>)
    requires End(oid) <= |der| && HoldsAt(der, oid.dataPos, text) && oid.length == |text|
    ensures IsCommonNameOid(der, oid) <==> text == [0x55, 0x04, 0x03]
  {
    if |text| == 3 {
      HoldsAtIndex(der, oid.dataPos, text, 0);
      HoldsAtIndex(der, oid.dataPos, text, 1);
      HoldsAtIndex(der, oid.dataPos, text, 2);
      if text[0] == 0x55 && text[1] == 0x04 && text[2] == 0x03 {
        assert text == [0x55, 0x04, 0x03];
      }
    }
  }

  /**
   * The reader finds the SET, the SEQUENCE, the OID and the value of an
   * encoded attribute.
   */
  lemma HeadersOfRdn(der: seq<byte>, pos: nat, end: nat, a: Attribute, rdn: Header, attr: Header, oid: Header)
    requires end <= |der| && Fits(a)
    requires HoldsAt(der, pos, RdnTlv(a)) && pos + |RdnTlv(a)| <= end
    requires rdn == TlvHeader(pos, TAG_SET, Tlv(TAG_SEQUENCE, AttributeContent(a)))
    requires attr == TlvHeader(rdn.dataPos, TAG_SEQUENCE, AttributeContent(a))
    requires oid == TlvHeader(attr.dataPos, TAG_OID, a.oid)
    ensures End(rdn) == pos + |RdnTlv(a)|
    ensures Expect(der, pos, end, TAG_SET) == Some(rdn)
    ensures Expect(der, rdn.dataPos, End(rdn), TAG_SEQUENCE) == Some(attr)
    ensures Expect(der, attr.dataPos, End(attr), TAG_OID) == Some(oid)
    ensures HoldsAt(der, oid.dataPos, a.oid)
    ensures HeaderIn(der, End(oid), End(attr)) == Some(TlvHeader(End(oid), a.tag, a.value))
    ensures HoldsAt(der, TlvHeader(End(oid), a.tag, a.value).dataPos, a.value)
  {
    ExpectOfTlv(der, pos, end, TAG_SET, Tlv(TAG_SEQUENCE, AttributeContent(a)));
    ExpectOfTlv(der, rdn.dataPos, End(rdn), TAG_SEQUENCE, AttributeContent(a));
    HoldsAtSplit(der, attr.dataPos, Tlv(TAG_OID, a.oid), Tlv(a.tag, a.value));
    ExpectOfTlv(der, attr.dataPos, End(attr), TAG_OID, a.oid);
    HeaderOfTlv(der, End(oid), End(attr), a.tag, a.value);
  }

  /** One RelativeDistinguishedName of the scan: the commonName ends it, any other attribute passes. */
  lemma RdnStepOfAttribute(der: seq<byte>, pos: nat, end: nat, a: Attribute)
    requires end <= |der| && Fits(a)
    requires HoldsAt(der, pos, RdnTlv(a)) && pos + |RdnTlv(a)| <= end
    ensures !IsCommonName(a) ==> RdnStep(der, pos, end) == Pass(pos + |RdnTlv(a)|)
    ensures IsCommonName(a) ==> RdnStep(der, pos, end).Stop? && ScanText(der, RdnStep(der, pos, end).result) == AttributeCn(a)
  {
    var rdn := TlvHeader(pos, TAG_SET, Tlv(TAG_SEQUENCE, AttributeContent(a)));
    var attr := TlvHeader(rdn.dataPos, TAG_SEQUENCE, AttributeContent(a));
    var oid := TlvHeader(attr.dataPos, TAG_OID, a.oid);
    var value := TlvHeader(End(oid), a.tag, a.value);
    HeadersOfRdn(der, pos, end, a, rdn, attr, oid);
    CommonNameOidOfText(der, oid, a.oid);
    HoldsAtSlice(der, value.dataPos, a.value);
  }

  /** der holds the encoded attributes one after the other from pos, ending at end. */
  ghost predicate NameAt(der: seq<byte>, pos: nat, end: nat, attrs: seq<Attribute>)
    requires forall k :: 0 <= k < |attrs| ==> Fits(attrs[k])
    decreases |attrs|
  {
    if |attrs| == 0 then pos == end
    else pos + |RdnTlv(attrs[0])| <= end && HoldsAt(der, pos, RdnTlv(attrs[0]))
         && NameAt(der, pos + |RdnTlv(attrs[0])|, end, attrs[1..])
  }

  /** A Name is laid out when its first attribute is and the rest follows it. */
  lemma NameAtCons(der: seq<byte>, pos: nat, end: nat, attrs: seq<Attribute>)
    requires |attrs| > 0 && forall k :: 0 <= k < |attrs| ==> Fits(attrs[k])
    requires HoldsAt(der, pos, RdnTlv(attrs[0])) && pos + |RdnTlv(attrs[0])| <= end
    requires NameAt(der, pos + |RdnTlv(attrs[0])|, end, attrs[1..])
    ensures NameAt(der, pos, end, attrs)
  {
  }

  /** Encoded Name content at pos: its first RelativeDistinguishedName, then the content of the rest. */
  lemma NameContentSplit(der: seq<byte>, pos: nat, attrs: seq<Attribute>)
    requires |attrs| > 0 && forall k :: 0 <= k < |attrs| ==> Fits(attrs[k])
    requires HoldsAt(der, pos, NameContent(attrs))
    ensures HoldsAt(der, pos, RdnTlv(attrs[0])) && HoldsAt(der, pos + |RdnTlv(attrs[0])|, NameContent(attrs[1..]))
    ensures |NameContent(attrs)| == |RdnTlv(attrs[0])| + |NameContent(attrs[1..])|
  {
    HoldsAtSplit(der, pos, RdnTlv(attrs[0]), NameContent(attrs[1..]));
  }

  /** The content of an encoded Name holds its attributes one after the other. */
  lemma {:induction false} NameAtOfContent(der: seq<byte>, pos: nat, end: nat, attrs: seq<Attribute>)
    requires forall k :: 0 <= k < |attrs| ==> Fits(attrs[k])
    requires HoldsAt(der, pos, NameContent(attrs)) && pos + |NameContent(attrs)| == end
    ensures NameAt(der, pos, end, attrs)
    decreases |attrs|
  {
    if |attrs| > 0 {
      NameContentSplit(der, pos, attrs);
      NameAtOfContent(der, pos + |RdnTlv(attrs[0])|, end, attrs[1..]);
      NameAtCons(der, pos, end, attrs);
    }
  }

  /** The first attribute of a Name, laid out at pos, and the rest after it. */
  lemma NameAtFirst(der: seq<byte>, pos: nat, end: nat, attrs: seq<Attribute>)
    requires forall k :: 0 <= k < |attrs| ==> Fits(attrs[k])
    requires NameAt(der, pos, end, attrs) && |attrs| > 0
    ensures Fits(attrs[0]) && HoldsAt(der, pos, RdnTlv(attrs[0])) && pos + |RdnTlv(attrs[0])| <= end
    ensures forall k :: 0 <= k < |attrs[1..]| ==> Fits(attrs[1..][k])
    ensures NameAt(der, pos + |RdnTlv(attrs[0])|, end, attrs[1..])
  {
  }

  /** The text of the commonName the issuer scan from pos to end finds. */
  ghost function ScanOutcome(der: seq<byte>, pos: nat, end: nat): Option<seq<byte>>
    requires end <= |der|
  {
    ScanText(der, IssuerScan(der, pos, end))
  }

  /** An empty Name: the scan finds nothing. */
  lemma IssuerScanEnds(der: seq<byte>, pos: nat, end: nat)
    requires end <= |der| && pos >= end
    ensures ScanOutcome(der, pos, end) == None
  {
  }

  /** A Name that starts with a commonName: the scan stops at it. */
  lemma IssuerScanStops(der: seq<byte>, pos: nat, end: nat, a: Attribute)
    requires end <= |der| && Fits(a) && IsCommonName(a)
    requires HoldsAt(der, pos, RdnTlv(a)) && pos + |RdnTlv(a)| <= end
    ensures ScanOutcome(der, pos, end) == AttributeCn(a)
  {
    RdnStepOfAttribute(der, pos, end, a);
  }

  /** A Name that starts with another attribute: the scan finds what it finds after it. */
  lemma IssuerScanPasses(der: seq<byte>, pos: nat, end: nat, a: Attribute, cn: Option<seq<byte>>)
    requires end <= |der| && Fits(a) && !IsCommonName(a)
    requires HoldsAt(der, pos, RdnTlv(a)) && pos + |RdnTlv(a)| <= end
    requires ScanOutcome(der, pos + |RdnTlv(a)|, end) == cn
    ensures ScanOutcome(der, pos, end) == cn
  {
    RdnStepOfAttribute(der, pos, end, a);
  }

  lemma IssuerCnFirst(attrs: seq<Attribute>)
    requires |attrs| > 0
    ensures IssuerCn(attrs) == if IsCommonName(attrs[0]) then AttributeCn(attrs[0]) else IssuerCn(attrs[1..])
  {
  }

  /** A non-empty Name that starts with a commonName: the scan finds its value. */
  lemma IssuerScanFirstStops(der: seq<byte>, pos: nat, end: nat, attrs: seq<Attribute>, cn: Option<seq<byte>>)
    requires end <= |der| && (forall k :: 0 <= k < |attrs| ==> Fits(attrs[k])) && |attrs| > 0
    requires NameAt(der, pos, end, attrs) && IsCommonName(attrs[0]) && cn == IssuerCn(attrs)
    ensures ScanOutcome(der, pos, end) == cn
  {
    NameAtFirst(der, pos, end, attrs);
    IssuerCnFirst(attrs);
    IssuerScanStops(der, pos, end, attrs[0]);
  }

  /** A non-empty Name that starts with another attribute: the scan finds what it finds in the rest. */
  lemma IssuerScanFirstPasses(der: seq<byte>, pos: nat, end: nat, attrs: seq<Attribute>, cn: Option<seq<byte>>)
    requires end <= |der| && (forall k :: 0 <= k < |attrs| ==> Fits(attrs[k])) && |attrs| > 0
    requires NameAt(der, pos, end, attrs) && !IsCommonName(attrs[0]) && cn == IssuerCn(attrs)
    requires ScanOutcome(der, pos + |RdnTlv(attrs[0])|, end) == IssuerCn(attrs[1..])
    ensures ScanOutcome(der, pos, end) == cn
  {
    NameAtFirst(der, pos, end, attrs);
    IssuerCnFirst(attrs);
    IssuerScanPasses(der, pos, end, attrs[0], IssuerCn(attrs[1..]));
  }

  /**
   * The issuer scan over an encoded Name finds cn, the value of the first
   * commonName attribute, and only when that value is a PrintableString.
   */
  lemma {:induction false} IssuerScanOfName(der: seq<byte>, pos: nat, end: nat, attrs: seq<Attribute>, cn: Option<seq<byte>>)
    requires end <= |der| && forall k :: 0 <= k < |attrs| ==> Fits(attrs[k])
    requires NameAt(der, pos, end, attrs) && cn == IssuerCn(attrs)
    ensures ScanOutcome(der, pos, end) == cn
    decreases |attrs|
  {
    if |attrs| == 0 {
      IssuerScanEnds(der, pos, end);
    } else if IsCommonName(attrs[0]) {
      IssuerScanFirstStops(der, pos, end, attrs, cn);
    } else {
      NameAtFirst(der, pos, end, attrs);
      IssuerScanOfName(der, pos + |RdnTlv(attrs[0])|, end, attrs[1..], IssuerCn(attrs[1..]));
      IssuerScanFirstPasses(der, pos, end, attrs, cn);
    }
  }

  /** The parts of a certificate the reader walks, and what follows them. */
  datatype Certificate = Certificate(
    version: seq<byte>, serial: seq<byte>, signature: seq<byte>, issuer: seq<Attribute>,
    tbsRest: seq<byte>, certRest: seq<byte>)

  /** Sizes for which the whole certificate stays under 64 KiB. */
  predicate CertificateFits(c: Certificate)
  {
    && |c.version| < 0x100 && |c.serial| < 0x100 && |c.signature| < 0x100
    && |c.issuer| < 8 && (forall k :: 0 <= k < |c.issuer| ==> Fits(c.issuer[k]))
    && |c.tbsRest| < 0x1000 && |c.certRest| < 0x1000
  }

  /** The TBSCertificate: version, serialNumber, signature, issuer, then the rest of its fields. */
  function TbsContent(c: Certificate): (e: seq<byte>)
    requires CertificateFits(c)
    ensures |e| < 0xB000
  {
    Tlv(TAG_VERSION, c.version) + Tlv(TAG_INTEGER, c.serial) + Tlv(TAG_SEQUENCE, c.signature)
      + Tlv(TAG_SEQUENCE, NameContent(c.issuer)) + c.tbsRest
  }

  /** The DER encoding of a certificate. */
  function EncodeCertificate(c: Certificate): (e: seq<byte>)
    requires CertificateFits(c)
    ensures |e| < UINT16_MODULUS
  {
    Tlv(TAG_SEQUENCE, Tlv(TAG_SEQUENCE, TbsContent(c)) + c.certRest)
  }

  /** The fields of an encoded TBSCertificate lie one after the other, from p, p1, p2 and p3. */
  lemma TbsFields(der: seq<byte>, c: Certificate, p: nat, p1: nat, p2: nat, p3: nat)
    requires CertificateFits(c) && HoldsAt(der, p, TbsContent(c))
    requires p1 == p + |Tlv(TAG_VERSION, c.version)| && p2 == p1 + |Tlv(TAG_INTEGER, c.serial)|
    requires p3 == p2 + |Tlv(TAG_SEQUENCE, c.signature)|
    ensures HoldsAt(der, p, Tlv(TAG_VERSION, c.version)) && HoldsAt(der, p1, Tlv(TAG_INTEGER, c.serial))
    ensures HoldsAt(der, p2, Tlv(TAG_SEQUENCE, c.signature))
    ensures HoldsAt(der, p3, Tlv(TAG_SEQUENCE, NameContent(c.issuer)))
    ensures p3 + |Tlv(TAG_SEQUENCE, NameContent(c.issuer))| <= p + |TbsContent(c)|
  {
    var v, i, s := Tlv(TAG_VERSION, c.version), Tlv(TAG_INTEGER, c.serial), Tlv(TAG_SEQUENCE, c.signature);
    var n := Tlv(TAG_SEQUENCE, NameContent(c.issuer));
    HoldsAtSplit(der, p, v + i + s + n, c.tbsRest);
    HoldsAtSplit(der, p, v + i + s, n);
    HoldsAtSplit(der, p, v + i, s);
    HoldsAtSplit(der, p, v, i);
  }

  /**
   * The reader reaches the issuer Name of an encoded TBSCertificate at p,
   * passing the version at p, the serialNumber at p1 and the signature at p2.
   */
  lemma IssuerOfTbs(der: seq<byte>, c: Certificate, p: nat, p1: nat, p2: nat, p3: nat, e: nat)
    requires CertificateFits(c) && e <= |der|
    requires HoldsAt(der, p, TbsContent(c)) && e == p + |TbsContent(c)|
    requires p1 == p + |Tlv(TAG_VERSION, c.version)| && p2 == p1 + |Tlv(TAG_INTEGER, c.serial)|
    requires p3 == p2 + |Tlv(TAG_SEQUENCE, c.signature)|
    ensures Expect(der, p, e, TAG_VERSION) == Some(TlvHeader(p, TAG_VERSION, c.version))
    ensures Expect(der, p1, e, TAG_INTEGER) == Some(TlvHeader(p1, TAG_INTEGER, c.serial))
    ensures Expect(der, p2, e, TAG_SEQUENCE) == Some(TlvHeader(p2, TAG_SEQUENCE, c.signature))
    ensures Expect(der, p3, e, TAG_SEQUENCE) == Some(TlvHeader(p3, TAG_SEQUENCE, NameContent(c.issuer)))
    ensures HoldsAt(der, TlvHeader(p3, TAG_SEQUENCE, NameContent(c.issuer)).dataPos, NameContent(c.issuer))
  {
    TbsFields(der, c, p, p1, p2, p3);
    ExpectOfTlv(der, p, e, TAG_VERSION, c.version);
    ExpectOfTlv(der, p1, e, TAG_INTEGER, c.serial);
    ExpectOfTlv(der, p2, e, TAG_SEQUENCE, c.signature);
    ExpectOfTlv(der, p3, e, TAG_SEQUENCE, NameContent(c.issuer));
  }

  /** Where the issuer Name of an encoded certificate lies: the header of its SEQUENCE. */
  ghost function IssuerHeader(c: Certificate): Header
    requires CertificateFits(c)
  {
    var cert := TlvHeader(0, TAG_SEQUENCE, Tlv(TAG_SEQUENCE, TbsContent(c)) + c.certRest);
    var tbs := TlvHeader(cert.dataPos, TAG_SEQUENCE, TbsContent(c));
    var p3 := tbs.dataPos + |Tlv(TAG_VERSION, c.version)| + |Tlv(TAG_INTEGER, c.serial)| + |Tlv(TAG_SEQUENCE, c.signature)|;
    TlvHeader(p3, TAG_SEQUENCE, NameContent(c.issuer))
  }

  /** The walk of getCnFromDer, given the headers it meets one after the other. */
  lemma CommonNameOfLayout(der: seq<byte>, length: nat, cert: Header, tbs: Header, version: Header,
                           serial: Header, signature: Header, issuer: Header)
    requires length <= |der|
    requires Expect(der, 0, length, TAG_SEQUENCE) == Some(cert)
    requires Expect(der, cert.dataPos, End(cert), TAG_SEQUENCE) == Some(tbs)
    requires Expect(der, tbs.dataPos, End(tbs), TAG_VERSION) == Some(version)
    requires Expect(der, End(version), End(tbs), TAG_INTEGER) == Some(serial)
    requires Expect(der, End(serial), End(tbs), TAG_SEQUENCE) == Some(signature)
    requires Expect(der, End(signature), End(tbs), TAG_SEQUENCE) == Some(issuer)
    ensures CommonName(der, length) == IssuerScan(der, issuer.dataPos, End(issuer))
  {
  }

  /** getCnFromDer walks an encoded certificate down to its issuer Name and scans it. */
  lemma CommonNameFindsIssuer(der: seq<byte>, c: Certificate, issuer: Header)
    requires CertificateFits(c) && HoldsAt(der, 0, EncodeCertificate(c)) && issuer == IssuerHeader(c)
    ensures End(issuer) <= |der| && End(issuer) == issuer.dataPos + |NameContent(c.issuer)|
    ensures HoldsAt(der, issuer.dataPos, NameContent(c.issuer))
    ensures CommonName(der, |EncodeCertificate(c)|) == IssuerScan(der, issuer.dataPos, End(issuer))
  {
    var length := |EncodeCertificate(c)|;
    var tbsTlv := Tlv(TAG_SEQUENCE, TbsContent(c));
    ExpectOfTlv(der, 0, length, TAG_SEQUENCE, tbsTlv + c.certRest);
    var cert := TlvHeader(0, TAG_SEQUENCE, tbsTlv + c.certRest);
    HoldsAtSplit(der, cert.dataPos, tbsTlv, c.certRest);
    ExpectOfTlv(der, cert.dataPos, End(cert), TAG_SEQUENCE, TbsContent(c));
    var tbs := TlvHeader(cert.dataPos, TAG_SEQUENCE, TbsContent(c));
    var p := tbs.dataPos;
    var p1 := p + |Tlv(TAG_VERSION, c.version)|;
    var p2 := p1 + |Tlv(TAG_INTEGER, c.serial)|;
    var p3 := p2 + |Tlv(TAG_SEQUENCE, c.signature)|;
    assert issuer == TlvHeader(p3, TAG_SEQUENCE, NameContent(c.issuer));
    IssuerOfTbs(der, c, p, p1, p2, p3, End(tbs));
    assert Expect(der, 0, length, TAG_SEQUENCE) == Some(cert);
    assert Expect(der, cert.dataPos, End(cert), TAG_SEQUENCE) == Some(tbs);
    assert End(TlvHeader(p, TAG_VERSION, c.version)) == p1;
    assert End(TlvHeader(p1, TAG_INTEGER, c.serial)) == p2;
    assert End(TlvHeader(p2, TAG_SEQUENCE, c.signature)) == p3;
    CommonNameOfLayout(der, length, cert, tbs, TlvHeader(p, TAG_VERSION, c.version),
      TlvHeader(p1, TAG_INTEGER, c.serial), TlvHeader(p2, TAG_SEQUENCE, c.signature), issuer);
  }

  /**
   * getCnFromDer on an encoded certificate returns the value of the first
   * commonName of the issuer, whenever that value is a PrintableString,
   * and nothing otherwise.
   */
  lemma CommonNameOfCertificate(der: seq<byte>, c: Certificate)
    requires CertificateFits(c) && HoldsAt(der, 0, EncodeCertificate(c))
    ensures ScanText(der, CommonName(der, |EncodeCertificate(c)|)) == IssuerCn(c.issuer)
  {
    var issuer := IssuerHeader(c);
    CommonNameFindsIssuer(der, c, issuer);
    NameAtOfContent(der, issuer.dataPos, End(issuer), c.issuer);
    IssuerScanOfName(der, issuer.dataPos, End(issuer), c.issuer, IssuerCn(c.issuer));
  }

}
