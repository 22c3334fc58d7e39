/**
 * transport/stun.rs: the binding request, and the parser of binding responses (sections 6, 15, 15.1
 * and 15.2 of RFC 5389; IPv4 only).
 */
module Stun {
  import opened Prelude

  const BINDING_REQUEST := 0x0001
  const BINDING_RESPONSE := 0x0101
  const MAGIC_COOKIE := 0x2112A442
  const XOR_MAPPED_ADDRESS := 0x0020
  const MAPPED_ADDRESS := 0x0001
  const HEADER_LEN := 20

  datatype SocketAddr = SocketAddr(ip: nat, port: nat)

  datatype StunError =
    | ResponseTooShort | NotBindingResponse(msgType: nat) | BadCookie | WrongTransaction
    | AddressTooShort | UnsupportedFamily(family: byte) | NoMappedAddress

  // ---- Big-endian numbers and exclusive or ----

  function Be16(n: nat): (b: Bytes)
    requires n < U16
    ensures |b| == 2
  {
    var high: nat, low: nat := n / 256, n % 256;
    [high, low]
  }

  function Be32(n: nat): (b: Bytes)
    requires n < U32
    ensures |b| == 4
  {
    Be16(n / U16) + Be16(n % U16)
  }

  function FromBe16(b: Bytes): (n: nat)
    requires |b| == 2
    ensures n < U16
  {
    var high: nat, low: nat := b[0], b[1];
    high * 256 + low
  }

  function FromBe32(b: Bytes): (n: nat)
    requires |b| == 4
    ensures n < U32
  {
    FromBe16(b[..2]) * U16 + FromBe16(b[2..])
  }

  lemma BeRoundTrip16(n: nat)
    requires n < U16
    ensures FromBe16(Be16(n)) == n
  {}

  lemma BeRoundTrip32(n: nat)
    requires n < U32
    ensures FromBe32(Be32(n)) == n
  {
    hide FromBe16, Be16;
    BeRoundTrip16(n / U16);
    BeRoundTrip16(n % U16);
    assert Be32(n)[..2] == Be16(n / U16) && Be32(n)[2..] == Be16(n % U16);
  }

  /** Bitwise exclusive or. */
  function Xor(a: nat, b: nat): nat {
    if a == 0 && b == 0 then 0 else 2 * Xor(a / 2, b / 2) + (a + b) % 2
  }

  lemma {:induction false} XorInvolution(a: nat, b: nat)
    ensures Xor(Xor(a, b), b) == a
    decreases a + b
  {
    if a != 0 || b != 0 {
      XorInvolution(a / 2, b / 2);
      XorStep(a, b);
      XorStep(Xor(a, b), b);
    }
  }

  lemma XorStep(a: nat, b: nat)
    ensures Xor(a, b) / 2 == Xor(a / 2, b / 2) && Xor(a, b) % 2 == (a + b) % 2
    ensures Xor(a, b) == 2 * Xor(a / 2, b / 2) + (a + b) % 2
  {}

  function Pow2(k: nat): nat {
    if k == 0 then 1 else 2 * Pow2(k - 1)
  }

  lemma {:induction false} XorBound(a: nat, b: nat, k: nat)
    requires a < Pow2(k) && b < Pow2(k)
    ensures Xor(a, b) < Pow2(k)
  {
    if k > 0 {
      XorBound(a / 2, b / 2, k - 1);
      XorStep(a, b);
    }
  }

  lemma Widths()
    ensures Pow2(16) == U16 && Pow2(32) == U32
  {
    assert Pow2(4) == 16;
    assert Pow2(8) == 16 * Pow2(4);
    assert Pow2(12) == 16 * Pow2(8);
    assert Pow2(16) == 16 * Pow2(12);
    assert Pow2(20) == 16 * Pow2(16);
    assert Pow2(24) == 16 * Pow2(20);
    assert Pow2(28) == 16 * Pow2(24);
    assert Pow2(32) == 16 * Pow2(28);
  }

  // ---- The request ----

  method BuildRequest(transactionId: Bytes) returns (request: Bytes)
    requires |transactionId| == 12
    ensures |request| == HEADER_LEN
    ensures FromBe16(request[0..2]) == BINDING_REQUEST && FromBe16(request[2..4]) == 0
    ensures FromBe32(request[4..8]) == MAGIC_COOKIE && request[8..20] == transactionId
  {
    hide FromBe16, FromBe32, Be16, Be32;
    request := [];
    request := request + Be16(BINDING_REQUEST);
    request := request + Be16(0);
    request := request + Be32(MAGIC_COOKIE);
    request := request + transactionId;
    BeRoundTrip16(BINDING_REQUEST);
    BeRoundTrip16(0);
    BeRoundTrip32(MAGIC_COOKIE);
    assert request[0..2] == Be16(BINDING_REQUEST) && request[2..4] == Be16(0) && request[4..8] == Be32(MAGIC_COOKIE);
  }

  // ---- The parser ----

  function ParseXorMappedAddress(data: Bytes): Result<SocketAddr, StunError> {
    if |data| < 8 then Err(AddressTooShort)
    else if data[1] == 1 then Ok(SocketAddr(Xor(FromBe32(data[4..8]), MAGIC_COOKIE), Xor(FromBe16(data[2..4]), MAGIC_COOKIE / U16)))
    else Err(UnsupportedFamily(data[1]))
  }

  function ParseMappedAddress(data: Bytes): Result<SocketAddr, StunError> {
    if |data| < 8 then Err(AddressTooShort)
    else if data[1] == 1 then Ok(SocketAddr(FromBe32(data[4..8]), FromBe16(data[2..4])))
    else Err(UnsupportedFamily(data[1]))
  }

  /** `(len + 3) & !3` */
  function Padded(len: nat): (r: nat)
    ensures len <= r < len + 4 && r % 4 == 0
  {
    (len + 3) / 4 * 4
  }

  /** The attributes from `offset`: the first address attribute decides, a truncated one ends the search. */
  function ParseAttributes(data: Bytes, offset: nat, end: nat): Result<SocketAddr, StunError>
    decreases |data| - offset
  {
    if offset + 4 <= end && offset + 4 <= |data| then
      var attrType, attrLen, value := FromBe16(data[offset..offset + 2]), FromBe16(data[offset + 2..offset + 4]), offset + 4;
      if value + attrLen > |data| then Err(NoMappedAddress)
      else if attrType == XOR_MAPPED_ADDRESS then ParseXorMappedAddress(data[value..value + attrLen])
      else if attrType == MAPPED_ADDRESS then ParseMappedAddress(data[value..value + attrLen])
      else ParseAttributes(data, value + Padded(attrLen), end)
    else Err(NoMappedAddress)
  }

  function Parse(data: Bytes, expectedTxn: Bytes): Result<SocketAddr, StunError> {
    if |data| < HEADER_LEN then Err(ResponseTooShort)
    else if FromBe16(data[0..2]) != BINDING_RESPONSE then Err(NotBindingResponse(FromBe16(data[0..2])))
    else if FromBe32(data[4..8]) != MAGIC_COOKIE then Err(BadCookie)
    else if data[8..20] != expectedTxn then Err(WrongTransaction)
    else ParseAttributes(data, HEADER_LEN, HEADER_LEN + FromBe16(data[2..4]))
  }

  /** The loop of the source: it terminates and never reads outside the datagram. */
  method ParseStunResponse(data: Bytes, expectedTxn: Bytes) returns (r: Result<SocketAddr, StunError>)
    ensures r == Parse(data, expectedTxn)
  {
    hide FromBe16, FromBe32, Xor, Padded;
    if |data| < HEADER_LEN {
      return Err(ResponseTooShort);
    }
    var msgType := FromBe16(data[0..2]);
    if msgType != BINDING_RESPONSE {
      return Err(NotBindingResponse(msgType));
    }
    var msgLen := FromBe16(data[2..4]);
    var cookie := FromBe32(data[4..8]);
    if cookie != MAGIC_COOKIE {
      return Err(BadCookie);
    }
    if data[8..20] != expectedTxn {
      return Err(WrongTransaction);
    }
    var offset := HEADER_LEN;
    var end := HEADER_LEN + msgLen;
    while offset + 4 <= end && offset + 4 <= |data|
      invariant ParseAttributes(data, HEADER_LEN, end) == ParseAttributes(data, offset, end)
      decreases |data| - offset
    {
      var attrType := FromBe16(data[offset..offset + 2]);
      var attrLen := FromBe16(data[offset + 2..offset + 4]);
      offset := offset + 4;
      if offset + attrLen > |data| {
        break;
      }
      var attrData := data[offset..offset + attrLen];
      if attrType == XOR_MAPPED_ADDRESS {
        return ParseXorMappedAddress(attrData);
      }
      if attrType == MAPPED_ADDRESS {
        return ParseMappedAddress(attrData);
      }
      offset := offset + Padded(attrLen);
    }
    r := Err(NoMappedAddress);
  }

  // ---- Parse inverts print ----

  datatype Attribute = Attribute(kind: nat, value: Bytes, padding: Bytes)

  /** Padded to a multiple of four with arbitrary bytes. */
  ghost predicate WellFormedAttribute(a: Attribute) {
    a.kind < U16 && |a.value| < U16 && |a.value| + |a.padding| == Padded(|a.value|)
  }

  ghost predicate NoAddress(a: Attribute) {
    WellFormedAttribute(a) && a.kind != XOR_MAPPED_ADDRESS && a.kind != MAPPED_ADDRESS
  }

  function Print(a: Attribute): Bytes
    requires a.kind < U16 && |a.value| < U16
  {
    Be16(a.kind) + Be16(|a.value|) + a.value + a.padding
  }

  ghost function PrintAll(attrs: seq<Attribute>): Bytes
    requires forall i :: 0 <= i < |attrs| ==> NoAddress(attrs[i])
  {
    if attrs == [] then []
    else
      assert NoAddress(attrs[|attrs| - 1]);
      PrintAll(attrs[..|attrs| - 1]) + Print(attrs[|attrs| - 1])
  }

  function XorMapped(addr: SocketAddr, reserved: byte): Attribute
    requires addr.ip < U32 && addr.port < U16
  {
    XorFits(addr);
    Attribute(XOR_MAPPED_ADDRESS, [reserved, 1] + Be16(Xor(addr.port, MAGIC_COOKIE / U16)) + Be32(Xor(addr.ip, MAGIC_COOKIE)), [])
  }

  function Mapped(addr: SocketAddr, reserved: byte): Attribute
    requires addr.ip < U32 && addr.port < U16
  {
    Attribute(MAPPED_ADDRESS, [reserved, 1] + Be16(addr.port) + Be32(addr.ip), [])
  }

  lemma XorFits(addr: SocketAddr)
    requires addr.ip < U32 && addr.port < U16
    ensures Xor(addr.ip, MAGIC_COOKIE) < U32 && Xor(addr.port, MAGIC_COOKIE / U16) < U16
  {
    Widths();
    XorBound(addr.ip, MAGIC_COOKIE, 32);
    XorBound(addr.port, MAGIC_COOKIE / U16, 16);
  }

  /** A response: header, attributes, and whatever follows. The length field counts all of `body`. */
  function Response(txn: Bytes, body: Bytes): Bytes
    requires |body| < U16
  {
    Prefix(|body|) + txn + body
  }

  lemma AddressFields(addr: SocketAddr, reserved: byte)
    requires addr.ip < U32 && addr.port < U16
    ensures ParseXorMappedAddress(XorMapped(addr, reserved).value) == Ok(addr)
    ensures ParseMappedAddress(Mapped(addr, reserved).value) == Ok(addr)
  {
    hide FromBe16, FromBe32, Be16, Be32, Xor;
    XorFits(addr);
    XorInvolution(addr.ip, MAGIC_COOKIE);
    XorInvolution(addr.port, MAGIC_COOKIE / U16);
    BeRoundTrip16(Xor(addr.port, MAGIC_COOKIE / U16));
    BeRoundTrip32(Xor(addr.ip, MAGIC_COOKIE));
    BeRoundTrip16(addr.port);
    BeRoundTrip32(addr.ip);
    var x, m := XorMapped(addr, reserved).value, Mapped(addr, reserved).value;
    assert x[2..4] == Be16(Xor(addr.port, MAGIC_COOKIE / U16)) && x[4..8] == Be32(Xor(addr.ip, MAGIC_COOKIE));
    assert m[2..4] == Be16(addr.port) && m[4..8] == Be32(addr.ip);
  }

  /** What the parser reads where an attribute was printed. */
  lemma AttributeFields(before: Bytes, a: Attribute, after: Bytes)
    requires WellFormedAttribute(a)
    ensures var data, o := before + Print(a) + after, |before|;
      && o + 4 + |a.value| <= |data|
      && FromBe16(data[o..o + 2]) == a.kind && FromBe16(data[o + 2..o + 4]) == |a.value|
      && data[o + 4..o + 4 + |a.value|] == a.value
      && |Print(a)| == 4 + Padded(|a.value|)
  {
    hide FromBe16, Be16;
    BeRoundTrip16(a.kind);
    BeRoundTrip16(|a.value|);
    var data, o := before + Print(a) + after, |before|;
    assert data[o..o + 2] == Be16(a.kind) && data[o + 2..o + 4] == Be16(|a.value|);
    assert data[o + 4..o + 4 + |a.value|] == a.value;
  }

  lemma {:induction false} SkipAll(before: Bytes, attrs: seq<Attribute>, after: Bytes, end: nat)
    requires forall i :: 0 <= i < |attrs| ==> NoAddress(attrs[i])
    requires |before| + |PrintAll(attrs)| <= end
    ensures ParseAttributes(before + PrintAll(attrs) + after, |before|, end)
      == ParseAttributes(before + PrintAll(attrs) + after, |before| + |PrintAll(attrs)|, end)
  {
    hide FromBe16, Be16, Print, ParseXorMappedAddress, ParseMappedAddress;
    if attrs != [] {
      var front, a := attrs[..|attrs| - 1], attrs[|attrs| - 1];
      var head := before + PrintAll(front);
      SkipAll(before, front, Print(a) + after, end);
      AttributeFields(head, a, after);
      assert before + PrintAll(attrs) == head + Print(a);
      assert head + (Print(a) + after) == head + Print(a) + after;
    }
  }

  function Prefix(bodyLen: nat): (b: Bytes)
    requires bodyLen < U16
    ensures |b| == 8
  {
    Be16(BINDING_RESPONSE) + Be16(bodyLen) + Be32(MAGIC_COOKIE)
  }

  lemma PrefixFields(bodyLen: nat)
    requires bodyLen < U16
    ensures FromBe16(Prefix(bodyLen)[0..2]) == BINDING_RESPONSE && FromBe16(Prefix(bodyLen)[2..4]) == bodyLen
    ensures FromBe32(Prefix(bodyLen)[4..8]) == MAGIC_COOKIE
  {
    hide FromBe16, FromBe32, Be16, Be32;
    BeRoundTrip16(BINDING_RESPONSE);
    BeRoundTrip16(bodyLen);
    BeRoundTrip32(MAGIC_COOKIE);
    var p := Prefix(bodyLen);
    assert p[0..2] == Be16(BINDING_RESPONSE) && p[2..4] == Be16(bodyLen) && p[4..8] == Be32(MAGIC_COOKIE);
  }

  lemma ResponseFields(txn: Bytes, body: Bytes)
    requires |txn| == 12 && |body| < U16
    ensures var p, data := Prefix(|body|), Response(txn, body);
      && |data| == HEADER_LEN + |body|
      && data[0..2] == p[0..2] && data[2..4] == p[2..4] && data[4..8] == p[4..8]
      && data[8..20] == txn
  {
    hide Prefix;
    var p, data := Prefix(|body|), Response(txn, body);
    var tail := txn + body;
    assert data == p + tail;
    assert data[8..20] == tail[..12] == txn;
  }

  lemma HeaderAccepted(txn: Bytes, body: Bytes)
    requires |txn| == 12 && |body| < U16
    ensures Parse(Response(txn, body), txn) == ParseAttributes(Response(txn, body), HEADER_LEN, HEADER_LEN + |body|)
  {
    hide FromBe16, FromBe32, Prefix, ParseAttributes, Response;
    PrefixFields(|body|);
    ResponseFields(txn, body);
  }

  lemma Regroup(a: Bytes, b: Bytes, c: Bytes, d: Bytes)
    ensures a + (b + c + d) == a + b + (c + d) == (a + b) + c + d
  {}

  /**
   * For any well-formed attributes that are no addresses, followed by an IPv4 XOR-MAPPED-ADDRESS or
   * MAPPED-ADDRESS and then by anything at all, the parser returns exactly the encoded address and port.
   */
  lemma ParseInvertsPrint(txn: Bytes, attrs: seq<Attribute>, addr: SocketAddr, reserved: byte, plain: bool, rest: Bytes)
    requires |txn| == 12 && addr.ip < U32 && addr.port < U16
    requires forall i :: 0 <= i < |attrs| ==> NoAddress(attrs[i])
    requires |PrintAll(attrs)| + 12 + |rest| < U16
    ensures var attr := if plain then Mapped(addr, reserved) else XorMapped(addr, reserved);
      |attr.value| == 8 && Parse(Response(txn, PrintAll(attrs) + Print(attr) + rest), txn) == Ok(addr)
  {
    hide FromBe16, Prefix, Print, ParseXorMappedAddress, ParseMappedAddress, Xor, Parse, PrintAll;
    var attr := if plain then Mapped(addr, reserved) else XorMapped(addr, reserved);
    AttributeFields([], attr, rest);
    var body := PrintAll(attrs) + Print(attr) + rest;
    var header := Prefix(|body|) + txn;
    AttributeFields(header + PrintAll(attrs), attr, rest);
    var data := Response(txn, body);
    HeaderAccepted(txn, body);
    SkipAll(header, attrs, Print(attr) + rest, HEADER_LEN + |body|);
    Regroup(header, PrintAll(attrs), Print(attr), rest);
    AddressFields(addr, reserved);
  }

  /** Well-formed attributes without an address end in the error for a missing one. */
  lemma NoAddressNoResult(txn: Bytes, attrs: seq<Attribute>)
    requires forall i :: 0 <= i < |attrs| ==> NoAddress(attrs[i])
    requires |txn| == 12 && |PrintAll(attrs)| < U16
    ensures Parse(Response(txn, PrintAll(attrs)), txn) == Err(NoMappedAddress)
  {
    hide FromBe16, Prefix, Parse, PrintAll;
    var body := PrintAll(attrs);
    var header := Prefix(|body|) + txn;
    HeaderAccepted(txn, body);
    SkipAll(header, attrs, [], HEADER_LEN + |body|);
    assert Response(txn, body) == header + body + [];
  }

  /** Why a response is refused before its attributes are looked at, the first reason first. */
  lemma HeaderRefusals(data: Bytes, txn: Bytes)
    ensures |data| < 20 ==> Parse(data, txn) == Err(ResponseTooShort)
    ensures |data| >= 20 ==>
      var kind, cookie := data[0] as nat * 256 + data[1], FromBe32(data[4..8]);
      && (kind != 0x0101 ==> Parse(data, txn) == Err(NotBindingResponse(kind)))
      && (kind == 0x0101 && cookie != 0x2112A442 ==> Parse(data, txn) == Err(BadCookie))
      && (kind == 0x0101 && cookie == 0x2112A442 && data[8..20] != txn ==> Parse(data, txn) == Err(WrongTransaction))
  {
    hide FromBe32, ParseAttributes;
  }

  /** An address attribute of either kind with any value at all. */
  ghost predicate AddressKind(a: Attribute) {
    WellFormedAttribute(a) && (a.kind == 0x0020 || a.kind == 0x0001)
  }

  /** What the value of an address attribute yields: nothing unless it has eight bytes and family 1. */
  lemma AddressValue(v: Bytes)
    ensures ParseXorMappedAddress(v).Ok? == ParseMappedAddress(v).Ok? == (|v| >= 8 && v[1] == 1)
    ensures |v| < 8 ==> ParseXorMappedAddress(v) == ParseMappedAddress(v) == Err(AddressTooShort)
    ensures |v| >= 8 && v[1] != 1 ==> ParseXorMappedAddress(v) == ParseMappedAddress(v) == Err(UnsupportedFamily(v[1]))
  {
    hide FromBe16, FromBe32, Xor;
  }

  /**
   * The first address attribute decides: with family 1 it gives an address, and with any other family, or short of
   * eight bytes, the response is refused with the corresponding error, whatever follows.
   */
  lemma FirstAddressDecides(txn: Bytes, attrs: seq<Attribute>, a: Attribute, rest: Bytes)
    requires |txn| == 12 && AddressKind(a)
    requires forall i :: 0 <= i < |attrs| ==> NoAddress(attrs[i])
    requires |PrintAll(attrs)| + |Print(a)| + |rest| < U16
    ensures var r := Parse(Response(txn, PrintAll(attrs) + Print(a) + rest), txn);
      if |a.value| < 8 then r == Err(AddressTooShort)
      else if a.value[1] != 1 then r == Err(UnsupportedFamily(a.value[1]))
      else r.Ok?
  {
    hide FromBe16, Prefix, Print, ParseXorMappedAddress, ParseMappedAddress, Parse, PrintAll;
    var body := PrintAll(attrs) + Print(a) + rest;
    var header := Prefix(|body|) + txn;
    AttributeFields([], a, rest);
    AttributeFields(header + PrintAll(attrs), a, rest);
    HeaderAccepted(txn, body);
    SkipAll(header, attrs, Print(a) + rest, HEADER_LEN + |body|);
    Regroup(header, PrintAll(attrs), Print(a), rest);
    AddressValue(a.value);
  }

  /** Nothing beyond the length in the header is looked at, not even an address. */
  lemma BeyondLengthIgnored(txn: Bytes, attrs: seq<Attribute>, trailing: Bytes)
    requires forall i :: 0 <= i < |attrs| ==> NoAddress(attrs[i])
    requires |txn| == 12 && |PrintAll(attrs)| < U16
    ensures Parse(Response(txn, PrintAll(attrs)) + trailing, txn) == Err(NoMappedAddress)
  {
    hide FromBe16, FromBe32, Prefix, PrintAll, ParseAttributes;
    var body := PrintAll(attrs);
    var header := Prefix(|body|) + txn;
    PrefixFields(|body|);
    ResponseFields(txn, body);
    var data := Response(txn, body) + trailing;
    assert data[..HEADER_LEN + |body|] == Response(txn, body);
    SliceOfPrefix(Response(txn, body), trailing, 0, 2);
    SliceOfPrefix(Response(txn, body), trailing, 2, 4);
    SliceOfPrefix(Response(txn, body), trailing, 4, 8);
    SliceOfPrefix(Response(txn, body), trailing, 8, 20);
    assert data == header + PrintAll(attrs) + trailing;
    SkipAll(header, attrs, trailing, HEADER_LEN + |body|);
    PastEnd(data, HEADER_LEN + |body|, HEADER_LEN + |body|);
  }

  lemma SliceOfPrefix(p: Bytes, q: Bytes, i: nat, j: nat)
    requires i <= j <= |p|
    ensures (p + q)[i..j] == p[i..j]
  {}

  lemma PastEnd(data: Bytes, offset: nat, end: nat)
    requires end < offset + 4
    ensures ParseAttributes(data, offset, end) == Err(NoMappedAddress)
  {}

  /** An attribute that claims more bytes than the datagram holds ends the search, whatever its kind. */
  lemma TruncatedAttributeRefused(txn: Bytes, attrs: seq<Attribute>, kind: nat, claimed: nat, value: Bytes)
    requires forall i :: 0 <= i < |attrs| ==> NoAddress(attrs[i])
    requires |txn| == 12 && kind < U16 && claimed < U16 && |value| < claimed
    requires |PrintAll(attrs)| + 4 + |value| < U16
    ensures Parse(Response(txn, PrintAll(attrs) + (Be16(kind) + Be16(claimed) + value)), txn) == Err(NoMappedAddress)
  {
    hide FromBe16, Prefix, Parse, PrintAll, Be16;
    var tail := Be16(kind) + Be16(claimed) + value;
    var body := PrintAll(attrs) + tail;
    var header := Prefix(|body|) + txn;
    HeaderAccepted(txn, body);
    SkipAll(header, attrs, tail, HEADER_LEN + |body|);
    var data := Response(txn, body);
    var o := |header| + |PrintAll(attrs)|;
    assert data == (header + PrintAll(attrs)) + tail;
    assert data[o + 2..o + 4] == tail[2..4] == Be16(claimed);
    BeRoundTrip16(claimed);
  }

  /** An address is only ever taken from a binding response to this very request. */
  lemma OnlyMatchingResponses(data: Bytes, txn: Bytes)
    requires Parse(data, txn).Ok?
    ensures |data| >= HEADER_LEN + 12 && data[8..20] == txn
    ensures FromBe16(data[0..2]) == BINDING_RESPONSE && FromBe32(data[4..8]) == MAGIC_COOKIE
  {
    hide FromBe16, FromBe32, Xor;
    AddressNeedsRoom(data, HEADER_LEN, HEADER_LEN + FromBe16(data[2..4]));
  }

  lemma {:induction false} AddressNeedsRoom(data: Bytes, offset: nat, end: nat)
    requires ParseAttributes(data, offset, end).Ok?
    ensures |data| >= offset + 12
    decreases |data| - offset
  {
    hide FromBe16, FromBe32, Xor, Padded;
    var attrType, attrLen := FromBe16(data[offset..offset + 2]), FromBe16(data[offset + 2..offset + 4]);
    if attrType != XOR_MAPPED_ADDRESS && attrType != MAPPED_ADDRESS {
      AddressNeedsRoom(data, offset + 4 + Padded(attrLen), end);
    }
  }
}
