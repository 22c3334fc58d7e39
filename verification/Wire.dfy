/**
 * protocol/wire.rs and the framing in transport/sender.rs and transport/receiver.rs:
 * the header as bincode lays it out (little-endian fixed-width integers, enum variants as a
 * 32-bit index), the length prefix before it, and the associated-data text.
 */
module Wire {
  import opened Prelude

  const MAGIC: Bytes := [0x55, 0x50, 0x44, 0x4E]
  const PACKET_HEADER_SIZE := 32

  datatype PacketType = Data | BlockAck | RateFeedback | DoneSignal

  datatype Header = Header(
    magic: Bytes, packetType: PacketType, sessionId: nat, blockId: nat, symbolId: nat,
    timestampUs: nat, seqNum: nat)

  ghost predicate ValidHeader(h: Header) {
    && |h.magic| == 4
    && h.sessionId < U32 && h.blockId < U32 && h.symbolId < U32 && h.seqNum < U32
    && h.timestampUs < U64
  }

  // ---- Little-endian integers ----

  function Pow256(width: nat): (r: nat)
    ensures r > 0
  {
    if width == 0 then 1 else 256 * Pow256(width - 1)
  }

  function ToLe(n: nat, width: nat): (r: Bytes)
    ensures |r| == width
  {
    if width == 0 then [] else [n % 256] + ToLe(n / 256, width - 1)
  }

  function FromLe(b: Bytes): nat {
    if b == [] then 0 else b[0] + 256 * FromLe(b[1..])
  }

  lemma {:induction false} LeRoundTrip(n: nat, width: nat)
    requires n < Pow256(width)
    ensures FromLe(ToLe(n, width)) == n
  {
    if width > 0 {
      LeRoundTrip(n / 256, width - 1);
      assert ToLe(n, width)[1..] == ToLe(n / 256, width - 1);
    }
  }

  /** Digit `i` of the encoding, counted from the least significant one. */
  lemma {:induction false} LeDigit(n: nat, width: nat, i: nat)
    requires i < width
    ensures ToLe(n, width)[i] == n / Pow256(i) % 256
  {
    if i > 0 {
      LeDigit(n / 256, width - 1, i - 1);
      DivTwice(n, 256, Pow256(i - 1));
    }
  }

  lemma DivTwice(n: nat, a: nat, b: nat)
    requires a > 0 && b > 0
    ensures a * b > 0 && n / (a * b) == n / a / b
  {
    var q, r := n / a / b, n / a % b;
    DivModFacts(n, a);
    DivModFacts(n / a, b);
    assert n / a == q * b + r;
    assert n == (q * b + r) * a + n % a;
    assert (q * b + r) * a == q * (a * b) + r * a;
    MulMono(r + 1, b, a);
    assert (r + 1) * a == r * a + a;
    assert b * a == a * b;
    DivUnique(n, a * b, q);
  }

  /** Every string of bytes encodes its number. */
  lemma {:induction false} LeInverse(b: Bytes)
    ensures ToLe(FromLe(b), |b|) == b
  {
    if b != [] {
      LeInverse(b[1..]);
      assert FromLe(b) % 256 == b[0] && FromLe(b) / 256 == FromLe(b[1..]);
    }
  }

  lemma {:induction false} FromLeBound(b: Bytes)
    ensures FromLe(b) < Pow256(|b|)
  {
    if b != [] {
      FromLeBound(b[1..]);
    }
  }

  lemma Widths()
    ensures Pow256(2) == U16 && Pow256(4) == U32 && Pow256(8) == U64
  {
    assert Pow256(2) == 256 * Pow256(1) == 65536;
    assert Pow256(4) == 256 * Pow256(3) == 65536 * Pow256(2);
    assert Pow256(6) == 256 * Pow256(5) == 65536 * Pow256(4);
    assert Pow256(8) == 256 * Pow256(7) == 65536 * Pow256(6);
  }

  // ---- The header ----

  function Variant(t: PacketType): nat {
    match t
    case Data => 0
    case BlockAck => 1
    case RateFeedback => 2
    case DoneSignal => 3
  }

  function FromVariant(v: nat): Option<PacketType> {
    if v == 0 then Some(Data)
    else if v == 1 then Some(BlockAck)
    else if v == 2 then Some(RateFeedback)
    else if v == 3 then Some(DoneSignal)
    else None
  }

  function SerializeHeader(h: Header): (b: Bytes)
    requires |h.magic| == 4
    ensures |b| == PACKET_HEADER_SIZE
  {
    h.magic + ToLe(Variant(h.packetType), 4) + ToLe(h.sessionId, 4) + ToLe(h.blockId, 4)
    + ToLe(h.symbolId, 4) + ToLe(h.timestampUs, 8) + ToLe(h.seqNum, 4)
  }

  /** Too short or an unknown variant is an error; bytes after the header are ignored. */
  function DeserializeHeader(b: Bytes): Option<Header> {
    if |b| < PACKET_HEADER_SIZE then None
    else
      match FromVariant(FromLe(b[4..8]))
      case None => None
      case Some(t) =>
        Some(Header(b[..4], t, FromLe(b[8..12]), FromLe(b[12..16]), FromLe(b[16..20]),
                    FromLe(b[20..28]), FromLe(b[28..32])))
  }

  lemma HeaderFields(h: Header, rest: Bytes)
    requires |h.magic| == 4
    ensures var b := SerializeHeader(h) + rest;
      && b[..4] == h.magic && b[4..8] == ToLe(Variant(h.packetType), 4)
      && b[8..12] == ToLe(h.sessionId, 4) && b[12..16] == ToLe(h.blockId, 4)
      && b[16..20] == ToLe(h.symbolId, 4)
      && b[20..28] == ToLe(h.timestampUs, 8) && b[28..32] == ToLe(h.seqNum, 4)
  {
    hide ToLe;
    var kind := h.magic + ToLe(Variant(h.packetType), 4);
    var ids := ToLe(h.sessionId, 4) + ToLe(h.blockId, 4) + ToLe(h.symbolId, 4);
    var times := ToLe(h.timestampUs, 8) + ToLe(h.seqNum, 4);
    var b := SerializeHeader(h) + rest;
    assert b == kind + ids + times + rest;
    assert b[..8] == kind && b[8..20] == ids && b[20..32] == times;
    assert b[..4] == b[..8][..4] && b[4..8] == b[..8][4..8];
    assert b[8..12] == b[8..20][..4] && b[12..16] == b[8..20][4..8] && b[16..20] == b[8..20][8..12];
    assert b[20..28] == b[20..32][..8] && b[28..32] == b[20..32][8..12];
  }

  lemma HeaderRoundTrip(h: Header, rest: Bytes)
    requires ValidHeader(h)
    ensures DeserializeHeader(SerializeHeader(h) + rest) == Some(h)
  {
    hide ToLe, FromLe, SerializeHeader;
    Widths();
    LeRoundTrip(Variant(h.packetType), 4);
    LeRoundTrip(h.sessionId, 4);
    LeRoundTrip(h.blockId, 4);
    LeRoundTrip(h.symbolId, 4);
    LeRoundTrip(h.timestampUs, 8);
    LeRoundTrip(h.seqNum, 4);
    HeaderFields(h, rest);
  }

  // ---- The datagram: [header length, 2 bytes][header][sealed payload] ----

  function Frame(headerBytes: Bytes, payload: Bytes): Bytes {
    ToLe(|headerBytes| % U16, 2) + headerBytes + payload
  }

  datatype Framed = TooShort | BadHeader | Framed(header: Header, payload: Bytes)

  function Unframe(d: Bytes): Framed {
    if |d| < 2 then TooShort
    else
      var headerLen := FromLe(d[..2]);
      if |d| < 2 + headerLen then TooShort
      else
        match DeserializeHeader(d[2..2 + headerLen])
        case None => BadHeader
        case Some(h) => Framed(h, d[2 + headerLen..])
  }

  /** What the receiver parses out of a datagram is the header and payload the sender framed. */
  lemma FrameRoundTrip(h: Header, payload: Bytes)
    requires ValidHeader(h)
    ensures Unframe(Frame(SerializeHeader(h), payload)) == Framed(h, payload)
  {
    var hb := SerializeHeader(h);
    var d := Frame(hb, payload);
    Widths();
    LeRoundTrip(|hb|, 2);
    HeaderRoundTrip(h, []);
    assert hb + [] == hb;
    assert d[..2] == ToLe(|hb|, 2);
    assert d[2..2 + |hb|] == hb;
    assert d[2 + |hb|..] == payload;
  }

  /** Only a serialized header is ever parsed as one: any other variant, and anything shorter, is refused. */
  lemma OnlyHeadersParse(b: Bytes)
    requires DeserializeHeader(b).Some?
    ensures var h := DeserializeHeader(b).value;
      ValidHeader(h) && |b| >= PACKET_HEADER_SIZE && b[..PACKET_HEADER_SIZE] == SerializeHeader(h)
  {
    hide FromLe, ToLe;
    var h := DeserializeHeader(b).value;
    Widths();
    LeInverse(b[4..8]);
    LeInverse(b[8..12]);
    LeInverse(b[12..16]);
    LeInverse(b[16..20]);
    LeInverse(b[20..28]);
    LeInverse(b[28..32]);
    FromLeBound(b[8..12]);
    FromLeBound(b[12..16]);
    FromLeBound(b[16..20]);
    FromLeBound(b[20..28]);
    FromLeBound(b[28..32]);
    SlicesJoin(b);
    assert Variant(h.packetType) == FromLe(b[4..8]);
  }

  lemma SlicesJoin(b: Bytes)
    requires |b| >= PACKET_HEADER_SIZE
    ensures b[..PACKET_HEADER_SIZE] == b[..4] + b[4..8] + b[8..12] + b[12..16] + b[16..20] + b[20..28] + b[28..32]
  {
    assert b[..8] == b[..4] + b[4..8];
    assert b[..12] == b[..8] + b[8..12];
    assert b[..16] == b[..12] + b[12..16];
    assert b[..20] == b[..16] + b[16..20];
    assert b[..28] == b[..20] + b[20..28];
    assert b[..32] == b[..28] + b[28..32];
  }

  /** Conversely to the round trip: whatever is unframed is a length, a serialized header, and the payload after them. */
  lemma OnlyFramesUnframe(d: Bytes)
    requires Unframe(d).Framed?
    ensures var Framed(h, payload) := Unframe(d);
      && ValidHeader(h) && |d| >= 2 + PACKET_HEADER_SIZE && d[2..2 + PACKET_HEADER_SIZE] == SerializeHeader(h)
      && |d| == 2 + FromLe(d[..2]) + |payload| && d[2 + FromLe(d[..2])..] == payload
  {
    hide DeserializeHeader, SerializeHeader, ValidHeader;
    var n := FromLe(d[..2]);
    OnlyHeadersParse(d[2..2 + n]);
    assert d[2..2 + n][..PACKET_HEADER_SIZE] == d[2..2 + PACKET_HEADER_SIZE];
  }

  /** The bytes of a data header up to the session: magic, then variant zero. */
  lemma DataHeaderStarts(h: Header, rest: Bytes)
    requires |h.magic| == 4 && h.packetType == Data
    ensures (SerializeHeader(h) + rest)[..8] == h.magic + [0, 0, 0, 0]
  {
    HeaderFields(h, rest);
    var b := SerializeHeader(h) + rest;
    assert b[..8] == b[..4] + b[4..8];
    assert ToLe(0, 4) == [0, 0, 0, 0] by {
      assert ToLe(0, 2) == [0, 0];
    }
  }

  // ---- The associated data: "session-block-symbol" in decimal ----

  function Digit(n: nat): char
    requires n < 10
  {
    '0' + n as char
  }

  function Decimal(n: nat): (s: string)
    ensures |s| > 0
    ensures forall i :: 0 <= i < |s| ==> s[i] != '-'
  {
    if n < 10 then [Digit(n)] else Decimal(n / 10) + [Digit(n % 10)]
  }

  lemma {:induction false} DecimalInjective(m: nat, n: nat)
    requires Decimal(m) == Decimal(n)
    ensures m == n
    decreases m
  {
    var s := Decimal(m);
    assert s[|s| - 1] == Digit(m % 10) == Digit(n % 10);
    if m >= 10 && n >= 10 {
      assert s[..|s| - 1] == Decimal(m / 10);
      assert s[..|s| - 1] == Decimal(n / 10);
      DecimalInjective(m / 10, n / 10);
    }
  }

  function Value(s: string): int {
    if s == "" then 0 else 10 * Value(s[..|s| - 1]) + (s[|s| - 1] as int - '0' as int)
  }

  /** The text is the number in decimal. */
  lemma {:induction false} DecimalReads(n: nat)
    ensures Value(Decimal(n)) == n
  {
    var s := Decimal(n);
    if n < 10 {
      assert s[..0] == "";
    } else {
      DecimalReads(n / 10);
      assert s[..|s| - 1] == Decimal(n / 10);
    }
  }

  /** Two texts split at their first dash agree on both sides of it. */
  lemma SplitAtDash(a: string, x: string, b: string, y: string)
    requires forall i :: 0 <= i < |a| ==> a[i] != '-'
    requires forall i :: 0 <= i < |b| ==> b[i] != '-'
    requires a + "-" + x == b + "-" + y
    ensures a == b && x == y
  {
    var s := a + "-" + x;
    assert forall i :: 0 <= i < |a| ==> s[i] == a[i];
    assert forall i :: 0 <= i < |b| ==> s[i] == b[i];
    assert s[|a|] == '-' && s[|b|] == '-';
    assert |a| == |b|;
    assert s[..|a|] == a && s[..|b|] == b;
    assert s[|a| + 1..] == x && s[|b| + 1..] == y;
  }

  function Aad(sessionId: nat, blockId: nat, symbolId: nat): string {
    Decimal(sessionId) + "-" + Decimal(blockId) + "-" + Decimal(symbolId)
  }

  /** The associated data names one session, one block and one symbol. */
  lemma AadInjective(s: nat, b: nat, y: nat, s': nat, b': nat, y': nat)
    requires Aad(s, b, y) == Aad(s', b', y')
    ensures s == s' && b == b' && y == y'
  {
    var rest, rest' := Decimal(b) + "-" + Decimal(y), Decimal(b') + "-" + Decimal(y');
    assert Aad(s, b, y) == Decimal(s) + "-" + rest;
    assert Aad(s', b', y') == Decimal(s') + "-" + rest';
    SplitAtDash(Decimal(s), rest, Decimal(s'), rest');
    SplitAtDash(Decimal(b), Decimal(y), Decimal(b'), Decimal(y'));
    DecimalInjective(s, s');
    DecimalInjective(b, b');
    DecimalInjective(y, y');
  }
}
