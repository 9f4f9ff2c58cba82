/** The 38-byte wire form of a top-of-book update (protocol version 2), big endian throughout. */
module Codec {
  import opened Domain

  type Byte = n: int | 0 <= n < 256

  datatype BookUpdate = BookUpdate(instrument: Uint32, direction: Side, bestPrice: Option<Uint64>,
                                   aggregateSize: Uint64)

  datatype Packet = Packet(sequence: Uint64, update: BookUpdate)

  datatype EncodeError = ZeroSequence | ZeroInstrument | ZeroPrice | UnpairedSize

  datatype DecodeError =
    | HeaderTruncated
    | InvalidSignature
    | UnsupportedVersion
    | UnknownMessageType
    | InvalidSequence
    | BodyTruncated
    | BodyLengthMismatch
    | InvalidSymbol
    | InvalidSide
    | InvalidFlags
    | InvalidBookState

  datatype Result<+T, +E> = Ok(value: T) | Err(error: E)

  const SIGNATURE: nat := 0x4f425a4d
  const VERSION: nat := 2
  const BOOK_UPDATED: nat := 1
  const HEADER_SIZE: nat := 16
  const BODY_SIZE: nat := 22
  const PACKET_SIZE: nat := 38

  // ---------- big-endian fields ----------

  function Pow256(w: nat): (n: nat)
    ensures 0 < n
  {
    if w == 0 then 1 else 256 * Pow256(w - 1)
  }

  /** v in w bytes, most significant first. */
  function Be(w: nat, v: nat): (bytes: seq<Byte>)
    ensures |bytes| == w
  {
    if w == 0 then [] else Be(w - 1, v / 256) + [v % 256]
  }

  function FromBe(bytes: seq<Byte>): (v: nat)
    ensures v < Pow256(|bytes|)
  {
    if bytes == [] then 0
    else
      var n := |bytes| - 1;
      assert FromBe(bytes[..n]) < Pow256(n);
      256 * FromBe(bytes[..n]) + bytes[n]
  }

  lemma {:induction false} FromBeOfBe(w: nat, v: nat)
    requires v < Pow256(w)
    ensures FromBe(Be(w, v)) == v
  {
    if w > 0 {
      FromBeOfBe(w - 1, v / 256);
      assert Be(w, v)[..w - 1] == Be(w - 1, v / 256);
    }
  }

  lemma {:induction false} BeOfFromBe(bytes: seq<Byte>)
    ensures Be(|bytes|, FromBe(bytes)) == bytes
  {
    if bytes != [] {
      var n := |bytes| - 1;
      BeOfFromBe(bytes[..n]);
      assert bytes == bytes[..n] + [bytes[n]];
    }
  }

  lemma FieldWidths()
    ensures Pow256(1) == 0x100 && Pow256(2) == 0x1_0000 && Pow256(4) == 0x1_0000_0000
    ensures Pow256(8) == 0x1_0000_0000_0000_0000
  {
    assert Pow256(3) == 0x100_0000;
    assert Pow256(5) == 0x100_0000_0000;
    assert Pow256(6) == 0x1_0000_0000_0000;
    assert Pow256(7) == 0x100_0000_0000_0000;
  }

  // ---------- encoding ----------

  function EncodeFault(p: Packet): Option<EncodeError> {
    if p.sequence == 0 then Some(ZeroSequence)
    else if p.update.instrument == 0 then Some(ZeroInstrument)
    else if p.update.bestPrice == Some(0) then Some(ZeroPrice)
    else if p.update.bestPrice.Some? != (p.update.aggregateSize > 0) then Some(UnpairedSize)
    else None
  }

  function SideCode(d: Side): Byte {
    if d == Buy then 0 else 1
  }

  function PriceField(u: BookUpdate): Uint64 {
    if u.bestPrice.Some? then u.bestPrice.value else 0
  }

  function Header(sequence: Uint64): (bytes: seq<Byte>)
    ensures |bytes| == HEADER_SIZE
  {
    Be(4, SIGNATURE) + Be(2, VERSION) + Be(2, BOOK_UPDATED) + Be(8, sequence)
  }

  function Body(u: BookUpdate): (bytes: seq<Byte>)
    ensures |bytes| == BODY_SIZE
  {
    Be(1, SideCode(u.direction)) + Be(1, if u.bestPrice.Some? then 1 else 0)
    + Be(8, PriceField(u)) + Be(8, u.aggregateSize) + Be(4, u.instrument)
  }

  /** The documented layout of a packet. */
  function Encoded(p: Packet): (bytes: seq<Byte>)
    ensures |bytes| == PACKET_SIZE
  {
    Header(p.sequence) + Body(p.update)
  }

  /** Writes v big-endian at the head of the span that starts at `at`, and returns where the span goes on. */
  method WriteAndAdvance(buffer: array<Byte>, at: nat, w: nat, v: nat) returns (next: nat)
    requires at + w <= buffer.Length
    modifies buffer
    ensures next == at + w
    ensures buffer[..next] == old(buffer[..at]) + Be(w, v)
    ensures forall i :: next <= i < buffer.Length ==> buffer[i] == old(buffer[i])
  {
    var i: nat, rest: nat := w, v;
    while i > 0
      invariant i <= w
      invariant buffer[..at] == old(buffer[..at])
      invariant forall k :: at + w <= k < buffer.Length ==> buffer[k] == old(buffer[k])
      invariant Be(i, rest) + buffer[at + i..at + w] == Be(w, v)
    {
      i := i - 1;
      buffer[at + i] := rest % 256;
      rest := rest / 256;
      assert buffer[at + i..at + w] == [buffer[at + i]] + buffer[at + i + 1..at + w];
    }
    next := at + w;
    assert buffer[..next] == buffer[..at] + buffer[at..next];
  }

  method EncodeHeader(buffer: array<Byte>, sequence: Uint64)
    requires HEADER_SIZE <= buffer.Length
    modifies buffer
    ensures buffer[..HEADER_SIZE] == Header(sequence)
    ensures forall i :: HEADER_SIZE <= i < buffer.Length ==> buffer[i] == old(buffer[i])
  {
    hide Be;
    var at := WriteAndAdvance(buffer, 0, 4, SIGNATURE);
    at := WriteAndAdvance(buffer, at, 2, VERSION);
    at := WriteAndAdvance(buffer, at, 2, BOOK_UPDATED);
    at := WriteAndAdvance(buffer, at, 8, sequence);
  }

  method EncodeBody(buffer: array<Byte>, u: BookUpdate)
    requires buffer.Length == PACKET_SIZE
    modifies buffer
    ensures buffer[..] == old(buffer[..HEADER_SIZE]) + Body(u)
  {
    hide Be;
    var at := WriteAndAdvance(buffer, HEADER_SIZE, 1, SideCode(u.direction));
    at := WriteAndAdvance(buffer, at, 1, if u.bestPrice.Some? then 1 else 0);
    at := WriteAndAdvance(buffer, at, 8, PriceField(u));
    at := WriteAndAdvance(buffer, at, 8, u.aggregateSize);
    at := WriteAndAdvance(buffer, at, 4, u.instrument);
    assert buffer[..] == buffer[..at];
  }

  /** The encoder: rejects what is not canonical, and otherwise fills a fresh 38-byte buffer. */
  method Encode(p: Packet) returns (r: Result<array<Byte>, EncodeError>)
    ensures match EncodeFault(p)
            case Some(e) => r == Err(e)
            case None => r.Ok? && fresh(r.value) && r.value[..] == Encoded(p)
  {
    hide Header, Body;
    match EncodeFault(p) {
      case Some(e) => return Err(e);
      case None =>
    }
    var bytes := new Byte[PACKET_SIZE](_ => 0);
    EncodeHeader(bytes, p.sequence);
    EncodeBody(bytes, p.update);
    r := Ok(bytes);
  }

  // ---------- decoding ----------

  function Field(bytes: seq<Byte>, at: nat, w: nat): nat
    requires at + w <= |bytes|
  {
    FromBe(bytes[at..at + w])
  }

  datatype DecodedHeader = DecodedHeader(messageType: nat, sequence: Uint64)

  function DecodeHeader(bytes: seq<Byte>): Result<DecodedHeader, DecodeError> {
    if |bytes| < HEADER_SIZE then Err(HeaderTruncated)
    else if Field(bytes, 0, 4) != SIGNATURE then Err(InvalidSignature)
    else if Field(bytes, 4, 2) != VERSION then Err(UnsupportedVersion)
    else
      FieldWidths();
      var sequence := Field(bytes, 8, 8);
      if sequence == 0 then Err(InvalidSequence) else Ok(DecodedHeader(Field(bytes, 6, 2), sequence))
  }

  function DecodeBody(body: seq<Byte>): Result<BookUpdate, DecodeError> {
    if |body| < BODY_SIZE then Err(BodyTruncated)
    else if |body| != BODY_SIZE then Err(BodyLengthMismatch)
    else if Field(body, 0, 1) > 1 then Err(InvalidSide)
    else if Field(body, 1, 1) > 1 then Err(InvalidFlags)
    else
      FieldWidths();
      var hasPrice := Field(body, 1, 1) == 1;
      var price: Uint64 := Field(body, 2, 8);
      var size: Uint64 := Field(body, 10, 8);
      var instrument: Uint32 := Field(body, 18, 4);
      if hasPrice != (price > 0) then Err(InvalidBookState)
      else if hasPrice != (size > 0) then Err(InvalidBookState)
      else if instrument == 0 then Err(InvalidSymbol)
      else Ok(BookUpdate(instrument, if Field(body, 0, 1) == 0 then Buy else Sell,
                         if hasPrice then Some(price) else None, size))
  }

  function Decode(bytes: seq<Byte>): Result<Packet, DecodeError> {
    match DecodeHeader(bytes)
    case Err(e) => Err(e)
    case Ok(header) =>
      if header.messageType != BOOK_UPDATED then Err(UnknownMessageType)
      else
        match DecodeBody(bytes[HEADER_SIZE..])
        case Err(e) => Err(e)
        case Ok(update) => Ok(Packet(header.sequence, update))
  }

  // ---------- the two are inverse ----------

  lemma {:induction false} FieldOf(before: seq<Byte>, w: nat, v: nat, after: seq<Byte>)
    requires v < Pow256(w)
    ensures Field(before + Be(w, v) + after, |before|, w) == v
  {
    assert (before + Be(w, v) + after)[|before|..|before| + w] == Be(w, v);
    FromBeOfBe(w, v);
  }

  lemma {:induction false} HeaderFields(sequence: Uint64, body: seq<Byte>)
    ensures var b := Header(sequence) + body;
            && Field(b, 0, 4) == SIGNATURE && Field(b, 4, 2) == VERSION
            && Field(b, 6, 2) == BOOK_UPDATED && Field(b, 8, 8) == sequence
            && b[HEADER_SIZE..] == body
  {
    hide Be, FromBe, Pow256;
    FieldWidths();
    var s, v, t, q := Be(4, SIGNATURE), Be(2, VERSION), Be(2, BOOK_UPDATED), Be(8, sequence);
    var b := Header(sequence) + body;
    FieldOf([], 4, SIGNATURE, v + t + q + body);
    assert b == [] + s + (v + t + q + body);
    FieldOf(s, 2, VERSION, t + q + body);
    assert b == s + v + (t + q + body);
    FieldOf(s + v, 2, BOOK_UPDATED, q + body);
    assert b == (s + v) + t + (q + body);
    FieldOf(s + v + t, 8, sequence, body);
    assert b == (s + v + t) + q + body;
  }

  lemma {:induction false} BodyFields(u: BookUpdate)
    ensures var b := Body(u);
            && Field(b, 0, 1) == SideCode(u.direction)
            && Field(b, 1, 1) == (if u.bestPrice.Some? then 1 else 0)
            && Field(b, 2, 8) == PriceField(u) && Field(b, 10, 8) == u.aggregateSize && Field(b, 18, 4) == u.instrument
  {
    hide Be, FromBe, Pow256;
    FieldWidths();
    var flag := if u.bestPrice.Some? then 1 else 0;
    var d, f, p, a, i := Be(1, SideCode(u.direction)), Be(1, flag), Be(8, PriceField(u)), Be(8, u.aggregateSize),
        Be(4, u.instrument);
    var b := Body(u);
    FieldOf([], 1, SideCode(u.direction), f + p + a + i);
    assert b == [] + d + (f + p + a + i);
    FieldOf(d, 1, flag, p + a + i);
    assert b == d + f + (p + a + i);
    FieldOf(d + f, 8, PriceField(u), a + i);
    assert b == (d + f) + p + (a + i);
    FieldOf(d + f + p, 8, u.aggregateSize, i);
    assert b == (d + f + p) + a + i;
    FieldOf(d + f + p + a, 4, u.instrument, []);
    assert b == (d + f + p + a) + i + [];
  }

  /** Decoding what was encoded gives the packet back. */
  lemma {:induction false} DecodeEncoded(p: Packet)
    requires EncodeFault(p) == None
    ensures Decode(Encoded(p)) == Ok(p)
  {
    hide Header, Body, Field;
    HeaderFields(p.sequence, Body(p.update));
    BodyFields(p.update);
  }

  lemma {:induction false} HeaderFromFields(b: seq<Byte>)
    requires HEADER_SIZE <= |b| && DecodeHeader(b).Ok? && DecodeHeader(b).value.messageType == BOOK_UPDATED
    ensures Header(DecodeHeader(b).value.sequence) == b[..HEADER_SIZE]
    ensures DecodeHeader(b).value.sequence != 0
  {
    hide Be, FromBe;
    BeOfFromBe(b[0..4]);
    BeOfFromBe(b[4..6]);
    BeOfFromBe(b[6..8]);
    BeOfFromBe(b[8..16]);
    assert b[..16] == b[0..4] + b[4..6] + b[6..8] + b[8..16];
  }

  lemma {:induction false} BodyFromFields(b: seq<Byte>)
    requires DecodeBody(b).Ok?
    ensures Body(DecodeBody(b).value) == b
  {
    hide Be, FromBe, Pow256;
    BeOfFromBe(b[0..1]);
    BeOfFromBe(b[1..2]);
    BeOfFromBe(b[2..10]);
    BeOfFromBe(b[10..18]);
    BeOfFromBe(b[18..22]);
    assert b == b[0..1] + b[1..2] + b[2..10] + b[10..18] + b[18..22];
    var u := DecodeBody(b).value;
    assert SideCode(u.direction) == Field(b, 0, 1);
    assert PriceField(u) == Field(b, 2, 8);
  }

  /** Every accepted byte string is the canonical encoding of the packet it decodes to. */
  lemma {:induction false} EncodeDecoded(b: seq<Byte>)
    requires Decode(b).Ok?
    ensures EncodeFault(Decode(b).value) == None && Encoded(Decode(b).value) == b
  {
    hide Header, Body, Field;
    HeaderFromFields(b);
    BodyFromFields(b[HEADER_SIZE..]);
    assert b == b[..HEADER_SIZE] + b[HEADER_SIZE..];
  }

  /** The accepted strings are exactly the image of the encoder. */
  lemma AcceptedIffEncoded(b: seq<Byte>)
    ensures Decode(b).Ok? <==> exists p :: EncodeFault(p) == None && Encoded(p) == b
  {
    if Decode(b).Ok? {
      EncodeDecoded(b);
    }
    if exists p :: EncodeFault(p) == None && Encoded(p) == b {
      var p :| EncodeFault(p) == None && Encoded(p) == b;
      DecodeEncoded(p);
    }
  }

  lemma EncodedInjective(p: Packet, q: Packet)
    requires EncodeFault(p) == None && EncodeFault(q) == None && Encoded(p) == Encoded(q)
    ensures p == q
  {
    DecodeEncoded(p);
    DecodeEncoded(q);
  }

  // ---------- the wire form, byte by byte ----------

  /** Byte i of a w-byte field is digit w - 1 - i of the value in base 256: the most significant comes first. */
  lemma {:induction false} BigEndian(w: nat, v: nat, i: nat)
    requires i < w
    ensures Be(w, v)[i] == v / Pow256(w - 1 - i) % 256
    decreases w
  {
    if i < w - 1 {
      BigEndian(w - 1, v / 256, i);
      DivideTwice(v, Pow256(w - 2 - i));
    }
  }

  lemma {:induction false} DivideTwice(v: nat, m: nat)
    requires 0 < m
    ensures v / 256 / m == v / (256 * m)
  {
    var q, r := v / (256 * m), v % (256 * m);
    assert v == 256 * (m * q) + r;
    assert v / 256 == m * q + r / 256;
    assert r / 256 < m;
    Quotient(v / 256, m, q, r / 256);
  }

  lemma {:induction false} Quotient(v: nat, m: nat, q: nat, r: nat)
    requires v == m * q + r && r < m
    ensures v / m == q
  {
    assert m * (v / m - q) == m * (v / m) - m * q == r - v % m;
    SmallMultiple(m, v / m - q);
  }

  lemma SmallMultiple(m: int, e: int)
    requires -m < m * e < m
    ensures e == 0
  {
    assert e >= 1 ==> m * e >= m;
    assert e <= -1 ==> m * e <= -m;
  }

  /** The first and the last byte of the widths in use. */
  lemma {:induction false} FieldEnds(v: nat)
    ensures v < 0x1_0000_0000 ==> Be(4, v)[0] == v / 0x100_0000
    ensures v < 0x1_0000_0000_0000_0000 ==> Be(8, v)[0] == v / 0x100_0000_0000_0000
    ensures Be(1, v)[0] == Be(4, v)[3] == Be(8, v)[7] == v % 256
  {
    hide Be, Pow256;
    FieldWidths();
    BigEndian(1, v, 0);
    BigEndian(4, v, 0);
    BigEndian(4, v, 3);
    BigEndian(8, v, 0);
    BigEndian(8, v, 7);
    OddWidths();
  }

  lemma OddWidths()
    ensures Pow256(0) == 1 && Pow256(3) == 0x100_0000 && Pow256(7) == 0x100_0000_0000_0000
  {
    assert Pow256(2) == 0x1_0000;
    assert Pow256(4) == 0x1_0000_0000;
    assert Pow256(6) == 0x1_0000_0000_0000;
  }

  lemma Magic()
    ensures Be(4, SIGNATURE) == [0x4f, 0x42, 0x5a, 0x4d] && Be(2, VERSION) == [0, 2] && Be(2, BOOK_UPDATED) == [0, 1]
  {
    assert Be(1, 0x4f) == [0x4f] && Be(2, 0x4f42) == [0x4f, 0x42] && Be(3, 0x4f425a) == [0x4f, 0x42, 0x5a];
    assert Be(1, 0) == [0];
  }

  /** Where the fields of an encoded packet lie. */
  lemma {:induction false} Places(p: Packet)
    ensures var b, u := Encoded(p), p.update;
            && b[..4] == Be(4, SIGNATURE) && b[4..6] == Be(2, VERSION) && b[6..8] == Be(2, BOOK_UPDATED)
            && b[8..16] == Be(8, p.sequence)
            && b[16..17] == Be(1, SideCode(u.direction)) && b[17..18] == Be(1, if u.bestPrice.Some? then 1 else 0)
            && b[18..26] == Be(8, PriceField(u)) && b[26..34] == Be(8, u.aggregateSize)
            && b[34..38] == Be(4, u.instrument)
  {
    hide Be, SideCode, PriceField;
  }

  /** The document's layout, in bytes: what stands where, and which end of a number comes first. */
  lemma {:induction false} WireForm(p: Packet)
    ensures var b, u := Encoded(p), p.update;
            var price := if u.bestPrice.Some? then u.bestPrice.value else 0;
            && |b| == 38
            && b[..8] == [0x4f, 0x42, 0x5a, 0x4d, 0, 2, 0, 1]
            && b[16] == (match u.direction case Buy => 0 case Sell => 1)
            && b[17] == (if u.bestPrice.Some? then 1 else 0)
            && b[8] == p.sequence / 0x100_0000_0000_0000 && b[15] == p.sequence % 256
            && b[18] == price / 0x100_0000_0000_0000 && b[25] == price % 256
            && b[26] == u.aggregateSize / 0x100_0000_0000_0000 && b[33] == u.aggregateSize % 256
            && b[34] == u.instrument / 0x100_0000 && b[37] == u.instrument % 256
  {
    hide Be, Encoded;
    var b, u := Encoded(p), p.update;
    Places(p);
    Magic();
    assert b[..8] == b[..4] + b[4..6] + b[6..8];
    FieldEnds(p.sequence);
    FieldEnds(SideCode(u.direction));
    FieldEnds(if u.bestPrice.Some? then 1 else 0);
    FieldEnds(PriceField(u));
    FieldEnds(u.aggregateSize);
    FieldEnds(u.instrument);
    assert b[8] == b[8..16][0] && b[15] == b[8..16][7] && b[16] == b[16..17][0] && b[17] == b[17..18][0];
    assert b[18] == b[18..26][0] && b[25] == b[18..26][7] && b[26] == b[26..34][0] && b[33] == b[26..34][7];
    assert b[34] == b[34..38][0] && b[37] == b[34..38][3];
  }

  /** What a decoded packet says is what its bytes say. */
  lemma {:induction false} DecodedTells(b: seq<Byte>)
    requires Decode(b).Ok?
    ensures var p := Decode(b).value;
            && |b| == 38 && b[..8] == [0x4f, 0x42, 0x5a, 0x4d, 0, 2, 0, 1]
            && (p.update.direction == Buy <==> b[16] == 0) && (p.update.direction == Sell <==> b[16] == 1)
            && (p.update.bestPrice.Some? <==> b[17] == 1) && (p.update.bestPrice == None <==> b[17] == 0)
            && b[8..16] == Be(8, p.sequence) && b[26..34] == Be(8, p.update.aggregateSize)
            && b[34..38] == Be(4, p.update.instrument)
            && (p.update.bestPrice.Some? ==> b[18..26] == Be(8, p.update.bestPrice.value))
  {
    hide Be, Encoded, Decode;
    EncodeDecoded(b);
    Places(Decode(b).value);
    WireForm(Decode(b).value);
  }

  // ---------- refusals ----------

  /** Why the encoder refuses a packet: the first of its four reasons that applies. */
  lemma EncoderReasons(p: Packet)
    ensures EncodeFault(p) == Some(ZeroSequence) <==> p.sequence == 0
    ensures EncodeFault(p) == Some(ZeroInstrument) <==> p.sequence > 0 && p.update.instrument == 0
    ensures EncodeFault(p) == Some(ZeroPrice) <==>
            p.sequence > 0 && p.update.instrument > 0 && p.update.bestPrice == Some(0)
    ensures EncodeFault(p) == Some(UnpairedSize) <==>
            && p.sequence > 0 && p.update.instrument > 0 && p.update.bestPrice != Some(0)
            && (p.update.bestPrice.Some? <==> p.update.aggregateSize == 0)
  {
  }

  ghost predicate AllZero(b: seq<Byte>) {
    forall i :: 0 <= i < |b| ==> b[i] == 0
  }

  lemma {:induction false} ZeroField(b: seq<Byte>)
    ensures FromBe(b) == 0 <==> AllZero(b)
  {
    if b != [] {
      ZeroField(b[..|b| - 1]);
    }
  }

  /** The signature and the version of the document are there, and the sequence is not zero. */
  ghost predicate GoodHeader(b: seq<Byte>) {
    |b| >= 16 && b[..6] == [0x4f, 0x42, 0x5a, 0x4d, 0, 2] && !AllZero(b[8..16])
  }

  lemma {:induction false} FieldIs(b: seq<Byte>, at: nat, w: nat, v: nat)
    requires at + w <= |b| && v < Pow256(w)
    ensures Field(b, at, w) == v <==> b[at..at + w] == Be(w, v)
  {
    hide Be, FromBe, Pow256;
    FromBeOfBe(w, v);
    BeOfFromBe(b[at..at + w]);
  }

  lemma {:induction false} ByteField(b: seq<Byte>, at: nat)
    requires at < |b|
    ensures Field(b, at, 1) == b[at]
  {
    assert b[at..at + 1] == [b[at]];
    assert [b[at]][..0] == [];
    assert FromBe([]) == 0;
  }

  /** Why the decoder refuses the header of a datagram, in the order of its checks. */
  lemma {:induction false} HeaderReasons(b: seq<Byte>)
    ensures DecodeHeader(b) == Err(HeaderTruncated) <==> |b| < 16
    ensures DecodeHeader(b) == Err(InvalidSignature) <==> |b| >= 16 && b[..4] != [0x4f, 0x42, 0x5a, 0x4d]
    ensures DecodeHeader(b) == Err(UnsupportedVersion) <==>
            |b| >= 16 && b[..4] == [0x4f, 0x42, 0x5a, 0x4d] && b[4..6] != [0, 2]
    ensures DecodeHeader(b) == Err(InvalidSequence) <==>
            |b| >= 16 && b[..6] == [0x4f, 0x42, 0x5a, 0x4d, 0, 2] && AllZero(b[8..16])
    ensures DecodeHeader(b).Ok? <==> GoodHeader(b)
    ensures DecodeHeader(b).Ok? ==> (DecodeHeader(b).value.messageType == BOOK_UPDATED <==> b[6..8] == [0, 1])
  {
    hide Be, FromBe, Pow256;
    FieldWidths();
    Magic();
    if |b| >= 16 {
      FieldIs(b, 0, 4, SIGNATURE);
      FieldIs(b, 4, 2, VERSION);
      FieldIs(b, 6, 2, BOOK_UPDATED);
      ZeroField(b[8..16]);
      assert b[..4] == b[0..4];
      assert b[..6] == b[..4] + b[4..6];
    }
  }

  /** Why the decoder refuses a body, in the order of its checks. */
  lemma {:induction false} BodyReasons(b: seq<Byte>)
    ensures DecodeBody(b) == Err(BodyTruncated) <==> |b| < 22
    ensures DecodeBody(b) == Err(BodyLengthMismatch) <==> |b| > 22
    ensures DecodeBody(b) == Err(InvalidSide) <==> |b| == 22 && b[0] > 1
    ensures DecodeBody(b) == Err(InvalidFlags) <==> |b| == 22 && b[0] <= 1 && b[1] > 1
    ensures DecodeBody(b) == Err(InvalidBookState) <==>
            |b| == 22 && b[0] <= 1 && b[1] <= 1 && !((b[1] == 0) == AllZero(b[2..10]) == AllZero(b[10..18]))
    ensures DecodeBody(b) == Err(InvalidSymbol) <==>
            && |b| == 22 && b[0] <= 1 && b[1] <= 1 && ((b[1] == 0) == AllZero(b[2..10]) == AllZero(b[10..18]))
            && AllZero(b[18..22])
  {
    hide Be, FromBe, Pow256, AllZero;
    FieldWidths();
    if |b| == 22 {
      ByteField(b, 0);
      ByteField(b, 1);
      ZeroField(b[2..10]);
      ZeroField(b[10..18]);
      ZeroField(b[18..22]);
    }
  }

  /** What the decoder answers to any datagram: the header's verdict, then the type's, then the body's. */
  lemma {:induction false} DecoderReasons(b: seq<Byte>)
    ensures !GoodHeader(b) ==> DecodeHeader(b).Err? && Decode(b) == Err(DecodeHeader(b).error)
    ensures Decode(b) == Err(UnknownMessageType) <==> GoodHeader(b) && b[6..8] != [0, 1]
    ensures GoodHeader(b) && b[6..8] == [0, 1] ==> Decode(b).Ok? == DecodeBody(b[16..]).Ok?
    ensures GoodHeader(b) && b[6..8] == [0, 1] && Decode(b).Err? ==> Decode(b).error == DecodeBody(b[16..]).error
  {
    hide DecodeHeader, DecodeBody, GoodHeader;
    HeaderReasons(b);
    NotUnknownType(b);
  }

  lemma NotUnknownType(b: seq<Byte>)
    ensures DecodeHeader(b) != Err(UnknownMessageType)
    ensures |b| >= 16 ==> DecodeBody(b[16..]) != Err(UnknownMessageType)
  {
  }
}
