/** The binary record format of the write-ahead log (src/wal/raw_wal.py). */
module WalCodec {
  import opened Wrappers
  import opened Bytes

  /** One log record. Strings are kept as the bytes they encode to. `timestamp` is the 64-bit IEEE pattern of
      the float, whose order on non-negative floats is the order of the numbers. */
  datatype Entry = Entry(
    sequence: nat,
    eventId: bytes,
    eventType: bytes,
    chain: bytes,
    timestamp: nat,
    crc32: nat,
    data: bytes)

  const FIXED_BODY_SIZE := 20

  /** str.encode and struct.pack accept every field of the record. */
  predicate Packable(e: Entry) {
    && e.sequence < U64 && e.crc32 < U32 && e.timestamp < U64
    && |e.eventId| < U16 && |e.eventType| < U16 && |e.chain| < U16
    && |e.data| < U32
    && ValidUtf8(e.eventId) && ValidUtf8(e.eventType) && ValidUtf8(e.chain)
  }

  /** A byte string preceded by its own length in `width` bytes. */
  function Counted(s: bytes, width: nat): (r: bytes)
    ensures |r| == width + |s|
  {
    BigEndian(|s|, width) + s
  }

  function PackHeader(e: Entry): (r: bytes)
    ensures |r| == FIXED_BODY_SIZE
  {
    BigEndian(e.sequence, 8) + BigEndian(e.crc32, 4) + BigEndian(e.timestamp, 8)
  }

  function PackBody(e: Entry): (r: bytes)
    requires Packable(e)
  {
    PackHeader(e) + Counted(e.eventId, 2) + Counted(e.eventType, 2) + Counted(e.chain, 2) + Counted(e.data, 4)
  }

  // ---------------------------------------------------------------------------
  // Reading
  // ---------------------------------------------------------------------------

  /** struct.unpack_from: a big-endian integer, or an error when the buffer is too short. */
  function ReadUint(data: bytes, pos: nat, width: nat): Option<nat> {
    if pos + width <= |data| then Some(FromBigEndian(data[pos..pos + width])) else None
  }

  /** A Python slice: it never fails, it only comes back short. */
  function Slice(data: bytes, pos: nat, len: nat): bytes {
    if pos + len <= |data| then data[pos..pos + len]
    else if pos <= |data| then data[pos..]
    else []
  }

  function Decode(raw: bytes): Option<bytes> {
    if ValidUtf8(raw) then Some(raw) else None
  }

  /** A two-byte length and that many bytes of text: the text, and the position after it. */
  function ReadText(data: bytes, pos: nat): Option<(bytes, nat)> {
    var len :- ReadUint(data, pos, 2);
    var text :- Decode(Slice(data, pos + 2, len));
    Some((text, pos + 2 + len))
  }

  function UnpackBody(data: bytes): Option<Entry> {
    var seqNo :- ReadUint(data, 0, 8);
    var crc :- ReadUint(data, 8, 4);
    var ts :- ReadUint(data, 12, 8);
    var (eid, p1) :- ReadText(data, FIXED_BODY_SIZE);
    var (etype, p2) :- ReadText(data, p1);
    var (ch, p3) :- ReadText(data, p2);
    var dataLen :- ReadUint(data, p3, 4);
    Some(Entry(seqNo, eid, etype, ch, ts, crc, Slice(data, p3 + 4, dataLen)))
  }

  /** What the recovery scan reads of a body: the sequence number and the event id only. */
  function PeekBody(data: bytes): Option<(nat, bytes)> {
    var seqNo :- ReadUint(data, 0, 8);
    var (eid, _) :- ReadText(data, FIXED_BODY_SIZE);
    Some((seqNo, eid))
  }

  /** `piece` stands in `data` at position `pos`. */
  predicate At(data: bytes, pos: nat, piece: bytes) {
    pos + |piece| <= |data| && data[pos..pos + |piece|] == piece
  }

  lemma Layout(a: bytes, b: bytes, c: bytes, d: bytes, e: bytes)
    ensures var data := a + b + c + d + e;
      && At(data, 0, a)
      && At(data, |a|, b)
      && At(data, |a| + |b|, c)
      && At(data, |a| + |b| + |c|, d)
      && At(data, |a| + |b| + |c| + |d|, e)
  {
  }

  lemma UintAt(data: bytes, pos: nat, n: nat, width: nat)
    requires n < Limit(width)
    requires At(data, pos, BigEndian(n, width))
    ensures ReadUint(data, pos, width) == Some(n)
  {
    BigEndianRoundTrip(n, width);
  }

  lemma CountedAt(data: bytes, pos: nat, s: bytes, width: nat)
    requires |s| < Limit(width)
    requires At(data, pos, Counted(s, width))
    ensures ReadUint(data, pos, width) == Some(|s|)
    ensures Slice(data, pos + width, |s|) == s
  {
    var piece := Counted(s, width);
    assert data[pos..pos + width] == piece[..width] == BigEndian(|s|, width);
    assert data[pos + width..pos + width + |s|] == piece[width..] == s;
    UintAt(data, pos, |s|, width);
  }

  lemma TextAt(data: bytes, pos: nat, s: bytes)
    requires |s| < U16 && ValidUtf8(s)
    requires At(data, pos, Counted(s, 2))
    ensures ReadText(data, pos) == Some((s, pos + 2 + |s|))
  {
    LimitValues();
    CountedAt(data, pos, s, 2);
  }

  lemma DataAt(data: bytes, pos: nat, s: bytes)
    requires |s| < U32
    requires At(data, pos, Counted(s, 4))
    ensures ReadUint(data, pos, 4) == Some(|s|)
    ensures Slice(data, pos + 4, |s|) == s
  {
    LimitValues();
    CountedAt(data, pos, s, 4);
  }

  lemma HeaderAt(data: bytes, e: Entry)
    requires Packable(e)
    requires At(data, 0, PackHeader(e))
    ensures ReadUint(data, 0, 8) == Some(e.sequence)
    ensures ReadUint(data, 8, 4) == Some(e.crc32)
    ensures ReadUint(data, 12, 8) == Some(e.timestamp)
  {
    LimitValues();
    var h := PackHeader(e);
    assert data[0..8] == h[0..8] == BigEndian(e.sequence, 8);
    assert data[8..12] == h[8..12] == BigEndian(e.crc32, 4);
    assert data[12..20] == h[12..20] == BigEndian(e.timestamp, 8);
    UintAt(data, 0, e.sequence, 8);
    UintAt(data, 8, e.crc32, 4);
    UintAt(data, 12, e.timestamp, 8);
  }

  /** Reading field after field: where every piece stands in its place, the record comes out. */
  lemma Assemble(body: bytes, e: Entry, p1: nat, p2: nat, p3: nat)
    requires ReadUint(body, 0, 8) == Some(e.sequence)
    requires ReadUint(body, 8, 4) == Some(e.crc32)
    requires ReadUint(body, 12, 8) == Some(e.timestamp)
    requires ReadText(body, 20) == Some((e.eventId, p1))
    requires ReadText(body, p1) == Some((e.eventType, p2))
    requires ReadText(body, p2) == Some((e.chain, p3))
    requires ReadUint(body, p3, 4) == Some(|e.data|)
    requires Slice(body, p3 + 4, |e.data|) == e.data
    ensures UnpackBody(body) == Some(e)
  {
  }

  /** The five pieces of a packed record stand in `body` one behind the other. */
  predicate Holds(body: bytes, e: Entry) {
    var p1 := 22 + |e.eventId|;
    var p2 := p1 + 2 + |e.eventType|;
    var p3 := p2 + 2 + |e.chain|;
    && At(body, 0, PackHeader(e))
    && At(body, 20, Counted(e.eventId, 2))
    && At(body, p1, Counted(e.eventType, 2))
    && At(body, p2, Counted(e.chain, 2))
    && At(body, p3, Counted(e.data, 4))
  }

  lemma PackHolds(e: Entry)
    requires Packable(e)
    ensures Holds(PackBody(e), e)
  {
    hide BigEndian, ValidUtf8;
    Layout(PackHeader(e), Counted(e.eventId, 2), Counted(e.eventType, 2), Counted(e.chain, 2), Counted(e.data, 4));
  }

  lemma UnpackHeld(body: bytes, e: Entry)
    requires Packable(e) && Holds(body, e)
    ensures UnpackBody(body) == Some(e)
  {
    var p1 := 22 + |e.eventId|;
    var p2 := p1 + 2 + |e.eventType|;
    var p3 := p2 + 2 + |e.chain|;
    hide Counted, ReadText, ReadUint, Slice, Decode, UnpackBody;
    HeaderAt(body, e);
    TextAt(body, 20, e.eventId);
    TextAt(body, p1, e.eventType);
    TextAt(body, p2, e.chain);
    DataAt(body, p3, e.data);
    Assemble(body, e, p1, p2, p3);
  }

  lemma HeaderParts(body: bytes, e: Entry)
    requires At(body, 0, PackHeader(e))
    ensures body[0..8] == BigEndian(e.sequence, 8) && body[8..12] == BigEndian(e.crc32, 4)
    ensures body[12..20] == BigEndian(e.timestamp, 8)
  {
    var h := PackHeader(e);
    assert body[0..8] == h[0..8] && body[8..12] == h[8..12] && body[12..20] == h[12..20];
  }

  lemma CountedParts(body: bytes, pos: nat, s: bytes, width: nat)
    requires At(body, pos, Counted(s, width))
    ensures body[pos..pos + width] == BigEndian(|s|, width) && body[pos + width..pos + width + |s|] == s
  {
    var piece := Counted(s, width);
    assert body[pos..pos + width] == piece[..width] && body[pos + width..pos + width + |s|] == piece[width..];
  }

  /** What stands where in a packed record: the number, the checksum and the time in 8, 4 and 8 bytes, then
      the id, the kind, the chain and the data, each behind its own length. */
  lemma BodyLayout(e: Entry)
    requires Packable(e)
    ensures var body, p1 := PackBody(e), 22 + |e.eventId|;
      var p2 := p1 + 2 + |e.eventType|; var p3 := p2 + 2 + |e.chain|;
      && |body| == p3 + 4 + |e.data|
      && body[0..8] == BigEndian(e.sequence, 8) && body[8..12] == BigEndian(e.crc32, 4)
      && body[12..20] == BigEndian(e.timestamp, 8)
      && body[20..22] == BigEndian(|e.eventId|, 2) && body[22..p1] == e.eventId
      && body[p1..p1 + 2] == BigEndian(|e.eventType|, 2) && body[p1 + 2..p2] == e.eventType
      && body[p2..p2 + 2] == BigEndian(|e.chain|, 2) && body[p2 + 2..p3] == e.chain
      && body[p3..p3 + 4] == BigEndian(|e.data|, 4) && body[p3 + 4..] == e.data
  {
    hide BigEndian, ValidUtf8;
    var body, p1 := PackBody(e), 22 + |e.eventId|;
    var p2 := p1 + 2 + |e.eventType|;
    var p3 := p2 + 2 + |e.chain|;
    PackHolds(e);
    hide PackBody, At;
    HeaderParts(body, e);
    CountedParts(body, 20, e.eventId, 2);
    CountedParts(body, p1, e.eventType, 2);
    CountedParts(body, p2, e.chain, 2);
    CountedParts(body, p3, e.data, 4);
  }

  /** Unpacking a packed record gives the record back, whatever its fields. */
  lemma PackUnpack(e: Entry)
    requires Packable(e)
    ensures UnpackBody(PackBody(e)) == Some(e)
  {
    PackHolds(e);
    UnpackHeld(PackBody(e), e);
  }

  /** The recovery scan's partial parse agrees with the full one. */
  lemma PackPeek(e: Entry)
    requires Packable(e)
    ensures PeekBody(PackBody(e)) == Some((e.sequence, e.eventId))
  {
    PackHolds(e);
    HeaderAt(PackBody(e), e);
    TextAt(PackBody(e), 20, e.eventId);
  }
}
