/** The log file as a sequence of frames, the index over it, and what a recovery scan makes of it. */
module WalLog {
  import opened Wrappers
  import opened Bytes
  import opened WalCodec

  // "MMHWAL01"
  const FILE_MAGIC: bytes := [0x4D, 0x4D, 0x48, 0x57, 0x41, 0x4C, 0x30, 0x31]

  /** The record packs, and its body length fits the four-byte frame prefix. */
  predicate Framable(e: Entry) {
    Packable(e) && |PackBody(e)| < U32
  }

  /** What an append can write: numbers of at most 8, 4 and 8 bytes, texts of valid UTF-8 of fewer than 2^16 bytes
      each, and a body, the data included, of fewer than 2^32 bytes. */
  lemma FramableExactly(e: Entry)
    ensures Framable(e) <==>
      (&& e.sequence < 0x1_0000_0000_0000_0000 && e.crc32 < 0x1_0000_0000 && e.timestamp < 0x1_0000_0000_0000_0000
       && |e.eventId| < 0x1_0000 && |e.eventType| < 0x1_0000 && |e.chain| < 0x1_0000
       && ValidUtf8(e.eventId) && ValidUtf8(e.eventType) && ValidUtf8(e.chain)
       && 30 + |e.eventId| + |e.eventType| + |e.chain| + |e.data| < 0x1_0000_0000)
  {
    hide ValidUtf8, BigEndian;
  }

  function Frame(e: Entry): (r: bytes)
    requires Framable(e)
    ensures |r| == 4 + |PackBody(e)|
  {
    BigEndian(|PackBody(e)|, 4) + PackBody(e)
  }

  ghost predicate AllFramable(log: seq<Entry>) {
    forall e :: e in log ==> Framable(e)
  }

  function Frames(log: seq<Entry>): bytes
    requires AllFramable(log)
  {
    if log == [] then [] else Frames(log[..|log| - 1]) + Frame(log[|log| - 1])
  }

  /** The whole file that holds exactly the records of `log`. */
  function FileOf(log: seq<Entry>): (r: bytes)
    requires AllFramable(log)
    ensures FILE_MAGIC <= r
  {
    FILE_MAGIC + Frames(log)
  }

  /** Where record `k` of the log starts in the file. */
  function OffsetOf(log: seq<Entry>, k: nat): nat
    requires AllFramable(log) && k < |log|
  {
    |FileOf(log[..k])|
  }

  // ---------------------------------------------------------------------------
  // The in-memory index
  // ---------------------------------------------------------------------------

  // The latest sequence number, or -1 when there is none.
  type Latest = n: int | -1 <= n

  datatype Index = Index(byId: map<bytes, nat>, bySeq: map<nat, nat>, latest: Latest, total: nat)

  const EMPTY_INDEX := Index(map[], map[], -1, 0)

  /** One step of the rebuild: the latest sequence is the greatest seen. */
  function Indexed(ix: Index, seqNo: nat, id: bytes, offset: nat): Index {
    Index(ix.byId[id := offset], ix.bySeq[seqNo := offset],
          if seqNo > ix.latest then seqNo else ix.latest, ix.total + 1)
  }

  /** What an append does to the index: the latest sequence is the one just written. */
  function Appended(ix: Index, e: Entry, offset: nat): Index {
    Index(ix.byId[e.eventId := offset], ix.bySeq[e.sequence := offset], e.sequence, ix.total + 1)
  }

  /** The index a full rebuild of `log` must come to. */
  function IndexOf(log: seq<Entry>): Index
    requires AllFramable(log)
  {
    if log == [] then EMPTY_INDEX
    else
      var init, last := log[..|log| - 1], log[|log| - 1];
      Indexed(IndexOf(init), last.sequence, last.eventId, |FileOf(init)|)
  }

  /** Whatever the order of the records, a rebuild takes the greatest of their numbers for the latest, or -1 if there
      is none, and counts them all. */
  lemma {:induction false} LatestIsGreatest(log: seq<Entry>)
    requires AllFramable(log)
    ensures forall e :: e in log ==> e.sequence <= IndexOf(log).latest
    ensures IndexOf(log).latest == -1 || exists e :: e in log && e.sequence == IndexOf(log).latest
    ensures IndexOf(log).total == |log|
  {
    hide Framable, FileOf;
    if log != [] {
      var init, last := log[..|log| - 1], log[|log| - 1];
      LatestIsGreatest(init);
      assert log == init + [last];
    }
  }

  ghost predicate Increasing(log: seq<Entry>) {
    forall i, j :: 0 <= i < j < |log| ==> log[i].sequence < log[j].sequence
  }

  function LastSequence(log: seq<Entry>): Latest {
    if log == [] then -1 else log[|log| - 1].sequence
  }

  // ---------------------------------------------------------------------------
  // The recovery scan
  // ---------------------------------------------------------------------------

  /** The scan either raises on a record it cannot parse, or ends with an index and the number of
      bytes of the file it leaves in place. */
  datatype ScanResult = Raised | Recovered(index: Index, keep: nat)

  function ScanFrom(file: bytes, offset: nat, ix: Index): (r: ScanResult)
    requires offset <= |file|
    ensures r.Recovered? ==> r.keep <= |file|
    decreases |file| - offset
  {
    if offset + 4 > |file| then Recovered(ix, |file|)
    else
      var next := offset + 4 + FromBigEndian(file[offset..offset + 4]);
      if next > |file| then Recovered(ix, offset)
      else
        match PeekBody(file[offset + 4..next])
        case None => Raised
        case Some((seqNo, id)) => ScanFrom(file, next, Indexed(ix, seqNo, id, offset))
  }

  function Rebuild(file: bytes): ScanResult {
    if FILE_MAGIC <= file then ScanFrom(file, |FILE_MAGIC|, EMPTY_INDEX)
    else Recovered(EMPTY_INDEX, |file|)
  }

  lemma FramesSnoc(log: seq<Entry>, e: Entry)
    requires AllFramable(log) && Framable(e)
    ensures AllFramable(log + [e])
    ensures FileOf(log + [e]) == FileOf(log) + Frame(e)
    ensures IndexOf(log + [e]) == Indexed(IndexOf(log), e.sequence, e.eventId, |FileOf(log)|)
  {
    hide Packable, PackBody, PeekBody, UnpackBody, BigEndian, FromBigEndian, Limit;
    assert (log + [e])[..|log|] == log;
    assert FILE_MAGIC + (Frames(log) + Frame(e)) == FILE_MAGIC + Frames(log) + Frame(e);
  }

  /** A frame announces its own length. */
  lemma FramePrefix(file: bytes, offset: nat, e: Entry)
    requires Framable(e)
    requires offset + 4 <= |file| && file[offset..offset + 4] == Frame(e)[..4]
    ensures FromBigEndian(file[offset..offset + 4]) == |PackBody(e)|
  {
    LimitValues();
    BigEndianRoundTrip(|PackBody(e)|, 4);
    assert Frame(e)[..4] == BigEndian(|PackBody(e)|, 4);
  }

  lemma FrameAt(file: bytes, offset: nat, e: Entry)
    requires Framable(e) && At(file, offset, Frame(e))
    ensures FromBigEndian(file[offset..offset + 4]) == |PackBody(e)|
    ensures file[offset + 4..offset + |Frame(e)|] == PackBody(e)
  {
    hide Packable, PackBody, PeekBody, UnpackBody, BigEndian, FromBigEndian, Limit;
    var f := Frame(e);
    assert file[offset..offset + 4] == f[..4];
    FramePrefix(file, offset, e);
    assert file[offset + 4..offset + |f|] == f[4..] == PackBody(e);
  }

  /** Frames are self-delimiting: over a whole frame the scan takes exactly one step. */
  lemma ScanFrame(file: bytes, offset: nat, e: Entry, ix: Index)
    requires Framable(e) && At(file, offset, Frame(e))
    ensures ScanFrom(file, offset, ix)
         == ScanFrom(file, offset + |Frame(e)|, Indexed(ix, e.sequence, e.eventId, offset))
  {
    hide Packable, PackBody, PeekBody, UnpackBody, BigEndian, FromBigEndian, Limit;
    FrameAt(file, offset, e);
    PackPeek(e);
  }

  /** However the file goes on behind them, the frames of `log` are scanned to the index of `log`. */
  lemma {:induction false} ScanLog(file: bytes, log: seq<Entry>)
    requires AllFramable(log) && FileOf(log) <= file
    ensures ScanFrom(file, |FILE_MAGIC|, EMPTY_INDEX) == ScanFrom(file, |FileOf(log)|, IndexOf(log))
  {
    hide Packable, PackBody, PeekBody, UnpackBody, BigEndian, FromBigEndian, Limit;
    if log == [] {
    } else {
      var init, last := log[..|log| - 1], log[|log| - 1];
      assert log == init + [last];
      FramesSnoc(init, last);
      assert FileOf(init) <= file;
      ScanLog(file, init);
      assert file[|FileOf(init)|..|FileOf(log)|] == FileOf(log)[|FileOf(init)|..] == Frame(last);
      ScanFrame(file, |FileOf(init)|, last, IndexOf(init));
    }
  }

  /** A file that holds exactly the records of `log` is rebuilt to the index of `log` and kept whole. */
  lemma RebuildClean(log: seq<Entry>)
    requires AllFramable(log)
    ensures Rebuild(FileOf(log)) == Recovered(IndexOf(log), |FileOf(log)|)
  {
    hide Packable, PackBody, PeekBody, UnpackBody, BigEndian, FromBigEndian, Limit;
    ScanLog(FileOf(log), log);
  }

  /** The file a crash leaves: the last frame is written up to its byte number `cut`. */
  function TornFile(log: seq<Entry>, torn: Entry, cut: nat): bytes
    requires AllFramable(log) && Framable(torn) && cut < |Frame(torn)|
  {
    FileOf(log) + Frame(torn)[..cut]
  }

  /** Over a part of a frame at the end of the file the scan stops. */
  lemma ScanTorn(file: bytes, offset: nat, torn: Entry, cut: nat, ix: Index)
    requires Framable(torn) && cut < |Frame(torn)|
    requires |file| == offset + cut && file[offset..] == Frame(torn)[..cut]
    ensures ScanFrom(file, offset, ix) == Recovered(ix, if cut < 4 then |file| else offset)
  {
    hide Packable, PackBody, PeekBody, BigEndian, FromBigEndian, Limit;
    if cut >= 4 {
      assert file[offset..offset + 4] == file[offset..][..4] == Frame(torn)[..4];
      FramePrefix(file, offset, torn);
    }
  }

  /** Crash recovery: whatever part of one more frame was written, the scan indexes exactly the
      complete records; the torn bytes are cut off unless they are a part of the length prefix. */
  lemma CrashRecovery(log: seq<Entry>, torn: Entry, cut: nat)
    requires AllFramable(log) && Framable(torn) && cut < |Frame(torn)|
    ensures Rebuild(TornFile(log, torn, cut))
         == Recovered(IndexOf(log), |FileOf(log)| + (if cut < 4 then cut else 0))
  {
    hide Packable, Frame, Frames, IndexOf, ScanFrom;
    var file := TornFile(log, torn, cut);
    ScanLog(file, log);
    ScanTorn(file, |FileOf(log)|, torn, cut, IndexOf(log));
  }

  // ---------------------------------------------------------------------------
  // Recover, append, recover
  // ---------------------------------------------------------------------------

  /** The file after the crash was recovered from. */
  function RecoveredFile(log: seq<Entry>, torn: Entry, cut: nat): bytes
    requires AllFramable(log) && Framable(torn) && cut < |Frame(torn)|
  {
    FileOf(log) + (if cut < 4 then Frame(torn)[..cut] else [])
  }

  /** A scan only ever records offsets it stopped at, and from one stop to the next it moves on by
      at least the four bytes of a length prefix. */
  lemma {:induction false} ScanOffsets(file: bytes, offset: nat, ix: Index, k: nat)
    requires offset <= |file|
    requires ScanFrom(file, offset, ix).Recovered?
    requires k in ScanFrom(file, offset, ix).index.bySeq
    ensures var found := ScanFrom(file, offset, ix).index.bySeq[k];
      (k in ix.bySeq && ix.bySeq[k] == found) || found == offset || found >= offset + 4
    decreases |file| - offset
  {
    hide Packable, PackBody, PeekBody, UnpackBody, BigEndian, FromBigEndian, Limit;
    if offset + 4 <= |file| {
      var next := offset + 4 + FromBigEndian(file[offset..offset + 4]);
      if next <= |file| {
        match PeekBody(file[offset + 4..next])
        case None =>
        case Some((seqNo, id)) =>
          ScanOffsets(file, next, Indexed(ix, seqNo, id, offset), k);
      }
    }
  }

  /** What the index of an increasing log holds besides the offsets. */
  lemma {:induction false} IndexedSequences(log: seq<Entry>)
    requires AllFramable(log) && Increasing(log)
    ensures forall k :: k in IndexOf(log).bySeq ==> k <= LastSequence(log)
    ensures IndexOf(log).total == |log|
    ensures IndexOf(log).latest == LastSequence(log)
  {
    hide Packable, PackBody, PeekBody, UnpackBody, BigEndian, FromBigEndian, Limit;
    if log == [] {
    } else {
      IndexedSequences(log[..|log| - 1]);
    }
  }

  lemma IncreasingSnoc(log: seq<Entry>, e: Entry)
    requires Increasing(log) && e.sequence > LastSequence(log)
    ensures Increasing(log + [e])
  {
  }

  /** Append keeps the index equal to the index of the log: what is in memory is what a rebuild finds. */
  lemma AppendIsIndexed(log: seq<Entry>, e: Entry)
    requires AllFramable(log) && Framable(e) && Increasing(log) && e.sequence > LastSequence(log)
    ensures Increasing(log + [e])
    ensures IndexOf(log + [e]) == Appended(IndexOf(log), e, |FileOf(log)|)
  {
    hide Packable, PackBody, PeekBody, UnpackBody, BigEndian, FromBigEndian, Limit;
    hide Frame;
    IncreasingSnoc(log, e);
    FramesSnoc(log, e);
    IndexedSequences(log);
  }

  /** After a crash, a recovery and an append, the next recovery finds the index that the running
      process had in memory exactly when the crash had not torn a length prefix. */
  lemma RecoverAppendRecover(log: seq<Entry>, torn: Entry, cut: nat, e: Entry)
    requires AllFramable(log) && Framable(torn) && Framable(e) && cut < |Frame(torn)|
    requires Increasing(log) && e.sequence > LastSequence(log)
    ensures var file := RecoveredFile(log, torn, cut);
      (Rebuild(file + Frame(e)) == Recovered(Appended(IndexOf(log), e, |file|), |file + Frame(e)|))
      <==> (cut == 0 || cut >= 4)
  {
    hide Packable, PackBody, PeekBody, UnpackBody, BigEndian, FromBigEndian, Limit;
    var file := RecoveredFile(log, torn, cut);
    if cut == 0 || cut >= 4 {
      assert file == FileOf(log);
      FramesSnoc(log, e);
      AppendIsIndexed(log, e);
      RebuildClean(log + [e]);
    } else {
      var whole := file + Frame(e);
      assert whole == FileOf(log) + (Frame(torn)[..cut] + Frame(e));
      ScanLog(whole, log);
      IndexedSequences(log);
      assert e.sequence !in IndexOf(log).bySeq;
      var base := |FileOf(log)|;
      var r := ScanFrom(whole, base, IndexOf(log));
      if r.Recovered? && e.sequence in r.index.bySeq {
        ScanOffsets(whole, base, IndexOf(log), e.sequence);
        assert Appended(IndexOf(log), e, |file|).bySeq[e.sequence] == base + cut;
      }
    }
  }

  // ---------------------------------------------------------------------------
  // Reading through the index
  // ---------------------------------------------------------------------------

  /** Reading at an offset: nothing complete is there, the body does not parse, or a record. */
  datatype ReadResult = Absent | Malformed | Found(entry: Entry)

  function ReadAt(file: bytes, offset: nat): ReadResult {
    if offset + 4 > |file| then Absent
    else
      var next := offset + 4 + FromBigEndian(file[offset..offset + 4]);
      if next > |file| then Absent
      else
        match UnpackBody(file[offset + 4..next])
        case None => Malformed
        case Some(e) => Found(e)
  }

  lemma {:induction false} FilePrefix(log: seq<Entry>, k: nat)
    requires AllFramable(log) && k <= |log|
    ensures FileOf(log[..k]) <= FileOf(log)
    decreases |log|
  {
    hide Packable, PackBody, PeekBody, UnpackBody, BigEndian, FromBigEndian, Limit;
    if k < |log| {
      var init := log[..|log| - 1];
      FramesSnoc(init, log[|log| - 1]);
      assert log == init + [log[|log| - 1]];
      FilePrefix(init, k);
      assert init[..k] == log[..k];
    } else {
      assert log[..k] == log;
    }
  }

  lemma ReadFrame(file: bytes, offset: nat, e: Entry)
    requires Framable(e) && At(file, offset, Frame(e))
    ensures ReadAt(file, offset) == Found(e)
  {
    hide Packable, PackBody, PeekBody, UnpackBody, BigEndian, FromBigEndian, Limit;
    FrameAt(file, offset, e);
    PackUnpack(e);
  }

  /** At the offset of record `k` stands record `k`. */
  lemma ReadLogged(log: seq<Entry>, k: nat)
    requires AllFramable(log) && k < |log|
    ensures ReadAt(FileOf(log), OffsetOf(log, k)) == Found(log[k])
  {
    hide Packable, PackBody, PeekBody, UnpackBody, BigEndian, FromBigEndian, Limit;
    var file, o, upTo := FileOf(log), OffsetOf(log, k), FileOf(log[..k + 1]);
    FilePrefix(log, k + 1);
    FramesSnoc(log[..k], log[k]);
    assert log[..k + 1] == log[..k] + [log[k]];
    assert At(upTo, o, Frame(log[k]));
    assert file[o..|upTo|] == upTo[o..];
    ReadFrame(file, o, log[k]);
  }

  /** The position of the last record with this event id. */
  function LastWithId(log: seq<Entry>, id: bytes): (r: Option<nat>)
    ensures r.Some? ==> r.value < |log| && log[r.value].eventId == id
  {
    if log == [] then None
    else if log[|log| - 1].eventId == id then Some(|log| - 1)
    else LastWithId(log[..|log| - 1], id)
  }

  /** No later record carries the id; and if there is no last one, no record does. */
  lemma {:induction false} LastWithIdIsLast(log: seq<Entry>, id: bytes, j: nat)
    requires j < |log| && log[j].eventId == id
    ensures LastWithId(log, id).Some? && j <= LastWithId(log, id).value
    decreases |log|
  {
    if log[|log| - 1].eventId != id {
      LastWithIdIsLast(log[..|log| - 1], id, j);
    }
  }

  /** The id index points at the last record with each id, and only at those. */
  lemma {:induction false} IndexById(log: seq<Entry>, id: bytes)
    requires AllFramable(log)
    ensures match LastWithId(log, id)
      case None => id !in IndexOf(log).byId
      case Some(k) => id in IndexOf(log).byId && IndexOf(log).byId[id] == OffsetOf(log, k)
  {
    hide Packable, PackBody, PeekBody, UnpackBody, BigEndian, FromBigEndian, Limit;
    if log == [] {
    } else {
      var init := log[..|log| - 1];
      IndexById(init, id);
      match LastWithId(init, id)
      case None =>
      case Some(k) => assert init[..k] == log[..k];
    }
  }

  /** The sequence index points at each record of an increasing log. */
  lemma {:induction false} IndexBySequence(log: seq<Entry>, k: nat)
    requires AllFramable(log) && Increasing(log) && k < |log|
    ensures log[k].sequence in IndexOf(log).bySeq
    ensures IndexOf(log).bySeq[log[k].sequence] == OffsetOf(log, k)
    decreases |log|
  {
    hide Packable, PackBody, PeekBody, UnpackBody, BigEndian, FromBigEndian, Limit;
    var init := log[..|log| - 1];
    if k < |init| {
      IndexBySequence(init, k);
      assert init[..k] == log[..k];
    }
  }

  /** The sequence index points at nothing else. */
  lemma {:induction false} IndexedKey(log: seq<Entry>, q: nat)
    requires AllFramable(log) && q in IndexOf(log).bySeq
    ensures exists e :: e in log && e.sequence == q
  {
    var init, last := log[..|log| - 1], log[|log| - 1];
    if last.sequence == q {
      assert last in log;
    } else {
      IndexedKey(init, q);
      var e :| e in init && e.sequence == q;
      assert e in log;
    }
  }
}
