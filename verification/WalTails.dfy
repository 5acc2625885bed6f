/** Log files with bytes behind the last complete record: what a scan makes of them, and what is read. */
module WalTails {
  import opened Wrappers
  import opened Bytes
  import opened WalCodec
  import opened WalLog
  import opened WalBackends

  // ---------------------------------------------------------------------------
  // The scan over a tail
  // ---------------------------------------------------------------------------

  /** A tail that the scan takes for no record: shorter than a length prefix, or announcing more bytes than
      it has. */
  predicate Harmless(tail: bytes) {
    |tail| < 4 || FromBigEndian(tail[..4]) > |tail| - 4
  }

  /** Opening a file leaves a backend, or raises and leaves none. */
  datatype Server = Up(state: FileState) | Down

  /** Opening raises on a file that does not begin with the whole magic, and on a record it cannot parse. */
  function Opened(file: bytes): Server {
    if !(FILE_MAGIC <= file) then Down
    else
      match Rebuild(file)
      case Recovered(ix, keep) => if keep <= |file| then Up(FileState(file[..keep], ix)) else Down
      case Raised => Down
  }

  /** A scan never forgets a record. */
  lemma {:induction false} ScanCounts(file: bytes, offset: nat, ix: Index)
    requires offset <= |file| && ScanFrom(file, offset, ix).Recovered?
    ensures ScanFrom(file, offset, ix).index.total >= ix.total
    decreases |file| - offset
  {
    hide PeekBody, FromBigEndian;
    if offset + 4 <= |file| {
      var next := offset + 4 + FromBigEndian(file[offset..offset + 4]);
      if next <= |file| && PeekBody(file[offset + 4..next]).Some? {
        var (seqNo, id) := PeekBody(file[offset + 4..next]).value;
        ScanCounts(file, next, Indexed(ix, seqNo, id, offset));
      }
    }
  }

  lemma RebuildTail(log: seq<Entry>, tail: bytes)
    requires AllFramable(log)
    ensures Rebuild(FileOf(log) + tail) == ScanFrom(FileOf(log) + tail, |FileOf(log)|, IndexOf(log))
  {
    hide ScanFrom, IndexOf, Frames;
    ScanLog(FileOf(log) + tail, log);
  }

  /** Where the scan stops at once it changes nothing but the length of the file. */
  lemma ScanHarmless(file: bytes, base: nat, tail: bytes, ix: Index)
    requires base <= |file| && file[base..] == tail && Harmless(tail)
    ensures ScanFrom(file, base, ix) == Recovered(ix, if |tail| < 4 then |file| else base)
  {
    hide PeekBody, FromBigEndian;
    if |tail| >= 4 {
      assert file[base..base + 4] == tail[..4];
    }
  }

  /** Where it does not, it raises or finds something. */
  lemma ScanHarmful(file: bytes, base: nat, tail: bytes, ix: Index)
    requires base <= |file| && file[base..] == tail && !Harmless(tail)
    ensures ScanFrom(file, base, ix).Recovered? ==> ScanFrom(file, base, ix).index.total > ix.total
  {
    hide PeekBody, FromBigEndian;
    assert file[base..base + 4] == tail[..4];
    var next := base + 4 + FromBigEndian(file[base..base + 4]);
    if PeekBody(file[base + 4..next]).Some? {
      var (seqNo, id) := PeekBody(file[base + 4..next]).value;
      if ScanFrom(file, next, Indexed(ix, seqNo, id, base)).Recovered? {
        ScanCounts(file, next, Indexed(ix, seqNo, id, base));
      }
    }
  }

  /** What opening leaves of a file with a harmless tail. */
  function WithoutLong(log: seq<Entry>, tail: bytes): FileState
    requires AllFramable(log)
  {
    FileState(FileOf(log) + if |tail| < 4 then tail else [], IndexOf(log))
  }

  lemma OpenHarmless(log: seq<Entry>, tail: bytes)
    requires AllFramable(log) && Harmless(tail)
    ensures Opened(FileOf(log) + tail) == Up(WithoutLong(log, tail))
  {
    hide IndexOf, Rebuild, FileOf, ScanFrom, Harmless;
    var file, base := FileOf(log) + tail, |FileOf(log)|;
    RebuildTail(log, tail);
    assert file[base..] == tail;
    ScanHarmless(file, base, tail, IndexOf(log));
    assert file[..|file|] == file && file[..base] == FileOf(log) == FileOf(log) + [];
  }

  lemma OpenHarmful(log: seq<Entry>, tail: bytes)
    requires AllFramable(log) && Increasing(log) && !Harmless(tail)
    ensures Opened(FileOf(log) + tail).Up? ==> Opened(FileOf(log) + tail).state.ix.total > |log|
  {
    IndexedSequences(log);
    hide IndexOf, Rebuild, FileOf, ScanFrom, Harmless;
    var file, base := FileOf(log) + tail, |FileOf(log)|;
    RebuildTail(log, tail);
    assert file[base..] == tail;
    ScanHarmful(file, base, tail, IndexOf(log));
  }

  /** Opening finds the index of the log exactly when the tail is harmless; it keeps a tail shorter than a
      length prefix and cuts off any other. */
  lemma TailDecides(log: seq<Entry>, tail: bytes)
    requires AllFramable(log) && Increasing(log)
    ensures var r := Opened(FileOf(log) + tail);
      && (r.Up? && r.state.ix == IndexOf(log) <==> Harmless(tail))
      && (Harmless(tail) ==> r == Up(WithoutLong(log, tail)))
  {
    IndexedSequences(log);
    hide IndexOf, Opened, FileOf, Harmless;
    if Harmless(tail) {
      OpenHarmless(log, tail);
    } else {
      OpenHarmful(log, tail);
    }
  }

  /** A part of a frame is harmless on its own. */
  lemma PartIsHarmless(torn: Entry, cut: nat)
    requires Framable(torn) && cut < |Frame(torn)|
    ensures Harmless(Frame(torn)[..cut])
  {
    if cut >= 4 {
      var part := Frame(torn)[..cut];
      assert part[0..4] == part[..4] == Frame(torn)[..4];
      FramePrefix(part, 0, torn);
    }
  }

  /** A record appended behind a tail is not where a scan looks for it. */
  lemma AppendBehindTail(log: seq<Entry>, tail: bytes, e: Entry)
    requires AllFramable(log) && Increasing(log) && Framable(e) && e.sequence > LastSequence(log)
    requires 0 < |tail| < 4
    ensures var file := FileOf(log) + tail;
      var r := Opened(file + Frame(e));
      !(r.Up? && r.state.ix == Appended(IndexOf(log), e, |file|))
  {
    hide Packable, PackBody, PeekBody, UnpackBody, BigEndian, FromBigEndian, Limit;
    var whole, base := FileOf(log) + (tail + Frame(e)), |FileOf(log)|;
    assert FileOf(log) + tail + Frame(e) == whole;
    RebuildTail(log, tail + Frame(e));
    IndexedSequences(log);
    assert e.sequence !in IndexOf(log).bySeq;
    var r := ScanFrom(whole, base, IndexOf(log));
    if r.Recovered? && e.sequence in r.index.bySeq {
      ScanOffsets(whole, base, IndexOf(log), e.sequence);
      assert Appended(IndexOf(log), e, base + |tail|).bySeq[e.sequence] == base + |tail|;
    }
  }

  // ---------------------------------------------------------------------------
  // Small records
  // ---------------------------------------------------------------------------

  lemma SmallPrefix(n: nat)
    requires n < 256
    ensures BigEndian(n, 4) == [0, 0, 0, n]
  {
    assert BigEndian(0, 1) == [0];
    assert BigEndian(0, 2) == [0, 0];
    assert BigEndian(0, 3) == [0, 0, 0];
  }

  lemma FourZeros()
    ensures FromBigEndian([0, 0, 0, 0]) == 0
  {
    assert [0, 0, 0, 0][..3] == [0, 0, 0] && [0, 0, 0][..2] == [0, 0] && [0, 0][..1] == [0];
    assert FromBigEndian([0]) == 0;
    assert FromBigEndian([0, 0]) == 0;
    assert FromBigEndian([0, 0, 0]) == 0;
  }

  /** Behind a torn length prefix, a small record makes the log unopenable: the scan finds a record of no
      bytes, and raises on it. */
  lemma SmallRecordsRaise(log: seq<Entry>, torn: Entry, cut: nat, e: Entry)
    requires AllFramable(log) && Framable(torn) && Framable(e) && 0 < cut < 4
    requires |PackBody(torn)| < 256 && |PackBody(e)| < 256
    ensures Rebuild(FileOf(log) + Frame(torn)[..cut] + Frame(e)) == Raised
  {
    var tail := Frame(torn)[..cut] + Frame(e);
    var file, base := FileOf(log) + tail, |FileOf(log)|;
    assert FileOf(log) + Frame(torn)[..cut] + Frame(e) == file;
    SmallPrefix(|PackBody(torn)|);
    SmallPrefix(|PackBody(e)|);
    FourZeros();
    assert Frame(torn)[..cut] == [0, 0, 0][..cut];
    assert forall i :: 0 <= i < 4 ==> tail[i] == 0;
    assert file[base..base + 4] == tail[..4] == [0, 0, 0, 0];
    RebuildTail(log, tail);
    hide Packable, PackBody, BigEndian, FromBigEndian, Frame, FileOf, IndexOf;
    assert file[base + 4..base + 4] == [];
    assert PeekBody([]) == None;
  }

  // ---------------------------------------------------------------------------
  // Reading
  // ---------------------------------------------------------------------------

  /** The log in memory and on disk, with at most a torn length prefix behind it. */
  ghost predicate Holding(s: FileState, log: seq<Entry>) {
    Good(log) && s.ix == IndexOf(log) && FileOf(log) <= s.file && |s.file| < |FileOf(log)| + 4
  }

  /** Every query is answered from this log. */
  ghost predicate Serves(s: FileState, log: seq<Entry>) {
    && s.ix.latest == LastSequence(log) && s.ix.total == |log|
    && (forall id :: FileReadById(s, id) == Lookup(log, id))
    && (forall lo: int, end: Option<int> ::
          ReadRange(FileFetch(s), s.ix.latest, lo, end)
            == Some(RangeOf(log, lo, if end.Some? then end.value else LastSequence(log))))
  }

  lemma ReadBeforeTail(file: bytes, longer: bytes, offset: nat)
    requires file <= longer && ReadAt(file, offset).Found?
    ensures ReadAt(longer, offset) == ReadAt(file, offset)
  {
    hide UnpackBody, FromBigEndian;
    assert longer[offset..offset + 4] == file[offset..offset + 4];
    var next := offset + 4 + FromBigEndian(file[offset..offset + 4]);
    assert longer[offset + 4..next] == file[offset + 4..next];
  }

  lemma ReadLoggedBeforeTail(log: seq<Entry>, file: bytes, k: nat)
    requires AllFramable(log) && k < |log| && FileOf(log) <= file
    ensures ReadAt(file, OffsetOf(log, k)) == Found(log[k])
  {
    ReadLogged(log, k);
    hide ReadAt, FileOf;
    ReadBeforeTail(FileOf(log), file, OffsetOf(log, k));
  }

  lemma HoldingLookup(s: FileState, log: seq<Entry>, id: bytes)
    requires Holding(s, log)
    ensures FileReadById(s, id) == Lookup(log, id)
  {
    hide ReadAt, FileOf, IndexOf, Framable;
    IndexById(log, id);
    match LastWithId(log, id)
    case None =>
    case Some(i) => ReadLoggedBeforeTail(log, s.file, i);
  }

  lemma HoldingFetchesOne(s: FileState, log: seq<Entry>, e: Entry)
    requires Holding(s, log) && e in log
    ensures e.sequence in FileFetch(s) && FileFetch(s)[e.sequence] == Found(e)
  {
    hide ReadAt, FileOf, IndexOf, Framable;
    var k :| 0 <= k < |log| && log[k] == e;
    IndexBySequence(log, k);
    ReadLoggedBeforeTail(log, s.file, k);
  }

  lemma HoldingFetches(s: FileState, log: seq<Entry>)
    requires Holding(s, log)
    ensures Fetches(FileFetch(s), log)
  {
    forall q | q in FileFetch(s)
      ensures exists e :: e in log && e.sequence == q
    {
      assert q >= 0;
      IndexedKey(log, q);
    }
    hide FileFetch, FileOf, IndexOf, Framable;
    forall e | e in log
      ensures e.sequence in FileFetch(s) && FileFetch(s)[e.sequence] == Found(e)
    {
      HoldingFetchesOne(s, log, e);
    }
  }

  /** Bytes of a torn length prefix disturb no read. */
  lemma HoldingServes(s: FileState, log: seq<Entry>)
    requires Holding(s, log)
    ensures Serves(s, log)
  {
    IndexedSequences(log);
    HoldingFetches(s, log);
    hide FileFetch, FileOf, IndexOf, Framable, FileReadById;
    forall id
      ensures FileReadById(s, id) == Lookup(log, id)
    {
      HoldingLookup(s, log, id);
    }
    forall lo: int, end: Option<int>
      ensures ReadRange(FileFetch(s), s.ix.latest, lo, end)
        == Some(RangeOf(log, lo, if end.Some? then end.value else LastSequence(log)))
    {
      CollectIsFilter(FileFetch(s), log, lo, if end.Some? then end.value else LastSequence(log));
      if LastSequence(log) < 0 {
        assert log == [];
      }
    }
  }
}
