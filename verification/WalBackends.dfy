/** The two log backends as state transformers, the abstract log they implement, and when they agree. */
module WalBackends {
  import opened Wrappers
  import opened Bytes
  import opened Seqs
  import opened WalCodec
  import opened WalLog

  // ---------------------------------------------------------------------------
  // File backend
  // ---------------------------------------------------------------------------

  datatype FileState = FileState(file: bytes, ix: Index)

  /** An append that cannot be packed or framed raises before the file is touched. */
  function FileAppend(s: FileState, e: Entry): FileState {
    if Framable(e) then FileState(s.file + Frame(e), Appended(s.ix, e, |s.file|)) else s
  }

  /** Compaction writes a new file and rebuilds the index from it. */
  ghost function FileRewrite(s: FileState, entries: seq<Entry>): FileState {
    if AllFramable(entries) then FileState(FileOf(entries), IndexOf(entries)) else s
  }

  function FileFetch(s: FileState): map<int, ReadResult> {
    map q: nat | q in s.ix.bySeq :: (q as int) := ReadAt(s.file, s.ix.bySeq[q])
  }

  function FileReadById(s: FileState, id: bytes): ReadResult {
    if id in s.ix.byId then ReadAt(s.file, s.ix.byId[id]) else Absent
  }

  // ---------------------------------------------------------------------------
  // Key-value backend
  // ---------------------------------------------------------------------------

  /** The event, index and metadata key spaces carry different prefixes, and the twenty-digit event
      key is injective, so they are three separate stores. */
  datatype KvState = KvState(
    events: map<nat, bytes>, index: map<bytes, nat>, known: set<nat>, latest: Latest, total: nat)

  /** The event and its index entry are put first. The latest sequence is packed as a signed integer: one that
      does not fit raises there. */
  function KvAppend(s: KvState, e: Entry): KvState {
    if !Packable(e) then s
    else
      var written := s.(events := s.events[e.sequence := PackBody(e)], index := s.index[e.eventId := e.sequence]);
      if e.sequence >= I64 then written
      else written.(known := s.known + {e.sequence}, latest := e.sequence, total := s.total + 1)
  }

  function Parse(raw: bytes): ReadResult {
    match UnpackBody(raw)
    case None => Malformed
    case Some(e) => Found(e)
  }

  function SequencesOf(entries: seq<Entry>): (r: set<nat>) {
    set e | e in entries :: e.sequence
  }

  /** The event ids of the stored events among `keys`. */
  function IdsOf(events: map<nat, bytes>, keys: set<nat>): set<bytes> {
    set q | q in keys && q in events && Parse(events[q]).Found? :: Parse(events[q]).entry.eventId
  }

  /** Compaction deletes the dropped events, and with each the index entry of its event id, whatever
      event that entry points at. */
  function KvRewrite(s: KvState, entries: seq<Entry>): KvState {
    var gone := s.known - SequencesOf(entries);
    s.(events := s.events - gone, index := s.index - IdsOf(s.events, gone),
       known := SequencesOf(entries), total := |SequencesOf(entries)|)
  }

  function KvFetch(s: KvState): map<int, ReadResult> {
    map q: nat | q in s.known :: (q as int) := if q in s.events then Parse(s.events[q]) else Absent
  }

  function KvReadById(s: KvState, id: bytes): ReadResult {
    if id in s.index && s.index[id] in s.events then Parse(s.events[s.index[id]]) else Absent
  }

  // ---------------------------------------------------------------------------
  // Range reads
  // ---------------------------------------------------------------------------

  /** The records with sequence numbers from `lo` to `hi`, in order; None when a body does not parse. */
  function Collect(fetch: map<int, ReadResult>, lo: int, hi: int): Option<seq<Entry>>
    decreases hi - lo
  {
    if hi < lo then Some([])
    else
      var before :- Collect(fetch, lo, hi - 1);
      if hi !in fetch || fetch[hi].Absent? then Some(before)
      else if fetch[hi].Malformed? then None
      else Some(before + [fetch[hi].entry])
  }

  /** read_range of either backend: an absent end means the latest sequence. */
  function ReadRange(fetch: map<int, ReadResult>, latest: Latest, lo: int, end: Option<int>): Option<seq<Entry>> {
    if latest < 0 then Some([])
    else Collect(fetch, lo, if end.Some? then end.value else latest)
  }

  // ---------------------------------------------------------------------------
  // The abstract log
  // ---------------------------------------------------------------------------

  function InRange(lo: int, hi: int): Entry -> bool {
    (e: Entry) => lo <= e.sequence <= hi
  }

  function RangeOf(log: seq<Entry>, lo: int, hi: int): seq<Entry> {
    Filter(log, InRange(lo, hi))
  }

  function Lookup(log: seq<Entry>, id: bytes): ReadResult {
    match LastWithId(log, id)
    case None => Absent
    case Some(k) => Found(log[k])
  }

  ghost predicate Good(log: seq<Entry>) {
    AllFramable(log) && Increasing(log)
  }

  ghost predicate FileHolds(s: FileState, log: seq<Entry>) {
    Good(log) && s == FileState(FileOf(log), IndexOf(log))
  }

  ghost predicate EventHolds(events: map<nat, bytes>, e: Entry)
    requires Framable(e)
  {
    e.sequence in events && events[e.sequence] == PackBody(e)
  }

  ghost predicate EventsHold(events: map<nat, bytes>, log: seq<Entry>)
    requires AllFramable(log)
  {
    forall e :: e in log ==> EventHolds(events, e)
  }

  ghost predicate IndexHolds(index: map<bytes, nat>, log: seq<Entry>, id: bytes) {
    match LastWithId(log, id)
    case None => id !in index
    case Some(k) => id in index && index[id] == log[k].sequence
  }

  ghost predicate CountersHold(s: KvState, log: seq<Entry>) {
    && s.known == s.events.Keys == SequencesOf(log)
    && s.latest == LastSequence(log)
    && s.total == |log|
  }

  ghost predicate KvHolds(s: KvState, log: seq<Entry>) {
    && Good(log)
    && CountersHold(s, log)
    && EventsHold(s.events, log)
    && (forall id :: IndexHolds(s.index, log, id))
  }

  // ---------------------------------------------------------------------------
  // What the backends answer
  // ---------------------------------------------------------------------------

  /** `fetch` finds exactly the records of the log under their sequence numbers. */
  ghost predicate Fetches(fetch: map<int, ReadResult>, log: seq<Entry>) {
    && (forall e :: e in log ==> e.sequence in fetch && fetch[e.sequence] == Found(e))
    && (forall q :: q in fetch ==> exists e :: e in log && e.sequence == q)
  }

  lemma {:induction false} RangeStep(log: seq<Entry>, lo: int, hi: int)
    requires Increasing(log) && lo <= hi
    ensures (forall e :: e in log ==> e.sequence != hi) ==> RangeOf(log, lo, hi) == RangeOf(log, lo, hi - 1)
    ensures forall e :: e in log && e.sequence == hi ==> RangeOf(log, lo, hi) == RangeOf(log, lo, hi - 1) + [e]
  {
    if log == [] {
    } else {
      var init, last := log[..|log| - 1], log[|log| - 1];
      RangeStep(init, lo, hi);
      if last.sequence == hi {
        FilterSame(init, InRange(lo, hi), InRange(lo, hi - 1));
      }
    }
  }

  /** Collecting by sequence number is filtering the log by sequence number. */
  lemma {:induction false} CollectIsFilter(fetch: map<int, ReadResult>, log: seq<Entry>, lo: int, hi: int)
    requires Increasing(log) && Fetches(fetch, log)
    ensures Collect(fetch, lo, hi) == Some(RangeOf(log, lo, hi))
    decreases hi - lo
  {
    if hi < lo {
      FilterNone(log, InRange(lo, hi));
      assert RangeOf(log, lo, hi) == [];
    } else {
      CollectIsFilter(fetch, log, lo, hi - 1);
      CollectStep(fetch, log, lo, hi);
    }
  }

  lemma CollectStep(fetch: map<int, ReadResult>, log: seq<Entry>, lo: int, hi: int)
    requires Increasing(log) && Fetches(fetch, log) && lo <= hi
    requires Collect(fetch, lo, hi - 1) == Some(RangeOf(log, lo, hi - 1))
    ensures Collect(fetch, lo, hi) == Some(RangeOf(log, lo, hi))
  {
    RangeStep(log, lo, hi);
    if hi in fetch {
      var e :| e in log && e.sequence == hi;
      assert fetch[e.sequence] == Found(e);
      assert RangeOf(log, lo, hi) == RangeOf(log, lo, hi - 1) + [e];
      assert Collect(fetch, lo, hi) == Some(RangeOf(log, lo, hi - 1) + [e]);
    } else {
      assert Collect(fetch, lo, hi) == Some(RangeOf(log, lo, hi - 1));
      assert RangeOf(log, lo, hi) == RangeOf(log, lo, hi - 1);
    }
  }

  lemma FileFetchesOne(s: FileState, log: seq<Entry>, e: Entry)
    requires FileHolds(s, log) && e in log
    ensures e.sequence in FileFetch(s) && FileFetch(s)[e.sequence] == Found(e)
  {
    hide ReadAt, FileOf, IndexOf, Framable;
    var k :| 0 <= k < |log| && log[k] == e;
    IndexBySequence(log, k);
    ReadLogged(log, k);
  }

  lemma FileFetchesOnly(s: FileState, log: seq<Entry>, q: int)
    requires FileHolds(s, log) && q in FileFetch(s)
    ensures exists e :: e in log && e.sequence == q
  {
    assert q >= 0;
    IndexedKey(log, q);
  }

  lemma FileFetches(s: FileState, log: seq<Entry>)
    requires FileHolds(s, log)
    ensures Fetches(FileFetch(s), log)
  {
    hide FileFetch, FileOf, IndexOf, Framable;
    forall e | e in log
      ensures e.sequence in FileFetch(s) && FileFetch(s)[e.sequence] == Found(e)
    {
      FileFetchesOne(s, log, e);
    }
    forall q | q in FileFetch(s)
      ensures exists e :: e in log && e.sequence == q
    {
      FileFetchesOnly(s, log, q);
    }
  }

  lemma ParsePacked(e: Entry)
    requires Framable(e)
    ensures Packable(e) && Parse(PackBody(e)) == Found(e)
  {
    PackUnpack(e);
  }

  lemma KvFetches(s: KvState, log: seq<Entry>)
    requires KvHolds(s, log)
    ensures Fetches(KvFetch(s), log)
  {
    hide Framable, PackBody, Parse;
    forall e | e in log
      ensures e.sequence in KvFetch(s) && KvFetch(s)[e.sequence] == Found(e)
    {
      ParsePacked(e);
      assert EventHolds(s.events, e);
    }
  }

  /** Both backends answer an id lookup with the last record that carries the id. */
  lemma LookupsAgree(f: FileState, k: KvState, log: seq<Entry>, id: bytes)
    requires FileHolds(f, log) && KvHolds(k, log)
    ensures FileReadById(f, id) == Lookup(log, id) == KvReadById(k, id)
  {
    hide ReadAt, FileOf, IndexOf, Framable, Parse, PackBody;
    IndexById(log, id);
    assert IndexHolds(k.index, log, id);
    match LastWithId(log, id)
    case None =>
    case Some(i) =>
      ReadLogged(log, i);
      ParsePacked(log[i]);
      assert EventHolds(k.events, log[i]);
  }

  /** Both backends answer a range read with the records of the range, in sequence order. */
  lemma RangesAgree(f: FileState, k: KvState, log: seq<Entry>, lo: int, end: Option<int>)
    requires FileHolds(f, log) && KvHolds(k, log)
    ensures ReadRange(FileFetch(f), f.ix.latest, lo, end)
         == Some(RangeOf(log, lo, if end.Some? then end.value else LastSequence(log)))
         == ReadRange(KvFetch(k), k.latest, lo, end)
  {
    var hi := if end.Some? then end.value else LastSequence(log);
    IndexedSequences(log);
    FileFetches(f, log);
    KvFetches(k, log);
    CollectIsFilter(FileFetch(f), log, lo, hi);
    CollectIsFilter(KvFetch(k), log, lo, hi);
    if LastSequence(log) < 0 {
      assert log == [];
    }
  }

  // ---------------------------------------------------------------------------
  // Appends
  // ---------------------------------------------------------------------------

  lemma FileAppendHolds(s: FileState, log: seq<Entry>, e: Entry)
    requires FileHolds(s, log) && Framable(e) && e.sequence > LastSequence(log)
    ensures FileHolds(FileAppend(s, e), log + [e])
  {
    FramesSnoc(log, e);
    AppendIsIndexed(log, e);
  }

  lemma LastWithIdSnoc(log: seq<Entry>, e: Entry, id: bytes)
    ensures LastWithId(log + [e], id) == if e.eventId == id then Some(|log|) else LastWithId(log, id)
  {
    assert (log + [e])[..|log|] == log;
  }

  lemma BelowLast(log: seq<Entry>, e: Entry)
    requires Increasing(log) && e in log
    ensures e.sequence <= LastSequence(log)
  {
  }

  lemma AppendIndexHolds(s: KvState, log: seq<Entry>, e: Entry, id: bytes)
    requires Packable(e) && IndexHolds(s.index, log, id)
    ensures IndexHolds(KvAppend(s, e).index, log + [e], id)
  {
    hide LastWithId, PackBody;
    LastWithIdSnoc(log, e, id);
  }

  lemma AppendEventsHold(s: KvState, log: seq<Entry>, e: Entry)
    requires Good(log) && EventsHold(s.events, log)
    requires Framable(e) && e.sequence > LastSequence(log)
    ensures AllFramable(log + [e]) && EventsHold(KvAppend(s, e).events, log + [e])
  {
    assert Packable(e);
    hide Packable, PackBody;
    forall x | x in log + [e]
      ensures Framable(x) && EventHolds(KvAppend(s, e).events, x)
    {
      if x in log {
        BelowLast(log, x);
        assert EventHolds(s.events, x);
      }
    }
  }

  lemma AppendCountersHold(s: KvState, log: seq<Entry>, e: Entry)
    requires CountersHold(s, log) && Packable(e) && e.sequence < I64
    ensures CountersHold(KvAppend(s, e), log + [e])
  {
    hide PackBody;
    assert SequencesOf(log + [e]) == SequencesOf(log) + {e.sequence};
  }

  lemma KvAppendHolds(s: KvState, log: seq<Entry>, e: Entry)
    requires KvHolds(s, log) && Framable(e) && LastSequence(log) < e.sequence < I64
    ensures KvHolds(KvAppend(s, e), log + [e])
  {
    var log', s' := log + [e], KvAppend(s, e);
    assert Packable(e);
    hide Packable, PackBody, LastWithId, IndexHolds, EventsHold, Increasing, AllFramable, CountersHold, KvAppend;
    AppendEventsHold(s, log, e);
    IncreasingSnoc(log, e);
    AppendCountersHold(s, log, e);
    forall id
      ensures IndexHolds(s'.index, log', id)
    {
      AppendIndexHolds(s, log, e, id);
    }
  }

  // ---------------------------------------------------------------------------
  // Compaction
  // ---------------------------------------------------------------------------

  /** `kept` is what a compaction of `log` may keep: some of its records, in order. */
  ghost predicate Selection(kept: seq<Entry>, log: seq<Entry>) {
    Increasing(kept) && forall e :: e in kept ==> e in log
  }

  lemma FileRewriteHolds(s: FileState, log: seq<Entry>, kept: seq<Entry>)
    requires Good(log) && Selection(kept, log)
    ensures FileHolds(FileRewrite(s, kept), kept)
  {
  }

  /** What a compaction must respect: it keeps the newest record, and it does not split the records
      of one event id into dropped and kept ones. */
  ghost predicate Respectful(kept: seq<Entry>, log: seq<Entry>) {
    && LastSequence(kept) == LastSequence(log)
    && forall e, k :: e in log && e !in kept && k in kept ==> e.eventId != k.eventId
  }

  lemma SameSequence(log: seq<Entry>, a: Entry, b: Entry)
    requires Increasing(log) && a in log && b in log && a.sequence == b.sequence
    ensures a == b
  {
  }

  /** The ids whose index entries a compaction deletes are those of the dropped records. */
  lemma DroppedIds(s: KvState, log: seq<Entry>, kept: seq<Entry>, id: bytes)
    requires KvHolds(s, log) && Selection(kept, log)
    ensures id in KvRewrite(s, kept).index
       <==> id in s.index && forall e :: e in log && e !in kept ==> e.eventId != id
    ensures id in KvRewrite(s, kept).index ==> KvRewrite(s, kept).index[id] == s.index[id]
  {
    hide Parse, PackBody, Framable, LastWithId;
    var gone := s.known - SequencesOf(kept);
    var ids := IdsOf(s.events, gone);
    if e :| e in log && e !in kept && e.eventId == id {
      if e.sequence in SequencesOf(kept) {
        var k :| k in kept && k.sequence == e.sequence;
        SameSequence(log, e, k);
      }
      ParsePacked(e);
      assert EventHolds(s.events, e);
      assert e.sequence in gone && Parse(s.events[e.sequence]) == Found(e);
      assert id in ids;
    }
    if id in ids {
      var q :| q in gone && q in s.events && Parse(s.events[q]).Found? && Parse(s.events[q]).entry.eventId == id;
      var e :| e in log && e.sequence == q;
      ParsePacked(e);
      assert EventHolds(s.events, e);
      assert e !in kept;
    }
  }

  /** The last record with an id is the one of greatest sequence among them. */
  lemma LastIsGreatest(log: seq<Entry>, id: bytes, k: nat)
    requires Increasing(log) && LastWithId(log, id) == Some(k)
    ensures forall e :: e in log && e.eventId == id ==> e.sequence <= log[k].sequence
  {
    forall e | e in log && e.eventId == id
      ensures e.sequence <= log[k].sequence
    {
      var i :| 0 <= i < |log| && log[i] == e;
      LastWithIdIsLast(log, id, i);
    }
  }

  /** If no record with this id is dropped, the last one stays the last one. */
  lemma LastSurvives(log: seq<Entry>, kept: seq<Entry>, id: bytes, k: nat)
    requires Increasing(log) && Selection(kept, log)
    requires LastWithId(log, id) == Some(k) && log[k] in kept
    ensures LastWithId(kept, id).Some? && kept[LastWithId(kept, id).value] == log[k]
  {
    hide LastWithId;
    LastIsGreatest(log, id, k);
    var i :| 0 <= i < |kept| && kept[i] == log[k];
    LastWithIdIsLast(kept, id, i);
    var j := LastWithId(kept, id).value;
    LastIsGreatest(kept, id, j);
    SameSequence(log, log[k], kept[j]);
  }

  lemma {:induction false} SequenceCount(log: seq<Entry>)
    requires Increasing(log)
    ensures |SequencesOf(log)| == |log|
  {
    if log == [] {
    } else {
      var init, last := log[..|log| - 1], log[|log| - 1];
      SequenceCount(init);
      assert log == init + [last];
      assert SequencesOf(log) == SequencesOf(init) + {last.sequence};
      assert last.sequence !in SequencesOf(init);
    }
  }

  lemma KvRewriteIndex(s: KvState, log: seq<Entry>, kept: seq<Entry>, id: bytes)
    requires KvHolds(s, log) && Selection(kept, log) && Respectful(kept, log)
    ensures IndexHolds(KvRewrite(s, kept).index, kept, id)
  {
    hide PackBody, UnpackBody, Framable, Parse;
    DroppedIds(s, log, kept, id);
    hide KvRewrite;
    assert IndexHolds(s.index, log, id);
    match LastWithId(log, id)
    case None =>
      if LastWithId(kept, id).Some? {
        var i :| 0 <= i < |log| && log[i] == kept[LastWithId(kept, id).value];
        LastWithIdIsLast(log, id, i);
      }
    case Some(k) =>
      if log[k] in kept {
        LastSurvives(log, kept, id, k);
      } else {
        assert log[k] in log;
      }
  }

  lemma RewriteEventsHold(s: KvState, log: seq<Entry>, kept: seq<Entry>)
    requires KvHolds(s, log) && Selection(kept, log)
    ensures AllFramable(kept) && EventsHold(KvRewrite(s, kept).events, kept)
    ensures KvRewrite(s, kept).events.Keys == SequencesOf(kept)
  {
    hide PackBody, Framable, Parse;
    forall e | e in kept
      ensures Framable(e) && EventHolds(KvRewrite(s, kept).events, e)
    {
      assert EventHolds(s.events, e);
    }
  }

  lemma RespectfulHolds(s: KvState, log: seq<Entry>, kept: seq<Entry>)
    requires KvHolds(s, log) && Selection(kept, log) && Respectful(kept, log)
    ensures KvHolds(KvRewrite(s, kept), kept)
  {
    var s' := KvRewrite(s, kept);
    hide LastWithId, IndexHolds, EventsHold, SequencesOf, Parse;
    RewriteEventsHold(s, log, kept);
    SequenceCount(kept);
    forall id
      ensures IndexHolds(s'.index, kept, id)
    {
      KvRewriteIndex(s, log, kept, id);
    }
  }

  /** A kept record loses its id to a dropped one. */
  lemma ClashBreaks(s: KvState, log: seq<Entry>, kept: seq<Entry>, e: Entry, k: Entry)
    requires KvHolds(s, log) && Selection(kept, log)
    requires e in log && e !in kept && k in kept && e.eventId == k.eventId
    ensures KvReadById(KvRewrite(s, kept), k.eventId).Absent?
    ensures LastWithId(kept, k.eventId).Some?
    ensures !KvHolds(KvRewrite(s, kept), kept)
  {
    hide KvRewrite;
    DroppedIds(s, log, kept, k.eventId);
    var i :| 0 <= i < |kept| && kept[i] == k;
    LastWithIdIsLast(kept, k.eventId, i);
    assert !IndexHolds(KvRewrite(s, kept).index, kept, k.eventId);
  }

  /** A compaction leaves the key-value backend representing the kept records exactly when it is
      respectful; the file backend always represents them. */
  lemma KvRewriteHolds(s: KvState, log: seq<Entry>, kept: seq<Entry>)
    requires KvHolds(s, log) && Selection(kept, log)
    ensures KvHolds(KvRewrite(s, kept), kept) <==> Respectful(kept, log)
  {
    if Respectful(kept, log) {
      RespectfulHolds(s, log, kept);
    } else if e, k :| e in log && e !in kept && k in kept && e.eventId == k.eventId {
      ClashBreaks(s, log, kept, e, k);
    }
  }
}
