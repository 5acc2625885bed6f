/** Whole runs of the write-ahead log over either backend, against one abstract list of records. */
module WalRuns {
  import opened Wrappers
  import opened Bytes
  import opened Seqs
  import opened WalCodec
  import opened WalLog
  import opened WalBackends

  /** One call of the public log. The clock readings are inputs: the time stamp of an append, and the
      cutoff of a compaction, which may be negative when the retention reaches back before the epoch. */
  datatype Op =
    | Append(data: bytes, id: bytes, kind: bytes, chain: bytes, timestamp: nat)
    | Compact(cutoff: int)

  /** The record an append writes: numbered after the latest one, with the checksum of its data. */
  function NextEntry(latest: Latest, op: Op, crc: bytes -> nat): Entry
    requires op.Append?
  {
    Entry(latest + 1, op.id, op.kind, op.chain, op.timestamp, crc(op.data), op.data)
  }

  function Survives(cutoff: int): Entry -> bool {
    (e: Entry) => e.timestamp >= cutoff
  }

  function Survivors(log: seq<Entry>, cutoff: int): seq<Entry> {
    Filter(log, Survives(cutoff))
  }

  // ---------------------------------------------------------------------------
  // One call, over the abstract log and over each backend
  // ---------------------------------------------------------------------------

  function LogStep(log: seq<Entry>, op: Op, crc: bytes -> nat): seq<Entry> {
    match op
    case Append(_, _, _, _, _) =>
      var e := NextEntry(LastSequence(log), op, crc);
      if Framable(e) then log + [e] else log
    case Compact(cutoff) => Survivors(log, cutoff)
  }

  /** Compaction reads everything back, filters it, and rewrites only when something is dropped. */
  ghost function FileStep(s: FileState, op: Op, crc: bytes -> nat): FileState {
    match op
    case Append(_, _, _, _, _) => FileAppend(s, NextEntry(s.ix.latest, op, crc))
    case Compact(cutoff) =>
      match ReadRange(FileFetch(s), s.ix.latest, 0, None)
      case None => s
      case Some(entries) =>
        var kept := Survivors(entries, cutoff);
        if |kept| < |entries| then FileRewrite(s, kept) else s
  }

  function KvStep(s: KvState, op: Op, crc: bytes -> nat): KvState {
    match op
    case Append(_, _, _, _, _) => KvAppend(s, NextEntry(s.latest, op, crc))
    case Compact(cutoff) =>
      match ReadRange(KvFetch(s), s.latest, 0, None)
      case None => s
      case Some(entries) =>
        var kept := Survivors(entries, cutoff);
        if |kept| < |entries| then KvRewrite(s, kept) else s
  }

  const EMPTY_FILE := FileState(FileOf([]), EMPTY_INDEX)

  const EMPTY_KV := KvState(map[], map[], {}, -1, 0)

  function LogRun(ops: seq<Op>, crc: bytes -> nat): seq<Entry> {
    if ops == [] then [] else LogStep(LogRun(ops[..|ops| - 1], crc), ops[|ops| - 1], crc)
  }

  ghost function FileRun(ops: seq<Op>, crc: bytes -> nat): FileState {
    if ops == [] then EMPTY_FILE else FileStep(FileRun(ops[..|ops| - 1], crc), ops[|ops| - 1], crc)
  }

  function KvRun(ops: seq<Op>, crc: bytes -> nat): KvState {
    if ops == [] then EMPTY_KV else KvStep(KvRun(ops[..|ops| - 1], crc), ops[|ops| - 1], crc)
  }

  // ---------------------------------------------------------------------------
  // Selections
  // ---------------------------------------------------------------------------

  lemma {:induction false} FilterIncreasing(log: seq<Entry>, keep: Entry -> bool)
    requires Increasing(log)
    ensures Selection(Filter(log, keep), log)
    ensures LastSequence(Filter(log, keep)) <= LastSequence(log)
  {
    if log == [] {
    } else {
      var init, last := log[..|log| - 1], log[|log| - 1];
      FilterIncreasing(init, keep);
      FilterMembers(log, keep);
      if keep(last) {
        IncreasingSnoc(Filter(init, keep), last);
      }
    }
  }

  lemma WholeRange(log: seq<Entry>)
    requires Increasing(log)
    ensures RangeOf(log, 0, LastSequence(log)) == log
  {
    forall e | e in log
      ensures InRange(0, LastSequence(log))(e)
    {
      BelowLast(log, e);
    }
    FilterAll(log, InRange(0, LastSequence(log)));
  }

  lemma {:induction false} NothingDropped(log: seq<Entry>, cutoff: int)
    ensures |Survivors(log, cutoff)| == |log| <==> Survivors(log, cutoff) == log
  {
    if e :| e in log && !Survives(cutoff)(e) {
      FilterDrops(log, e, Survives(cutoff));
    } else {
      FilterAll(log, Survives(cutoff));
    }
  }

  // ---------------------------------------------------------------------------
  // The file backend refines the abstract log
  // ---------------------------------------------------------------------------

  lemma FileReadsAll(s: FileState, log: seq<Entry>)
    requires FileHolds(s, log)
    ensures ReadRange(FileFetch(s), s.ix.latest, 0, None) == Some(log)
  {
    hide FileFetch, FileOf, IndexOf, Framable;
    IndexedSequences(log);
    FileFetches(s, log);
    CollectIsFilter(FileFetch(s), log, 0, LastSequence(log));
    WholeRange(log);
  }

  lemma FileStepHolds(s: FileState, log: seq<Entry>, op: Op, crc: bytes -> nat)
    requires FileHolds(s, log)
    ensures FileHolds(FileStep(s, op, crc), LogStep(log, op, crc))
  {
    hide FileFetch, FileOf, IndexOf, Framable, FileRewrite, FileAppend;
    IndexedSequences(log);
    match op
    case Append(_, _, _, _, _) =>
      var e := NextEntry(LastSequence(log), op, crc);
      if Framable(e) {
        FileAppendHolds(s, log, e);
      } else {
        assert FileAppend(s, e) == s by { UnframableIgnored(s, e); }
      }
    case Compact(cutoff) =>
      FileReadsAll(s, log);
      FilterIncreasing(log, Survives(cutoff));
      NothingDropped(log, cutoff);
      FileRewriteHolds(s, log, Survivors(log, cutoff));
  }

  lemma UnframableIgnored(s: FileState, e: Entry)
    requires !Framable(e)
    ensures FileAppend(s, e) == s
  {
  }

  /** After every run of appends and compactions the file holds exactly the frames of the abstract
      log, and the index in memory is the one a rebuild of that file comes to. */
  lemma {:induction false} FileRefines(ops: seq<Op>, crc: bytes -> nat)
    ensures FileHolds(FileRun(ops, crc), LogRun(ops, crc))
    ensures Rebuild(FileRun(ops, crc).file) == Recovered(FileRun(ops, crc).ix, |FileRun(ops, crc).file|)
  {
    if ops == [] {
    } else {
      FileRefines(ops[..|ops| - 1], crc);
      FileStepHolds(FileRun(ops[..|ops| - 1], crc), LogRun(ops[..|ops| - 1], crc), ops[|ops| - 1], crc);
    }
    RebuildClean(LogRun(ops, crc));
  }

  // ---------------------------------------------------------------------------
  // The key-value backend refines it exactly as long as every call is safe
  // ---------------------------------------------------------------------------

  /** A caller can check this against the log before the call: an append that packs also fits a frame and its
      number fits a signed integer, and a compaction is respectful. */
  ghost predicate Safe(log: seq<Entry>, op: Op, crc: bytes -> nat) {
    match op
    case Append(_, _, _, _, _) =>
      var e := NextEntry(LastSequence(log), op, crc);
      Packable(e) ==> Framable(e) && e.sequence < I64
    case Compact(cutoff) => Respectful(Survivors(log, cutoff), log)
  }

  lemma KvReadsAll(s: KvState, log: seq<Entry>)
    requires KvHolds(s, log)
    ensures ReadRange(KvFetch(s), s.latest, 0, None) == Some(log)
  {
    hide KvFetch, Framable, IndexHolds, EventsHold;
    KvFetches(s, log);
    CollectIsFilter(KvFetch(s), log, 0, LastSequence(log));
    WholeRange(log);
  }

  lemma CompactStep(s: KvState, log: seq<Entry>, cutoff: int, crc: bytes -> nat)
    requires KvHolds(s, log)
    ensures var kept := Survivors(log, cutoff);
      KvHolds(KvStep(s, Compact(cutoff), crc), kept) <==> Respectful(kept, log)
  {
    hide KvFetch, Framable, IndexHolds, EventsHold, KvRewrite, CountersHold;
    KvReadsAll(s, log);
    FilterIncreasing(log, Survives(cutoff));
    NothingDropped(log, cutoff);
    KvRewriteHolds(s, log, Survivors(log, cutoff));
  }

  lemma AppendStep(s: KvState, log: seq<Entry>, op: Op, crc: bytes -> nat)
    requires KvHolds(s, log) && op.Append?
    ensures KvHolds(KvStep(s, op, crc), LogStep(log, op, crc)) <==> Safe(log, op, crc)
  {
    var e := NextEntry(LastSequence(log), op, crc);
    if Framable(e) && e.sequence < I64 {
      KvAppendHolds(s, log, e);
    } else if Packable(e) {
      UnknownEvent(s, log, e);
    }
  }

  /** A number beyond the log is not known, and so its event may not be stored either. */
  lemma UnknownEvent(s: KvState, log: seq<Entry>, e: Entry)
    requires KvHolds(s, log) && Packable(e) && e.sequence > LastSequence(log)
    ensures e.sequence !in s.known && e.sequence in KvAppend(s, e).events
    ensures e.sequence >= I64 ==> KvAppend(s, e).known == s.known && KvAppend(s, e).latest == s.latest
    ensures e.sequence < I64 ==> KvAppend(s, e).latest == e.sequence
  {
    hide PackBody;
    if x :| x in log && x.sequence == e.sequence {
      BelowLast(log, x);
    }
  }

  /** One call keeps the key-value backend on the abstract log if and only if it is safe. */
  lemma KvStepHolds(s: KvState, log: seq<Entry>, op: Op, crc: bytes -> nat)
    requires KvHolds(s, log)
    ensures KvHolds(KvStep(s, op, crc), LogStep(log, op, crc)) <==> Safe(log, op, crc)
  {
    match op
    case Append(_, _, _, _, _) => AppendStep(s, log, op, crc);
    case Compact(cutoff) => CompactStep(s, log, cutoff, crc);
  }

  /** Every call of the run is safe on the log that it meets. */
  ghost predicate SafeRun(ops: seq<Op>, crc: bytes -> nat) {
    ops == [] ||
    (SafeRun(ops[..|ops| - 1], crc) && Safe(LogRun(ops[..|ops| - 1], crc), ops[|ops| - 1], crc))
  }

  lemma {:induction false} KvRefines(ops: seq<Op>, crc: bytes -> nat)
    requires SafeRun(ops, crc)
    ensures KvHolds(KvRun(ops, crc), LogRun(ops, crc))
  {
    if ops != [] {
      var init := ops[..|ops| - 1];
      KvRefines(init, crc);
      hide KvHolds, KvStep, LogStep, Safe;
      KvStepHolds(KvRun(init, crc), LogRun(init, crc), ops[|ops| - 1], crc);
    } else {
      EmptyKvHolds();
    }
  }

  lemma EmptyKvHolds()
    ensures KvHolds(EMPTY_KV, [])
  {
  }

  // ---------------------------------------------------------------------------
  // What a client sees
  // ---------------------------------------------------------------------------

  ghost predicate Indistinguishable(f: FileState, k: KvState) {
    && f.ix.latest == k.latest
    && f.ix.total == k.total
    && (forall id :: FileReadById(f, id) == KvReadById(k, id))
    && (forall lo: int, end: Option<int> ::
          ReadRange(FileFetch(f), f.ix.latest, lo, end) == ReadRange(KvFetch(k), k.latest, lo, end))
  }

  lemma SameLogSameAnswers(f: FileState, k: KvState, log: seq<Entry>)
    requires FileHolds(f, log) && KvHolds(k, log)
    ensures Indistinguishable(f, k)
  {
    IndexedSequences(log);
    forall id
      ensures FileReadById(f, id) == KvReadById(k, id)
    {
      LookupsAgree(f, k, log, id);
    }
    forall lo: int, end: Option<int>
      ensures ReadRange(FileFetch(f), f.ix.latest, lo, end) == ReadRange(KvFetch(k), k.latest, lo, end)
    {
      RangesAgree(f, k, log, lo, end);
    }
  }

  /** An unsafe compaction tells the backends apart: through the latest sequence number, or through an id
      that only the file backend still finds. */
  lemma CompactionSplitsBackends(f: FileState, k: KvState, log: seq<Entry>, cutoff: int, crc: bytes -> nat)
    requires FileHolds(f, log) && KvHolds(k, log)
    ensures Indistinguishable(FileStep(f, Compact(cutoff), crc), KvStep(k, Compact(cutoff), crc))
       <==> Respectful(Survivors(log, cutoff), log)
  {
    hide FileFetch, KvFetch, FileOf, IndexOf, Framable, IndexHolds, EventsHold;
    var kept := Survivors(log, cutoff);
    var f', k' := FileStep(f, Compact(cutoff), crc), KvStep(k, Compact(cutoff), crc);
    FileStepHolds(f, log, Compact(cutoff), crc);
    if Respectful(kept, log) {
      CompactStep(k, log, cutoff, crc);
      SameLogSameAnswers(f', k', kept);
    } else {
      KvReadsAll(k, log);
      NothingDropped(log, cutoff);
      assert k' == KvRewrite(k, kept);
      FilterIncreasing(log, Survives(cutoff));
      IndexedSequences(kept);
      if LastSequence(kept) == LastSequence(log) {
        var e, s :| e in log && e !in kept && s in kept && e.eventId == s.eventId;
        ClashBreaks(k, log, kept, e, s);
        FileLookup(f', kept, s.eventId);
        assert FileReadById(f', s.eventId) != KvReadById(k', s.eventId);
      }
    }
  }

  /** An event that only the key-value backend has put is found there by its id, and in no file. */
  lemma HalfPut(f: FileState, k: KvState, log: seq<Entry>, e: Entry)
    requires FileHolds(f, log) && KvHolds(k, log) && Packable(e) && e.sequence > LastSequence(log)
    ensures FileReadById(f, e.eventId) != KvReadById(KvAppend(k, e), e.eventId)
  {
    PackUnpack(e);
    FileLookup(f, log, e.eventId);
    hide PackBody, UnpackBody, FileReadById, FileHolds, KvHolds;
    assert KvReadById(KvAppend(k, e), e.eventId) == Found(e);
    match LastWithId(log, e.eventId)
    case None =>
    case Some(i) => BelowLast(log, log[i]);
  }

  /** So does an unsafe append: one that packs but fits no frame moves only the key-value store, and one whose
      number fits no signed integer is whole only in the file. */
  lemma AppendSplitsBackends(f: FileState, k: KvState, log: seq<Entry>, op: Op, crc: bytes -> nat)
    requires FileHolds(f, log) && KvHolds(k, log) && op.Append?
    ensures Indistinguishable(FileStep(f, op, crc), KvStep(k, op, crc)) <==> Safe(log, op, crc)
  {
    IndexedSequences(log);
    var e := NextEntry(LastSequence(log), op, crc);
    hide FileFetch, KvFetch, FileOf, IndexOf, Framable, IndexHolds, EventsHold, ReadRange, KvReadById, FileReadById;
    FileStepHolds(f, log, op, crc);
    AppendStep(k, log, op, crc);
    if Safe(log, op, crc) {
      SameLogSameAnswers(FileStep(f, op, crc), KvStep(k, op, crc), LogStep(log, op, crc));
    } else if Framable(e) {
      UnknownEvent(k, log, e);
      IndexedSequences(log + [e]);
    } else {
      UnframableIgnored(f, e);
      UnknownEvent(k, log, e);
      if e.sequence >= I64 {
        HalfPut(f, k, log, e);
      }
    }
  }

  /** After every call of the run, no query tells the two backends apart. */
  ghost predicate AgreeThroughout(ops: seq<Op>, crc: bytes -> nat) {
    Indistinguishable(FileRun(ops, crc), KvRun(ops, crc))
    && (ops != [] ==> AgreeThroughout(ops[..|ops| - 1], crc))
  }

  /** Backend refinement, exactly: over every run of appends and compactions no query ever tells the two
      backends apart if and only if every call is safe. */
  lemma {:induction false} BackendsAgree(ops: seq<Op>, crc: bytes -> nat)
    ensures AgreeThroughout(ops, crc) <==> SafeRun(ops, crc)
  {
    FileRefines(ops, crc);
    if ops == [] {
      EmptyKvHolds();
      SameLogSameAnswers(EMPTY_FILE, EMPTY_KV, []);
    } else {
      var init, op := ops[..|ops| - 1], ops[|ops| - 1];
      BackendsAgree(init, crc);
      hide Indistinguishable, FileHolds, KvHolds, FileStep, KvStep, LogStep, Safe;
      if SafeRun(init, crc) {
        FileRefines(init, crc);
        KvRefines(init, crc);
        StepSplits(FileRun(init, crc), KvRun(init, crc), LogRun(init, crc), op, crc);
      }
    }
  }

  /** One call keeps the backends indistinguishable exactly when it is safe. */
  lemma StepSplits(f: FileState, k: KvState, log: seq<Entry>, op: Op, crc: bytes -> nat)
    requires FileHolds(f, log) && KvHolds(k, log)
    ensures Indistinguishable(FileStep(f, op, crc), KvStep(k, op, crc)) <==> Safe(log, op, crc)
  {
    hide Indistinguishable, FileHolds, KvHolds, FileStep, KvStep;
    match op
    case Append(_, _, _, _, _) => AppendSplitsBackends(f, k, log, op, crc);
    case Compact(cutoff) => CompactionSplitsBackends(f, k, log, cutoff, crc);
  }

  lemma FileLookup(f: FileState, log: seq<Entry>, id: bytes)
    requires FileHolds(f, log)
    ensures FileReadById(f, id) == Lookup(log, id)
  {
    hide ReadAt, FileOf, IndexOf, Framable;
    IndexById(log, id);
    match LastWithId(log, id)
    case None =>
    case Some(i) => ReadLogged(log, i);
  }
}
