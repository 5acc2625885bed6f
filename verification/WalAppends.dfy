/** What a caller gets back of what it appended, field by field, and how long it can. */
module WalAppends {
  import opened Wrappers
  import opened Bytes
  import opened Seqs
  import opened WalCodec
  import opened WalLog
  import opened WalBackends
  import opened WalRuns

  /** The record with this number holds what the caller gave, and the checksum of the data. */
  function Written(n: nat, op: Op, crc: bytes -> nat): Entry
    requires op.Append?
  {
    Entry(sequence := n, eventId := op.id, eventType := op.kind, chain := op.chain, timestamp := op.timestamp,
          crc32 := crc(op.data), data := op.data)
  }

  /** The file answers with exactly this record, to its id and to its number. */
  ghost predicate FileAnswers(s: FileState, e: Entry) {
    && FileReadById(s, e.eventId) == Found(e)
    && ReadRange(FileFetch(s), s.ix.latest, e.sequence, Some(e.sequence)) == Some([e])
  }

  ghost predicate KvAnswers(s: KvState, e: Entry) {
    && KvReadById(s, e.eventId) == Found(e)
    && ReadRange(KvFetch(s), s.latest, e.sequence, Some(e.sequence)) == Some([e])
  }

  // ---------------------------------------------------------------------------
  // The abstract log
  // ---------------------------------------------------------------------------

  /** An append numbers its record one after the last, or 0, and writes it behind all others if it fits. */
  lemma AppendWrites(log: seq<Entry>, op: Op, crc: bytes -> nat)
    requires op.Append?
    ensures var n := if log == [] then 0 else log[|log| - 1].sequence + 1; var e := Written(n, op, crc);
      LogStep(log, op, crc) == if Framable(e) then log + [e] else log
  {
    hide Framable;
  }

  /** A compaction keeps exactly the records that are not older than its cutoff, in order. */
  lemma SurvivorsAre(log: seq<Entry>, cutoff: int)
    requires Increasing(log)
    ensures Increasing(Survivors(log, cutoff))
    ensures forall e :: e in Survivors(log, cutoff) <==> e in log && e.timestamp >= cutoff
  {
    FilterMembers(log, Survives(cutoff));
    FilterIncreasing(log, Survives(cutoff));
  }

  /** A range holds exactly the records numbered from `lo` to `hi`, both included, in order. */
  lemma RangeIs(log: seq<Entry>, lo: int, hi: int)
    requires Increasing(log)
    ensures Increasing(RangeOf(log, lo, hi))
    ensures forall e :: e in RangeOf(log, lo, hi) <==> e in log && lo <= e.sequence <= hi
  {
    FilterMembers(log, InRange(lo, hi));
    FilterIncreasing(log, InRange(lo, hi));
  }

  lemma OneOf(log: seq<Entry>, e: Entry)
    requires Increasing(log) && e in log
    ensures RangeOf(log, e.sequence, e.sequence) == [e]
  {
    RangeStep(log, e.sequence, e.sequence);
    FilterNone(log, InRange(e.sequence, e.sequence - 1));
  }

  lemma FileRange(s: FileState, log: seq<Entry>, e: Entry)
    requires FileHolds(s, log) && e in log
    ensures ReadRange(FileFetch(s), s.ix.latest, e.sequence, Some(e.sequence)) == Some([e])
  {
    IndexedSequences(log);
    FileFetches(s, log);
    hide FileFetch, FileOf, IndexOf, Framable;
    CollectIsFilter(FileFetch(s), log, e.sequence, e.sequence);
    OneOf(log, e);
    BelowLast(log, e);
  }

  lemma KvRange(s: KvState, log: seq<Entry>, e: Entry)
    requires KvHolds(s, log) && e in log
    ensures ReadRange(KvFetch(s), s.latest, e.sequence, Some(e.sequence)) == Some([e])
  {
    KvFetches(s, log);
    hide KvFetch, Framable, IndexHolds, EventsHold;
    CollectIsFilter(KvFetch(s), log, e.sequence, e.sequence);
    OneOf(log, e);
    BelowLast(log, e);
  }

  lemma KvLookup(s: KvState, log: seq<Entry>, id: bytes)
    requires KvHolds(s, log)
    ensures KvReadById(s, id) == Lookup(log, id)
  {
    hide Framable, Parse, PackBody;
    assert IndexHolds(s.index, log, id);
    match LastWithId(log, id)
    case None =>
    case Some(i) =>
      ParsePacked(log[i]);
      assert EventHolds(s.events, log[i]);
  }

  lemma LastIsFound(log: seq<Entry>, e: Entry)
    ensures Lookup(log + [e], e.eventId) == Found(e)
  {
    LastWithIdSnoc(log, e, e.eventId);
  }

  // ---------------------------------------------------------------------------
  // An append is read back
  // ---------------------------------------------------------------------------

  /** The number that the next record gets. */
  function NextNumber(log: seq<Entry>): nat {
    LastSequence(log) + 1
  }

  /** A caller that appends an event which fits reads back, by its id and by its number, exactly what it
      gave: the next number, its id, kind, chain, time and data, with the checksum of that data. */
  lemma AppendIsFound(s: FileState, log: seq<Entry>, op: Op, crc: bytes -> nat)
    requires FileHolds(s, log) && op.Append? && Framable(Written(NextNumber(log), op, crc))
    ensures FileAnswers(FileStep(s, op, crc), Written(NextNumber(log), op, crc))
  {
    var e := Written(NextNumber(log), op, crc);
    hide FileFetch, FileOf, IndexOf, Framable, FileReadById, FileStep;
    FileStepHolds(s, log, op, crc);
    AppendWrites(log, op, crc);
    LastIsFound(log, e);
    FileLookup(FileStep(s, op, crc), log + [e], e.eventId);
    FileRange(FileStep(s, op, crc), log + [e], e);
  }

  lemma KvAppendIsFound(s: KvState, log: seq<Entry>, op: Op, crc: bytes -> nat)
    requires KvHolds(s, log) && op.Append?
    requires Framable(Written(NextNumber(log), op, crc)) && NextNumber(log) < I64
    ensures KvAnswers(KvStep(s, op, crc), Written(NextNumber(log), op, crc))
  {
    var e := Written(NextNumber(log), op, crc);
    assert Safe(log, op, crc);
    hide KvFetch, Framable, KvReadById, KvStep, KvHolds, Safe;
    KvStepHolds(s, log, op, crc);
    AppendWrites(log, op, crc);
    LastIsFound(log, e);
    KvLookup(KvStep(s, op, crc), log + [e], e.eventId);
    KvRange(KvStep(s, op, crc), log + [e], e);
  }

  /** The same for whatever log the backend holds. */
  lemma FileAppendAnswers(s: FileState, op: Op, crc: bytes -> nat)
    requires op.Append? && Framable(Written(s.ix.latest + 1, op, crc))
    ensures forall log :: FileHolds(s, log) ==>
      NextNumber(log) == s.ix.latest + 1 && FileAnswers(FileStep(s, op, crc), Written(NextNumber(log), op, crc))
  {
    hide Framable, FileStep, FileAnswers, Written;
    forall log | FileHolds(s, log)
      ensures NextNumber(log) == s.ix.latest + 1
      ensures FileAnswers(FileStep(s, op, crc), Written(NextNumber(log), op, crc))
    {
      IndexedSequences(log);
      AppendIsFound(s, log, op, crc);
    }
  }

  lemma KvAppendAnswers(s: KvState, op: Op, crc: bytes -> nat)
    requires op.Append? && Framable(Written(s.latest + 1, op, crc)) && s.latest + 1 < I64
    ensures forall log :: KvHolds(s, log) ==>
      NextNumber(log) == s.latest + 1 && KvAnswers(KvStep(s, op, crc), Written(NextNumber(log), op, crc))
  {
    hide Framable, KvStep, KvAnswers, Written, EventsHold, IndexHolds;
    forall log | KvHolds(s, log)
      ensures NextNumber(log) == s.latest + 1
      ensures KvAnswers(KvStep(s, op, crc), Written(NextNumber(log), op, crc))
    {
      KvAppendIsFound(s, log, op, crc);
    }
  }

  // ---------------------------------------------------------------------------
  // Over whole runs
  // ---------------------------------------------------------------------------

  /** No compaction after call number `k` has a cutoff past this time. */
  predicate Retained(ops: seq<Op>, k: nat, time: nat) {
    forall j :: k < j < |ops| && ops[j].Compact? ==> ops[j].cutoff <= time
  }

  /** The number that call number `k` of the run gives its record. */
  function NumberAt(ops: seq<Op>, k: nat, crc: bytes -> nat): nat
    requires k < |ops|
  {
    NextNumber(LogRun(ops[..k], crc))
  }

  /** The call is an append of an event that fits. */
  predicate Accepted(ops: seq<Op>, k: nat, crc: bytes -> nat) {
    k < |ops| && ops[k].Append? && Framable(Written(NumberAt(ops, k, crc), ops[k], crc))
  }

  lemma {:induction false} RetainedInLog(ops: seq<Op>, k: nat, crc: bytes -> nat)
    requires Accepted(ops, k, crc) && Retained(ops, k, ops[k].timestamp)
    ensures Written(NumberAt(ops, k, crc), ops[k], crc) in LogRun(ops, crc)
    decreases |ops|
  {
    hide Framable;
    var init, last := ops[..|ops| - 1], ops[|ops| - 1];
    assert init[..k] == ops[..k];
    if k == |ops| - 1 {
      AppendWrites(LogRun(init, crc), last, crc);
    } else {
      RetainedInLog(init, k, crc);
      match last
      case Append(_, _, _, _, _) =>
      case Compact(cutoff) =>
        FileRefines(init, crc);
        SurvivorsAre(LogRun(init, crc), cutoff);
    }
  }

  /** Durability: over every run, a record that was accepted is read back by its number, as it was given,
      after any later calls of which no compaction's cutoff is past its time. */
  lemma FileDurable(ops: seq<Op>, k: nat, crc: bytes -> nat)
    requires Accepted(ops, k, crc) && Retained(ops, k, ops[k].timestamp)
    ensures var n, f := NumberAt(ops, k, crc), FileRun(ops, crc);
      ReadRange(FileFetch(f), f.ix.latest, n, Some(n)) == Some([Written(n, ops[k], crc)])
  {
    RetainedInLog(ops, k, crc);
    FileRefines(ops, crc);
    hide FileFetch, FileHolds, FileRun, LogRun, ReadRange, Framable;
    FileRange(FileRun(ops, crc), LogRun(ops, crc), Written(NumberAt(ops, k, crc), ops[k], crc));
  }

  /** The same over the key-value backend, as long as every call is safe. */
  lemma KvDurable(ops: seq<Op>, k: nat, crc: bytes -> nat)
    requires SafeRun(ops, crc) && Accepted(ops, k, crc) && Retained(ops, k, ops[k].timestamp)
    ensures var n, s := NumberAt(ops, k, crc), KvRun(ops, crc);
      ReadRange(KvFetch(s), s.latest, n, Some(n)) == Some([Written(n, ops[k], crc)])
  {
    RetainedInLog(ops, k, crc);
    KvRefines(ops, crc);
    hide KvFetch, KvHolds, KvRun, LogRun, ReadRange, Framable;
    KvRange(KvRun(ops, crc), LogRun(ops, crc), Written(NumberAt(ops, k, crc), ops[k], crc));
  }

  /** The record is what call number `k` gave, and every compaction since has left it. */
  predicate Source(ops: seq<Op>, k: nat, e: Entry, crc: bytes -> nat) {
    Accepted(ops, k, crc) && Retained(ops, k, ops[k].timestamp) && e == Written(NumberAt(ops, k, crc), ops[k], crc)
  }

  /** A source stays one over another call, unless that drops it. */
  lemma SourceStays(ops: seq<Op>, k: nat, e: Entry, crc: bytes -> nat)
    requires ops != [] && Source(ops[..|ops| - 1], k, e, crc)
    requires var last := ops[|ops| - 1]; last.Compact? ==> last.cutoff <= e.timestamp
    ensures Source(ops, k, e, crc)
  {
    hide Framable, LogRun;
    assert ops[..|ops| - 1][..k] == ops[..k];
  }

  lemma NewInLog(log: seq<Entry>, e: Entry, op: Op, crc: bytes -> nat)
    requires e in LogStep(log, op, crc) && e !in log
    ensures op.Append? && e == Written(NextNumber(log), op, crc) && Framable(e)
  {
    hide Framable;
    if op.Append? {
      AppendWrites(log, op, crc);
    } else {
      FilterMembers(log, Survives(op.cutoff));
    }
  }

  lemma LastIsSource(ops: seq<Op>, e: Entry, crc: bytes -> nat)
    requires ops != [] && ops[|ops| - 1].Append? && Framable(e)
    requires e == Written(NextNumber(LogRun(ops[..|ops| - 1], crc)), ops[|ops| - 1], crc)
    ensures Source(ops, |ops| - 1, e, crc)
  {
    hide Framable, LogRun, Written, NextNumber;
  }

  lemma SourceOfLast(ops: seq<Op>, e: Entry, crc: bytes -> nat)
    requires ops != [] && e in LogRun(ops, crc) && e !in LogRun(ops[..|ops| - 1], crc)
    ensures Source(ops, |ops| - 1, e, crc)
  {
    assert LogRun(ops, crc) == LogStep(LogRun(ops[..|ops| - 1], crc), ops[|ops| - 1], crc) by {
      hide LogStep;
    }
    hide Framable, LogStep, LogRun, Written, NextNumber, Source;
    NewInLog(LogRun(ops[..|ops| - 1], crc), e, ops[|ops| - 1], crc);
    LastIsSource(ops, e, crc);
  }

  lemma KeptByLast(ops: seq<Op>, e: Entry, crc: bytes -> nat)
    requires ops != [] && e in LogRun(ops, crc)
    ensures var last := ops[|ops| - 1]; last.Compact? ==> last.cutoff <= e.timestamp
  {
    if ops[|ops| - 1].Compact? {
      FilterMembers(LogRun(ops[..|ops| - 1], crc), Survives(ops[|ops| - 1].cutoff));
    }
  }

  lemma {:induction false} LogIsAppended(ops: seq<Op>, e: Entry, crc: bytes -> nat) returns (k: nat)
    requires e in LogRun(ops, crc)
    ensures Source(ops, k, e, crc)
  {
    var init := ops[..|ops| - 1];
    assert ops != [];
    hide LogStep, Source;
    if e in LogRun(init, crc) {
      k := LogIsAppended(init, e, crc);
      KeptByLast(ops, e, crc);
      SourceStays(ops, k, e, crc);
    } else {
      k := |ops| - 1;
      SourceOfLast(ops, e, crc);
    }
  }

  /** Over every run the log holds exactly what its appends gave, less what a later compaction dropped for
      its time: nothing is lost, and nothing is made up. */
  lemma LogExactly(ops: seq<Op>, e: Entry, crc: bytes -> nat)
    ensures e in LogRun(ops, crc) <==> exists k: nat :: Source(ops, k, e, crc)
  {
    hide LogRun, Retained;
    if e in LogRun(ops, crc) {
      var k := LogIsAppended(ops, e, crc);
    }
    if k: nat :| Source(ops, k, e, crc) {
      RetainedInLog(ops, k, crc);
    }
  }
}
