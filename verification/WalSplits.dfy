/** Runs that split the two log backends. */
module WalSplits {
  import opened Bytes
  import opened WalCodec
  import opened WalLog
  import opened WalBackends
  import opened WalRuns

  /** An append with nothing in it but a time. */
  function AppendAt(time: nat): Op {
    Op.Append([], [], [], [], time)
  }

  function EntryAt(sequence: nat, time: nat): Entry {
    Entry(sequence, [], [], [], time, 0, [])
  }

  lemma SmallFrames(sequence: nat, time: nat)
    requires sequence < U64 && time < U64
    ensures Framable(EntryAt(sequence, time))
  {
  }

  lemma AppendsStep(log: seq<Entry>, time: nat, crc: bytes -> nat)
    requires crc([]) == 0 && time < U64 && LastSequence(log) + 1 < I64
    ensures LogStep(log, AppendAt(time), crc) == log + [EntryAt(LastSequence(log) + 1, time)]
    ensures Safe(log, AppendAt(time), crc)
  {
    SmallFrames(LastSequence(log) + 1, time);
    hide Framable, Packable;
  }

  lemma RunOfMore(ops: seq<Op>, op: Op, crc: bytes -> nat)
    ensures LogRun(ops + [op], crc) == LogStep(LogRun(ops, crc), op, crc)
    ensures FileRun(ops + [op], crc) == FileStep(FileRun(ops, crc), op, crc)
    ensures KvRun(ops + [op], crc) == KvStep(KvRun(ops, crc), op, crc)
    ensures SafeRun(ops + [op], crc) <==> SafeRun(ops, crc) && Safe(LogRun(ops, crc), op, crc)
  {
    assert (ops + [op])[..|ops|] == ops;
    hide LogStep, FileStep, KvStep, Safe;
  }

  lemma CompactKeepsLatest(s: KvState, cutoff: int, crc: bytes -> nat)
    ensures KvStep(s, Compact(cutoff), crc).latest == s.latest
  {
    hide KvFetch, ReadRange;
  }

  lemma FileLatest(s: FileState, log: seq<Entry>)
    requires FileHolds(s, log)
    ensures s.ix.latest == LastSequence(log)
  {
    IndexedSequences(log);
  }

  /** The log after one append at time 0, and another at time 10. */
  lemma TwoAppends(crc: bytes -> nat)
    requires crc([]) == 0
    ensures LogRun([AppendAt(0)], crc) == [EntryAt(0, 0)] && SafeRun([AppendAt(0)], crc)
    ensures LogRun([AppendAt(0), AppendAt(10)], crc) == [EntryAt(0, 0), EntryAt(1, 10)]
    ensures SafeRun([AppendAt(0), AppendAt(10)], crc)
  {
    var one := [AppendAt(0)];
    assert [] + one == one && one + [AppendAt(10)] == [AppendAt(0), AppendAt(10)];
    hide LogStep, Safe;
    RunOfMore([], AppendAt(0), crc);
    AppendsStep([], 0, crc);
    RunOfMore(one, AppendAt(10), crc);
    AppendsStep([EntryAt(0, 0)], 10, crc);
    assert [] + [EntryAt(0, 0)] == [EntryAt(0, 0)];
    assert [EntryAt(0, 0)] + [EntryAt(1, 10)] == [EntryAt(0, 0), EntryAt(1, 10)];
  }

  lemma FirstIsDropped()
    ensures Survivors([EntryAt(0, 0)], 5) == []
    ensures Survivors([EntryAt(0, 0), EntryAt(1, 10)], 5) == [EntryAt(1, 10)]
  {
    var two := [EntryAt(0, 0), EntryAt(1, 10)];
    assert [EntryAt(0, 0)][..0] == [] && two[..1] == [EntryAt(0, 0)];
  }

  /** A compaction that drops an id of a kept record makes the kept one unfindable. */
  lemma CompactLosesId(s: KvState, log: seq<Entry>, cutoff: int, e: Entry, k: Entry, crc: bytes -> nat)
    requires KvHolds(s, log) && e in log && e !in Survivors(log, cutoff) && k in Survivors(log, cutoff)
    requires e.eventId == k.eventId
    ensures KvReadById(KvStep(s, Compact(cutoff), crc), k.eventId) == Absent
    ensures !Safe(log, Compact(cutoff), crc)
  {
    var kept := Survivors(log, cutoff);
    hide KvHolds, KvRewrite, KvFetch, KvReadById, ReadRange, Survivors;
    KvReadsAll(s, log);
    NothingDropped(log, cutoff);
    SurvivorsSelect(s, log, cutoff);
    ClashBreaks(s, log, kept, e, k);
  }

  lemma SurvivorsSelect(s: KvState, log: seq<Entry>, cutoff: int)
    requires KvHolds(s, log)
    ensures Selection(Survivors(log, cutoff), log) && |Survivors(log, cutoff)| <= |log|
  {
    FilterIncreasing(log, Survives(cutoff));
  }

  lemma LookupOne(e: Entry)
    ensures Lookup([e], e.eventId) == Found(e)
  {
  }

  lemma KvLatest(s: KvState, log: seq<Entry>)
    requires KvHolds(s, log)
    ensures s.latest == LastSequence(log)
  {
  }

  /** One old record, and a compaction that drops it: the file backend starts over with sequence number 0, the
      key-value backend goes on with 1. */
  lemma LostNewest(crc: bytes -> nat)
    requires crc([]) == 0
    ensures var ops := [AppendAt(0), Compact(5)];
      && FileRun(ops, crc).ix.latest == -1 && KvRun(ops, crc).latest == 0
      && !SafeRun(ops, crc) && !AgreeThroughout(ops, crc)
  {
    var one, ops := [AppendAt(0)], [AppendAt(0), Compact(5)];
    TwoAppends(crc);
    FirstIsDropped();
    RunOfMore(one, Compact(5), crc);
    assert one + [Compact(5)] == ops && LogStep([EntryAt(0, 0)], Compact(5), crc) == [];
    assert !Safe([EntryAt(0, 0)], Compact(5), crc);
    hide KvHolds, FileHolds, FileStep, KvStep, LogStep, Safe, AgreeThroughout;
    KvRefines(one, crc);
    KvLatest(KvRun(one, crc), [EntryAt(0, 0)]);
    CompactKeepsLatest(KvRun(one, crc), 5, crc);
    FileRefines(ops, crc);
    FileLatest(FileRun(ops, crc), []);
    BackendsAgree(ops, crc);
  }

  /** What each backend makes of two records of one id and a compaction that drops the older. */
  lemma AfterClash(crc: bytes -> nat)
    requires crc([]) == 0
    ensures var ops := [AppendAt(0), AppendAt(10), Compact(5)];
      && !SafeRun(ops, crc) && KvReadById(KvRun(ops, crc), []) == Absent && LogRun(ops, crc) == [EntryAt(1, 10)]
  {
    hide KvHolds, FileStep, KvStep, Safe, KvReadById;
    hide LogRun, SafeRun, FileRun, KvRun, Survivors;
    var two, log := [AppendAt(0), AppendAt(10)], [EntryAt(0, 0), EntryAt(1, 10)];
    TwoAppends(crc);
    FirstIsDropped();
    assert two + [Compact(5)] == [AppendAt(0), AppendAt(10), Compact(5)];
    RunOfMore(two, Compact(5), crc);
    KvRefines(two, crc);
    CompactLosesId(KvRun(two, crc), log, 5, log[0], log[1], crc);
  }

  /** Two records of one id, and a compaction that drops the older: only the file backend still finds the
      kept one by its id. */
  lemma LostId(crc: bytes -> nat)
    requires crc([]) == 0
    ensures var ops := [AppendAt(0), AppendAt(10), Compact(5)];
      && FileReadById(FileRun(ops, crc), []) == Found(EntryAt(1, 10)) && KvReadById(KvRun(ops, crc), []) == Absent
      && !SafeRun(ops, crc) && !AgreeThroughout(ops, crc)
  {
    hide FileHolds, AgreeThroughout, KvReadById, FileReadById, Lookup, LogRun, SafeRun, FileRun, KvRun;
    var ops := [AppendAt(0), AppendAt(10), Compact(5)];
    AfterClash(crc);
    FileRefines(ops, crc);
    FileLookup(FileRun(ops, crc), [EntryAt(1, 10)], []);
    LookupOne(EntryAt(1, 10));
    BackendsAgree(ops, crc);
  }
}
