/** Runs of the file backend that crash in the middle of appends and are opened again. */
module WalCrashes {
  import opened Wrappers
  import opened Bytes
  import opened WalCodec
  import opened WalLog
  import opened WalBackends
  import opened WalRuns
  import opened WalTails

  /** A call that returns, or a crash in the middle of one and a restart. A crashed append has written up to
      `cut` bytes: those of its frame, up to the last, for it fsyncs before it returns. A crashed compaction has
      either replaced the file or not, so it is a call or nothing. */
  datatype Event = Call(op: Op) | Crash(op: Op, cut: nat)

  /** The bytes that a crashed call has put at the end of the file. */
  function Written(latest: Latest, op: Op, cut: nat, crc: bytes -> nat): bytes {
    if op.Append? && Framable(NextEntry(latest, op, crc)) then
      var frame := Frame(NextEntry(latest, op, crc));
      if cut < |frame| then frame[..cut] else frame
    else []
  }

  /** The crash came after the last byte of the record, and before the call returned. */
  predicate Late(latest: Latest, op: Op, cut: nat, crc: bytes -> nat) {
    op.Append? && Framable(NextEntry(latest, op, crc)) && cut >= |Frame(NextEntry(latest, op, crc))|
  }

  /** Once opening raised there is no backend that could be called. */
  ghost function EventStep(s: Server, e: Event, crc: bytes -> nat): Server {
    if s.Down? then Down
    else
      match e
      case Call(op) => Up(FileStep(s.state, op, crc))
      case Crash(op, cut) => Opened(s.state.file + Written(s.state.ix.latest, op, cut, crc))
  }

  /** The records that count: those of the calls that returned, and the record of an append that crashed late,
      if the file ended with a complete record before it. */
  ghost function LogAfter(s: FileState, log: seq<Entry>, e: Event, crc: bytes -> nat): seq<Entry> {
    match e
    case Call(op) => LogStep(log, op, crc)
    case Crash(op, cut) =>
      if Late(LastSequence(log), op, cut, crc) && FileHolds(s, log) then LogStep(log, op, crc) else log
  }

  datatype Moment = Moment(server: Server, log: seq<Entry>)

  /** The first opening creates the file. A crash may leave only `created` bytes of the magic. */
  function Start(created: nat): Moment {
    Moment(Opened(if created < |FILE_MAGIC| then FILE_MAGIC[..created] else FILE_MAGIC), [])
  }

  ghost function EventRun(created: nat, events: seq<Event>, crc: bytes -> nat): Moment {
    if events == [] then Start(created)
    else
      var m, e := EventRun(created, events[..|events| - 1], crc), events[|events| - 1];
      Moment(EventStep(m.server, e, crc), if m.server.Up? then LogAfter(m.server.state, m.log, e, crc) else m.log)
  }

  /** The backend answers every query from this log, and would go on doing so if it were opened again: it
      would find the index that is in memory. */
  ghost predicate Sound(s: Server, log: seq<Entry>) {
    && s.Up? && Serves(s.state, log)
    && var r := Opened(s.state.file);
    r.Up? && r.state.ix == s.state.ix && Serves(r.state, log)
  }

  lemma HoldingSound(s: FileState, log: seq<Entry>)
    requires Holding(s, log)
    ensures Sound(Up(s), log)
  {
    HoldingServes(s, log);
    var tail := s.file[|FileOf(log)|..];
    assert s.file == FileOf(log) + tail;
    hide FileOf, IndexOf, Serves, Opened, AllFramable;
    TailDecides(log, tail);
  }

  // ---------------------------------------------------------------------------
  // Which steps are sound
  // ---------------------------------------------------------------------------

  /** The bytes behind the complete records. */
  function Tail(s: FileState, log: seq<Entry>): bytes
    requires Holding(s, log)
  {
    s.file[|FileOf(log)|..]
  }

  /** An append needs the file to end with a complete record, and so does one that crashes late to count.
      Otherwise a crash may leave any bytes that the next scan takes for no record. A compaction is always in
      order. */
  ghost predicate InOrder(s: FileState, log: seq<Entry>, e: Event, crc: bytes -> nat)
    requires Holding(s, log)
  {
    match e
    case Call(op) => op.Append? && Framable(NextEntry(LastSequence(log), op, crc)) ==> Tail(s, log) == []
    case Crash(op, cut) =>
      || (Late(LastSequence(log), op, cut, crc) && Tail(s, log) == [])
      || Harmless(Tail(s, log) + Written(LastSequence(log), op, cut, crc))
  }

  lemma HoldsIsHolding(s: FileState, log: seq<Entry>)
    requires FileHolds(s, log)
    ensures Holding(s, log) && Tail(s, log) == []
  {
  }

  lemma NoTail(s: FileState, log: seq<Entry>)
    requires Holding(s, log) && Tail(s, log) == []
    ensures FileHolds(s, log)
  {
    assert s.file[..|FileOf(log)|] == FileOf(log);
  }

  lemma AppendInOrder(s: FileState, log: seq<Entry>, op: Op, crc: bytes -> nat)
    requires Holding(s, log) && op.Append? && InOrder(s, log, Call(op), crc)
    ensures Holding(FileStep(s, op, crc), LogStep(log, op, crc))
  {
    IndexedSequences(log);
    hide FileOf, IndexOf, Framable;
    if Framable(NextEntry(LastSequence(log), op, crc)) {
      NoTail(s, log);
      FileStepHolds(s, log, op, crc);
      hide FileStep, LogStep;
      HoldsIsHolding(FileStep(s, op, crc), LogStep(log, op, crc));
    } else {
      UnframableIgnored(s, NextEntry(s.ix.latest, op, crc));
    }
  }

  lemma AppendOutOfOrder(s: FileState, log: seq<Entry>, op: Op, crc: bytes -> nat)
    requires Holding(s, log) && op.Append? && !InOrder(s, log, Call(op), crc)
    ensures !Sound(Up(FileStep(s, op, crc)), LogStep(log, op, crc))
  {
    IndexedSequences(log);
    var tail := Tail(s, log);
    assert s.file == FileOf(log) + tail;
    hide FileOf, IndexOf, Framable, Frame, Serves, Opened, Appended;
    AppendBehindTail(log, tail, NextEntry(LastSequence(log), op, crc));
  }

  lemma HoldingReadsAll(s: FileState, log: seq<Entry>)
    requires Holding(s, log)
    ensures ReadRange(FileFetch(s), s.ix.latest, 0, None) == Some(log)
  {
    hide FileFetch, FileOf, IndexOf, Framable, FileReadById;
    HoldingServes(s, log);
    WholeRange(log);
  }

  /** A compaction that drops something writes a clean file: it clears any tail. */
  lemma CompactionClears(s: FileState, log: seq<Entry>, cutoff: int, crc: bytes -> nat)
    requires Holding(s, log)
    ensures var s', kept := FileStep(s, Compact(cutoff), crc), Survivors(log, cutoff);
      if kept == log then s' == s else FileHolds(s', kept)
  {
    HoldingReadsAll(s, log);
    assert Good(log);
    hide FileFetch, FileOf, IndexOf, AllFramable, Increasing, ReadRange, FileRewrite, FileHolds, Holding, Survivors;
    NothingDropped(log, cutoff);
    RewriteSurvivors(s, log, cutoff);
    assert FileStep(s, Compact(cutoff), crc) ==
      if |Survivors(log, cutoff)| < |log| then FileRewrite(s, Survivors(log, cutoff)) else s;
  }

  lemma RewriteSurvivors(s: FileState, log: seq<Entry>, cutoff: int)
    requires Good(log)
    ensures FileHolds(FileRewrite(s, Survivors(log, cutoff)), Survivors(log, cutoff))
    ensures |Survivors(log, cutoff)| <= |log|
  {
    FilterIncreasing(log, Survives(cutoff));
    hide Framable, FileOf, IndexOf, FileRewrite;
    FileRewriteHolds(s, log, Survivors(log, cutoff));
  }

  lemma CallExactly(s: FileState, log: seq<Entry>, op: Op, crc: bytes -> nat)
    requires Holding(s, log)
    ensures InOrder(s, log, Call(op), crc) ==> Holding(FileStep(s, op, crc), LogStep(log, op, crc))
    ensures !InOrder(s, log, Call(op), crc) ==> !Sound(Up(FileStep(s, op, crc)), LogStep(log, op, crc))
  {
    hide FileFetch, FileOf, IndexOf, Framable, Sound;
    if op.Compact? {
      CompactionClears(s, log, op.cutoff, crc);
      hide FileStep;
      if Survivors(log, op.cutoff) != log {
        HoldsIsHolding(FileStep(s, op, crc), LogStep(log, op, crc));
      }
    } else if InOrder(s, log, Call(op), crc) {
      AppendInOrder(s, log, op, crc);
    } else {
      AppendOutOfOrder(s, log, op, crc);
    }
  }

  lemma OpenExactly(log: seq<Entry>, tail: bytes)
    requires Good(log)
    ensures var r := Opened(FileOf(log) + tail);
      if Harmless(tail) then r.Up? && Holding(r.state, log) else !Sound(r, log)
  {
    IndexedSequences(log);
    hide IndexOf, Opened, Harmless, Frames;
    if Harmless(tail) {
      OpenHarmless(log, tail);
    } else {
      OpenHarmful(log, tail);
    }
  }

  lemma Regroup(start: bytes, file: bytes, more: bytes)
    requires start <= file
    ensures file + more == start + (file[|start|..] + more)
  {
  }

  /** After a late crash opening finds the record: the call did all of its work but return. */
  lemma LateCrash(s: FileState, log: seq<Entry>, op: Op, cut: nat, crc: bytes -> nat)
    requires FileHolds(s, log) && Late(LastSequence(log), op, cut, crc)
    ensures EventStep(Up(s), Crash(op, cut), crc) == EventStep(Up(s), Call(op), crc)
    ensures FileHolds(FileStep(s, op, crc), LogStep(log, op, crc))
  {
    var log' := LogStep(log, op, crc);
    IndexedSequences(log);
    FileStepHolds(s, log, op, crc);
    OpenHolds(FileStep(s, op, crc), log');
    hide FileOf, IndexOf, Framable, Frame, Opened, FileHolds, LogStep;
  }

  lemma OpenHolds(s: FileState, log: seq<Entry>)
    requires FileHolds(s, log)
    ensures Opened(s.file) == Up(s)
  {
    RebuildClean(log);
    hide FileOf, IndexOf, Rebuild;
    assert s.file[..|s.file|] == s.file;
  }

  lemma CrashExactly(s: FileState, log: seq<Entry>, op: Op, cut: nat, crc: bytes -> nat)
    requires Holding(s, log)
    ensures var e := Crash(op, cut);
      var r, log' := EventStep(Up(s), e, crc), LogAfter(s, log, e, crc);
      if InOrder(s, log, e, crc) then r.Up? && Holding(r.state, log') else !Sound(r, log')
  {
    IndexedSequences(log);
    var part := Written(LastSequence(log), op, cut, crc);
    hide FileOf, IndexOf, Framable, Frame, Opened, Harmless, Sound, Written, FileStep, LogStep, Late;
    if Late(LastSequence(log), op, cut, crc) && Tail(s, log) == [] {
      NoTail(s, log);
      LateCrash(s, log, op, cut, crc);
      hide Holding, FileHolds;
      HoldsIsHolding(FileStep(s, op, crc), LogStep(log, op, crc));
    } else {
      if FileHolds(s, log) {
        HoldsIsHolding(s, log);
      }
      assert LogAfter(s, log, Crash(op, cut), crc) == log;
      Regroup(FileOf(log), s.file, part);
      OpenExactly(log, Tail(s, log) + part);
    }
  }

  /** One event leaves a sound backend exactly when it is in order. */
  lemma EventExactly(s: FileState, log: seq<Entry>, e: Event, crc: bytes -> nat)
    requires Holding(s, log)
    ensures var s', log' := EventStep(Up(s), e, crc), LogAfter(s, log, e, crc);
      && (Sound(s', log') <==> InOrder(s, log, e, crc))
      && (InOrder(s, log, e, crc) ==> s'.Up? && Holding(s'.state, log'))
  {
    var s', log' := EventStep(Up(s), e, crc), LogAfter(s, log, e, crc);
    hide FileStep, LogStep, Sound, Opened, Frame, Framable, Harmless, FileOf, IndexOf, Late, Written;
    match e {
      case Call(op) => CallExactly(s, log, op, crc);
      case Crash(op, cut) => CrashExactly(s, log, op, cut, crc);
    }
    if InOrder(s, log, e, crc) {
      hide Holding;
      HoldingSound(s'.state, log');
    }
  }

  // ---------------------------------------------------------------------------
  // Whole runs
  // ---------------------------------------------------------------------------

  ghost predicate SoundThroughout(created: nat, events: seq<Event>, crc: bytes -> nat) {
    var m := EventRun(created, events, crc);
    Sound(m.server, m.log) && (events != [] ==> SoundThroughout(created, events[..|events| - 1], crc))
  }

  ghost predicate InOrderNow(m: Moment, e: Event, crc: bytes -> nat) {
    m.server.Up? && Holding(m.server.state, m.log) && InOrder(m.server.state, m.log, e, crc)
  }

  /** The file was created whole, and every event was in order. */
  ghost predicate AllInOrder(created: nat, events: seq<Event>, crc: bytes -> nat) {
    if events == [] then created >= |FILE_MAGIC|
    else
      var init := events[..|events| - 1];
      AllInOrder(created, init, crc) && InOrderNow(EventRun(created, init, crc), events[|events| - 1], crc)
  }

  lemma Created(created: nat)
    ensures created >= |FILE_MAGIC| ==> Start(created) == Moment(Up(EMPTY_FILE), []) && FileHolds(EMPTY_FILE, [])
    ensures created < |FILE_MAGIC| ==> Start(created).server == Down
  {
    if created >= |FILE_MAGIC| {
      assert FILE_MAGIC == FileOf([]);
      RebuildClean([]);
      assert FILE_MAGIC[..|FILE_MAGIC|] == FILE_MAGIC;
    }
  }

  /** A file that was created with only a part of its magic is never opened again. */
  lemma {:induction false} TornMagic(created: nat, events: seq<Event>, crc: bytes -> nat)
    requires created < |FILE_MAGIC|
    ensures EventRun(created, events, crc).server == Down
  {
    if events == [] {
      Created(created);
    } else {
      TornMagic(created, events[..|events| - 1], crc);
    }
  }

  lemma {:induction false} InOrderHolds(created: nat, events: seq<Event>, crc: bytes -> nat)
    requires AllInOrder(created, events, crc)
    ensures var m := EventRun(created, events, crc); m.server.Up? && Holding(m.server.state, m.log)
  {
    hide FileHolds, Holding, EventStep, LogAfter, InOrder, Start;
    if events == [] {
      Created(created);
      HoldsIsHolding(EMPTY_FILE, []);
    } else {
      var m := EventRun(created, events[..|events| - 1], crc);
      InOrderHolds(created, events[..|events| - 1], crc);
      EventExactly(m.server.state, m.log, events[|events| - 1], crc);
    }
  }

  /** Over every run of calls, crashes at any byte, and restarts: at every moment the backend answers from
      exactly the records that count, and opening it again would find them, if and only if the file was created
      whole, every append finds it ending with a complete record, and no other crash leaves a tail that scans as
      a record. */
  lemma {:induction false} SoundExactly(created: nat, events: seq<Event>, crc: bytes -> nat)
    ensures SoundThroughout(created, events, crc) <==> AllInOrder(created, events, crc)
  {
    Created(created);
    hide FileHolds, Holding, EventStep, LogAfter, InOrder, Start, Serves;
    if events == [] {
      if created >= |FILE_MAGIC| {
        HoldsIsHolding(EMPTY_FILE, []);
        HoldingSound(EMPTY_FILE, []);
      }
    } else {
      var init := events[..|events| - 1];
      SoundExactly(created, init, crc);
      hide Sound;
      if AllInOrder(created, init, crc) {
        var m := EventRun(created, init, crc);
        InOrderHolds(created, init, crc);
        EventExactly(m.server.state, m.log, events[|events| - 1], crc);
      }
    }
  }

  // ---------------------------------------------------------------------------
  // Crashes that tear no length prefix
  // ---------------------------------------------------------------------------

  /** A crash between records, or behind the length prefix of one, its last byte included. */
  predicate Clean(e: Event) {
    e.Crash? ==> e.cut == 0 || e.cut >= 4
  }

  predicate AllClean(events: seq<Event>) {
    forall i :: 0 <= i < |events| ==> Clean(events[i])
  }

  lemma CleanCrash(s: FileState, log: seq<Entry>, op: Op, cut: nat, crc: bytes -> nat)
    requires FileHolds(s, log) && (cut == 0 || cut >= 4) && !Late(LastSequence(log), op, cut, crc)
    ensures Harmless(Written(LastSequence(log), op, cut, crc))
    ensures EventStep(Up(s), Crash(op, cut), crc) == Up(s)
  {
    var part := Written(LastSequence(log), op, cut, crc);
    IndexedSequences(log);
    if op.Append? && Framable(NextEntry(LastSequence(log), op, crc)) {
      PartIsHarmless(NextEntry(LastSequence(log), op, crc), cut);
    }
    assert |part| == 0 || |part| >= 4;
    hide FileOf, IndexOf, Framable, Frame, Opened, Harmless, Written;
    OpenHarmless(log, part);
    assert FileOf(log) + [] == FileOf(log);
    assert part == [] || |part| >= 4;
  }

  lemma CleanEvent(s: FileState, log: seq<Entry>, e: Event, crc: bytes -> nat)
    requires FileHolds(s, log) && Clean(e)
    ensures Holding(s, log) && InOrder(s, log, e, crc)
    ensures EventStep(Up(s), e, crc).Up? && FileHolds(EventStep(Up(s), e, crc).state, LogAfter(s, log, e, crc))
  {
    HoldsIsHolding(s, log);
    hide FileOf, IndexOf, Frame, Framable, FileStep, LogStep, Opened, Harmless, Late, Written, FileHolds, Holding;
    match e {
      case Call(op) => FileStepHolds(s, log, op, crc);
      case Crash(op, cut) =>
        if Late(LastSequence(log), op, cut, crc) {
          LateCrash(s, log, op, cut, crc);
        } else {
          CleanCrash(s, log, op, cut, crc);
          assert [] + Written(LastSequence(log), op, cut, crc) == Written(LastSequence(log), op, cut, crc);
        }
    }
  }

  /** Where no crash tears a length prefix, nothing is ever lost, and the file ends with its last record. */
  lemma {:induction false} CleanCrashesLoseNothing(created: nat, events: seq<Event>, crc: bytes -> nat)
    requires created >= |FILE_MAGIC| && AllClean(events)
    ensures AllInOrder(created, events, crc)
    ensures var m := EventRun(created, events, crc); m.server.Up? && FileHolds(m.server.state, m.log)
  {
    Created(created);
    hide FileHolds, Holding, EventStep, LogAfter, InOrder, Clean, Start;
    if events != [] {
      var m := EventRun(created, events[..|events| - 1], crc);
      CleanCrashesLoseNothing(created, events[..|events| - 1], crc);
      CleanEvent(m.server.state, m.log, events[|events| - 1], crc);
    }
  }

  // ---------------------------------------------------------------------------
  // A run that ends without a log
  // ---------------------------------------------------------------------------

  /** The smallest record: no id, type, chain or data. */
  const TINY := Entry(0, [], [], [], 0, 0, [])

  const APPEND_TINY := Op.Append([], [], [], [], 0)

  lemma TinyFrames()
    ensures Framable(TINY) && |PackBody(TINY)| == 30
  {
  }

  lemma NothingWritten(latest: Latest, op: Op, crc: bytes -> nat)
    ensures Written(latest, op, 0, crc) == []
  {
  }

  /** The empty log with a torn length prefix behind it. */
  function TornEmpty(cut: nat): FileState
    requires Framable(TINY) && cut < |Frame(TINY)|
  {
    FileState(FileOf([]) + Frame(TINY)[..cut], IndexOf([]))
  }

  lemma TearEmpty(cut: nat, crc: bytes -> nat)
    requires 0 < cut < 4 && Framable(TINY) && crc([]) == 0
    ensures EventStep(Up(EMPTY_FILE), Crash(APPEND_TINY, cut), crc) == Up(TornEmpty(cut))
    ensures !Late(-1, APPEND_TINY, cut, crc)
  {
    assert NextEntry(-1, APPEND_TINY, crc) == TINY;
    hide FileOf, IndexOf, Opened, Frame, Framable, Harmless;
    PartIsHarmless(TINY, cut);
    OpenHarmless([], Frame(TINY)[..cut]);
  }

  lemma AppendThenOpen(cut: nat, crc: bytes -> nat)
    requires 0 < cut < 4 && Framable(TINY) && |PackBody(TINY)| < 256 && crc([]) == 0
    ensures var s := EventStep(Up(TornEmpty(cut)), Call(APPEND_TINY), crc);
      s.Up? && Opened(s.state.file) == Down
  {
    assert NextEntry(-1, APPEND_TINY, crc) == TINY;
    assert IndexOf([]).latest == -1;
    hide FileOf, IndexOf, Frame, Framable, Rebuild, PackBody;
    SmallRecordsRaise([], TINY, cut, TINY);
  }

  /** A crash inside the length prefix, a restart, an append that returns, and another restart: opening
      raises, and the log is gone for good. */
  lemma TornPrefixThenAppend(cut: nat, crc: bytes -> nat)
    requires 0 < cut < 4 && crc([]) == 0
    ensures var events := [Crash(APPEND_TINY, cut), Call(APPEND_TINY), Crash(APPEND_TINY, 0)];
      EventRun(8, events, crc) == Moment(Down, [TINY])
  {
    TinyFrames();
    assert NextEntry(-1, APPEND_TINY, crc) == TINY;
    Created(8);
    var a, b, d := Crash(APPEND_TINY, cut), Call(APPEND_TINY), Crash(APPEND_TINY, 0);
    hide PackBody, Framable, Opened, TornEmpty, FileStep, FileHolds, Late, Frame;
    assert [a, b, d][..2] == [a, b] && [a, b][..1] == [a] && [a][..0] == [];
    TearEmpty(cut, crc);
    assert EventRun(8, [a], crc) == Moment(Up(TornEmpty(cut)), []);
    AppendThenOpen(cut, crc);
    assert [] + [TINY] == [TINY];
    var m := EventRun(8, [a, b], crc);
    assert m.log == [TINY];
    NothingWritten(m.server.state.ix.latest, APPEND_TINY, crc);
    assert m.server.state.file + [] == m.server.state.file;
    NeverLate(APPEND_TINY, crc);
  }

  /** A crash after the last byte of the first append: nothing returned, and the log has its record. */
  lemma UnreturnedRecord(crc: bytes -> nat)
    requires crc([]) == 0
    ensures var m := EventRun(8, [Crash(APPEND_TINY, 34)], crc);
      m.server.Up? && m.log == [TINY] && FileHolds(m.server.state, m.log)
  {
    TinyFrames();
    assert NextEntry(-1, APPEND_TINY, crc) == TINY;
    Created(8);
    hide PackBody, Framable, Opened, FileStep, FileHolds, Frame;
    assert [Crash(APPEND_TINY, 34)][..0] == [];
    LateCrash(EMPTY_FILE, [], APPEND_TINY, 34, crc);
    assert [] + [TINY] == [TINY];
  }

  lemma NeverLate(op: Op, crc: bytes -> nat)
    ensures forall latest: Latest :: !Late(latest, op, 0, crc)
  {
  }
}
