/** The mutable write-ahead log: the two backends and the public log over either of them. */
module WalStore {
  import opened Wrappers
  import opened Bytes
  import opened Seqs
  import opened WalCodec
  import opened WalLog
  import opened WalBackends
  import opened WalRuns
  import opened WalAppends

  // ---------------------------------------------------------------------------
  // Ascending iteration over known sequence numbers
  // ---------------------------------------------------------------------------

  ghost predicate Ascending(keys: seq<nat>) {
    forall i, j :: 0 <= i < j < |keys| ==> keys[i] < keys[j]
  }

  method LeastOf(s: set<nat>) returns (m: nat)
    requires s != {}
    ensures m in s && forall x :: x in s ==> m <= x
  {
    m :| m in s;
    var rest := s - {m};
    while rest != {}
      invariant m in s && rest <= s
      invariant forall x :: x in s && x !in rest ==> m <= x
      decreases rest
    {
      var x :| x in rest;
      rest := rest - {x};
      if x < m { m := x; }
    }
  }

  method Sorted(s: set<nat>) returns (keys: seq<nat>)
    ensures Ascending(keys) && forall x :: x in keys <==> x in s
  {
    keys := [];
    var rest := s;
    while rest != {}
      invariant rest <= s && Ascending(keys)
      invariant forall x :: x in keys <==> x in s && x !in rest
      invariant forall k, x :: k in keys && x in rest ==> k < x
      decreases rest
    {
      var m := LeastOf(rest);
      rest := rest - {m};
      assert forall i :: 0 <= i < |keys| ==> keys[i] in keys;
      keys := keys + [m];
    }
  }

  /** Stretches without known sequence numbers add nothing. */
  lemma {:induction false} CollectGap(fetch: map<int, ReadResult>, lo: int, a: int, b: int)
    requires lo - 1 <= a <= b
    requires forall k :: a < k <= b ==> k !in fetch
    ensures Collect(fetch, lo, b) == Collect(fetch, lo, a)
    decreases b - a
  {
    if a < b {
      assert b !in fetch;
      CollectGap(fetch, lo, a, b - 1);
    }
  }

  /** A loop over ascending keys has, before key number `i`, collected everything up to `done`. */
  ghost predicate Progress(fetch: map<int, ReadResult>, keys: seq<nat>, i: nat, lo: int, hi: int, done: int,
                           acc: seq<Entry>)
  {
    && Ascending(keys) && i <= |keys|
    && (forall k :: k in fetch <==> k >= 0 && k in keys)
    && lo - 1 <= done && (done <= hi || done == lo - 1)
    && (forall j :: 0 <= j < i ==> keys[j] <= done)
    && (forall j :: i <= j < |keys| ==> keys[j] > done || keys[j] < lo)
    && Collect(fetch, lo, done) == Some(acc)
  }

  lemma ProgressStep(fetch: map<int, ReadResult>, keys: seq<nat>, i: nat, lo: int, hi: int, done: int, acc: seq<Entry>)
    requires Progress(fetch, keys, i, lo, hi, done, acc) && i < |keys|
    requires lo <= keys[i] <= hi
    ensures keys[i] in fetch
    ensures fetch[keys[i]].Absent? ==> Progress(fetch, keys, i + 1, lo, hi, keys[i], acc)
    ensures fetch[keys[i]].Found? ==> Progress(fetch, keys, i + 1, lo, hi, keys[i], acc + [fetch[keys[i]].entry])
    ensures fetch[keys[i]].Malformed? ==> Collect(fetch, lo, hi) == None
  {
    var k: int := keys[i];
    assert keys[i] in keys;
    forall x | x in fetch
      ensures x <= done || x >= k
    {
      var j :| 0 <= j < |keys| && keys[j] == x;
    }
    CollectGap(fetch, lo, done, k - 1);
    if fetch[k].Malformed? {
      CollectRaises(fetch, lo, k, hi);
    }
  }

  lemma {:induction false} CollectRaises(fetch: map<int, ReadResult>, lo: int, k: int, hi: int)
    requires lo <= k <= hi && k in fetch && fetch[k].Malformed?
    ensures Collect(fetch, lo, hi) == None
    decreases hi - k
  {
    if k < hi {
      CollectRaises(fetch, lo, k, hi - 1);
    }
  }

  lemma ProgressSkip(fetch: map<int, ReadResult>, keys: seq<nat>, i: nat, lo: int, hi: int, done: int, acc: seq<Entry>)
    requires Progress(fetch, keys, i, lo, hi, done, acc) && i < |keys| && keys[i] < lo
    ensures Progress(fetch, keys, i + 1, lo, hi, done, acc)
  {
  }

  /** Past the last key of the range, everything of the range is collected. */
  lemma ProgressDone(fetch: map<int, ReadResult>, keys: seq<nat>, i: nat, lo: int, hi: int, done: int, acc: seq<Entry>)
    requires Progress(fetch, keys, i, lo, hi, done, acc)
    requires i == |keys| || keys[i] > hi
    ensures Collect(fetch, lo, hi) == Some(acc) || (i < |keys| && keys[i] < lo)
  {
    if done <= hi && (i < |keys| ==> keys[i] >= lo) {
      forall x | x in fetch
        ensures x <= done || x > hi
      {
        var j :| 0 <= j < |keys| && keys[j] == x;
      }
      CollectGap(fetch, lo, done, hi);
    }
  }

  // ---------------------------------------------------------------------------
  // File backend
  // ---------------------------------------------------------------------------

  datatype OpenResult = BadMagic | Unreadable | Opened(backend: FileBackend)

  class FileBackend {
    var disk: bytes
    var idToOffset: map<bytes, nat>
    var seqToOffset: map<nat, nat>
    var latestSeq: Latest
    var totalEvents: nat

    function Ix(): Index
      reads this
    {
      Index(idToOffset, seqToOffset, latestSeq, totalEvents)
    }

    function State(): FileState
      reads this
    {
      FileState(disk, Ix())
    }

    constructor (contents: bytes)
      ensures State() == FileState(contents, EMPTY_INDEX)
    {
      disk := contents;
      idToOffset, seqToOffset, latestSeq, totalEvents := map[], map[], -1, 0;
    }

    /** Opening: a missing file is created with the magic; an existing one is checked and scanned. */
    static method Open(existing: Option<bytes>) returns (r: OpenResult)
      ensures existing.None? ==> r.Opened? && fresh(r.backend) && r.backend.State() == EMPTY_FILE
      ensures existing.Some? && !(FILE_MAGIC <= existing.value) ==> r.BadMagic?
      ensures existing.Some? && FILE_MAGIC <= existing.value ==>
        match Rebuild(existing.value)
        case Raised => r.Unreadable?
        case Recovered(ix, keep) =>
          r.Opened? && fresh(r.backend) && r.backend.State() == FileState(existing.value[..keep], ix)
    {
      var contents := if existing.None? then FILE_MAGIC else existing.value;
      if !(FILE_MAGIC <= contents) {
        return BadMagic;
      }
      var b := new FileBackend(contents);
      var ok := b.RebuildIndex();
      if existing.None? {
        assert contents == FileOf([]);
        RebuildClean([]);
        assert contents[..|contents|] == contents;
      }
      r := if ok then Opened(b) else Unreadable;
    }

    /** The scan loop: it indexes record after record, truncates a torn tail, and raises on a record
        it cannot parse. */
    method RebuildIndex() returns (ok: bool)
      modifies this
      ensures match Rebuild(old(disk))
        case Raised => !ok && disk == old(disk)
        case Recovered(ix, keep) => ok && State() == FileState(old(disk)[..keep], ix)
    {
      hide PeekBody, FromBigEndian;
      idToOffset, seqToOffset, latestSeq, totalEvents := map[], map[], -1, 0;
      if !(FILE_MAGIC <= disk) {
        assert disk[..|disk|] == disk;
        return true;
      }
      var offset := |FILE_MAGIC|;
      while true
        invariant offset <= |disk| && disk == old(disk)
        invariant ScanFrom(disk, offset, Ix()) == Rebuild(disk)
        decreases |disk| - offset
      {
        if offset + 4 > |disk| {
          assert disk[..|disk|] == disk;
          return true;
        }
        var next := offset + 4 + FromBigEndian(disk[offset..offset + 4]);
        if next > |disk| {
          disk := disk[..offset];
          return true;
        }
        var peeked := PeekBody(disk[offset + 4..next]);
        if peeked.None? {
          return false;
        }
        var (seqNo, id) := peeked.value;
        idToOffset := idToOffset[id := offset];
        seqToOffset := seqToOffset[seqNo := offset];
        if seqNo > latestSeq {
          latestSeq := seqNo;
        }
        totalEvents := totalEvents + 1;
        offset := next;
      }
    }

    method Append(e: Entry) returns (ok: bool)
      modifies this
      ensures ok <==> Framable(e)
      ensures State() == FileAppend(old(State()), e)
    {
      if !Packable(e) {
        return false;
      }
      var body := PackBody(e);
      if |body| >= U32 {
        return false;
      }
      var offset := |disk|;
      disk := disk + (BigEndian(|body|, 4) + body);
      idToOffset := idToOffset[e.eventId := offset];
      seqToOffset := seqToOffset[e.sequence := offset];
      latestSeq := e.sequence;
      totalEvents := totalEvents + 1;
      return true;
    }

    method ReadRange(lo: int, end: Option<int>) returns (r: Option<seq<Entry>>)
      ensures r == WalBackends.ReadRange(FileFetch(State()), latestSeq, lo, end)
    {
      if latestSeq < 0 {
        return Some([]);
      }
      var hi: int := if end.Some? then end.value else latestSeq;
      var results: seq<Entry> := [];
      var keys := Sorted(seqToOffset.Keys);
      ghost var fetch := FileFetch(State());
      ghost var done := lo - 1;
      var i := 0;
      while i < |keys|
        invariant i <= |keys|
        invariant Progress(fetch, keys, i, lo, hi, done, results)
      {
        var seqNo := keys[i];
        if seqNo < lo {
          ProgressSkip(fetch, keys, i, lo, hi, done, results);
          i := i + 1;
          continue;
        }
        if seqNo > hi {
          break;
        }
        ProgressStep(fetch, keys, i, lo, hi, done, results);
        match ReadAt(disk, seqToOffset[seqNo]) {
          case Absent =>
          case Malformed => return None;
          case Found(e) => results := results + [e];
        }
        done := seqNo;
        i := i + 1;
      }
      ProgressDone(fetch, keys, i, lo, hi, done, results);
      return Some(results);
    }

    method ReadById(id: bytes) returns (r: ReadResult)
      ensures r == FileReadById(State(), id)
    {
      if id !in idToOffset {
        return Absent;
      }
      r := ReadAt(disk, idToOffset[id]);
    }

    /** Compaction: write the given records to a new file, put it in place of the old one, rescan. */
    method Rewrite(entries: seq<Entry>) returns (ok: bool)
      modifies this
      ensures ok <==> AllFramable(entries)
      ensures State() == FileRewrite(old(State()), entries)
    {
      hide PackBody, BigEndian, ScanFrom, Rebuild;
      var tmp := FILE_MAGIC + [];
      var i := 0;
      assert tmp == FileOf(entries[..0]) by { EmptyFile(); }
      while i < |entries|
        invariant i <= |entries|
        invariant AllFramable(entries[..i]) && tmp == FileOf(entries[..i])
        invariant State() == old(State())
      {
        var e := entries[i];
        if !Packable(e) || |PackBody(e)| >= U32 {
          assert e in entries && !AllFramable(entries);
          return false;
        }
        FramesSnoc(entries[..i], e);
        assert entries[..i + 1] == entries[..i] + [e];
        tmp := tmp + (BigEndian(|PackBody(e)|, 4) + PackBody(e));
        i := i + 1;
      }
      assert entries[..i] == entries;
      disk := tmp;
      RebuildClean(entries);
      ok := RebuildIndex();
      assert tmp[..|tmp|] == tmp;
    }
  }

  lemma EmptyFile()
    ensures FileOf([]) == FILE_MAGIC
  {
  }

  // ---------------------------------------------------------------------------
  // Key-value backend
  // ---------------------------------------------------------------------------

  class KvBackend {
    var events: map<nat, bytes>
    var index: map<bytes, nat>
    var knownSeqs: set<nat>
    var latestSeq: Latest
    var totalEvents: nat

    function State(): KvState
      reads this
    {
      KvState(events, index, knownSeqs, latestSeq, totalEvents)
    }

    constructor ()
      ensures State() == EMPTY_KV
    {
      events, index, knownSeqs, latestSeq, totalEvents := map[], map[], {}, -1, 0;
    }

    method Append(e: Entry) returns (ok: bool)
      modifies this
      ensures ok <==> Packable(e) && e.sequence < I64
      ensures State() == KvAppend(old(State()), e)
    {
      if !Packable(e) {
        return false;
      }
      events := events[e.sequence := PackBody(e)];
      index := index[e.eventId := e.sequence];
      if e.sequence >= I64 {
        return false;
      }
      totalEvents := totalEvents + 1;
      latestSeq := e.sequence;
      knownSeqs := knownSeqs + {e.sequence};
      return true;
    }

    method ReadRange(lo: int, end: Option<int>) returns (r: Option<seq<Entry>>)
      ensures r == WalBackends.ReadRange(KvFetch(State()), latestSeq, lo, end)
    {
      if latestSeq < 0 {
        return Some([]);
      }
      var hi: int := if end.Some? then end.value else latestSeq;
      var results: seq<Entry> := [];
      var keys := Sorted(knownSeqs);
      ghost var fetch := KvFetch(State());
      ghost var done := lo - 1;
      var i := 0;
      while i < |keys|
        invariant i <= |keys|
        invariant Progress(fetch, keys, i, lo, hi, done, results)
      {
        var seqNo := keys[i];
        if seqNo < lo {
          ProgressSkip(fetch, keys, i, lo, hi, done, results);
          i := i + 1;
          continue;
        }
        if seqNo > hi {
          break;
        }
        ProgressStep(fetch, keys, i, lo, hi, done, results);
        if seqNo in events {
          var parsed := UnpackBody(events[seqNo]);
          if parsed.None? {
            return None;
          }
          results := results + [parsed.value];
        }
        done := seqNo;
        i := i + 1;
      }
      ProgressDone(fetch, keys, i, lo, hi, done, results);
      return Some(results);
    }

    method ReadById(id: bytes) returns (r: ReadResult)
      ensures r == KvReadById(State(), id)
    {
      if id !in index || index[id] !in events {
        return Absent;
      }
      r := Parse(events[index[id]]);
    }

    /** Compaction: delete each dropped event together with the index entry of its id. It raises on a
        dropped event that does not parse, and leaves what it had deleted until then. */
    method Rewrite(entries: seq<Entry>) returns (ok: bool)
      modifies this
      ensures ok <==> AllParse(old(events), old(knownSeqs) - SequencesOf(entries))
      ensures ok ==> State() == KvRewrite(old(State()), entries)
      ensures !ok ==> HalfDeleted(old(State()), State(), old(knownSeqs) - SequencesOf(entries))
    {
      hide UnpackBody, IdsOf;
      var surviving := SequencesOf(entries);
      var toDelete := knownSeqs - surviving;
      ghost var gone := toDelete;
      NoIds(events);
      assert gone - toDelete == {};
      while toDelete != {}
        invariant toDelete <= gone == knownSeqs - surviving
        invariant knownSeqs == old(knownSeqs) && latestSeq == old(latestSeq) && totalEvents == old(totalEvents)
        invariant events == old(events) - (gone - toDelete)
        invariant AllParse(old(events), gone - toDelete)
        invariant index == old(index) - IdsOf(old(events), gone - toDelete)
        decreases toDelete
      {
        var seqNo :| seqNo in toDelete;
        ghost var before := gone - toDelete;
        if seqNo in events {
          var parsed := UnpackBody(events[seqNo]);
          if parsed.None? {
            assert seqNo in gone && seqNo in old(events) && old(events)[seqNo] == events[seqNo];
            assert Without(old(State()), State(), gone - toDelete);
            return false;
          }
          index := index - {parsed.value.eventId};
        }
        events := events - {seqNo};
        toDelete := toDelete - {seqNo};
        assert gone - toDelete == before + {seqNo};
        IdsOfOneMore(old(events), before, seqNo);
        WithoutOneMore(old(events), before, seqNo);
      }
      assert gone - toDelete == gone;
      knownSeqs := surviving;
      totalEvents := |surviving|;
      return true;
    }
  }

  /** Every stored event among `keys` parses. */
  ghost predicate AllParse(events: map<nat, bytes>, keys: set<nat>) {
    forall q :: q in keys && q in events ==> UnpackBody(events[q]).Some?
  }

  /** `after` lacks the events under `deleted` and the index entries of their ids. */
  ghost predicate Without(before: KvState, after: KvState, deleted: set<nat>) {
    after == before.(events := before.events - deleted, index := before.index - IdsOf(before.events, deleted))
  }

  /** Some of the events under `gone`, all of which parse, are deleted, and nothing else is changed. */
  ghost predicate HalfDeleted(before: KvState, after: KvState, gone: set<nat>) {
    exists deleted :: deleted <= gone && AllParse(before.events, deleted) && Without(before, after, deleted)
  }

  /** What a compaction that raised may leave: nothing done if it could not read, or half of the deletions. */
  ghost predicate Interrupted(before: KvState, after: KvState, cutoff: int) {
    match WalBackends.ReadRange(KvFetch(before), before.latest, 0, None)
    case None => after == before
    case Some(entries) => HalfDeleted(before, after, before.known - SequencesOf(Survivors(entries, cutoff)))
  }

  lemma WithoutOneMore<V>(m: map<nat, V>, keys: set<nat>, q: nat)
    ensures m - keys - {q} == m - (keys + {q})
  {
  }

  lemma NoIds(events: map<nat, bytes>)
    ensures IdsOf(events, {}) == {}
  {
  }

  lemma IdsOfOneMore(events: map<nat, bytes>, keys: set<nat>, q: nat)
    ensures IdsOf(events, keys + {q})
         == IdsOf(events, keys) +
            (if q in events && Parse(events[q]).Found? then {Parse(events[q]).entry.eventId} else {})
  {
  }

  // ---------------------------------------------------------------------------
  // The public log
  // ---------------------------------------------------------------------------

  /** A read either fails, stops at the first record whose checksum does not match its data, or
      returns the payloads. */
  datatype ReadOutcome = Failed | ChecksumMismatch(sequence: nat) | Payloads(items: seq<(nat, bytes)>)

  /** The sequence number and data of each record. */
  function PayloadsOf(entries: seq<Entry>): (r: seq<(nat, bytes)>)
    ensures |r| == |entries|
  {
    seq(|entries|, i requires 0 <= i < |entries| => (entries[i].sequence, entries[i].data))
  }

  ghost predicate Checked(entries: seq<Entry>, crc: bytes -> nat) {
    forall e :: e in entries ==> e.crc32 == crc(e.data)
  }

  /** The first record whose checksum is wrong has sequence number `q`. */
  ghost predicate FirstMismatch(entries: seq<Entry>, crc: bytes -> nat, q: nat) {
    exists i :: 0 <= i < |entries| && entries[i].sequence == q
      && Checked(entries[..i], crc) && entries[i].crc32 != crc(entries[i].data)
  }

  /** What a read says of the entries it found. */
  ghost predicate Reports(entries: Option<seq<Entry>>, r: ReadOutcome, crc: bytes -> nat) {
    match r
    case Failed => entries == None
    case Payloads(items) => entries.Some? && Checked(entries.value, crc) && items == PayloadsOf(entries.value)
    case ChecksumMismatch(q) => entries.Some? && FirstMismatch(entries.value, crc, q)
  }

  datatype Backend = OnFile(file: FileBackend) | OnKv(kv: KvBackend)

  class RawWal {
    const backend: Backend
    const crc: bytes -> nat

    constructor (backend: Backend, crc: bytes -> nat)
      ensures this.backend == backend && this.crc == crc
    {
      this.backend, this.crc := backend, crc;
    }

    function Store(): object {
      match backend
      case OnFile(f) => f
      case OnKv(k) => k
    }

    /** The write failed: None; otherwise the sequence number given to the event. A caller that is given a
        number finds its event under its id, and reads back what it gave under that number. */
    method Append(data: bytes, id: bytes, kind: bytes, chain: bytes, timestamp: nat) returns (r: Option<nat>)
      modifies Store()
      ensures var op := WalRuns.Append(data, id, kind, chain, timestamp);
        match backend
        case OnFile(f) =>
          && f.State() == FileStep(old(f.State()), op, crc)
          && r == (if Framable(Written(old(f.latestSeq) + 1, op, crc)) then Some(old(f.latestSeq) + 1) else None)
        case OnKv(k) =>
          && k.State() == KvStep(old(k.State()), op, crc)
          && r == (if Packable(Written(old(k.latestSeq) + 1, op, crc)) && old(k.latestSeq) + 1 < I64
                   then Some(old(k.latestSeq) + 1) else None)
      ensures var op := WalRuns.Append(data, id, kind, chain, timestamp);
        match backend
        case OnFile(f) => forall log :: old(FileHolds(f.State(), log)) && r.Some? ==>
          r.value == NextNumber(log) && FileAnswers(f.State(), Written(r.value, op, crc))
        case OnKv(k) => forall log :: old(KvHolds(k.State(), log)) && r.Some? && Framable(Written(r.value, op, crc)) ==>
          r.value == NextNumber(log) && KvAnswers(k.State(), Written(r.value, op, crc))
    {
      ghost var op := WalRuns.Append(data, id, kind, chain, timestamp);
      hide FileAnswers, KvAnswers, FileHolds, KvHolds;
      match backend
      case OnFile(f) =>
        ghost var s := f.State();
        var seqNo := f.latestSeq + 1;
        var ok := f.Append(Entry(seqNo, id, kind, chain, timestamp, crc(data), data));
        r := if ok then Some(seqNo) else None;
        if ok {
          FileAppendAnswers(s, op, crc);
        }
      case OnKv(k) =>
        ghost var s := k.State();
        var seqNo := k.latestSeq + 1;
        var ok := k.Append(Entry(seqNo, id, kind, chain, timestamp, crc(data), data));
        r := if ok then Some(seqNo) else None;
        if ok && Framable(Written(seqNo, op, crc)) {
          KvAppendAnswers(s, op, crc);
        }
    }

    /** The number of records removed, or None when something raised on the way. */
    method Compact(cutoff: int) returns (removed: Option<int>)
      modifies Store()
      ensures match backend
        case OnFile(f) => f.State() == FileStep(old(f.State()), WalRuns.Compact(cutoff), crc)
        case OnKv(k) =>
          if removed.Some? then k.State() == KvStep(old(k.State()), WalRuns.Compact(cutoff), crc)
          else Interrupted(old(k.State()), k.State(), cutoff)
      ensures match backend
        case OnFile(f) => forall log :: old(FileHolds(f.State(), log)) ==>
          removed == Some(|log| - |Survivors(log, cutoff)|)
        case OnKv(k) => forall log :: old(KvHolds(k.State(), log)) ==>
          removed == Some(|log| - |Survivors(log, cutoff)|)
    {
      match backend
      case OnFile(f) =>
        ghost var s := f.State();
        var entries := f.ReadRange(0, None);
        FileCompactRemoves(s, cutoff);
        if entries.None? {
          return None;
        }
        var kept := Survivors(entries.value, cutoff);
        if |kept| < |entries.value| {
          var ok := f.Rewrite(kept);
          if !ok {
            return None;
          }
        }
        removed := Some(|entries.value| - |kept|);
      case OnKv(k) =>
        ghost var s := k.State();
        var entries := k.ReadRange(0, None);
        KvCompactRemoves(s, cutoff);
        if entries.None? {
          return None;
        }
        var kept := Survivors(entries.value, cutoff);
        if |kept| < |entries.value| {
          var ok := k.Rewrite(kept);
          if !ok {
            return None;
          }
        }
        removed := Some(|entries.value| - |kept|);
    }

    /** Reading a range checks the checksum of every record before it returns any. */
    method Read(lo: int, end: Option<int>) returns (r: ReadOutcome)
      ensures var entries := match backend
          case OnFile(f) => WalBackends.ReadRange(FileFetch(f.State()), f.latestSeq, lo, end)
          case OnKv(k) => WalBackends.ReadRange(KvFetch(k.State()), k.latestSeq, lo, end);
        Reports(entries, r, crc)
    {
      var entries;
      match backend {
        case OnFile(f) => entries := f.ReadRange(lo, end);
        case OnKv(k) => entries := k.ReadRange(lo, end);
      }
      if entries.None? {
        return Failed;
      }
      var all := entries.value;
      var items: seq<(nat, bytes)> := [];
      for i := 0 to |all|
        invariant Checked(all[..i], crc)
        invariant items == PayloadsOf(all[..i])
      {
        if all[i].crc32 != crc(all[i].data) {
          return ChecksumMismatch(all[i].sequence);
        }
        assert all[..i + 1] == all[..i] + [all[i]];
        items := items + [(all[i].sequence, all[i].data)];
      }
      assert all[..|all|] == all;
      return Payloads(items);
    }
  }

  /** Over a log the file backend represents, compaction reads the whole log and keeps what survives. */
  lemma FileCompactRemoves(s: FileState, cutoff: int)
    ensures forall log: seq<Entry> :: FileHolds(s, log) ==>
      && WalBackends.ReadRange(FileFetch(s), s.ix.latest, 0, None) == Some(log)
      && AllFramable(Survivors(log, cutoff))
  {
    forall log: seq<Entry> | FileHolds(s, log)
      ensures WalBackends.ReadRange(FileFetch(s), s.ix.latest, 0, None) == Some(log)
      ensures AllFramable(Survivors(log, cutoff))
    {
      FileReadsAll(s, log);
      FilterMembers(log, Survives(cutoff));
    }
  }

  lemma KvCompactRemoves(s: KvState, cutoff: int)
    ensures forall log: seq<Entry> :: KvHolds(s, log) ==>
      && WalBackends.ReadRange(KvFetch(s), s.latest, 0, None) == Some(log)
      && AllParse(s.events, s.known - SequencesOf(Survivors(log, cutoff)))
  {
    forall log: seq<Entry> | KvHolds(s, log)
      ensures WalBackends.ReadRange(KvFetch(s), s.latest, 0, None) == Some(log)
      ensures AllParse(s.events, s.known - SequencesOf(Survivors(log, cutoff)))
    {
      KvReadsAll(s, log);
      forall q: nat | q in s.known && q in s.events
        ensures UnpackBody(s.events[q]).Some?
      {
        var e: Entry :| e in log && e.sequence == q;
        assert EventHolds(s.events, e);
        PackUnpack(e);
      }
    }
  }

  /** Every record ever appended carries the checksum of its data. */
  lemma {:induction false} RunIsChecked(ops: seq<Op>, crc: bytes -> nat)
    ensures Checked(LogRun(ops, crc), crc)
  {
    if ops == [] {
    } else {
      RunIsChecked(ops[..|ops| - 1], crc);
      var log, op := LogRun(ops[..|ops| - 1], crc), ops[|ops| - 1];
      if op.Compact? {
        FilterMembers(log, Survives(op.cutoff));
      }
    }
  }

  lemma CheckedReport(entries: seq<Entry>, r: ReadOutcome, crc: bytes -> nat)
    requires Checked(entries, crc) && Reports(Some(entries), r, crc)
    ensures r == Payloads(PayloadsOf(entries))
  {
  }

  lemma FetchedRange(fetch: map<int, ReadResult>, log: seq<Entry>, lo: int, end: Option<int>)
    requires Increasing(log) && Fetches(fetch, log)
    ensures WalBackends.ReadRange(fetch, LastSequence(log), lo, end)
      == Some(RangeOf(log, lo, if end.Some? then end.value else LastSequence(log)))
  {
    CollectIsFilter(fetch, log, lo, if end.Some? then end.value else LastSequence(log));
    if LastSequence(log) < 0 {
      assert log == [];
    }
  }

  /** What a read of a range comes to after a run: the payloads of the range, and never a mismatch. */
  lemma ReadsReportPayloads(ops: seq<Op>, crc: bytes -> nat, lo: int, end: Option<int>, r: ReadOutcome)
    requires var f := FileRun(ops, crc); Reports(WalBackends.ReadRange(FileFetch(f), f.ix.latest, lo, end), r, crc)
    ensures var log := LogRun(ops, crc);
      r == Payloads(PayloadsOf(RangeOf(log, lo, if end.Some? then end.value else LastSequence(log))))
  {
    var f, log := FileRun(ops, crc), LogRun(ops, crc);
    FileRefines(ops, crc);
    RunIsChecked(ops, crc);
    IndexedSequences(log);
    FileFetches(f, log);
    hide FileFetch, IndexOf, FileOf, Reports, PayloadsOf;
    FetchedRange(FileFetch(f), log, lo, end);
    RangeIsChecked(log, crc, lo, end, r);
  }

  lemma RangeIsChecked(log: seq<Entry>, crc: bytes -> nat, lo: int, end: Option<int>, r: ReadOutcome)
    requires Checked(log, crc)
    requires var hi := if end.Some? then end.value else LastSequence(log); Reports(Some(RangeOf(log, lo, hi)), r, crc)
    ensures r == Payloads(PayloadsOf(RangeOf(log, lo, if end.Some? then end.value else LastSequence(log))))
  {
    var hi := if end.Some? then end.value else LastSequence(log);
    FilterMembers(log, InRange(lo, hi));
    CheckedReport(RangeOf(log, lo, hi), r, crc);
  }

  /** The same over the key-value backend, after a run of safe calls. */
  lemma KvReadsReportPayloads(ops: seq<Op>, crc: bytes -> nat, lo: int, end: Option<int>, r: ReadOutcome)
    requires SafeRun(ops, crc)
    requires var k := KvRun(ops, crc); Reports(WalBackends.ReadRange(KvFetch(k), k.latest, lo, end), r, crc)
    ensures var log := LogRun(ops, crc);
      r == Payloads(PayloadsOf(RangeOf(log, lo, if end.Some? then end.value else LastSequence(log))))
  {
    var k, log := KvRun(ops, crc), LogRun(ops, crc);
    KvRefines(ops, crc);
    RunIsChecked(ops, crc);
    KvFetches(k, log);
    hide KvFetch, Reports, PayloadsOf, EventsHold, IndexHolds;
    FetchedRange(KvFetch(k), log, lo, end);
    RangeIsChecked(log, crc, lo, end, r);
  }
}
