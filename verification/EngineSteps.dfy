/** The execution engine (nexus/internal/execution/engine.go) under concurrent callers. Every call is a
    thread of atomic steps, split where the code takes or releases a lock or calls out; a run is any
    sequence of steps of any threads. */
module EngineSteps {
  import opened Names
  import opened OrderMachine
  import opened Position

  // ---------------------------------------------------------------------------
  // Calls in progress
  // ---------------------------------------------------------------------------

  /** Where an execution of an intent stands: what it does next. */
  datatype ExecPc = LookUp | CheckRisk | Insert | DoSubmit | Route | Send | DoReject | DoAck(orderId: Name) | ExecDone

  datatype FillPc = FindOrder | ReadRemaining | ApplyToOrder(event: Event) | ApplyToBook | FillDone

  datatype CancelPc = FindCancel | Request | RouteCancel | SendCancel | Confirm | CancelDone

  /** A fill as an exchange reports it. */
  datatype Report = Report(intentId: Name, fillId: Name, fill: Position.Fill)

  datatype Thread =
    | Executing(intent: Intent, pc: ExecPc, inserted: bool)
    | Filling(report: Report, fillPc: FillPc)
    | Cancelling(id: Name, cancelPc: CancelPc)

  datatype Call = Execute(intent: Intent) | HandleFill(report: Report) | Cancel(id: Name)

  function Started(c: Call): Thread {
    match c
    case Execute(intent) => Executing(intent, LookUp, false)
    case HandleFill(r) => Filling(r, FindOrder)
    case Cancel(id) => Cancelling(id, FindCancel)
  }

  /** What happens outside: the risk engine allowed it, and the exchange took the order. */
  datatype Note = Allowed(tid: nat, intent: Intent) | Sent(tid: nat, intent: Intent)

  datatype Sys = Sys(orders: map<Name, Order>, book: Book, threads: seq<Thread>, notes: seq<Note>)

  const START := Sys(map[], EMPTY_BOOK, [], [])

  // ---------------------------------------------------------------------------
  // Steps
  // ---------------------------------------------------------------------------

  datatype Answer = Failed | Accepted(orderId: Name) | Refused

  /** What the world answers during a step: the risk decision, whether an adapter is registered, and the
      exchange's answer. Any of them may come at any step. */
  datatype Choice = Choice(allowed: bool, registered: bool, answer: Answer)

  datatype Action = Begin(call: Call) | Go(tid: nat, choice: Choice)

  /** The fixed parts of an engine. */
  datatype Setup = Setup(dryRun: bool, div: Division)

  /** An event fired at an order; a refused one changes nothing. */
  function Fire(s: Sys, id: Name, e: Event, d: Data, div: Division): Sys {
    if id in s.orders then s.(orders := s.orders[id := After(s.orders[id], e, d, div)]) else s
  }

  predicate Accepts(s: Sys, id: Name, e: Event, d: Data, div: Division) {
    id in s.orders && Transition(s.orders[id], e, d, div).Some?
  }

  function SetThread(s: Sys, t: nat, th: Thread): Sys
    requires t < |s.threads|
  {
    s.(threads := s.threads[t := th])
  }

  function DryRunId(id: Name): Name {
    Name("DRYRUN-" + id.text)
  }

  function MoveExec(c: Setup, s: Sys, t: nat, x: Choice): Sys
    requires t < |s.threads| && s.threads[t].Executing?
  {
    var th := s.threads[t];
    var id := th.intent.intentId;
    match th.pc
    case LookUp => SetThread(s, t, th.(pc := if id in s.orders then ExecDone else CheckRisk))
    case CheckRisk =>
      if x.allowed then SetThread(s.(notes := s.notes + [Allowed(t, th.intent)]), t, th.(pc := Insert))
      else SetThread(s, t, th.(pc := ExecDone))
    case Insert =>
      if id in s.orders then SetThread(s, t, th.(pc := ExecDone))
      else SetThread(s.(orders := s.orders[id := NewOrder(th.intent)]), t, th.(pc := DoSubmit, inserted := true))
    case DoSubmit =>
      SetThread(Fire(s, id, Submit, NoData, c.div), t, th.(pc :=
        if !Accepts(s, id, Submit, NoData, c.div) then ExecDone
        else if c.dryRun then DoAck(DryRunId(id))
        else Route))
    case Route => SetThread(s, t, th.(pc := if x.registered then Send else DoReject))
    case Send =>
      SetThread(s.(notes := s.notes + [Sent(t, th.intent)]), t,
        th.(pc := if x.answer.Accepted? then DoAck(x.answer.orderId) else DoReject))
    case DoReject => SetThread(Fire(s, id, Reject, NoData, c.div), t, th.(pc := ExecDone))
    case DoAck(orderId) => SetThread(Fire(s, id, Ack, AckData(orderId), c.div), t, th.(pc := ExecDone))
    case ExecDone => s
  }

  function RecordOf(r: Report): FillRecord {
    FillRecord(r.fillId, r.fill.qty, r.fill.price, r.fill.fee)
  }

  /** The event a fill is turned into, from what was left to fill when it was read. */
  function FillEvent(o: Order, r: Report): Event {
    if r.fill.qty >= o.intent.qty - o.filledQty then OrderMachine.Fill else PartialFill
  }

  function MoveFill(c: Setup, s: Sys, t: nat): Sys
    requires t < |s.threads| && s.threads[t].Filling?
  {
    var th := s.threads[t];
    var id := th.report.intentId;
    match th.fillPc
    case FindOrder => SetThread(s, t, th.(fillPc := if id in s.orders then ReadRemaining else FillDone))
    case ReadRemaining =>
      if id in s.orders then SetThread(s, t, th.(fillPc := ApplyToOrder(FillEvent(s.orders[id], th.report)))) else s
    case ApplyToOrder(e) =>
      var d := FillData(RecordOf(th.report));
      SetThread(Fire(s, id, e, d, c.div), t,
        th.(fillPc := if Accepts(s, id, e, d, c.div) then ApplyToBook else FillDone))
    case ApplyToBook => SetThread(s.(book := BookFill(s.book, th.report.fill)), t, th.(fillPc := FillDone))
    case FillDone => s
  }

  function MoveCancel(c: Setup, s: Sys, t: nat, x: Choice): Sys
    requires t < |s.threads| && s.threads[t].Cancelling?
  {
    var th := s.threads[t];
    match th.cancelPc
    case FindCancel => SetThread(s, t, th.(cancelPc := if th.id in s.orders then Request else CancelDone))
    case Request =>
      SetThread(Fire(s, th.id, RequestCancel, NoData, c.div), t, th.(cancelPc :=
        if !Accepts(s, th.id, RequestCancel, NoData, c.div) then CancelDone
        else if c.dryRun then Confirm
        else RouteCancel))
    case RouteCancel => SetThread(s, t, th.(cancelPc := if x.registered then SendCancel else CancelDone))
    case SendCancel => SetThread(s, t, th.(cancelPc := if x.answer.Failed? then CancelDone else Confirm))
    case Confirm => SetThread(Fire(s, th.id, CancelAck, NoData, c.div), t, th.(cancelPc := CancelDone))
    case CancelDone => s
  }

  function Act(c: Setup, s: Sys, a: Action): Sys {
    match a
    case Begin(call) => s.(threads := s.threads + [Started(call)])
    case Go(t, x) =>
      if t >= |s.threads| then s
      else
        match s.threads[t]
        case Executing(_, _, _) => MoveExec(c, s, t, x)
        case Filling(_, _) => MoveFill(c, s, t)
        case Cancelling(_, _) => MoveCancel(c, s, t, x)
  }

  function RunSys(c: Setup, actions: seq<Action>): Sys {
    if actions == [] then START else Act(c, RunSys(c, actions[..|actions| - 1]), actions[|actions| - 1])
  }

  // ---------------------------------------------------------------------------
  // At most one submission per intent
  // ---------------------------------------------------------------------------

  predicate AfterInsert(pc: ExecPc) {
    pc.DoSubmit? || pc.Route? || pc.Send? || pc.DoReject? || pc.DoAck?
  }

  predicate AfterSend(pc: ExecPc) {
    pc.DoReject? || pc.DoAck? || pc.ExecDone?
  }

  /** What one execution may assume and must keep. */
  predicate ExecInv(s: Sys, th: Thread) {
    th.Executing? ==>
      && (AfterInsert(th.pc) ==> th.inserted)
      && (th.pc.LookUp? || th.pc.CheckRisk? || th.pc.Insert? ==> !th.inserted)
      && (th.inserted ==> th.intent.intentId in s.orders)
  }

  ghost predicate Threads(s: Sys) {
    forall t :: 0 <= t < |s.threads| ==> ExecInv(s, s.threads[t])
  }

  predicate Owns(th: Thread, id: Name) {
    th.Executing? && th.inserted && th.intent.intentId == id
  }

  /** An order has one owner: the execution that inserted it. */
  ghost predicate OneOwner(s: Sys) {
    forall t, u, id :: 0 <= t < u < |s.threads| && Owns(s.threads[t], id) ==> !Owns(s.threads[u], id)
  }

  /** Whoever sent an order to the exchange owns it, and is past sending. */
  ghost predicate SentByOwner(s: Sys) {
    forall i :: 0 <= i < |s.notes| && s.notes[i].Sent? ==>
      var t := s.notes[i].tid;
      t < |s.threads| && Owns(s.threads[t], s.notes[i].intent.intentId) && AfterSend(s.threads[t].pc)
  }

  ghost predicate SentOnce(s: Sys) {
    forall i, j :: 0 <= i < j < |s.notes| && s.notes[i].Sent? && s.notes[j].Sent? ==> s.notes[i].tid != s.notes[j].tid
  }

  /** Whoever may insert was allowed to by the risk engine. */
  ghost predicate Permitted(s: Sys) {
    forall t :: 0 <= t < |s.threads| && s.threads[t].Executing? && (s.threads[t].inserted || s.threads[t].pc.Insert?)
      ==> Allowed(t, s.threads[t].intent) in s.notes
  }

  /** Every submission comes after the permission of the same caller for the same intent. */
  ghost predicate AllowedBefore(notes: seq<Note>) {
    forall i :: 0 <= i < |notes| && notes[i].Sent? ==> Allowed(notes[i].tid, notes[i].intent) in notes[..i]
  }

  /** Dry runs reach neither routing nor the exchange. */
  ghost predicate Dry(c: Setup, s: Sys) {
    c.dryRun ==>
      && (forall t :: 0 <= t < |s.threads| && s.threads[t].Executing? ==>
            !s.threads[t].pc.Route? && !s.threads[t].pc.Send?)
      && (forall i :: 0 <= i < |s.notes| ==> !s.notes[i].Sent?)
  }

  ghost predicate SubmissionInv(c: Setup, s: Sys) {
    Threads(s) && OneOwner(s) && SentByOwner(s) && SentOnce(s) && Permitted(s) && AllowedBefore(s.notes) && Dry(c, s)
  }

  lemma BeginKeeps(c: Setup, s: Sys, call: Call)
    requires SubmissionInv(c, s)
    ensures SubmissionInv(c, Act(c, s, Begin(call)))
  {
  }

  /** Steps that leave the notes alone and no execution's standing changed. */
  lemma QuietKeeps(c: Setup, s: Sys, s': Sys, t: nat)
    requires SubmissionInv(c, s) && t < |s.threads| && |s'.threads| == |s.threads|
    requires forall u :: 0 <= u < |s.threads| && u != t ==> s'.threads[u] == s.threads[u]
    requires !s.threads[t].Executing? && !s'.threads[t].Executing?
    requires s'.notes == s.notes && s'.orders.Keys == s.orders.Keys
    ensures SubmissionInv(c, s')
  {
  }

  /** Thread `t` moved on to `pc`, without inserting or noting anything. */
  ghost predicate Silent(c: Setup, s: Sys, s': Sys, t: nat, pc: ExecPc) {
    && t < |s.threads| && s.threads[t].Executing?
    && s'.threads == s.threads[t := s.threads[t].(pc := pc)]
    && s'.notes == s.notes && s'.orders.Keys == s.orders.Keys
    && (AfterSend(s.threads[t].pc) ==> AfterSend(pc))
    && ExecInv(s', s'.threads[t])
    && (pc.Insert? ==> s.threads[t].pc.Insert?)
    && (c.dryRun ==> !pc.Route? && !pc.Send?)
  }

  lemma SilentKeepsOwners(c: Setup, s: Sys, s': Sys, t: nat, pc: ExecPc)
    requires Silent(c, s, s', t, pc) && Threads(s) && OneOwner(s) && Permitted(s)
    ensures Threads(s') && OneOwner(s') && Permitted(s')
  {
  }

  lemma SilentKeepsSent(c: Setup, s: Sys, s': Sys, t: nat, pc: ExecPc)
    requires Silent(c, s, s', t, pc) && SentByOwner(s) && Dry(c, s)
    ensures SentByOwner(s') && Dry(c, s')
  {
  }

  /** A step of an execution that does not insert and writes no note. */
  lemma SilentExecKeeps(c: Setup, s: Sys, s': Sys, t: nat, pc: ExecPc)
    requires SubmissionInv(c, s) && Silent(c, s, s', t, pc)
    ensures SubmissionInv(c, s')
  {
    SilentKeepsOwners(c, s, s', t, pc);
    SilentKeepsSent(c, s, s', t, pc);
    hide Threads, OneOwner, Permitted, SentByOwner, Dry;
  }

  /** One more note at the end. */
  lemma NoteKeepsAllowed(notes: seq<Note>, note: Note)
    requires AllowedBefore(notes) && (note.Sent? ==> Allowed(note.tid, note.intent) in notes)
    ensures AllowedBefore(notes + [note])
  {
    var notes' := notes + [note];
    forall i | 0 <= i < |notes'| && notes'[i].Sent?
      ensures Allowed(notes'[i].tid, notes'[i].intent) in notes'[..i]
    {
      assert notes'[..i] == notes[..i];
    }
  }

  /** Thread `t` moved on to `pc`, and noted it. */
  ghost predicate Noted(s: Sys, s': Sys, t: nat, pc: ExecPc, note: Note) {
    && t < |s.threads| && s.threads[t].Executing?
    && s'.orders == s.orders && s'.threads == s.threads[t := s.threads[t].(pc := pc)]
    && s'.notes == s.notes + [note]
  }

  lemma NotedKeepsOwners(s: Sys, s': Sys, t: nat, pc: ExecPc, note: Note)
    requires Noted(s, s', t, pc, note) && Threads(s) && OneOwner(s)
    requires ExecInv(s', s'.threads[t])
    ensures Threads(s') && OneOwner(s')
  {
  }

  lemma NotedKeepsPermits(s: Sys, s': Sys, t: nat, pc: ExecPc, note: Note)
    requires Noted(s, s', t, pc, note) && Permitted(s)
    requires pc.Insert? ==> note == Allowed(t, s.threads[t].intent)
    ensures Permitted(s')
  {
    assert note in s'.notes;
  }

  lemma AllowKeeps(c: Setup, s: Sys, s': Sys, t: nat, note: Note)
    requires SubmissionInv(c, s) && Noted(s, s', t, Insert, note)
    requires s.threads[t].pc.CheckRisk? && note == Allowed(t, s.threads[t].intent)
    ensures SubmissionInv(c, s')
  {
    assert ExecInv(s, s.threads[t]);
    NotedKeepsOwners(s, s', t, Insert, note);
    NotedKeepsPermits(s, s', t, Insert, note);
    NoteKeepsAllowed(s.notes, note);
    hide AllowedBefore, Threads, OneOwner, Permitted;
  }

  lemma InsertKeeps(c: Setup, s: Sys, t: nat, x: Choice)
    requires SubmissionInv(c, s) && t < |s.threads| && s.threads[t].Executing? && s.threads[t].pc.Insert?
    requires s.threads[t].intent.intentId !in s.orders
    ensures SubmissionInv(c, MoveExec(c, s, t, x))
  {
    forall u | 0 <= u < |s.threads|
      ensures !Owns(s.threads[u], s.threads[t].intent.intentId)
    {
      assert ExecInv(s, s.threads[u]);
    }
    hide AllowedBefore, SentOnce, Dry;
  }

  lemma SentKeepsSent(s: Sys, s': Sys, t: nat, pc: ExecPc)
    requires t < |s.threads| && s.threads[t].Executing?
    requires Noted(s, s', t, pc, Sent(t, s.threads[t].intent)) && SentByOwner(s) && SentOnce(s)
    requires s.threads[t].pc.Send? && AfterSend(pc) && s.threads[t].inserted
    ensures SentByOwner(s') && SentOnce(s')
  {
    assert forall i :: 0 <= i < |s.notes| && s.notes[i].Sent? ==> s.notes[i].tid != t;
  }

  lemma SendKeeps(c: Setup, s: Sys, s': Sys, t: nat, pc: ExecPc)
    requires t < |s.threads| && s.threads[t].Executing?
    requires SubmissionInv(c, s) && Noted(s, s', t, pc, Sent(t, s.threads[t].intent))
    requires s.threads[t].pc.Send? && (pc.DoReject? || pc.DoAck?)
    ensures SubmissionInv(c, s')
  {
    var note := Sent(t, s.threads[t].intent);
    assert ExecInv(s, s.threads[t]);
    assert !c.dryRun;
    assert Allowed(t, s.threads[t].intent) in s.notes;
    NotedKeepsOwners(s, s', t, pc, note);
    NotedKeepsPermits(s, s', t, pc, note);
    NoteKeepsAllowed(s.notes, note);
    SentKeepsSent(s, s', t, pc);
    hide AllowedBefore, Threads, OneOwner, Permitted, SentByOwner, SentOnce;
  }

  lemma ExecKeeps(c: Setup, s: Sys, t: nat, x: Choice)
    requires SubmissionInv(c, s) && t < |s.threads| && s.threads[t].Executing?
    ensures SubmissionInv(c, MoveExec(c, s, t, x))
  {
    var th := s.threads[t];
    assert ExecInv(s, th);
    assert c.dryRun ==> !th.pc.Route? && !th.pc.Send?;
    var s' := MoveExec(c, s, t, x);
    var id := th.intent.intentId;
    hide SubmissionInv;
    if th.pc.CheckRisk? && x.allowed {
      AllowKeeps(c, s, s', t, Allowed(t, th.intent));
    } else if th.pc.Insert? && id !in s.orders {
      InsertKeeps(c, s, t, x);
    } else if th.pc.Send? {
      SendKeeps(c, s, s', t, s'.threads[t].pc);
    } else if !th.pc.ExecDone? {
      assert s'.orders.Keys == s.orders.Keys;
      SilentExecKeeps(c, s, s', t, s'.threads[t].pc);
    }
  }

  lemma FillOrCancelKeeps(c: Setup, s: Sys, t: nat, x: Choice)
    requires SubmissionInv(c, s) && t < |s.threads| && !s.threads[t].Executing?
    ensures SubmissionInv(c, Act(c, s, Go(t, x)))
  {
    hide SubmissionInv, After, Transition, BookFill;
    if s.threads[t].Filling? {
      QuietKeeps(c, s, MoveFill(c, s, t), t);
    } else {
      QuietKeeps(c, s, MoveCancel(c, s, t, x), t);
    }
  }

  lemma {:induction false} SubmissionsSafe(c: Setup, actions: seq<Action>)
    ensures SubmissionInv(c, RunSys(c, actions))
  {
    if actions == [] {
    } else {
      var s, a := RunSys(c, actions[..|actions| - 1]), actions[|actions| - 1];
      SubmissionsSafe(c, actions[..|actions| - 1]);
      hide SubmissionInv, MoveExec, MoveFill, MoveCancel;
      if a.Begin? {
        BeginKeeps(c, s, a.call);
      } else if a.tid < |s.threads| {
        if s.threads[a.tid].Executing? {
          ExecKeeps(c, s, a.tid, a.choice);
        } else {
          FillOrCancelKeeps(c, s, a.tid, a.choice);
        }
      }
    }
  }

  /** In every interleaving, each intent reaches the exchange at most once, and only after the risk
      engine allowed it to the same caller; in dry-run mode nothing does. */
  lemma AtMostOnce(c: Setup, actions: seq<Action>)
    ensures var notes := RunSys(c, actions).notes;
      && (forall i, j :: 0 <= i < j < |notes| && notes[i].Sent? && notes[j].Sent? ==>
            notes[i].intent.intentId != notes[j].intent.intentId)
      && (forall i :: 0 <= i < |notes| && notes[i].Sent? ==> Allowed(notes[i].tid, notes[i].intent) in notes[..i])
      && (c.dryRun ==> forall i :: 0 <= i < |notes| ==> !notes[i].Sent?)
  {
    SubmissionsSafe(c, actions);
    var s := RunSys(c, actions);
    hide RunSys;
    forall i, j | 0 <= i < j < |s.notes| && s.notes[i].Sent? && s.notes[j].Sent?
      ensures s.notes[i].intent.intentId != s.notes[j].intent.intentId
    {
      var t, u := s.notes[i].tid, s.notes[j].tid;
      assert Owns(s.threads[t], s.notes[i].intent.intentId) && Owns(s.threads[u], s.notes[j].intent.intentId);
    }
  }
}
