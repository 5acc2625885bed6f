/** Every order the engine holds was put there by one execution, which the risk engine had allowed. */
module EngineOwners {
  import opened Names
  import opened OrderMachine
  import opened EngineSteps
  import opened EngineFills

  /** Execution `t` inserted the order, for its own intent. */
  predicate OwnerOf(s: Sys, id: Name, t: nat) {
    && id in s.orders && t < |s.threads|
    && Owns(s.threads[t], id) && s.threads[t].intent == s.orders[id].intent
  }

  ghost predicate HasOwner(s: Sys, id: Name) {
    exists t: nat :: OwnerOf(s, id, t)
  }

  ghost predicate AllOwned(s: Sys) {
    forall id :: id in s.orders ==> HasOwner(s, id)
  }

  /** What a step of `t` must leave as it is, for owners to stay owners. */
  ghost predicate OwnersStand(s: Sys, s': Sys) {
    && |s.threads| <= |s'.threads|
    && forall u :: 0 <= u < |s.threads| && s.threads[u].Executing? ==>
      && s'.threads[u].Executing? && s'.threads[u].intent == s.threads[u].intent
      && (s.threads[u].inserted ==> s'.threads[u].inserted)
  }

  lemma OwnerStays(s: Sys, s': Sys, id: Name)
    requires HasOwner(s, id) && OwnersStand(s, s') && AllGrown(s, s')
    ensures HasOwner(s', id)
  {
    var t: nat :| OwnerOf(s, id, t);
    assert OwnerOf(s', id, t);
  }

  lemma ExecStands(c: Setup, s: Sys, t: nat, x: Choice)
    requires t < |s.threads| && s.threads[t].Executing?
    ensures OwnersStand(s, MoveExec(c, s, t, x))
    ensures forall id :: id in MoveExec(c, s, t, x).orders && id !in s.orders ==> OwnerOf(MoveExec(c, s, t, x), id, t)
  {
    hide Fire, Accepts;
    var id := s.threads[t].intent.intentId;
    FireMovesNone(s, id, Submit, NoData, c.div);
    FireMovesNone(s, id, Reject, NoData, c.div);
    FireAddsNone(s, id, Submit, NoData, c.div);
    FireAddsNone(s, id, Reject, NoData, c.div);
    if s.threads[t].pc.DoAck? {
      FireMovesNone(s, id, Ack, AckData(s.threads[t].pc.orderId), c.div);
      FireAddsNone(s, id, Ack, AckData(s.threads[t].pc.orderId), c.div);
    }
  }

  lemma FireAddsNone(s: Sys, id: Name, e: Event, d: Data, div: Division)
    ensures Fire(s, id, e, d, div).orders.Keys == s.orders.Keys
  {
  }

  lemma OtherAddsNone(c: Setup, s: Sys, t: nat, x: Choice)
    requires t < |s.threads| && !s.threads[t].Executing?
    ensures OwnersStand(s, Act(c, s, Go(t, x))) && Act(c, s, Go(t, x)).orders.Keys == s.orders.Keys
  {
    hide After, Accepts, FillEvent;
    OthersStay(c, s, t, x);
  }

  lemma StepOwned(c: Setup, s: Sys, a: Action)
    requires FillInv(s) && AllOwned(s)
    ensures AllOwned(Act(c, s, a))
  {
    var s' := Act(c, s, a);
    ActKeepsFills(c, s, a);
    hide MoveExec, MoveFill, MoveCancel, FillInv, AllGrown, HasOwner;
    if a.Go? && a.tid < |s.threads| {
      if s.threads[a.tid].Executing? {
        ExecStands(c, s, a.tid, a.choice);
      } else {
        OtherAddsNone(c, s, a.tid, a.choice);
      }
    }
    assert OwnersStand(s, s');
    forall id | id in s'.orders
      ensures HasOwner(s', id)
    {
      if id in s.orders {
        OwnerStays(s, s', id);
      } else {
        NewOwner(s', id, a.tid);
      }
    }
  }

  lemma NewOwner(s: Sys, id: Name, t: nat)
    requires OwnerOf(s, id, t)
    ensures HasOwner(s, id)
  {
  }

  lemma {:induction false} RunOwned(c: Setup, actions: seq<Action>)
    ensures AllOwned(RunSys(c, actions))
  {
    if actions != [] {
      OrdersSafe(c, actions[..|actions| - 1]);
      RunOwned(c, actions[..|actions| - 1]);
      StepOwned(c, RunSys(c, actions[..|actions| - 1]), actions[|actions| - 1]);
    }
  }

  ghost predicate Vetted(s: Sys, id: Name) {
    id in s.orders && exists t: nat :: OwnerOf(s, id, t) && Allowed(t, s.orders[id].intent) in s.notes
  }

  /** In every interleaving, each order in the engine is the order of an intent that the risk engine allowed
      to the very execution that inserted it. */
  lemma OrdersWereAllowed(c: Setup, actions: seq<Action>, id: Name)
    requires id in RunSys(c, actions).orders
    ensures Vetted(RunSys(c, actions), id)
  {
    var s := RunSys(c, actions);
    RunOwned(c, actions);
    SubmissionsSafe(c, actions);
    hide RunSys, Threads, OneOwner, SentByOwner, SentOnce, AllowedBefore, Dry;
    assert HasOwner(s, id);
    var t: nat :| OwnerOf(s, id, t);
    assert Allowed(t, s.threads[t].intent) in s.notes;
  }
}
