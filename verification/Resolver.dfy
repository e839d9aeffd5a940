// curl-8.13.0/lib/asyn-thread.c: one name resolve shared by the transfer's thread, the parent, and the
// resolver thread, the child. Every step is one access to the shared record or one call into the system.

module Resolver {
  import opened Common

  // Where the parent is. The names follow the functions of the source.
  datatype Parent =
    | Create                      // init_resolve_thread, after init_thread_sync_data
    | Idle
    | PollLock | PollRead | PollUnlock(saw: bool)
    | Complete(last: bool)        // getaddrinfo_complete, for a poll or a wait
    | WaitJoin(entry: bool)       // thread_wait_resolv; `entry` asks for the result
    | Destroy | DestroyLock | DestroySwap | DestroyUnlock(saw: bool)
    | Detach | Join | Teardown | Close
    | BadJoin                     // about to join a thread that was given up: C leaves undefined what follows

  // Where the child is.
  datatype Child = NoThread | Resolving | Lock | Check | UnlockLate | TeardownLate | Signal | Unlock | Ended

  datatype Owner = Nobody | ByParent | ByChild

  datatype Handle = NoHandle | Held | GivenUp

  // The addresses the child found.
  datatype Result = NoResult | Found | Taken | Freed

  datatype State = State(
    parent: Parent, child: Child,
    init: bool, hnd: Handle,                          // in thread_data
    mutex: Owner, done: bool, result: Result,         // in thread_sync_data
    teardowns: nat)                                   // calls of destroy_thread_sync_data

  const START: State := State(Create, NoThread, true, NoHandle, Nobody, true, NoResult, 0)

  datatype Step =
    | Poll                                // Curl_resolver_is_resolved
    | Wait                                // Curl_resolver_wait_resolv
    | Cancel                              // Curl_resolver_cancel
    | Kill(quick: bool)                   // Curl_resolver_kill
    | ParentStep(ok: bool)                // `ok` is what the system answers
    | ChildStep(ok: bool)

  // Polling and waiting need a resolve that is not over; cancelling and killing need nothing.
  predicate Callable(s: State, st: Step) {
    match st
    case Poll => s.init
    case Wait => s.init && s.hnd == Held
    case _ => true
  }

  predicate Enabled(s: State, st: Step) {
    match st
    case ParentStep(_) =>
      && s.parent != Idle && s.parent != BadJoin
      && ((s.parent.PollLock? || s.parent.DestroyLock?) ==> s.mutex == Nobody)
      && (s.parent.WaitJoin? || s.parent.Join? ==> s.child == Ended)
    case ChildStep(_) =>
      && s.child != NoThread && s.child != Ended && s.parent != BadJoin
      && (s.child == Lock ==> s.mutex == Nobody)
    case _ => s.parent == Idle && Callable(s, st)
  }

  function Apply(s: State, st: Step): State
    requires Enabled(s, st)
  {
    match st
    case Poll => s.(parent := PollLock)
    case Wait => s.(parent := WaitJoin(true))
    case Cancel => s.(parent := Destroy)
    case Kill(quick) =>
      s.(parent := if s.hnd == NoHandle || quick then Destroy else if s.hnd == Held then WaitJoin(false) else BadJoin)
    case ParentStep(ok) => ParentNext(s, ok)
    case ChildStep(ok) => ChildNext(s, ok)
  }

  function ParentNext(s: State, ok: bool): State
    requires s.parent != Idle && s.parent != BadJoin
  {
    match s.parent
    // done is false before the thread starts; if it does not start, done is set again for the cleanup
    case Create =>
      if ok then s.(parent := Idle, child := Resolving, hnd := Held, done := false)
      else s.(parent := Destroy, done := true)
    case PollLock => s.(parent := PollRead, mutex := ByParent)
    case PollRead => s.(parent := PollUnlock(s.done))
    case PollUnlock(saw) => s.(parent := if saw then Complete(false) else Idle, mutex := Nobody)
    case Complete(_) => s.(parent := Destroy, result := if s.result == Found then Taken else s.result)
    case WaitJoin(entry) => s.(parent := if entry then Complete(true) else Destroy, hnd := NoHandle)
    case Destroy => s.(parent := if s.init then DestroyLock else Idle)
    case DestroyLock => s.(parent := DestroySwap, mutex := ByParent)
    case DestroySwap => s.(parent := DestroyUnlock(s.done), done := true)
    case DestroyUnlock(saw) =>
      s.(parent := if !saw then Detach else if s.hnd != NoHandle then Join else Teardown, mutex := Nobody)
    case Detach => s.(parent := Close, hnd := if s.hnd == Held then GivenUp else s.hnd)
    case Join => s.(parent := Teardown, hnd := NoHandle)
    case Teardown => TornDown(s).(parent := Close)
    case Close => s.(parent := Idle, init := false)
    case _ => s
  }

  function ChildNext(s: State, ok: bool): State {
    match s.child
    case Resolving => s.(child := Lock, result := if ok then Found else s.result)
    case Lock => s.(child := Check, mutex := ByChild)
    case Check => s.(child := if s.done then UnlockLate else Signal)
    case UnlockLate => s.(child := TeardownLate, mutex := Nobody)
    case TeardownLate => TornDown(s).(child := Ended)
    case Signal => s.(child := Unlock, done := true)
    case Unlock => s.(child := Ended, mutex := Nobody)
    case _ => s
  }

  // destroy_thread_sync_data
  function TornDown(s: State): State {
    s.(teardowns := s.teardowns + 1, result := if s.result == Found then Freed else s.result)
  }

  // The steps that read or write thread_sync_data. Destroy reads the socket in it, if the record is in use.
  predicate Touches(s: State, st: Step) {
    match st
    case ParentStep(_) =>
      if s.parent == Destroy then s.init
      else !(s.parent.WaitJoin? || (s.parent.Detach? || s.parent.Join? || s.parent.Close?))
    case ChildStep(_) => true
    case _ => false
  }

  // The step that reads what the child found.
  predicate ReadsResult(s: State, st: Step) {
    st.ParentStep? && s.parent.Complete?
  }

  // ---- the invariant ----

  predicate Started(s: State) {
    s.child != NoThread
  }

  predicate Inv(s: State) {
    Locks(s) && ParentInv(s) && ChildInv(s)
  }

  // Who holds the mutex, and how far the result can be.
  predicate Locks(s: State) {
    && (s.mutex == ByParent <==>
          s.parent.PollRead? || s.parent.PollUnlock? || s.parent.DestroySwap? || s.parent.DestroyUnlock?)
    && (s.mutex == ByChild <==> (s.child.Check? || s.child.UnlockLate? || s.child.Signal? || s.child.Unlock?))
    && (s.result == Found ==> s.teardowns == 0)
    && (s.child == Resolving ==> s.result == NoResult)
    && (s.parent == Create ==> s == START)
  }

  // What the parent's place says of its own fields.
  predicate ParentInv(s: State) {
    && (!(s.parent.Idle? || s.parent.Destroy? || s.parent.BadJoin?) ==> s.init)
    && (s.parent == BadJoin ==> s.hnd == GivenUp)
    && (s.hnd == GivenUp ==>
          s.parent == Close || ((s.parent.Idle? || s.parent.Destroy? || s.parent.BadJoin?) && !s.init))
    && (s.parent == Idle && s.init ==> s.hnd == Held)
    && (s.parent == Teardown ==> s.hnd == NoHandle)
    && (s.hnd == Held ==> Started(s) && s.init)
    && (s.parent.WaitJoin? || s.parent == Join ==> s.hnd == Held)
    && ((s.parent == DestroyUnlock(false) || s.parent.Detach?) ==> s.hnd == Held)
    && (s.parent == Close ==> s.hnd != Held)
    && (s.parent.PollLock? || s.parent.PollRead? || s.parent.PollUnlock? ==> s.hnd == Held)
  }

  // Who tears the record down: the child if the parent was first to set `done`, else the parent.
  predicate ChildInv(s: State) {
    if s.parent == Create then true
    else if s.hnd == GivenUp || (s.parent == DestroyUnlock(false) || s.parent.Detach?) then
      // left to the child
      && s.done && Started(s)
      && !(s.child.Signal? || s.child.Unlock?)
      && (s.parent == DestroyUnlock(false) ==> (s.child.Resolving? || s.child.Lock?))
      && s.teardowns == (if s.child == Ended then 1 else 0)
    else if s.parent == Close || ((s.parent.Idle? || s.parent.Destroy?) && !s.init) then
      // done by the parent
      s.teardowns == 1 && (s.child.NoThread? || s.child.Ended?) && s.result != Found
    else
      && s.teardowns == 0 && !(s.child.UnlockLate? || s.child.TeardownLate?)
      && (s.done <==> (s.child.NoThread? || s.child.Unlock? || s.child.Ended?))
      && (s.parent == PollUnlock(true) || s.parent == DestroyUnlock(true) ==> s.done)
      && (s.parent == PollUnlock(true) || s.parent.Complete? || s.parent == Join ==> s.child == Ended)
      && (s.parent == Teardown ==> (s.child.NoThread? || s.child.Ended?) && s.done)
      && (s.hnd == NoHandle ==> (s.child.NoThread? || s.child.Ended?))
  }

  lemma InvStart()
    ensures Inv(START)
  {
  }

  lemma InvStep(s: State, st: Step)
    requires Inv(s) && Enabled(s, st)
    ensures Inv(Apply(s, st))
  {
    match st
    case ParentStep(ok) => ParentKeeps(s, ok);
    case ChildStep(ok) => ChildKeeps(s, ok);
    case _ =>
  }

  lemma ParentKeeps(s: State, ok: bool)
    requires Inv(s) && Enabled(s, ParentStep(ok))
    ensures Inv(ParentNext(s, ok))
  {
    hide ParentNext, Locks, ParentInv, ChildInv, Early;
    if Early(s.parent) {
      EarlyKeeps(s, ok);
      EarlyKeepsChild(s, ok);
    } else {
      LateKeeps(s, ok);
      LateKeepsChild(s, ok);
    }
  }

  // The steps before the record is given up, and the others.
  predicate Early(p: Parent) {
    p.Create? || p.PollLock? || p.PollRead? || p.PollUnlock? || p.Complete? || p.WaitJoin?
  }

  lemma EarlyKeeps(s: State, ok: bool)
    requires Inv(s) && Enabled(s, ParentStep(ok)) && Early(s.parent)
    ensures Locks(ParentNext(s, ok)) && ParentInv(ParentNext(s, ok))
  {
  }

  lemma EarlyKeepsChild(s: State, ok: bool)
    requires Inv(s) && Enabled(s, ParentStep(ok)) && Early(s.parent)
    ensures ChildInv(ParentNext(s, ok))
  {
  }

  lemma LateKeeps(s: State, ok: bool)
    requires Inv(s) && Enabled(s, ParentStep(ok)) && !Early(s.parent)
    ensures Locks(ParentNext(s, ok)) && ParentInv(ParentNext(s, ok))
  {
  }

  lemma LateKeepsChild(s: State, ok: bool)
    requires Inv(s) && Enabled(s, ParentStep(ok)) && !Early(s.parent)
    ensures ChildInv(ParentNext(s, ok))
  {
  }

  lemma ChildKeeps(s: State, ok: bool)
    requires Inv(s) && Enabled(s, ChildStep(ok))
    ensures Inv(ChildNext(s, ok))
  {
  }

  // ---- runs ----

  // Where a sequence of steps leads, None if one of them was not possible.
  function Run(steps: seq<Step>): Option<State> {
    if steps == [] then Some(START)
    else
      match Run(steps[..|steps| - 1])
      case None => None
      case Some(s) =>
        var st := steps[|steps| - 1];
        if Enabled(s, st) then Some(Apply(s, st)) else None
  }

  lemma {:induction false} RunInv(steps: seq<Step>)
    requires Run(steps).Some?
    ensures Inv(Run(steps).value)
  {
    if steps == [] {
      InvStart();
    } else {
      RunInv(steps[..|steps| - 1]);
      InvStep(Run(steps[..|steps| - 1]).value, steps[|steps| - 1]);
    }
  }

  // In every interleaving, neither side touches the record after it was torn down, so it is torn down
  // at most once; and the parent reads the result when the child has nothing left to do.
  lemma NothingAfterTeardown(steps: seq<Step>, st: Step)
    requires Run(steps).Some? && Enabled(Run(steps).value, st)
    ensures Touches(Run(steps).value, st) ==> Run(steps).value.teardowns == 0
    ensures Apply(Run(steps).value, st).teardowns <= 1
    ensures ReadsResult(Run(steps).value, st) ==> Run(steps).value.child == Ended && Run(steps).value.done
  {
    RunInv(steps);
    InvStep(Run(steps).value, st);
    hide Run;
  }

  predicate Over(s: State) {
    s.parent == Idle && !s.init && (s.child.NoThread? || s.child.Ended?)
  }

  // When both sides are through, the record was torn down exactly once and no result is left behind.
  lemma TornDownOnce(steps: seq<Step>)
    requires Run(steps).Some? && Over(Run(steps).value)
    ensures Run(steps).value.teardowns == 1 && Run(steps).value.result != Found
    ensures Run(steps).value.mutex == Nobody && Run(steps).value.hnd != Held
  {
    RunInv(steps);
  }

  // ---- progress ----

  function ParentRank(p: Parent): nat {
    match p
    case Create => 20
    case PollLock => 19
    case PollRead => 18
    case PollUnlock(_) => 17
    case WaitJoin(_) => 19
    case Complete(_) => 16
    case Destroy => 8
    case DestroyLock => 7
    case DestroySwap => 6
    case DestroyUnlock(_) => 5
    case Join => 4
    case Detach => 3
    case Teardown => 2
    case Close => 1
    case _ => 0
  }

  function ChildRank(c: Child): nat {
    match c
    case Resolving => 5
    case Lock => 4
    case Check => 3
    case UnlockLate => 2
    case TeardownLate => 1
    case Signal => 2
    case Unlock => 1
    case NoThread => 5
    case Ended => 0
  }

  function Rank(s: State): nat {
    ParentRank(s.parent) + ChildRank(s.child)
  }

  // Until the parent is idle and the child through, one of them can go on.
  lemma NeverStuck(steps: seq<Step>)
    requires Run(steps).Some? && Run(steps).value.parent != BadJoin
    ensures var s := Run(steps).value;
      || (s.parent == Idle && (s.child.NoThread? || s.child.Ended?))
      || Enabled(s, ParentStep(true)) || Enabled(s, ChildStep(true))
  {
    RunInv(steps);
  }

  // Between two calls there are only finitely many steps.
  lemma StepsEnd(s: State, st: Step)
    requires Enabled(s, st) && (st.ParentStep? || st.ChildStep?)
    ensures Rank(Apply(s, st)) < Rank(s)
  {
    hide ParentNext, ChildNext, Rank;
    match st
    case ParentStep(ok) => ParentGoesDown(s, ok);
    case ChildStep(ok) => ChildGoesDown(s, ok);
  }

  lemma ParentGoesDown(s: State, ok: bool)
    requires s.parent != Idle && s.parent != BadJoin
    ensures Rank(ParentNext(s, ok)) < Rank(s)
  {
  }

  lemma ChildGoesDown(s: State, ok: bool)
    requires s.child != NoThread && s.child != Ended
    ensures Rank(ChildNext(s, ok)) < Rank(s)
  {
  }

  // ---- what the calls do with the result ----

  predicate OnlyChild(steps: seq<Step>) {
    forall i :: 0 <= i < |steps| ==> steps[i].ChildStep?
  }

  // Steps of the child leave the parent where it is.
  lemma {:induction false} ParentStays(steps: seq<Step>, between: seq<Step>)
    requires OnlyChild(between) && Run(steps).Some? && Run(steps + between).Some?
    ensures Run(steps + between).value.parent == Run(steps).value.parent
  {
    var n := |between|;
    if n == 0 {
      assert steps + between == steps;
    } else {
      assert (steps + between)[..|steps| + n - 1] == steps + between[..n - 1];
      ParentStays(steps, between[..n - 1]);
    }
  }

  // A poll that saw `done` completes the resolve and any other is over, whatever the child does meanwhile.
  lemma PollAnswer(steps: seq<Step>, ok: bool, between: seq<Step>, ok': bool)
    requires Run(steps).Some? && Run(steps).value.parent == PollRead && OnlyChild(between)
    requires Run(steps + [ParentStep(ok)] + between + [ParentStep(ok')]).Some?
    ensures Run(steps + [ParentStep(ok)] + between + [ParentStep(ok')]).value.parent ==
            if Run(steps).value.done then Complete(false) else Idle
  {
    var read := steps + [ParentStep(ok)];
    var all := read + between + [ParentStep(ok')];
    assert read[..|steps|] == steps && all[..|all| - 1] == read + between;
    RunPrefix(read, between);
    ParentStays(read, between);
  }

  lemma {:induction false} RunPrefix(a: seq<Step>, b: seq<Step>)
    requires Run(a + b).Some?
    ensures Run(a).Some?
  {
    if b == [] {
      assert a + b == a;
    } else {
      assert (a + b)[..|a + b| - 1] == a + b[..|b| - 1];
      RunPrefix(a, b[..|b| - 1]);
    }
  }

  // Step k completes the resolve with addresses found.
  ghost predicate CompletesAt(steps: seq<Step>, k: nat) {
    && k < |steps| && steps[k].ParentStep? && Run(steps[..k]).Some?
    && Run(steps[..k]).value.parent.Complete? && Run(steps[..k]).value.result == Found
  }

  // What one step does to the result.
  lemma Taking(s: State, st: Step)
    requires Inv(s) && Enabled(s, st)
    ensures Apply(s, st).result == Taken <==>
      s.result == Taken || (st.ParentStep? && s.parent.Complete? && s.result == Found)
  {
  }

  // The parent has taken the addresses just when some step completed the resolve with them.
  lemma {:induction false} TakenMeans(steps: seq<Step>)
    requires Run(steps).Some?
    ensures Run(steps).value.result == Taken <==> exists k :: CompletesAt(steps, k)
  {
    if steps != [] {
      hide Inv, Apply, Enabled;
      var n := |steps| - 1;
      TakenMeans(steps[..n]);
      RunInv(steps[..n]);
      Taking(Run(steps[..n]).value, steps[n]);
      forall k: nat | k < n
        ensures CompletesAt(steps, k) <==> CompletesAt(steps[..n], k)
      {
        assert steps[..n][..k] == steps[..k];
      }
      assert CompletesAt(steps, n) ==> Run(steps).value.result == Taken;
    }
  }

  // n steps of the parent, each with a good answer.
  function Ps(s: State, n: nat): Option<State> {
    if n == 0 then Some(s)
    else
      match Ps(s, n - 1)
      case None => None
      case Some(t) => if Enabled(t, ParentStep(true)) then Some(Apply(t, ParentStep(true))) else None
  }

  function Onward(n: nat): (r: seq<Step>)
    ensures |r| == n
  {
    seq(n, _ => ParentStep(true))
  }

  lemma OnwardMore(n: nat)
    ensures Onward(n + 1) == Onward(n) + [ParentStep(true)]
  {
  }

  lemma {:induction false} PsRun(steps: seq<Step>, n: nat)
    requires Run(steps).Some?
    ensures Run(steps + Onward(n)) == Ps(Run(steps).value, n)
  {
    hide Enabled, Apply, Onward;
    if n == 0 {
      assert steps + Onward(n) == steps;
    } else {
      PsRun(steps, n - 1);
      OnwardMore(n - 1);
      assert (steps + Onward(n))[..|steps| + n - 1] == steps + Onward(n - 1);
    }
  }

  // A call on a resolve that waits for one, and the steps of the parent that it makes.
  lemma CallRun(steps: seq<Step>, call: Step, n: nat)
    requires Run(steps).Some? && Enabled(Run(steps).value, call)
    ensures Run(steps + [call] + Onward(n)) == Ps(Apply(Run(steps).value, call), n)
  {
    assert (steps + [call])[..|steps|] == steps;
    PsRun(steps + [call], n);
  }

  // The record after a resolve is over.
  function Cleaned(s: State, result: Result): State {
    s.(init := false, hnd := NoHandle, teardowns := 1, result := result)
  }

  lemma EndedMeans(steps: seq<Step>)
    requires Run(steps).Some? && Run(steps).value.parent == Idle && Run(steps).value.init
    ensures var s := Run(steps).value;
      && s.hnd == Held && s.teardowns == 0
      && (s.child == Ended ==> s.mutex == Nobody && s.done)
      && (s.child != Ended && s.mutex == Nobody ==> !s.done)
  {
    RunInv(steps);
  }

  // When the child is through, a poll or a wait takes what it found, and cancelling or killing frees it.
  lemma EndedCalls(steps: seq<Step>)
    requires Run(steps).Some? && Run(steps).value.parent == Idle && Run(steps).value.init
    requires Run(steps).value.child == Ended
    ensures var s := Run(steps).value;
      var taken := if s.result == Found then Taken else s.result;
      var freed := if s.result == Found then Freed else s.result;
      && Run(steps + [Poll] + Onward(11)) == Some(Cleaned(s, taken))
      && Run(steps + [Wait] + Onward(8)) == Some(Cleaned(s, taken))
      && Run(steps + [Cancel] + Onward(7)) == Some(Cleaned(s, freed))
      && Run(steps + [Kill(true)] + Onward(7)) == Some(Cleaned(s, freed))
      && Run(steps + [Kill(false)] + Onward(7)) == Some(Cleaned(s, freed))
  {
    var s := Run(steps).value;
    EndedMeans(steps);
    assert Rests(s);
    hide Run, Ps, Rests;
    CallRun(steps, Poll, 11);
    CallRun(steps, Wait, 8);
    CallRun(steps, Cancel, 7);
    CallRun(steps, Kill(true), 7);
    CallRun(steps, Kill(false), 7);
    PollPath(s);
    WaitPath(s);
    KillPath(s);
  }

  predicate Rests(s: State) {
    s.parent == Idle && s.init && s.child == Ended && s.hnd == Held && s.teardowns == 0 && s.mutex == Nobody && s.done
  }

  lemma PsNext(s: State, n: nat, t: State, u: State)
    requires Ps(s, n) == Some(t) && Leads(t, ParentStep(true), u)
    ensures Ps(s, n + 1) == Some(u)
  {
  }

  lemma PsFirst(s: State, t: State)
    requires Leads(s, ParentStep(true), t)
    ensures Ps(s, 1) == Some(t)
  {
    assert Ps(s, 0) == Some(s);
  }

  lemma {:induction false} PsAdd(s: State, a: nat, t: State, b: nat)
    requires Ps(s, a) == Some(t)
    ensures Ps(s, a + b) == Ps(t, b)
  {
    hide Enabled, Apply;
    if b > 0 {
      PsAdd(s, a, t, b - 1);
    }
  }

  // The record is torn down by the parent: up to the join or what follows it, and from there.
  lemma DestroyLeads(s: State)
    requires Rests(s.(parent := Idle, hnd := Held)) && s.parent == Destroy && s.hnd != GivenUp
    ensures var p := ParentStep(true);
      && Leads(s, p, s.(parent := DestroyLock))
      && Leads(s.(parent := DestroyLock), p, s.(parent := DestroySwap, mutex := ByParent))
      && Leads(s.(parent := DestroySwap, mutex := ByParent), p, s.(parent := DestroyUnlock(true), mutex := ByParent))
      && Leads(s.(parent := DestroyUnlock(true), mutex := ByParent), p,
               s.(parent := if s.hnd == Held then Join else Teardown))
  {
  }

  lemma TeardownLeads(s: State)
    requires Rests(s.(parent := Idle, hnd := Held)) && s.parent == Destroy && s.hnd != GivenUp
    ensures var p, t := ParentStep(true), s.(parent := Teardown, hnd := NoHandle);
      && Leads(s.(parent := Join, hnd := Held), p, t)
      && Leads(t, p, TornDown(t).(parent := Close))
      && Leads(TornDown(t).(parent := Close), p,
               Cleaned(s, if s.result == Found then Freed else s.result).(parent := Idle))
  {
  }

  lemma DestroyPath(s: State)
    requires Rests(s.(parent := Idle, hnd := Held)) && s.parent == Destroy && s.hnd != GivenUp
    ensures Ps(s, if s.hnd == Held then 7 else 6) ==
            Some(Cleaned(s, if s.result == Found then Freed else s.result).(parent := Idle))
  {
    hide Ps, Leads, Rests;
    DestroyLeads(s);
    TeardownLeads(s);
    PsFirst(s, s.(parent := DestroyLock));
    PsNext(s, 1, s.(parent := DestroyLock), s.(parent := DestroySwap, mutex := ByParent));
    var u := s.(parent := DestroyUnlock(true), mutex := ByParent);
    PsNext(s, 2, s.(parent := DestroySwap, mutex := ByParent), u);
    var t := s.(parent := Teardown, hnd := NoHandle);
    PsNext(s, 3, u, s.(parent := if s.hnd == Held then Join else Teardown));
    if s.hnd == Held {
      PsNext(s, 4, s.(parent := Join), t);
    }
    var n := if s.hnd == Held then 5 else 4;
    PsNext(s, n, t, TornDown(t).(parent := Close));
    PsNext(s, n + 1, TornDown(t).(parent := Close),
           Cleaned(s, if s.result == Found then Freed else s.result).(parent := Idle));
  }

  lemma CallLeads(s: State)
    requires Rests(s)
    ensures var p, taken := ParentStep(true), if s.result == Found then Taken else s.result;
      && Leads(s.(parent := PollLock), p, s.(parent := PollRead, mutex := ByParent))
      && Leads(s.(parent := PollRead, mutex := ByParent), p, s.(parent := PollUnlock(true), mutex := ByParent))
      && Leads(s.(parent := PollUnlock(true), mutex := ByParent), p, s.(parent := Complete(false)))
      && Leads(s.(parent := Complete(false)), p, s.(parent := Destroy, result := taken))
      && Leads(s.(parent := WaitJoin(true)), p, s.(parent := Complete(true), hnd := NoHandle))
      && Leads(s.(parent := Complete(true), hnd := NoHandle), p,
               s.(parent := Destroy, hnd := NoHandle, result := taken))
      && Leads(s.(parent := WaitJoin(false)), p, s.(parent := Destroy, hnd := NoHandle))
  {
  }

  lemma PollPath(s: State)
    requires Rests(s)
    ensures Ps(s.(parent := PollLock), 11) == Some(Cleaned(s, if s.result == Found then Taken else s.result))
  {
    hide Ps, Leads, Rests;
    var t := s.(parent := PollLock);
    var u := s.(parent := Destroy, result := if s.result == Found then Taken else s.result);
    RestsHeld(s, u);
    CallLeads(s);
    PsFirst(t, s.(parent := PollRead, mutex := ByParent));
    PsNext(t, 1, s.(parent := PollRead, mutex := ByParent), s.(parent := PollUnlock(true), mutex := ByParent));
    PsNext(t, 2, s.(parent := PollUnlock(true), mutex := ByParent), s.(parent := Complete(false)));
    PsNext(t, 3, s.(parent := Complete(false)), u);
    DestroyPath(u);
    PsAdd(t, 4, u, 7);
  }

  lemma RestsHeld(s: State, u: State)
    requires Rests(s) && u == s.(parent := u.parent, hnd := u.hnd, result := u.result)
    ensures s.parent == Idle && s.hnd == Held && s.init && Rests(u.(parent := Idle, hnd := Held))
  {
  }

  lemma WaitPath(s: State)
    requires Rests(s)
    ensures Ps(s.(parent := WaitJoin(true)), 8) == Some(Cleaned(s, if s.result == Found then Taken else s.result))
  {
    hide Ps, Leads, Rests;
    var t := s.(parent := WaitJoin(true));
    var u := s.(parent := Destroy, hnd := NoHandle, result := if s.result == Found then Taken else s.result);
    RestsHeld(s, u);
    CallLeads(s);
    PsFirst(t, s.(parent := Complete(true), hnd := NoHandle));
    PsNext(t, 1, s.(parent := Complete(true), hnd := NoHandle), u);
    DestroyPath(u);
    PsAdd(t, 2, u, 6);
  }

  lemma KillPath(s: State)
    requires Rests(s)
    ensures Ps(s.(parent := WaitJoin(false)), 7) == Some(Cleaned(s, if s.result == Found then Freed else s.result))
    ensures Ps(s.(parent := Destroy), 7) == Some(Cleaned(s, if s.result == Found then Freed else s.result))
  {
    hide Ps, Leads, Rests;
    var t, u := s.(parent := WaitJoin(false)), s.(parent := Destroy, hnd := NoHandle);
    var v := s.(parent := Destroy);
    RestsHeld(s, u);
    RestsHeld(s, v);
    CallLeads(s);
    PsFirst(t, u);
    DestroyPath(u);
    PsAdd(t, 1, u, 6);
    DestroyPath(v);
  }

  // While the child has not signalled, a poll changes nothing.
  lemma PollWaits(steps: seq<Step>)
    requires Run(steps).Some? && Run(steps).value.parent == Idle && Run(steps).value.init
    requires Run(steps).value.child != Ended && Run(steps).value.mutex == Nobody
    ensures Run(steps + [Poll] + Onward(3)) == Run(steps)
  {
    var s := Run(steps).value;
    EndedMeans(steps);
    CallRun(steps, Poll, 3);
    hide Run, Ps;
    var t := s.(parent := PollLock);
    PsFirst(t, s.(parent := PollRead, mutex := ByParent));
    PsNext(t, 1, s.(parent := PollRead, mutex := ByParent), s.(parent := PollUnlock(false), mutex := ByParent));
    PsNext(t, 2, s.(parent := PollUnlock(false), mutex := ByParent), s);
  }

  // ---- killing ----

  // Every join names a handle that is still held.
  lemma JoinsHeld(steps: seq<Step>)
    requires Run(steps).Some?
    ensures var s := Run(steps).value; s.parent.WaitJoin? || s.parent == Join ==> s.hnd == Held
  {
    RunInv(steps);
  }

  // Step k of a run detaches the thread, as a call does that finds it still resolving.
  ghost predicate DetachAt(steps: seq<Step>, k: nat) {
    k < |steps| && steps[k].ParentStep? && Run(steps[..k]).Some? && Run(steps[..k]).value.parent == Detach
  }

  ghost predicate Detached(steps: seq<Step>) {
    exists k :: DetachAt(steps, k)
  }

  // Step k kills without quick_exit, and an earlier step detached the thread.
  ghost predicate KillsDetached(steps: seq<Step>, k: nat) {
    k < |steps| && steps[k] == Kill(false) && Detached(steps[..k])
  }

  // What a single step does to a handle that was given up, or is about to be.
  lemma GivingUp(s: State, st: Step)
    requires Inv(s) && Enabled(s, st)
    ensures Apply(s, st).hnd == GivenUp <==> s.hnd == GivenUp || (st.ParentStep? && s.parent == Detach)
    ensures Apply(s, st).parent == BadJoin <==> st == Kill(false) && s.hnd == GivenUp
  {
    hide ParentNext, ChildInv, Locks;
    match st
    case ParentStep(ok) => ParentGivesUp(s, ok);
    case _ =>
  }

  lemma ParentGivesUp(s: State, ok: bool)
    requires Inv(s) && Enabled(s, ParentStep(ok))
    ensures ParentNext(s, ok).hnd == GivenUp <==> s.hnd == GivenUp || s.parent == Detach
    ensures ParentNext(s, ok).parent != BadJoin
  {
    hide ChildInv, Locks;
  }

  lemma DetachedSplit(steps: seq<Step>)
    requires steps != []
    ensures var n := |steps| - 1; Detached(steps) <==> Detached(steps[..n]) || DetachAt(steps, n)
  {
    var n := |steps| - 1;
    forall k: nat | k < n
      ensures DetachAt(steps, k) <==> DetachAt(steps[..n], k)
    {
      assert steps[..n][..k] == steps[..k];
    }
  }

  // A handle is given up just when some earlier step detached its thread.
  lemma {:induction false} GivenUpMeans(steps: seq<Step>)
    requires Run(steps).Some?
    ensures Run(steps).value.hnd == GivenUp <==> Detached(steps)
  {
    if steps != [] {
      hide Inv, Apply, Enabled, Detached;
      var n := |steps| - 1;
      GivenUpMeans(steps[..n]);
      RunInv(steps[..n]);
      GivingUp(Run(steps[..n]).value, steps[n]);
      DetachedSplit(steps);
    }
  }

  // A run comes to a bad join just when it kills, without quick_exit, after a step that detached the thread.
  lemma {:induction false} BadJoinMeans(steps: seq<Step>)
    requires Run(steps).Some?
    ensures Run(steps).value.parent == BadJoin <==> exists k :: KillsDetached(steps, k)
  {
    if steps != [] {
      hide Inv, Apply, Enabled, Detached, KillsDetached;
      var n := |steps| - 1;
      var before := steps[..n];
      BadJoinMeans(before);
      GivenUpMeans(before);
      RunInv(before);
      GivingUp(Run(before).value, steps[n]);
      NoStepAfter(Run(before).value, steps[n]);
      KillsSplit(steps);
    }
  }

  lemma KillsSplit(steps: seq<Step>)
    requires steps != []
    ensures var n := |steps| - 1; var before := steps[..n];
      (exists k :: KillsDetached(steps, k)) <==>
        (exists k :: KillsDetached(before, k)) || (steps[n] == Kill(false) && Detached(before))
  {
    hide Detached;
    var n := |steps| - 1;
    forall k: nat | k < n
      ensures KillsDetached(steps, k) <==> KillsDetached(steps[..n], k)
    {
      assert steps[..n][..k] == steps[..k];
    }
    assert KillsDetached(steps, n) <==> steps[n] == Kill(false) && Detached(steps[..n]);
  }

  lemma NoStepAfter(s: State, st: Step)
    requires Enabled(s, st)
    ensures s.parent != BadJoin
  {
  }

  // What a caller of Curl_resolver_kill can look at: without quick_exit it is a bad join just when the
  // record has a thread handle but is not in use any more.
  lemma KillNeedsHandle(steps: seq<Step>, quick: bool)
    requires Run(steps).Some? && Run(steps).value.parent == Idle
    ensures var s := Run(steps).value;
      && (Apply(s, Kill(quick)).parent == BadJoin <==> !quick && s.hnd != NoHandle && !s.init)
      && (Apply(s, Kill(quick)).parent == BadJoin <==> !quick && Detached(steps))
  {
    hide Detached;
    RunInv(steps);
    GivenUpMeans(steps);
  }

  predicate Leads(s: State, st: Step, s': State) {
    Enabled(s, st) && Apply(s, st) == s'
  }

  // A parent at work while the child resolves.
  function While(parent: Parent, mutex: Owner, done: bool): State {
    State(parent, Resolving, true, Held, mutex, done, NoResult, 0)
  }

  // Cancelling while the child resolves, and killing then, leads there.
  lemma CancelGivesUp()
    ensures var p := ParentStep(true);
      Run([p, Cancel, p, p, p, p, p, p, Kill(false)]) ==
        Some(State(BadJoin, Resolving, false, GivenUp, Nobody, true, NoResult, 0))
  {
    hide Run, Leads, While;
    var p := ParentStep(true);
    CancelSteps();
    RunNone();
    RunLeads([], START, p, While(Idle, Nobody, false));
    var r1 := [] + [p];
    RunLeads(r1, While(Idle, Nobody, false), Cancel, While(Destroy, Nobody, false));
    var r2 := r1 + [Cancel];
    RunLeads(r2, While(Destroy, Nobody, false), p, While(DestroyLock, Nobody, false));
    var r3 := r2 + [p];
    RunLeads(r3, While(DestroyLock, Nobody, false), p, While(DestroySwap, ByParent, false));
    var r4 := r3 + [p];
    RunLeads(r4, While(DestroySwap, ByParent, false), p, While(DestroyUnlock(false), ByParent, true));
    var r5 := r4 + [p];
    RunLeads(r5, While(DestroyUnlock(false), ByParent, true), p, While(Detach, Nobody, true));
    var r6 := r5 + [p];
    RunLeads(r6, While(Detach, Nobody, true), p, While(Close, Nobody, true).(hnd := GivenUp));
    var r7 := r6 + [p];
    var s := State(Idle, Resolving, false, GivenUp, Nobody, true, NoResult, 0);
    RunLeads(r7, While(Close, Nobody, true).(hnd := GivenUp), p, s);
    RunLeads(r7 + [p], s, Kill(false), s.(parent := BadJoin));
    assert r7 + [p] + [Kill(false)] == [p, Cancel, p, p, p, p, p, p, Kill(false)];
  }

  lemma CancelSteps()
    ensures var p := ParentStep(true);
      && Leads(START, p, While(Idle, Nobody, false))
      && Leads(While(Idle, Nobody, false), Cancel, While(Destroy, Nobody, false))
      && Leads(While(Destroy, Nobody, false), p, While(DestroyLock, Nobody, false))
      && Leads(While(DestroyLock, Nobody, false), p, While(DestroySwap, ByParent, false))
      && Leads(While(DestroySwap, ByParent, false), p, While(DestroyUnlock(false), ByParent, true))
      && Leads(While(DestroyUnlock(false), ByParent, true), p, While(Detach, Nobody, true))
      && Leads(While(Detach, Nobody, true), p, While(Close, Nobody, true).(hnd := GivenUp))
    ensures var s := State(Idle, Resolving, false, GivenUp, Nobody, true, NoResult, 0);
      && Leads(While(Close, Nobody, true).(hnd := GivenUp), ParentStep(true), s)
      && Leads(s, Kill(false), s.(parent := BadJoin))
  {
  }

  lemma RunNone()
    ensures Run([]) == Some(START)
  {
  }

  lemma RunLeads(steps: seq<Step>, s: State, st: Step, s': State)
    requires Run(steps) == Some(s) && Leads(s, st, s')
    ensures Run(steps + [st]) == Some(s')
  {
    assert (steps + [st])[..|steps|] == steps;
  }
}
