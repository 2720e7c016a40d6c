/**
  First activation of a type-registered virtual actor by any number of concurrent senders (the loop at the end of
  `dispatch_local_message`). Each caller brings one message, named by the caller's index.
 */
module ActivationGuard {
  import opened Common

  /** Where a caller is. Losers hold the notifier of the round they lost, and start listening one step later. */
  datatype Pc =
    | Looking
    | Missed
    | Refused(round: nat)
    | Parked(round: nat)
    | Won
    | Queued
    | Activating
    | Spawning
    | Draining
    | Releasing(outcome: Outcome)
    | Done(outcome: Outcome)

  /** How a call ended; `AlreadyActive` is an activation that found the actor running and did nothing. */
  datatype Outcome = Delivered | Activated | AlreadyActive | Failed

  /**
    `live`: a sender is registered. `guard`: who activates. `round`: number of the current or last guard. With `lossy`
    a wake-up that fires before the loser listens is lost; without it, waiting means until that guard is released.
    `outside`: activations that do not go through the guard and have yet to drain the pending queue.
   */
  datatype State = State(
    lossy: bool, live: bool, guard: Option<nat>, round: nat, pending: seq<nat>, mailbox: seq<nat>, outside: nat,
    pc: seq<Pc>)

  datatype Event =
    | Lookup(i: nat)
    | Acquire(i: nat)
    | Park(i: nat)
    | Queue(i: nat)
    | Resolve(i: nat, available: bool)
    | Check(i: nat)
    | Spawn(i: nat, ok: bool)
    | Drain(i: nat, marked: bool)
    | Release(i: nat)
    | Passivate
    | SpawnElsewhere
    | DrainElsewhere

  /** Not a step of a caller: the actor is passivated, or activated by someone who does not take the guard. */
  predicate Outside(e: Event) { e.Passivate? || e.SpawnElsewhere? || e.DrainElsewhere? }

  function Start(n: nat, lossy: bool): State {
    State(lossy, false, None, 0, [], [], 0, seq(n, _ => Looking))
  }

  predicate InFlight(s: State, round: nat) { s.guard.Some? && s.round == round }

  predicate Enabled(s: State, e: Event) {
    if Outside(e) then e.DrainElsewhere? ==> s.outside > 0
    else e.i < |s.pc| && match e
      case Lookup(i) => s.pc[i].Looking?
      case Acquire(i) => s.pc[i].Missed?
      case Park(i) => s.pc[i].Refused?
      case Queue(i) => s.pc[i].Won?
      case Resolve(i, _) => s.pc[i].Queued?
      case Check(i) => s.pc[i].Activating?
      case Spawn(i, _) => s.pc[i].Spawning?
      case Drain(i, _) => s.pc[i].Draining?
      case Release(i) => s.pc[i].Releasing?
  }

  /** `notify_waiters` wakes those who are listening to this round. */
  function Wake(pc: seq<Pc>, round: nat): seq<Pc> {
    seq(|pc|, j requires 0 <= j < |pc| => if pc[j] == Parked(round) then Looking else pc[j])
  }

  function Next(s: State, e: Event): State
    requires Enabled(s, e)
  {
    match e
    case Lookup(i) =>
      if s.live then s.(mailbox := s.mailbox + [i], pc := s.pc[i := Done(Delivered)])
      else s.(pc := s.pc[i := Missed])
    case Acquire(i) =>
      if s.guard.None? then s.(guard := Some(i), round := s.round + 1, pc := s.pc[i := Won])
      else s.(pc := s.pc[i := Refused(s.round)])
    case Park(i) =>
      if InFlight(s, s.pc[i].round) || s.lossy then s.(pc := s.pc[i := Parked(s.pc[i].round)])
      else s.(pc := s.pc[i := Looking])
    case Queue(i) => s.(pending := s.pending + [i], pc := s.pc[i := Queued])
    case Resolve(i, available) =>
      s.(pc := s.pc[i := if available then Activating else Releasing(Failed)])
    case Check(i) =>
      s.(pc := s.pc[i := if s.live then Releasing(AlreadyActive) else Spawning])
    case Spawn(i, ok) =>
      if ok then s.(live := true, pc := s.pc[i := Draining]) else s.(pc := s.pc[i := Releasing(Failed)])
    case Drain(i, marked) =>
      if marked then s.(mailbox := s.mailbox + s.pending, pending := [], pc := s.pc[i := Releasing(Activated)])
      else s.(pc := s.pc[i := Releasing(Failed)])
    case Release(i) => s.(guard := None, pc := Wake(s.pc, s.round)[i := Done(s.pc[i].outcome)])
    case Passivate => s.(live := false)
    case SpawnElsewhere => s.(live := true, outside := s.outside + 1)
    case DrainElsewhere => s.(mailbox := s.mailbox + s.pending, pending := [], outside := s.outside - 1)
  }

  ghost predicate Run(s: State, es: seq<Event>, t: State)
    decreases |es|
  {
    if es == [] then s == t else Enabled(s, es[0]) && Run(Next(s, es[0]), es[1..], t)
  }

  // ---- what every step keeps --------------------------------------------------------------------------

  /** Between acquiring the guard and releasing it. */
  predicate Activates(p: Pc) {
    p.Won? || p.Queued? || p.Activating? || p.Spawning? || p.Draining? || p.Releasing?
  }

  /** The caller still has its message. */
  predicate InHand(p: Pc) { p.Looking? || p.Missed? || p.Refused? || p.Parked? || p.Won? }

  ghost predicate OneActivator(s: State) {
    && (s.guard.Some? ==> s.guard.value < |s.pc|)
    && forall i :: 0 <= i < |s.pc| ==> (Activates(s.pc[i]) <==> s.guard == Some(i))
  }

  function Copies(s: State, i: nat): nat { multiset(s.pending)[i] + multiset(s.mailbox)[i] }

  /** Each message is in exactly one place: with its caller, or once in the pending queue or the mailbox. */
  ghost predicate Conserved(s: State) {
    && (forall i: nat :: i >= |s.pc| ==> Copies(s, i) == 0)
    && (forall i :: 0 <= i < |s.pc| ==> Copies(s, i) == if InHand(s.pc[i]) then 0 else 1)
  }

  ghost predicate RoundsKnown(s: State) {
    forall i :: 0 <= i < |s.pc| ==>
      && (s.pc[i].Refused? || s.pc[i].Parked? ==> s.pc[i].round <= s.round)
      && (s.pc[i].Parked? && !s.lossy ==> InFlight(s, s.pc[i].round))
  }

  /** A message that was reported delivered or activated has reached the mailbox. */
  predicate Arrived(s: State, p: Pc, i: nat) {
    Verdict(p) == Some(Activated) || Verdict(p) == Some(Delivered) ==> i in s.mailbox
  }

  ghost predicate Honest(s: State) {
    forall i :: 0 <= i < |s.pc| ==> Arrived(s, s.pc[i], i)
  }

  ghost predicate Safe(s: State) { OneActivator(s) && Conserved(s) && RoundsKnown(s) && Honest(s) }

  lemma StartSafe(n: nat, lossy: bool)
    ensures Safe(Start(n, lossy))
  {
  }

  lemma StepOneActivator(s: State, e: Event)
    requires OneActivator(s) && Enabled(s, e)
    ensures OneActivator(Next(s, e))
  {
  }

  /** The pending queue is emptied into the mailbox. */
  predicate Drains(e: Event) { e.DrainElsewhere? || (e.Drain? && e.marked) }

  lemma CopiesAfter(s: State, e: Event, j: nat)
    requires Enabled(s, e)
    ensures Copies(Next(s, e), j) ==
            Copies(s, j) + if e == Queue(j) || (e == Lookup(j) && s.live) then 1 else 0
  {
    var t := Next(s, e);
    if Drains(e) {
      assert multiset(t.mailbox) == multiset(s.mailbox) + multiset(s.pending);
    } else if e.Queue? {
      assert multiset(t.pending) == multiset(s.pending) + multiset{e.i};
    } else if e.Lookup? && s.live {
      assert multiset(t.mailbox) == multiset(s.mailbox) + multiset{e.i};
    }
  }

  lemma InHandAfter(s: State, e: Event, j: nat)
    requires Enabled(s, e) && j < |s.pc|
    ensures |Next(s, e).pc| == |s.pc|
    ensures InHand(Next(s, e).pc[j]) <==> InHand(s.pc[j]) && e != Queue(j) && !(e == Lookup(j) && s.live)
  {
  }

  lemma StepConserved(s: State, e: Event)
    requires Conserved(s) && Enabled(s, e)
    ensures Conserved(Next(s, e))
  {
    var t := Next(s, e);
    forall i: nat ensures Copies(t, i) == if i < |t.pc| && !InHand(t.pc[i]) then 1 else 0 {
      CopiesAfter(s, e, i);
      if i < |s.pc| { InHandAfter(s, e, i); }
    }
  }

  lemma StepRoundsKnown(s: State, e: Event)
    requires OneActivator(s) && RoundsKnown(s) && Enabled(s, e)
    ensures RoundsKnown(Next(s, e))
  {
  }

  lemma MailboxGrows(s: State, e: Event, j: nat)
    requires Enabled(s, e)
    ensures j in s.mailbox ==> j in Next(s, e).mailbox
    ensures e == Lookup(j) && s.live ==> j in Next(s, e).mailbox
    ensures e == Drain(j, true) && j in s.pending ==> j in Next(s, e).mailbox
  {
  }

  /** The outcome a caller carries, once it has one. */
  function Verdict(p: Pc): Option<Outcome> {
    if p.Releasing? || p.Done? then Some(p.outcome) else None
  }

  lemma VerdictAfter(s: State, e: Event, j: nat)
    requires Enabled(s, e) && j < |s.pc|
    ensures |Next(s, e).pc| == |s.pc|
    ensures Verdict(Next(s, e).pc[j]) == Some(Delivered) ==>
            Verdict(s.pc[j]) == Some(Delivered) || (e == Lookup(j) && s.live)
    ensures Verdict(Next(s, e).pc[j]) == Some(Activated) ==> Verdict(s.pc[j]) == Some(Activated) || e == Drain(j, true)
  {
  }

  lemma StepArrived(s: State, e: Event, j: nat)
    requires Conserved(s) && Enabled(s, e) && j < |s.pc| && Arrived(s, s.pc[j], j)
    ensures |Next(s, e).pc| == |s.pc| && Arrived(Next(s, e), Next(s, e).pc[j], j)
  {
    MailboxGrows(s, e, j);
    VerdictAfter(s, e, j);
    if e == Drain(j, true) {
      assert Copies(s, j) == 1;
    }
  }

  lemma StepHonest(s: State, e: Event)
    requires OneActivator(s) && Conserved(s) && Honest(s) && Enabled(s, e)
    ensures Honest(Next(s, e))
  {
    forall j: nat | j < |Next(s, e).pc| ensures Arrived(Next(s, e), Next(s, e).pc[j], j) { StepArrived(s, e, j); }
  }

  lemma StepSafe(s: State, e: Event)
    requires Safe(s) && Enabled(s, e)
    ensures Safe(Next(s, e))
  {
    StepOneActivator(s, e);
    StepConserved(s, e);
    StepRoundsKnown(s, e);
    StepHonest(s, e);
  }

  lemma StepKeepsShape(s: State, e: Event)
    requires Enabled(s, e)
    ensures |Next(s, e).pc| == |s.pc| && Next(s, e).lossy == s.lossy
  {
  }

  lemma {:induction false} RunSafe(s: State, es: seq<Event>, t: State)
    requires Safe(s) && Run(s, es, t)
    ensures Safe(t) && |t.pc| == |s.pc| && t.lossy == s.lossy
    decreases |es|
  {
    if es != [] {
      StepSafe(s, es[0]);
      StepKeepsShape(s, es[0]);
      RunSafe(Next(s, es[0]), es[1..], t);
    }
  }

  /**
    Safety in every interleaving of any number of callers, passivations and activations elsewhere: at most one caller
    is between acquire and release, every message is in exactly one place, and a call that reports success has its
    message in the mailbox unless its activation found the actor already running.
   */
  lemma GuardIsSafe(n: nat, lossy: bool, es: seq<Event>, t: State)
    requires Run(Start(n, lossy), es, t)
    ensures |t.pc| == n
    ensures forall i, j :: 0 <= i < n && 0 <= j < n && Activates(t.pc[i]) && Activates(t.pc[j]) ==> i == j
    ensures forall i :: 0 <= i < n ==> Copies(t, i) == if InHand(t.pc[i]) then 0 else 1
    ensures forall i :: 0 <= i < n && t.pc[i].Done? && !t.pc[i].outcome.Failed? ==>
              i in t.mailbox || t.pc[i].outcome == AlreadyActive
  {
    StartSafe(n, lossy);
    RunSafe(Start(n, lossy), es, t);
    forall i | 0 <= i < n && t.pc[i].Done? && !t.pc[i].outcome.Failed?
      ensures i in t.mailbox || t.pc[i].outcome == AlreadyActive
    {
      assert Arrived(t, t.pc[i], i);
    }
  }

  // ---- which queued messages arrive --------------------------------------------------------------------

  ghost predicate SomeDrain(es: seq<Event>) { exists k :: 0 <= k < |es| && Drains(es[k]) }

  lemma SomeDrainCons(es: seq<Event>)
    requires es != []
    ensures SomeDrain(es) <==> Drains(es[0]) || SomeDrain(es[1..])
  {
    if SomeDrain(es[1..]) {
      var k :| 0 <= k < |es[1..]| && Drains(es[1..][k]);
      assert Drains(es[k + 1]);
    }
    if SomeDrain(es) && !Drains(es[0]) {
      var k :| 0 <= k < |es| && Drains(es[k]);
      assert Drains(es[1..][k - 1]);
    }
  }

  lemma QueuedAfter(s: State, e: Event, i: nat)
    requires Enabled(s, e) && (i in s.pending || i in s.mailbox)
    ensures i in Next(s, e).mailbox <==> i in s.mailbox || Drains(e) || (e == Lookup(i) && s.live)
    ensures i in Next(s, e).pending || i in Next(s, e).mailbox
  {
  }

  lemma {:induction false} PendingThroughRun(s: State, es: seq<Event>, t: State, i: nat)
    requires Safe(s) && Run(s, es, t) && i < |s.pc| && !InHand(s.pc[i]) && (i in s.pending || i in s.mailbox)
    ensures i in t.mailbox <==> i in s.mailbox || SomeDrain(es)
    decreases |es|
  {
    if es != [] {
      QueuedAfter(s, es[0], i);
      InHandAfter(s, es[0], i);
      StepSafe(s, es[0]);
      SomeDrainCons(es);
      PendingThroughRun(Next(s, es[0]), es[1..], t, i);
    }
  }

  lemma {:induction false} RunSplit(s: State, es: seq<Event>, fs: seq<Event>, t: State) returns (m: State)
    requires Run(s, es + fs, t)
    ensures Run(s, es, m) && Run(m, fs, t)
    decreases |es|
  {
    if es == [] {
      assert es + fs == fs;
      m := s;
    } else {
      assert (es + fs)[0] == es[0] && (es + fs)[1..] == es[1..] + fs;
      m := RunSplit(Next(s, es[0]), es[1..], fs, t);
    }
  }

  /** A message put in the pending queue is in the mailbox if and only if the queue has been drained since. */
  lemma QueuedArrivesIff(n: nat, lossy: bool, before: seq<Event>, i: nat, after: seq<Event>, t: State)
    requires Run(Start(n, lossy), before + ([Queue(i)] + after), t)
    ensures i in t.mailbox <==> SomeDrain(after)
    ensures i in t.mailbox || i in t.pending
  {
    var m := RunSplit(Start(n, lossy), before, [Queue(i)] + after, t);
    StartSafe(n, lossy);
    RunSafe(Start(n, lossy), before, m);
    assert ([Queue(i)] + after)[1..] == after;
    var q := Next(m, Queue(i));
    StepSafe(m, Queue(i));
    assert Copies(m, i) == 0;
    PendingThroughRun(q, after, t, i);
    RunSafe(q, after, t);
    NotInHandThroughRun(q, after, t, i);
    assert Copies(t, i) == 1;
  }

  lemma {:induction false} NotInHandThroughRun(s: State, es: seq<Event>, t: State, i: nat)
    requires Run(s, es, t) && i < |s.pc| && !InHand(s.pc[i])
    ensures i < |t.pc| && !InHand(t.pc[i])
    decreases |es|
  {
    if es != [] {
      InHandAfter(s, es[0], i);
      NotInHandThroughRun(Next(s, es[0]), es[1..], t, i);
    }
  }

  /** Holding the guard, past the queueing of its own message. */
  predicate Holds(p: Pc) { Activates(p) && !p.Won? }

  ghost predicate DrainedElsewhere(es: seq<Event>) { DrainElsewhere in es }

  lemma HoldStep(s: State, e: Event, i: nat)
    requires OneActivator(s) && Enabled(s, e) && i < |s.pc| && Holds(s.pc[i]) && e != Release(i)
    ensures |Next(s, e).pc| == |s.pc| && Holds(Next(s, e).pc[i])
    ensures Drains(e) <==> e.DrainElsewhere? || e == Drain(i, true)
    ensures Verdict(Next(s, e).pc[i]) == Some(Activated) <==> Verdict(s.pc[i]) == Some(Activated) || e == Drain(i, true)
  {
    if e.Drain? { assert s.guard == Some(i) && s.guard == Some(e.i); }
  }

  lemma {:induction false} HoldRun(s: State, es: seq<Event>, t: State, i: nat)
    requires Safe(s) && Run(s, es, t) && i < |s.pc| && Holds(s.pc[i]) && Release(i) !in es
    ensures i < |t.pc| && Holds(t.pc[i])
    ensures SomeDrain(es) || Verdict(s.pc[i]) == Some(Activated) <==>
            DrainedElsewhere(es) || Verdict(t.pc[i]) == Some(Activated)
    decreases |es|
  {
    if es != [] {
      assert es == [es[0]] + es[1..];
      HoldStep(s, es[0], i);
      StepSafe(s, es[0]);
      SomeDrainCons(es);
      HoldRun(Next(s, es[0]), es[1..], t, i);
    }
  }

  /**
    At the winner's release, exactly: its message is in the mailbox if and only if its own activation ran to the end,
    having found the actor not running, or somebody else drained the queue while it held the guard.
   */
  lemma WinnerArrivesIff(n: nat, lossy: bool, before: seq<Event>, i: nat, during: seq<Event>, t: State)
    requires Run(Start(n, lossy), before + ([Queue(i)] + (during + [Release(i)])), t) && Release(i) !in during
    ensures i < |t.pc| && t.pc[i].Done?
    ensures i in t.mailbox <==> t.pc[i].outcome == Activated || DrainedElsewhere(during)
  {
    QueuedArrivesIff(n, lossy, before, i, during + [Release(i)], t);
    var m := RunSplit(Start(n, lossy), before, [Queue(i)] + (during + [Release(i)]), t);
    StartSafe(n, lossy);
    RunSafe(Start(n, lossy), before, m);
    assert ([Queue(i)] + (during + [Release(i)]))[1..] == during + [Release(i)];
    var q := Next(m, Queue(i));
    StepSafe(m, Queue(i));
    var last := RunSplit(q, during, [Release(i)], t);
    HoldRun(q, during, last, i);
    assert [Release(i)][1..] == [];
    assert t == Next(last, Release(i));
    assert t.pc[i] == Done(last.pc[i].outcome);
    DrainThenRelease(during, i);
  }

  lemma DrainThenRelease(es: seq<Event>, i: nat)
    ensures SomeDrain(es + [Release(i)]) <==> SomeDrain(es)
  {
    var fs := es + [Release(i)];
    if SomeDrain(es) {
      var k :| 0 <= k < |es| && Drains(es[k]);
      assert Drains(fs[k]);
    }
    if SomeDrain(fs) {
      var k :| 0 <= k < |fs| && Drains(fs[k]);
      assert Drains(es[k]);
    }
  }

  /**
    The exception is real. A caller that missed the actor and finds the guard free although the actor now runs will,
    if undisturbed, report success and leave its message in the pending queue: the activation drains nothing.
   */
  lemma LateWinnerStrands(s: State, i: nat) returns (es: seq<Event>, t: State)
    requires Safe(s) && i < |s.pc| && s.pc[i].Missed? && s.guard.None? && s.live
    ensures Run(s, es, t)
    ensures |t.pc| == |s.pc| && t.live && t.guard.None? && t.pc[i] == Done(AlreadyActive)
    ensures t.pending == s.pending + [i] && t.mailbox == s.mailbox
  {
    var s1 := Next(s, Acquire(i));
    RunOne(s, Acquire(i), s1);
    var s2 := Next(s1, Queue(i));
    RunMore(s, [Acquire(i)], s1, Queue(i), s2);
    es := [Acquire(i)] + [Queue(i)];
    var s3 := Next(s2, Resolve(i, true));
    RunMore(s, es, s2, Resolve(i, true), s3);
    es := es + [Resolve(i, true)];
    var s4 := Next(s3, Check(i));
    RunMore(s, es, s3, Check(i), s4);
    es := es + [Check(i)];
    t := Next(s4, Release(i));
    RunMore(s, es, s4, Release(i), t);
    es := es + [Release(i)];
  }

  /** Two callers reach that situation: the second loses the processor between its lookup and its attempt. */
  lemma LateWinnerReachable() returns (es: seq<Event>, t: State)
    ensures Run(Start(2, false), es, t) && t.live && t.guard.None? && t.pc == [Done(Activated), Missed]
  {
    var s0 := Start(2, false);
    var s1 := s0.(pc := [Looking, Missed]);
    assert s0.pc == [Looking, Looking];
    RunOne(s0, Lookup(1), s1);
    var s2 := s0.(pc := [Missed, Missed]);
    RunMore(s0, [Lookup(1)], s1, Lookup(0), s2);
    es := [Lookup(1)] + [Lookup(0)];
    var s3 := s2.(guard := Some(0), round := 1, pc := [Won, Missed]);
    RunMore(s0, es, s2, Acquire(0), s3);
    es := es + [Acquire(0)];
    var s4 := s3.(pending := [0], pc := [Queued, Missed]);
    RunMore(s0, es, s3, Queue(0), s4);
    es := es + [Queue(0)];
    var rest;
    rest, t := WinnerFinishes(s4);
    RunConcat(s0, es, s4, rest, t);
    es := es + rest;
  }

  lemma WinnerFinishes(s4: State) returns (es: seq<Event>, t: State)
    requires s4 == State(false, false, Some(0), 1, [0], [], 0, [Queued, Missed])
    ensures Run(s4, es, t) && t.live && t.guard.None? && t.pc == [Done(Activated), Missed]
  {
    var s5 := s4.(pc := [Activating, Missed]);
    RunOne(s4, Resolve(0, true), s5);
    var s6 := s4.(pc := [Spawning, Missed]);
    RunMore(s4, [Resolve(0, true)], s5, Check(0), s6);
    es := [Resolve(0, true)] + [Check(0)];
    var s7 := s4.(live := true, pc := [Draining, Missed]);
    RunMore(s4, es, s6, Spawn(0, true), s7);
    es := es + [Spawn(0, true)];
    var s8 := s7.(pending := [], mailbox := [] + [0], pc := [Releasing(Activated), Missed]);
    RunMore(s4, es, s7, Drain(0, true), s8);
    es := es + [Drain(0, true)];
    t := s8.(guard := None, pc := [Done(Activated), Missed]);
    assert Wake(s8.pc, 1) == s8.pc;
    RunMore(s4, es, s8, Release(0), t);
    es := es + [Release(0)];
  }

  lemma RunOne(s: State, e: Event, t: State)
    requires Enabled(s, e) && Next(s, e) == t
    ensures Run(s, [e], t)
  {
    assert Run(t, [], t);
    assert [e][1..] == [];
  }

  lemma RunMore(s: State, es: seq<Event>, m: State, e: Event, t: State)
    requires Run(s, es, m) && Enabled(m, e) && Next(m, e) == t
    ensures Run(s, es + [e], t)
  {
    RunOne(m, e, t);
    RunConcat(s, es, m, [e], t);
  }

  lemma {:induction false} RunConcat(s: State, es: seq<Event>, m: State, fs: seq<Event>, t: State)
    requires Run(s, es, m) && Run(m, fs, t)
    ensures Run(s, es + fs, t)
    decreases |es|
  {
    if es == [] {
      assert es + fs == fs;
    } else {
      RunConcat(Next(s, es[0]), es[1..], m, fs, t);
      assert (es + fs)[0] == es[0] && (es + fs)[1..] == es[1..] + fs;
    }
  }

  // ---- it ends ----------------------------------------------------------------------------------------

  function Weight(p: Pc, s: State): nat {
    match p
    case Looking => 9
    case Missed => 8
    case Refused(r) => if InFlight(s, r) then 2 else 10
    case Parked(_) => 1
    case Won => 7
    case Queued => 6
    case Activating => 5
    case Spawning => 4
    case Draining => 3
    case Releasing(_) => 2
    case Done(_) => 0
  }

  function Sum(w: seq<nat>): nat { if w == [] then 0 else w[0] + Sum(w[1..]) }

  function Weights(s: State): seq<nat> {
    seq(|s.pc|, i requires 0 <= i < |s.pc| => Weight(s.pc[i], s))
  }

  function Open(s: State): seq<nat> {
    seq(|s.pc|, i requires 0 <= i < |s.pc| => if s.pc[i].Done? then 0 else 1)
  }

  /** Unfinished callers first, then how far along they are. */
  function Rank(s: State): nat { Sum(Open(s)) * (10 * |s.pc| + 1) + Sum(Weights(s)) }

  lemma {:induction false} SumAtMost(w: seq<nat>, most: nat)
    requires forall i :: 0 <= i < |w| ==> w[i] <= most
    ensures Sum(w) <= most * |w|
  {
    if w != [] {
      SumAtMost(w[1..], most);
      assert most * |w| == most * |w[1..]| + most;
    }
  }

  lemma {:induction false} SumLess(v: seq<nat>, w: seq<nat>, k: nat)
    requires |v| == |w| && k <= |w|
    requires forall i :: 0 <= i < |w| ==> v[i] <= w[i]
    requires k < |w| ==> v[k] < w[k]
    ensures Sum(v) <= Sum(w) && (k < |w| ==> Sum(v) < Sum(w))
  {
    if w != [] {
      SumLess(v[1..], w[1..], if k == 0 then |w| - 1 else k - 1);
    }
  }

  lemma FinishLowersRank(s: State, t: State, i: nat)
    requires |t.pc| == |s.pc| && i < |s.pc| && !s.pc[i].Done? && t.pc[i].Done?
    requires forall j :: 0 <= j < |s.pc| && s.pc[j].Done? ==> t.pc[j].Done?
    ensures Rank(t) < Rank(s)
  {
    var n := |s.pc|;
    SumLess(Open(t), Open(s), i);
    SumAtMost(Weights(t), 10);
    FewerOpen(Sum(Open(t)), Sum(Open(s)), 10 * n + 1, Sum(Weights(t)));
  }

  lemma FewerOpen(a: nat, b: nat, c: nat, w: nat)
    requires a < b && w < c
    ensures a * c + w < b * c
  {
    MulMono(a + 1, b, c);
    assert (a + 1) * c == a * c + c;
  }

  lemma MulMono(a: nat, b: nat, c: nat)
    requires a <= b
    ensures a * c <= b * c
  {
  }

  lemma MoveLowersRank(s: State, t: State, i: nat)
    requires |t.pc| == |s.pc| && i < |s.pc| && !t.pc[i].Done?
    requires Weight(t.pc[i], t) < Weight(s.pc[i], s)
    requires forall j :: 0 <= j < |s.pc| && j != i ==> t.pc[j] == s.pc[j] && Weight(t.pc[j], t) <= Weight(s.pc[j], s)
    ensures Rank(t) < Rank(s)
  {
    SumLess(Weights(t), Weights(s), i);
    assert Open(t) == Open(s);
  }

  /** Every step of a caller lowers the rank; a passivation leaves it alone. */
  lemma StepLowersRank(s: State, e: Event)
    requires Safe(s) && Enabled(s, e)
    ensures if Outside(e) then Rank(Next(s, e)) == Rank(s) else Rank(Next(s, e)) < Rank(s)
  {
    if Outside(e) {
      OutsideKeepsRank(s, e);
    } else if e.Release? || (e.Lookup? && s.live) {
      FinishIsLast(s, e);
      FinishLowersRank(s, Next(s, e), e.i);
    } else {
      MoveIsLighter(s, e);
      MoveLowersRank(s, Next(s, e), e.i);
    }
  }

  lemma OutsideKeepsRank(s: State, e: Event)
    requires Enabled(s, e) && Outside(e)
    ensures Rank(Next(s, e)) == Rank(s)
  {
    assert Weights(Next(s, e)) == Weights(s) && Open(Next(s, e)) == Open(s);
  }

  lemma FinishIsLast(s: State, e: Event)
    requires Enabled(s, e) && !Outside(e) && (e.Release? || (e.Lookup? && s.live))
    ensures var t := Next(s, e);
            && |t.pc| == |s.pc| && e.i < |s.pc| && !s.pc[e.i].Done? && t.pc[e.i].Done?
            && forall j :: 0 <= j < |s.pc| && s.pc[j].Done? ==> t.pc[j].Done?
  {
  }

  lemma MoveIsLighter(s: State, e: Event)
    requires Safe(s) && Enabled(s, e) && !Outside(e) && !e.Release? && !(e.Lookup? && s.live)
    ensures var t := Next(s, e);
            && |t.pc| == |s.pc| && e.i < |s.pc| && !t.pc[e.i].Done? && Weight(t.pc[e.i], t) < Weight(s.pc[e.i], s)
            && forall j :: 0 <= j < |s.pc| && j != e.i ==>
              t.pc[j] == s.pc[j] && Weight(t.pc[j], t) <= Weight(s.pc[j], s)
  {
    var t := Next(s, e);
    forall j: nat | j < |s.pc| && j != e.i ensures t.pc[j] == s.pc[j] && Weight(t.pc[j], t) <= Weight(s.pc[j], s) {
      OthersNoHeavier(s, e, j);
    }
  }

  lemma OthersNoHeavier(s: State, e: Event, j: nat)
    requires Safe(s) && Enabled(s, e) && !Outside(e) && !e.Release? && !(e.Lookup? && s.live) && j < |s.pc| && j != e.i
    ensures var t := Next(s, e); |t.pc| == |s.pc| && t.pc[j] == s.pc[j] && Weight(t.pc[j], t) <= Weight(s.pc[j], s)
  {
  }

  function CallerSteps(es: seq<Event>): nat {
    if es == [] then 0 else (if Outside(es[0]) then 0 else 1) + CallerSteps(es[1..])
  }

  lemma {:induction false} RunIsShort(s: State, es: seq<Event>, t: State)
    requires Safe(s) && Run(s, es, t)
    ensures CallerSteps(es) <= Rank(s)
    decreases |es|
  {
    if es != [] {
      StepLowersRank(s, es[0]);
      StepSafe(s, es[0]);
      RunIsShort(Next(s, es[0]), es[1..], t);
    }
  }

  /** The wait loop ends: each release finishes its caller, so n callers take a bounded number of steps in all. */
  lemma LoopEnds(n: nat, lossy: bool, es: seq<Event>, t: State)
    requires Run(Start(n, lossy), es, t)
    ensures CallerSteps(es) <= n * (10 * n + 1) + 9 * n
  {
    var s := Start(n, lossy);
    StartSafe(n, lossy);
    RunIsShort(s, es, t);
    SumAtMost(Open(s), 1);
    SumAtMost(Weights(s), 9);
    MulMono(Sum(Open(s)), n, 10 * n + 1);
  }

  /** The caller listens to a guard that was released before it began to listen. */
  predicate MissedWakeUp(s: State, i: nat)
    requires i < |s.pc|
  {
    s.pc[i].Parked? && !InFlight(s, s.pc[i].round)
  }

  ghost predicate CanMove(s: State) { exists e :: Enabled(s, e) && !Outside(e) }

  /** Nobody can move exactly when every unfinished caller has missed its wake-up. */
  lemma StuckIff(n: nat, lossy: bool, es: seq<Event>, s: State)
    requires Run(Start(n, lossy), es, s)
    ensures !CanMove(s) <==> forall i :: 0 <= i < |s.pc| ==> s.pc[i].Done? || MissedWakeUp(s, i)
    ensures !lossy ==> forall i :: 0 <= i < |s.pc| ==> !MissedWakeUp(s, i)
  {
    StartSafe(n, lossy);
    RunSafe(Start(n, lossy), es, s);
    if i :| 0 <= i < |s.pc| && !s.pc[i].Done? && !MissedWakeUp(s, i) {
      SomebodyMoves(s, i);
    }
  }

  /** An unfinished caller that has not missed its wake-up can move, or waits for one that can. */
  lemma SomebodyMoves(s: State, i: nat)
    requires OneActivator(s) && i < |s.pc| && !s.pc[i].Done? && !MissedWakeUp(s, i)
    ensures CanMove(s)
  {
    var k: nat := if s.pc[i].Parked? then s.guard.value else i;
    assert s.pc[i].Parked? ==> Activates(s.pc[k]);
    var e := match s.pc[k]
      case Looking => Lookup(k)
      case Missed => Acquire(k)
      case Refused(_) => Park(k)
      case Parked(_) => Passivate
      case Won => Queue(k)
      case Queued => Resolve(k, true)
      case Activating => Check(k)
      case Spawning => Spawn(k, true)
      case Draining => Drain(k, true)
      case Releasing(_) => Release(k)
      case Done(_) => Passivate;
    assert Enabled(s, e) && !Outside(e);
  }

  /** With lossy wake-ups, a caller refused by a guard that is released before it listens misses its wake-up. */
  lemma WakeUpCanBeMissed(s: State, i: nat, h: nat)
    requires Safe(s) && s.lossy && i < |s.pc| && h < |s.pc| && s.pc[i] == Refused(s.round) && s.pc[h].Releasing?
    ensures Enabled(s, Release(h)) && Enabled(Next(s, Release(h)), Park(i))
    ensures var t := Next(Next(s, Release(h)), Park(i)); |t.pc| == |s.pc| && MissedWakeUp(t, i)
  {
    assert s.guard == Some(h);
  }

  /** Two callers reach such a state from the start: the first fails and releases before the second listens. */
  lemma MissedWakeUpReachable() returns (es: seq<Event>, t: State)
    ensures Run(Start(2, true), es, t) && |t.pc| == 2 && MissedWakeUp(t, 1)
  {
    var s0 := Start(2, true);
    assert s0.pc == [Looking, Looking];
    var s1 := s0.(pc := [Missed, Looking]);
    RunOne(s0, Lookup(0), s1);
    var s2 := s0.(pc := [Missed, Missed]);
    RunMore(s0, [Lookup(0)], s1, Lookup(1), s2);
    es := [Lookup(0)] + [Lookup(1)];
    var s3 := s2.(guard := Some(0), round := 1, pc := [Won, Missed]);
    RunMore(s0, es, s2, Acquire(0), s3);
    es := es + [Acquire(0)];
    var s4 := s3.(pc := [Won, Refused(1)]);
    RunMore(s0, es, s3, Acquire(1), s4);
    es := es + [Acquire(1)];
    var rest;
    rest, t := WinnerFailsFirst(s4);
    RunConcat(s0, es, s4, rest, t);
    es := es + rest;
  }

  lemma WinnerFailsFirst(s4: State) returns (es: seq<Event>, t: State)
    requires s4 == State(true, false, Some(0), 1, [], [], 0, [Won, Refused(1)])
    ensures Run(s4, es, t) && |t.pc| == 2 && MissedWakeUp(t, 1)
  {
    var s5 := s4.(pending := [] + [0], pc := [Queued, Refused(1)]);
    RunOne(s4, Queue(0), s5);
    var s6 := s5.(pc := [Releasing(Failed), Refused(1)]);
    RunMore(s4, [Queue(0)], s5, Resolve(0, false), s6);
    es := [Queue(0)] + [Resolve(0, false)];
    var s7 := s6.(guard := None, pc := [Done(Failed), Refused(1)]);
    assert Wake(s6.pc, 1) == s6.pc;
    RunMore(s4, es, s6, Release(0), s7);
    es := es + [Release(0)];
    t := s7.(pc := [Done(Failed), Parked(1)]);
    RunMore(s4, es, s7, Park(1), t);
    es := es + [Park(1)];
  }

  lemma StepKeepsMissed(s: State, i: nat, e: Event)
    requires Safe(s) && i < |s.pc| && MissedWakeUp(s, i) && Enabled(s, e)
    ensures |Next(s, e).pc| == |s.pc| && MissedWakeUp(Next(s, e), i)
  {
  }

  /** And then it never returns, whatever happens later: rounds are never reused. */
  lemma {:induction false} MissedIsForever(s: State, i: nat, es: seq<Event>, t: State)
    requires Safe(s) && i < |s.pc| && MissedWakeUp(s, i) && Run(s, es, t)
    ensures |t.pc| == |s.pc| && MissedWakeUp(t, i)
    decreases |es|
  {
    if es != [] {
      StepSafe(s, es[0]);
      StepKeepsMissed(s, i, es[0]);
      MissedIsForever(Next(s, es[0]), i, es[1..], t);
    }
  }
}
