/** Who is told, how often, over a whole run of monitor, demonitor, termination and collection on one node. */
module DownDelivery {
  import opened Common
  import opened ActorIds
  import opened MonitorTable

  datatype Op =
    | Monitor(target: ActorId, watcher: ActorId, ref: string, scope: Scope)
    | Demonitor(target: ActorId, ref: string)
    | Terminate(actor: ActorId, text: string)
    | Collect(stale: set<ActorId>)

  /** The table and every notification sent so far. */
  datatype State = State(table: Monitors, sent: seq<Down>)

  function ApplyTable(m: Monitors, op: Op): Monitors {
    match op
    case Monitor(t, w, r, sc) => AddMonitor(m, t, MonitorLink(r, w, sc))
    case Demonitor(t, r) => RemoveMonitor(m, t, r)
    case Terminate(a, _) => CleanupMonitors(m, a)
    case Collect(stale) => RemoveTargets(m, stale)
  }

  function SentBy(m: Monitors, op: Op): seq<Down> {
    if op.Terminate? then Downs(Watchers(m, op.actor), op.actor, op.text) else []
  }

  function Apply(s: State, op: Op): State { State(ApplyTable(s.table, op), s.sent + SentBy(s.table, op)) }

  /** The state after the first `n` operations. */
  function RunTo(ops: seq<Op>, n: nat): State
    requires n <= |ops|
  {
    if n == 0 then State(map[], []) else Apply(RunTo(ops, n - 1), ops[n - 1])
  }

  function Run(ops: seq<Op>): State { RunTo(ops, |ops|) }

  /** Monitor references are freshly generated identifiers. */
  ghost predicate FreshRefs(ops: seq<Op>) {
    forall i, j :: 0 <= i < j < |ops| && ops[i].Monitor? && ops[j].Monitor? ==> ops[i].ref != ops[j].ref
  }

  function CountRef(s: seq<MonitorLink>, ref: string): nat {
    if s == [] then 0 else (if s[0].ref == ref then 1 else 0) + CountRef(s[1..], ref)
  }

  function CountSent(s: seq<Down>, ref: string): nat {
    if s == [] then 0 else (if s[0].ref == ref then 1 else 0) + CountSent(s[1..], ref)
  }

  // ---- counting -------------------------------------------------------------------------------------

  lemma {:induction false} CountSentConcat(s: seq<Down>, t: seq<Down>, ref: string)
    ensures CountSent(s + t, ref) == CountSent(s, ref) + CountSent(t, ref)
  {
    if s == [] {
      assert s + t == t;
    } else {
      assert (s + t)[1..] == s[1..] + t;
      CountSentConcat(s[1..], t, ref);
    }
  }

  lemma {:induction false} CountDowns(s: seq<MonitorLink>, target: ActorId, text: string, ref: string)
    ensures CountSent(Downs(s, target, text), ref) == CountRef(s, ref)
  {
    if s != [] {
      assert Downs(s, target, text)[1..] == Downs(s[1..], target, text);
      CountDowns(s[1..], target, text, ref);
    }
  }

  lemma {:induction false} CountPush(s: seq<MonitorLink>, l: MonitorLink, ref: string)
    ensures CountRef(s + [l], ref) == CountRef(s, ref) + if l.ref == ref then 1 else 0
  {
    if s == [] {
      assert s + [l] == [l];
    } else {
      assert (s + [l])[1..] == s[1..] + [l];
      CountPush(s[1..], l, ref);
    }
  }

  lemma {:induction false} CountAbsent(s: seq<MonitorLink>, ref: string)
    requires forall l :: l in s ==> l.ref != ref
    ensures CountRef(s, ref) == 0
  {
    if s != [] {
      assert s[0] in s;
      CountAbsent(s[1..], ref);
    }
  }

  lemma {:induction false} CountWithoutRef(s: seq<MonitorLink>, gone: string, ref: string)
    ensures CountRef(WithoutRef(s, gone), ref) == if gone == ref then 0 else CountRef(s, ref)
  {
    if s != [] {
      var rest := WithoutRef(s[1..], gone);
      CountWithoutRef(s[1..], gone, ref);
      assert ([s[0]] + rest)[1..] == rest && [] + rest == rest;
    }
  }

  lemma {:induction false} CountWithoutWatcher(s: seq<MonitorLink>, gone: ActorId, ref: string, watcher: ActorId)
    requires forall l :: l in s && l.ref == ref ==> l.watcher == watcher
    ensures CountRef(WithoutWatcher(s, gone), ref) == if gone == watcher then 0 else CountRef(s, ref)
  {
    if s != [] {
      var rest := WithoutWatcher(s[1..], gone);
      assert s[0] in s;
      CountWithoutWatcher(s[1..], gone, ref, watcher);
      assert ([s[0]] + rest)[1..] == rest && [] + rest == rest;
    }
  }

  // ---- one watch through one operation --------------------------------------------------------------

  function LinkOf(w: Op): MonitorLink
    requires w.Monitor?
  {
    MonitorLink(w.ref, w.watcher, w.scope)
  }

  /** The reference of `w` occurs only on its target's list, as that very link. */
  ghost predicate OnlyHere(m: Monitors, w: Op)
    requires w.Monitor?
  {
    forall t, l :: l in Watchers(m, t) && l.ref == w.ref ==> t == w.target && l == LinkOf(w)
  }

  /** The watch `w` occurs in the table once or not at all, and its reference nowhere else. */
  ghost predicate Holds(m: Monitors, w: Op, present: bool)
    requires w.Monitor?
  {
    OnlyHere(m, w) && CountRef(Watchers(m, w.target), w.ref) == if present then 1 else 0
  }

  predicate EndsTarget(op: Op, w: Op)
    requires w.Monitor?
  {
    op.Terminate? && op.actor == w.target
  }

  /** Operations that take the watch `w` out of the table. */
  predicate Ends(op: Op, w: Op)
    requires w.Monitor?
  {
    match op
    case Monitor(_, _, _, _) => false
    case Demonitor(t, r) => t == w.target && r == w.ref
    case Terminate(a, _) => a == w.target || a == w.watcher
    case Collect(stale) => w.target in stale
  }

  /** Each list after an operation. */
  lemma WatchersAfter(m: Monitors, op: Op, t: ActorId)
    ensures Watchers(ApplyTable(m, op), t) ==
            match op
            case Monitor(target, w, r, sc) =>
              if t == target then Watchers(m, t) + [MonitorLink(r, w, sc)] else Watchers(m, t)
            case Demonitor(target, r) => if t == target then WithoutRef(Watchers(m, t), r) else Watchers(m, t)
            case Terminate(a, _) => if t == a then [] else WithoutWatcher(Watchers(m, t), a)
            case Collect(stale) => if t in stale then [] else Watchers(m, t)
  {
  }

  lemma StepOnlyHere(m: Monitors, op: Op, w: Op)
    requires w.Monitor? && OnlyHere(m, w)
    requires op.Monitor? ==> op.ref != w.ref
    ensures OnlyHere(ApplyTable(m, op), w)
  {
    var m' := ApplyTable(m, op);
    forall t, l | l in Watchers(m', t) && l.ref == w.ref ensures t == w.target && l == LinkOf(w) {
      WatchersAfter(m, op, t);
      assert l in Watchers(m, t);
    }
  }

  lemma StepCount(m: Monitors, op: Op, w: Op)
    requires w.Monitor? && OnlyHere(m, w)
    requires op.Monitor? ==> op.ref != w.ref
    ensures CountRef(Watchers(ApplyTable(m, op), w.target), w.ref) ==
            if Ends(op, w) then 0 else CountRef(Watchers(m, w.target), w.ref)
  {
    WatchersAfter(m, op, w.target);
    var list := Watchers(m, w.target);
    match op
    case Monitor(_, _, _, _) => CountPush(list, LinkOf(op), w.ref);
    case Demonitor(_, r) => CountWithoutRef(list, r, w.ref);
    case Terminate(a, _) => CountWithoutWatcher(list, a, w.ref, w.watcher);
    case Collect(_) =>
  }

  /** An operation notifies the watch `w` once if it ends its target while the watch is there, and otherwise not. */
  lemma StepSends(m: Monitors, op: Op, w: Op, present: bool)
    requires w.Monitor? && Holds(m, w, present)
    ensures CountSent(SentBy(m, op), w.ref) == if present && EndsTarget(op, w) then 1 else 0
  {
    if op.Terminate? {
      CountDowns(Watchers(m, op.actor), op.actor, op.text, w.ref);
      if op.actor != w.target {
        CountAbsent(Watchers(m, op.actor), w.ref);
      }
    }
  }

  lemma StepHolds(m: Monitors, op: Op, w: Op, present: bool)
    requires w.Monitor? && Holds(m, w, present) && (op.Monitor? ==> op.ref != w.ref)
    ensures Holds(ApplyTable(m, op), w, present && !Ends(op, w))
    ensures CountSent(SentBy(m, op), w.ref) == if present && EndsTarget(op, w) then 1 else 0
  {
    StepOnlyHere(m, op, w);
    StepCount(m, op, w);
    StepSends(m, op, w, present);
  }

  lemma StartHolds(m: Monitors, w: Op)
    requires w.Monitor? && forall t, l :: l in Watchers(m, t) ==> l.ref != w.ref
    ensures Holds(ApplyTable(m, w), w, true)
  {
    CountAbsent(Watchers(m, w.target), w.ref);
    CountPush(Watchers(m, w.target), LinkOf(w), w.ref);
    forall t, l | l in Watchers(ApplyTable(m, w), t) && l.ref == w.ref ensures t == w.target && l == LinkOf(w) {
      WatchersAfter(m, w, t);
    }
  }

  // ---- whole runs -----------------------------------------------------------------------------------

  /** No operation strictly between `i` and `n` ended watch `i`. */
  ghost predicate Active(ops: seq<Op>, i: nat, n: nat)
    requires i < n <= |ops| && ops[i].Monitor?
  {
    forall k :: i < k < n ==> !Ends(ops[k], ops[i])
  }

  /** Before `n`, the target of watch `i` ended while the watch was still registered. */
  ghost predicate Due(ops: seq<Op>, i: nat, n: nat)
    requires i < n <= |ops| && ops[i].Monitor?
  {
    exists j :: i < j < n && EndsTarget(ops[j], ops[i]) && Active(ops, i, j)
  }

  lemma ActiveStep(ops: seq<Op>, i: nat, n: nat)
    requires i < n < |ops| && ops[i].Monitor?
    ensures Active(ops, i, n + 1) <==> Active(ops, i, n) && !Ends(ops[n], ops[i])
    ensures Due(ops, i, n + 1) <==> Due(ops, i, n) || (Active(ops, i, n) && EndsTarget(ops[n], ops[i]))
    ensures Due(ops, i, n) ==> !Active(ops, i, n)
  {
    if Due(ops, i, n) {
      var j :| i < j < n && EndsTarget(ops[j], ops[i]) && Active(ops, i, j);
      assert Ends(ops[j], ops[i]);
    }
  }

  /** A reference not handed out yet is neither in the table nor among what was sent. */
  lemma {:induction false} BeforeMonitor(ops: seq<Op>, i: nat, n: nat)
    requires n <= i < |ops| && ops[i].Monitor? && FreshRef(ops, i)
    ensures Unused(RunTo(ops, n), ops[i].ref)
  {
    if n > 0 {
      BeforeMonitor(ops, i, n - 1);
      StepKeepsUnused(RunTo(ops, n - 1), ops[n - 1], ops[i].ref);
    }
  }

  /** The reference is neither in the table nor among what was sent. */
  ghost predicate Unused(s: State, ref: string) {
    CountSent(s.sent, ref) == 0 && forall t, l :: l in Watchers(s.table, t) ==> l.ref != ref
  }

  lemma StepKeepsUnused(s: State, op: Op, r: string)
    requires Unused(s, r) && (op.Monitor? ==> op.ref != r)
    ensures Unused(Apply(s, op), r)
  {
    CountSentConcat(s.sent, SentBy(s.table, op), r);
    if op.Terminate? {
      CountAbsent(Watchers(s.table, op.actor), r);
      CountDowns(Watchers(s.table, op.actor), op.actor, op.text, r);
    }
    forall t, l | l in Watchers(ApplyTable(s.table, op), t) ensures l.ref != r { WatchersAfter(s.table, op, t); }
  }

  /** Watch `i` is in the table exactly while nothing has ended it, and was notified once if due, else never. */
  ghost predicate WatchOk(ops: seq<Op>, i: nat, n: nat)
    requires i < n <= |ops| && ops[i].Monitor?
  {
    && Holds(RunTo(ops, n).table, ops[i], Active(ops, i, n))
    && CountSent(RunTo(ops, n).sent, ops[i].ref) == if Due(ops, i, n) then 1 else 0
  }

  lemma {:induction false} WatchThroughRun(ops: seq<Op>, i: nat, n: nat)
    requires FreshRefs(ops) && i < n <= |ops| && ops[i].Monitor?
    ensures WatchOk(ops, i, n)
    decreases n
  {
    FreshAt(ops, i);
    WatchThrough(ops, i, n);
  }

  /** No other watch has the reference of watch `i`. */
  ghost predicate FreshRef(ops: seq<Op>, i: nat)
    requires i < |ops| && ops[i].Monitor?
  {
    forall j :: 0 <= j < |ops| && j != i && ops[j].Monitor? ==> ops[j].ref != ops[i].ref
  }

  lemma FreshAt(ops: seq<Op>, i: nat)
    requires FreshRefs(ops) && i < |ops| && ops[i].Monitor?
    ensures FreshRef(ops, i)
  {
  }

  lemma {:induction false} WatchThrough(ops: seq<Op>, i: nat, n: nat)
    requires i < n <= |ops| && ops[i].Monitor? && FreshRef(ops, i)
    ensures WatchOk(ops, i, n)
    decreases n
  {
    if n == i + 1 {
      WatchAtFirst(ops, i, n);
    } else {
      var m := n - 1;
      WatchThrough(ops, i, m);
      WatchOneMore(ops, i, m, n);
    }
  }

  lemma WatchAtFirst(ops: seq<Op>, i: nat, n: nat)
    requires n == i + 1 <= |ops| && ops[i].Monitor? && FreshRef(ops, i)
    ensures WatchOk(ops, i, n)
  {
    BeforeMonitor(ops, i, i);
    WatchBegins(RunTo(ops, i), ops[i]);
    assert RunTo(ops, n) == Apply(RunTo(ops, i), ops[i]);
    assert Active(ops, i, n) && !Due(ops, i, n);
  }

  lemma WatchOneMore(ops: seq<Op>, i: nat, m: nat, n: nat)
    requires i < m < n == m + 1 <= |ops| && ops[i].Monitor? && FreshRef(ops, i) && WatchOk(ops, i, m)
    ensures WatchOk(ops, i, n)
  {
    ActiveStep(ops, i, m);
    WatchGoesOn(RunTo(ops, m), ops[m], ops[i], Active(ops, i, m));
  }

  lemma WatchBegins(s: State, w: Op)
    requires w.Monitor? && Unused(s, w.ref)
    ensures Holds(Apply(s, w).table, w, true) && CountSent(Apply(s, w).sent, w.ref) == 0
  {
    CountSentConcat(s.sent, SentBy(s.table, w), w.ref);
    StartHolds(s.table, w);
  }

  lemma WatchGoesOn(s: State, op: Op, w: Op, present: bool)
    requires w.Monitor? && Holds(s.table, w, present) && (op.Monitor? ==> op.ref != w.ref)
    ensures Holds(Apply(s, op).table, w, present && !Ends(op, w))
    ensures CountSent(Apply(s, op).sent, w.ref) ==
            CountSent(s.sent, w.ref) + if present && EndsTarget(op, w) then 1 else 0
  {
    CountSentConcat(s.sent, SentBy(s.table, op), w.ref);
    StepHolds(s.table, op, w, present);
  }

  /**
    Delivery over whole runs. With fresh references, the notification for a watch is sent exactly once if its target
    ended while the watch was still registered, and never otherwise: not after a demonitor, not after its watcher
    ended, not after its target was collected, and not a second time.
   */
  lemma DownExactlyWhenDue(ops: seq<Op>, i: nat)
    requires FreshRefs(ops) && i < |ops| && ops[i].Monitor?
    ensures CountSent(Run(ops).sent, ops[i].ref) == if Due(ops, i, |ops|) then 1 else 0
  {
    WatchThroughRun(ops, i, |ops|);
  }

  lemma {:induction false} SentStays(ops: seq<Op>, n: nat, d: Down)
    requires n <= |ops| && d in RunTo(ops, n).sent
    ensures d in Run(ops).sent
    decreases |ops| - n
  {
    if n < |ops| {
      SentStays(ops, n + 1, d);
    }
  }

  lemma {:induction false} CountedIsThere(s: seq<MonitorLink>, ref: string) returns (l: MonitorLink)
    requires CountRef(s, ref) > 0
    ensures l in s && l.ref == ref
  {
    if s[0].ref == ref {
      l := s[0];
    } else {
      l := CountedIsThere(s[1..], ref);
    }
  }

  /**
    The notification that is due names the watch, its watcher and scope, the target, and the reason of that very end.
   */
  lemma DownCarriesReason(ops: seq<Op>, i: nat, j: nat)
    requires FreshRefs(ops) && i < j < |ops| && ops[i].Monitor? && EndsTarget(ops[j], ops[i]) && Active(ops, i, j)
    ensures Down(ops[i].ref, ops[i].watcher, ops[i].target, ops[i].scope, ops[j].text) in Run(ops).sent
  {
    WatchThroughRun(ops, i, j);
    DueIsSent(ops, i, j);
    SentStays(ops, j + 1, Down(ops[i].ref, ops[i].watcher, ops[i].target, ops[i].scope, ops[j].text));
  }

  lemma DueIsSent(ops: seq<Op>, i: nat, j: nat)
    requires i < j < |ops| && ops[i].Monitor? && EndsTarget(ops[j], ops[i]) && Holds(RunTo(ops, j).table, ops[i], true)
    ensures Down(ops[i].ref, ops[i].watcher, ops[i].target, ops[i].scope, ops[j].text) in RunTo(ops, j + 1).sent
  {
    assert ops[j] == Terminate(ops[i].target, ops[j].text);
    EndNotifies(RunTo(ops, j), ops[i], ops[j].text);
  }

  lemma EndNotifies(s: State, w: Op, text: string)
    requires w.Monitor? && Holds(s.table, w, true)
    ensures Down(w.ref, w.watcher, w.target, w.scope, text) in Apply(s, Terminate(w.target, text)).sent
  {
    var list := Watchers(s.table, w.target);
    var l := CountedIsThere(list, w.ref);
    var k :| 0 <= k < |list| && list[k] == l;
    assert Downs(list, w.target, text)[k] == Down(w.ref, w.watcher, w.target, w.scope, text);
  }

  // ---- order ----------------------------------------------------------------------------------------

  /** When the watch with this reference was set up, among the first `n` operations. */
  function MonitoredAt(ops: seq<Op>, n: nat, ref: string): (r: int)
    requires n <= |ops|
    ensures -1 <= r < n && (r >= 0 ==> ops[r].Monitor? && ops[r].ref == ref)
  {
    if n == 0 then -1
    else if ops[n - 1].Monitor? && ops[n - 1].ref == ref then n - 1
    else MonitoredAt(ops, n - 1, ref)
  }

  /** Watchers stand on a list, and so are told, in the order in which they began to watch. */
  lemma {:induction false} WatchersInOrder(ops: seq<Op>, n: nat, t: ActorId)
    requires FreshRefs(ops) && n <= |ops|
    ensures InOrder(Watchers(RunTo(ops, n).table, t), (l: MonitorLink) => MonitoredAt(ops, n, l.ref))
    ensures forall l :: l in Watchers(RunTo(ops, n).table, t) ==> MonitoredAt(ops, n, l.ref) >= 0
    decreases n
  {
    if n > 0 {
      var m := n - 1;
      var before := RunTo(ops, m).table;
      WatchersInOrder(ops, m, t);
      forall l | l in Watchers(before, t) ensures MonitoredAt(ops, n, l.ref) == MonitoredAt(ops, m, l.ref) {
        var i := MonitoredAt(ops, m, l.ref);
        assert ops[i].Monitor? && i < m;
      }
      var was, now := (l: MonitorLink) => MonitoredAt(ops, m, l.ref), (l: MonitorLink) => MonitoredAt(ops, n, l.ref);
      OneMoreWatcher(before, ops[m], t, m, was, now);
    }
  }

  lemma OneMoreWatcher(
    table: Monitors, op: Op, t: ActorId, n: nat, was: MonitorLink -> int, now: MonitorLink -> int)
    requires InOrder(Watchers(table, t), was)
    requires forall l :: l in Watchers(table, t) ==> 0 <= now(l) == was(l) < n
    requires op.Monitor? ==> now(LinkOf(op)) == n
    ensures InOrder(Watchers(ApplyTable(table, op), t), now)
    ensures forall l :: l in Watchers(ApplyTable(table, op), t) ==> now(l) >= 0
  {
    var list := Watchers(table, t);
    StillInOrder(list, was, now);
    match op
    case Monitor(_, _, _, _) => PushInOrder(list, LinkOf(op), was, now);
    case Demonitor(_, r) => WithoutRefInOrder(list, r, now);
    case Terminate(a, _) => WithoutWatcherInOrder(list, a, now);
    case Collect(_) =>
  }
}
