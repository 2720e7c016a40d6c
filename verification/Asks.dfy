/** Ask correlation: pending entries keyed by correlation id, each holding the sending half of a one-shot channel. */
module Asks {

  type Id = string

  datatype Message = Message(correlationId: Id, body: string)

  /** The receiving half's view: nothing yet, a reply waiting, or the sending half dropped without one. */
  datatype Channel = Open | Filled(reply: Message) | SenderDropped

  /** `entries` maps an id to its deadline; `channels` are the one-shots, which outlive their entries. */
  datatype Table = Table(entries: map<Id, int>, channels: map<Id, Channel>)

  function RegisterAsk(t: Table, c: Id, deadline: int): Table {
    Table(t.entries[c := deadline], t.channels[c := Open])
  }

  /** Remove the entry; the reply arrives only if the receiving half still exists. */
  function ResolveAsk(t: Table, c: Id, reply: Message, receiverAlive: bool): Table {
    if c !in t.entries then t
    else Table(t.entries - {c}, t.channels[c := if receiverAlive then Filled(reply) else SenderDropped])
  }

  function CancelAsk(t: Table, c: Id): Table {
    if c !in t.entries then t else Table(t.entries - {c}, t.channels[c := SenderDropped])
  }

  ghost function Expired(t: Table, now: int): set<Id> { set c | c in t.entries && t.entries[c] <= now }

  ghost function SweepAsks(t: Table, now: int): Table {
    Table(t.entries - Expired(t, now),
          map c | c in t.channels :: if c in Expired(t, now) then SenderDropped else t.channels[c])
  }

  class PendingAsks {
    var entries: map<Id, int>
    var channels: map<Id, Channel>

    ghost function State(): Table
      reads this
    {
      Table(entries, channels)
    }

    constructor ()
      ensures State() == Table(map[], map[])
    {
      entries, channels := map[], map[];
    }

    method Register(c: Id, deadline: int)
      modifies this
      ensures State() == RegisterAsk(old(State()), c, deadline)
    {
      channels := channels[c := Open];
      entries := entries[c := deadline];
    }

    /** Answers whether the reply was delivered: at most one caller per entry ever gets `true`. */
    method Resolve(c: Id, reply: Message, receiverAlive: bool) returns (delivered: bool)
      modifies this
      ensures State() == ResolveAsk(old(State()), c, reply, receiverAlive)
      ensures delivered <==> c in old(entries) && receiverAlive
      ensures delivered ==> c in channels && channels[c] == Filled(reply)
      ensures c !in entries
    {
      if c in entries {
        entries := entries - {c};
        channels := channels[c := if receiverAlive then Filled(reply) else SenderDropped];
        delivered := receiverAlive;
      } else {
        delivered := false;
      }
    }

    method Cancel(c: Id)
      modifies this
      ensures State() == CancelAsk(old(State()), c)
    {
      if c in entries {
        entries := entries - {c};
        channels := channels[c := SenderDropped];
      }
    }

    method SweepExpired(now: int) returns (count: nat)
      modifies this
      ensures State() == SweepAsks(old(State()), now)
      ensures count == |Expired(old(State()), now)|
    {
      var swept;
      entries, swept, count := Sift(entries, now);
      // An entry that goes takes the sending half of its channel with it.
      channels := map c | c in channels :: if c in swept then SenderDropped else channels[c];
    }

    /** The counting `retain`: entries whose deadline has passed go, the others stay. */
    static method Sift(all: map<Id, int>, now: int) returns (kept: map<Id, int>, swept: set<Id>, count: nat)
      ensures swept == set c | c in all && all[c] <= now
      ensures kept == all - swept && count == |swept|
    {
      kept, swept, count := all, {}, 0;
      var todo := all.Keys;
      while todo != {}
        invariant todo <= all.Keys
        invariant forall c :: c in swept <==> c in all && all[c] <= now && c !in todo
        invariant count == |swept| && kept == all - swept
        decreases |todo|
      {
        var c :| c in todo;
        todo := todo - {c};
        if all[c] <= now {
          assert c !in swept;
          kept, swept, count := kept - {c}, swept + {c}, count + 1;
        }
      }
    }
  }

  // ---- many asks, replies, timers and sweeps, in any order ---------------------------------------------------

  datatype Outcome = Replied(reply: Message) | Closed | Timeout | DispatchError

  /**
    A local `ask` call: dispatching; waiting; having just seen its channel empty; having then seen its timer elapsed,
    with the receiving half still there; about to cancel after a timeout or a failed dispatch; returned.
   */
  datatype Pc = Dispatching | Waiting | Looked | Elapsed | TimedOut | FailedDispatch | Done(outcome: Outcome)

  /** `deadline`, `late` and `delivered`: when each ask expires, whether its timer has, and replies handed to it. */
  datatype System = System(
    table: Table, pc: map<Id, Pc>, deadline: map<Id, int>, late: set<Id>, delivered: map<Id, nat>)

  datatype Event =
    | Start(c: Id, deadline: int)
    | DispatchOk(c: Id)
    | DispatchFails(c: Id)
    | CancelFailed(c: Id)
    | Reply(m: Message)
    | Sweep(now: int)
    | TimeUp(c: Id)
    | Receive(c: Id)
    | LookAtChannel(c: Id)
    | TimerPending(c: Id)
    | TimerFires(c: Id)
    | DropReceiver(c: Id)
    | CancelTimedOut(c: Id)

  const INIT := System(Table(map[], map[]), map[], map[], {}, map[])

  /** The receiving half is dropped only after the timer was seen. */
  predicate ReceiverAlive(s: System, c: Id) { c in s.pc && !s.pc[c].TimedOut? && !s.pc[c].Done? }

  predicate At(s: System, c: Id, p: Pc) { c in s.pc && s.pc[c] == p }

  function ChannelOf(s: System, c: Id): Channel { if c in s.table.channels then s.table.channels[c] else Open }

  /** Correlation ids are fresh. A poll looks at the channel and, if that is empty, at the timer. */
  predicate Enabled(s: System, e: Event) {
    match e
    case Start(c, _) => c !in s.pc
    case DispatchOk(c) => At(s, c, Dispatching)
    case DispatchFails(c) => At(s, c, Dispatching)
    case CancelFailed(c) => At(s, c, FailedDispatch)
    case Reply(_) => true
    case Sweep(_) => true
    case TimeUp(c) => c in s.pc
    case Receive(c) => At(s, c, Waiting) && !ChannelOf(s, c).Open?
    case LookAtChannel(c) => At(s, c, Waiting) && ChannelOf(s, c).Open?
    case TimerPending(c) => At(s, c, Looked) && c !in s.late
    case TimerFires(c) => At(s, c, Looked) && c in s.late
    case DropReceiver(c) => At(s, c, Elapsed)
    case CancelTimedOut(c) => At(s, c, TimedOut)
  }

  function Move(s: System, c: Id, p: Pc): System { s.(pc := s.pc[c := p]) }

  ghost function Next(s: System, e: Event): System {
    match e
    case Start(c, d) =>
      System(RegisterAsk(s.table, c, d), s.pc[c := Dispatching], s.deadline[c := d], s.late, s.delivered[c := 0])
    case DispatchOk(c) => Move(s, c, Waiting)
    case DispatchFails(c) => Move(s, c, FailedDispatch)
    case CancelFailed(c) => Move(s.(table := CancelAsk(s.table, c)), c, Done(DispatchError))
    case Reply(m) =>
      var c := m.correlationId;
      s.(table := ResolveAsk(s.table, c, m, ReceiverAlive(s, c)),
         delivered := if c in s.table.entries && ReceiverAlive(s, c) && c in s.delivered
                      then s.delivered[c := s.delivered[c] + 1] else s.delivered)
    case Sweep(now) => s.(table := SweepAsks(s.table, now))
    case TimeUp(c) => s.(late := s.late + {c})
    case Receive(c) => Move(s, c, Done(match ChannelOf(s, c) case Filled(m) => Replied(m) case _ => Closed))
    case LookAtChannel(c) => Move(s, c, Looked)
    case TimerPending(c) => Move(s, c, Waiting)
    case TimerFires(c) => Move(s, c, Elapsed)
    case DropReceiver(c) => Move(s, c, TimedOut)
    case CancelTimedOut(c) => Move(s.(table := CancelAsk(s.table, c)), c, Done(Timeout))
  }

  /** `es` leads from `s` to `t`. */
  ghost predicate Run(s: System, es: seq<Event>, t: System)
    decreases |es|
  {
    if es == [] then s == t
    else
      var n := |es| - 1;
      exists m :: Run(s, es[..n], m) && Enabled(m, es[n]) && t == Next(m, es[n])
  }

  /** Everything that is always true of one ask. */
  ghost predicate AskOk(s: System, c: Id)
    requires c in s.pc
  {
    && c in s.table.channels && c in s.delivered && c in s.deadline
    && (c in s.table.entries <==> s.table.channels[c].Open?)
    && (c in s.table.entries ==> s.table.entries[c] == s.deadline[c] && !s.pc[c].Done?)
    && (s.table.channels[c].Filled? ==> s.table.channels[c].reply.correlationId == c)
    && s.delivered[c] == (if s.table.channels[c].Filled? then 1 else 0)
    && (s.pc[c].Done? ==>
          match s.pc[c].outcome
          case Replied(m) => s.table.channels[c] == Filled(m)
          case Closed => s.table.channels[c].SenderDropped?
          case _ => true)
  }

  ghost predicate Inv(s: System) {
    s.table.entries.Keys <= s.pc.Keys && forall c :: c in s.pc ==> AskOk(s, c)
  }

  lemma StepKeepsAsk(s: System, e: Event, c: Id)
    requires Inv(s) && Enabled(s, e) && c in Next(s, e).pc
    ensures AskOk(Next(s, e), c)
  {
    if c in s.pc { assert AskOk(s, c); }
  }

  lemma StepKeepsInv(s: System, e: Event)
    requires Inv(s) && Enabled(s, e)
    ensures Inv(Next(s, e))
  {
    forall c | c in Next(s, e).pc ensures AskOk(Next(s, e), c) { StepKeepsAsk(s, e, c); }
  }

  /** Once returned, the outcome never changes and neither does what was delivered. */
  lemma StepKeepsOutcome(s: System, e: Event, c: Id)
    requires Inv(s) && Enabled(s, e) && c in s.pc
    ensures c in Next(s, e).pc && c in s.delivered && c in Next(s, e).delivered
    ensures s.pc[c].Done? ==> Next(s, e).pc[c] == s.pc[c] && Next(s, e).delivered[c] == s.delivered[c]
  {
    assert AskOk(s, c);
  }

  ghost predicate Final(s: System, t: System, c: Id) {
    && c in s.pc && c in t.pc && c in s.delivered && c in t.delivered
    && t.pc[c] == s.pc[c] && t.delivered[c] == s.delivered[c]
  }

  lemma {:induction false} RunKeepsInv(s: System, es: seq<Event>, t: System)
    requires Inv(s) && Run(s, es, t)
    ensures Inv(t)
    ensures forall c :: c in s.pc && s.pc[c].Done? ==> Final(s, t, c)
    decreases |es|
  {
    if es == [] {
      forall c | c in s.pc ensures c in s.delivered { assert AskOk(s, c); }
    } else {
      var n := |es| - 1;
      var m :| Run(s, es[..n], m) && Enabled(m, es[n]) && t == Next(m, es[n]);
      RunKeepsInv(s, es[..n], m);
      StepKeepsInv(m, es[n]);
      forall c | c in s.pc && s.pc[c].Done? ensures Final(s, t, c) {
        assert Final(s, m, c);
        StepKeepsOutcome(m, es[n], c);
      }
    }
  }

  /**
    Ask correctness, in every interleaving of replies, duplicate replies, timers, dispatch failures and sweeps: a
    returned ask has no entry left, an answer carries its own correlation id, no entry delivers twice, an ask that
    found its channel closed had no reply delivered, and outcomes are final.
   */
  lemma AskIsCorrect(es: seq<Event>, s: System, fs: seq<Event>, t: System, c: Id)
    requires Run(INIT, es, s) && Run(s, fs, t) && c in s.pc
    ensures c in s.delivered && s.delivered[c] <= 1
    ensures s.pc[c].Done? ==> c !in s.table.entries
    ensures s.pc[c].Done? && s.pc[c].outcome.Replied? ==>
            s.pc[c].outcome.reply.correlationId == c && s.delivered[c] == 1
    ensures s.pc[c].Done? && s.pc[c].outcome.Closed? ==> s.delivered[c] == 0
    ensures s.pc[c].Done? ==> Final(s, t, c)
  {
    RunKeepsInv(INIT, es, s);
    RunKeepsInv(s, fs, t);
    assert AskOk(s, c);
  }

  // ---- a reply that is delivered and lost ------------------------------------------------------------------------

  predicate IsReply(e: Event, c: Id) { e.Reply? && e.m.correlationId == c }

  predicate Sweeps(e: Event, deadline: int) { e.Sweep? && deadline <= e.now }

  /** After position `i`, neither a reply to `c` nor a sweep that reaches its deadline. */
  ghost predicate Untouched(es: seq<Event>, i: int, c: Id, deadline: int) {
    forall n :: 0 <= n < |es| && i < n ==> !IsReply(es[n], c) && !Sweeps(es[n], deadline)
  }

  /** After position `i` a reply to `c` comes before any sweep that reaches its deadline. */
  ghost predicate Answered(es: seq<Event>, i: int, c: Id, deadline: int) {
    exists j :: 0 <= j < |es| && i < j && IsReply(es[j], c) && Untouched(es[..j], i, c, deadline)
  }

  lemma UntouchedSnoc(es: seq<Event>, e: Event, i: int, c: Id, deadline: int)
    requires i < |es|
    ensures Untouched(es + [e], i, c, deadline) <==>
            Untouched(es, i, c, deadline) && !IsReply(e, c) && !Sweeps(e, deadline)
  {
    var fs := es + [e];
    assert fs[|es|] == e && forall n :: 0 <= n < |es| ==> fs[n] == es[n];
  }

  lemma AnsweredSnoc(es: seq<Event>, e: Event, i: int, c: Id, deadline: int)
    requires i < |es|
    ensures Answered(es + [e], i, c, deadline) <==>
            Answered(es, i, c, deadline) || (IsReply(e, c) && Untouched(es, i, c, deadline))
  {
    var fs := es + [e];
    assert fs[..|es|] == es && fs[|es|] == e;
    assert forall j :: 0 <= j < |es| ==> fs[..j] == es[..j] && fs[j] == es[j];
    if Answered(es, i, c, deadline) {
      var j :| 0 <= j < |es| && i < j && IsReply(es[j], c) && Untouched(es[..j], i, c, deadline);
      assert IsReply(fs[j], c) && Untouched(fs[..j], i, c, deadline);
    }
    if IsReply(e, c) && Untouched(es, i, c, deadline) {
      assert IsReply(fs[|es|], c) && Untouched(fs[..|es|], i, c, deadline);
    }
    if Answered(fs, i, c, deadline) {
      var j :| 0 <= j < |fs| && i < j && IsReply(fs[j], c) && Untouched(fs[..j], i, c, deadline);
      if j < |es| { assert IsReply(es[j], c) && Untouched(es[..j], i, c, deadline); }
    }
  }

  /** Position `i` is the last time the ask looked at its channel. */
  ghost predicate LastLook(es: seq<Event>, i: int, c: Id) {
    0 <= i < |es| && es[i] == LookAtChannel(c) && forall n :: i < n < |es| ==> es[n] != LookAtChannel(c)
  }

  lemma LastLookSnoc(es: seq<Event>, e: Event, i: int, c: Id)
    ensures LastLook(es, i, c) && e != LookAtChannel(c) ==> LastLook(es + [e], i, c)
    ensures e == LookAtChannel(c) ==> LastLook(es + [e], |es|, c)
  {
    var fs := es + [e];
    assert fs[|es|] == e && forall n :: 0 <= n < |es| ==> fs[n] == es[n];
  }

  /** Since position `i` the channel holds what came first. */
  ghost predicate Since(s: System, es: seq<Event>, c: Id, i: int)
    requires c in s.pc && AskOk(s, c)
  {
    && (s.table.channels[c].Open? <==> Untouched(es, i, c, s.deadline[c]))
    && (s.table.channels[c].Filled? <==> Answered(es, i, c, s.deadline[c]))
  }

  ghost predicate Begun(s: System, es: seq<Event>, c: Id, i: int)
    requires c in s.pc && AskOk(s, c)
  {
    0 <= i < |es| && es[i] == Start(c, s.deadline[c]) && Since(s, es, c, i)
  }

  ghost predicate Watching(s: System, es: seq<Event>, c: Id, i: int)
    requires c in s.pc && AskOk(s, c)
  {
    LastLook(es, i, c) && Since(s, es, c, i)
  }

  /** The event at `k` ended the wait that began at `i`; what was delivered is what came first in between. */
  ghost predicate Sealed(s: System, es: seq<Event>, c: Id, i: int, k: int)
    requires c in s.pc && AskOk(s, c)
  {
    && 0 <= i < k < |es|
    && (s.table.channels[c].Filled? <==> Answered(es[..k], i, c, s.deadline[c]))
  }

  /** The drop at `k` ended the watch that began at its last look at `i`. */
  ghost predicate Dropped(s: System, es: seq<Event>, c: Id, i: int, k: int)
    requires c in s.pc && AskOk(s, c)
  {
    Sealed(s, es, c, i, k) && es[k] == DropReceiver(c) && LastLook(es[..k], i, c)
  }

  /** The cancel at `k` ended an ask that began at `i` and could not be dispatched. */
  ghost predicate Cancelled(s: System, es: seq<Event>, c: Id, i: int, k: int)
    requires c in s.pc && AskOk(s, c)
  {
    Sealed(s, es, c, i, k) && es[k] == CancelFailed(c) && es[i] == Start(c, s.deadline[c])
  }

  /** Where an ask is, and what its history says about its channel. */
  ghost predicate HistoryOk(s: System, es: seq<Event>, c: Id)
    requires c in s.pc && AskOk(s, c)
  {
    match s.pc[c]
    case Dispatching => exists i :: Begun(s, es, c, i)
    case FailedDispatch => exists i :: Begun(s, es, c, i)
    case Looked => exists i :: Watching(s, es, c, i)
    case Elapsed => exists i :: Watching(s, es, c, i)
    case TimedOut => exists i, k :: Dropped(s, es, c, i, k)
    case Done(o) =>
      && (o.Timeout? ==> exists i, k :: Dropped(s, es, c, i, k))
      && (o.DispatchError? ==> exists i, k :: Cancelled(s, es, c, i, k))
    case Waiting => true
  }

  /** While the receiving half is there, only the first reply or a sweep past the deadline changes an open channel. */
  lemma ChannelAfter(s: System, e: Event, c: Id)
    requires Inv(s) && Enabled(s, e) && c in s.pc && AskOk(s, c) && ReceiverAlive(s, c) && e != CancelFailed(c)
    ensures c in Next(s, e).table.channels && Next(s, e).deadline[c] == s.deadline[c]
    ensures var was, now := s.table.channels[c], Next(s, e).table.channels[c];
            && (!was.Open? ==> now == was)
            && (was.Open? ==> (now.Open? <==> !IsReply(e, c) && !Sweeps(e, s.deadline[c])))
            && (was.Open? ==> (now.Filled? <==> IsReply(e, c)))
  {
    match e
    case Reply(m) => assert ReceiverAlive(s, c);
    case Sweep(now) => assert c in Expired(s.table, now) <==> c in s.table.entries && s.deadline[c] <= now;
    case _ =>
  }

  lemma UntouchedOrAnswered(es: seq<Event>, i: int, c: Id, deadline: int)
    ensures Untouched(es, i, c, deadline) ==> !Answered(es, i, c, deadline)
  {
  }

  lemma SinceAfter(s: System, es: seq<Event>, e: Event, c: Id, i: int)
    requires Inv(s) && Enabled(s, e) && c in s.pc && AskOk(s, c) && ReceiverAlive(s, c) && e != CancelFailed(c)
    requires i < |es| && Since(s, es, c, i) && c in Next(s, e).pc && AskOk(Next(s, e), c)
    ensures Since(Next(s, e), es + [e], c, i)
  {
    UntouchedSnoc(es, e, i, c, s.deadline[c]);
    AnsweredSnoc(es, e, i, c, s.deadline[c]);
    ChannelAfter(s, e, c);
    UntouchedOrAnswered(es, i, c, s.deadline[c]);
  }

  /** Once closed, what was delivered stays. */
  lemma ClosedAfter(s: System, es: seq<Event>, e: Event, c: Id, i: int, k: int)
    requires Inv(s) && Enabled(s, e) && c in s.pc && AskOk(s, c) && !ReceiverAlive(s, c)
    requires Sealed(s, es, c, i, k) && c in Next(s, e).pc && AskOk(Next(s, e), c)
    ensures Sealed(Next(s, e), es + [e], c, i, k) && (es + [e])[..k] == es[..k] && (es + [e])[k] == es[k]
    ensures (es + [e])[i] == es[i] && Next(s, e).deadline[c] == s.deadline[c]
  {
    assert (es + [e])[..k] == es[..k];
  }

  lemma BeginHistory(s: System, es: seq<Event>, c: Id, d: int)
    requires Enabled(s, Start(c, d)) && c in Next(s, Start(c, d)).pc && AskOk(Next(s, Start(c, d)), c)
    ensures Begun(Next(s, Start(c, d)), es + [Start(c, d)], c, |es|)
  {
  }

  lemma DispatchHistory(s: System, es: seq<Event>, e: Event, c: Id)
    requires Inv(s) && Enabled(s, e) && c in s.pc && AskOk(s, c) && AskOk(Next(s, e), c)
    requires (s.pc[c].Dispatching? || s.pc[c].FailedDispatch?) && HistoryOk(s, es, c)
    ensures HistoryOk(Next(s, e), es + [e], c)
  {
    var i :| Begun(s, es, c, i);
    var fs, t := es + [e], Next(s, e);
    assert fs[i] == es[i] && fs[..|es|] == es && fs[|es|] == e;
    if e == CancelFailed(c) {
      assert Cancelled(t, fs, c, i, |es|);
    } else {
      SinceAfter(s, es, e, c, i);
      assert Begun(t, fs, c, i);
    }
  }

  lemma WatchHistory(s: System, es: seq<Event>, e: Event, c: Id)
    requires Inv(s) && Enabled(s, e) && c in s.pc && AskOk(s, c) && AskOk(Next(s, e), c)
    requires (s.pc[c].Looked? || s.pc[c].Elapsed?) && HistoryOk(s, es, c)
    ensures HistoryOk(Next(s, e), es + [e], c)
  {
    var i :| Watching(s, es, c, i);
    var fs, t := es + [e], Next(s, e);
    assert fs[..|es|] == es && fs[|es|] == e;
    LastLookSnoc(es, e, i, c);
    SinceAfter(s, es, e, c, i);
    if e == DropReceiver(c) {
      assert Dropped(t, fs, c, i, |es|);
    } else {
      assert Watching(t, fs, c, i);
    }
  }

  lemma ClosedHistory(s: System, es: seq<Event>, e: Event, c: Id)
    requires Inv(s) && Enabled(s, e) && c in s.pc && AskOk(s, c) && AskOk(Next(s, e), c)
    requires (s.pc[c].TimedOut? || s.pc[c].Done?) && HistoryOk(s, es, c)
    ensures HistoryOk(Next(s, e), es + [e], c)
  {
    var fs, t := es + [e], Next(s, e);
    if s.pc[c].TimedOut? || s.pc[c].outcome.Timeout? {
      var i, k :| Dropped(s, es, c, i, k);
      ClosedAfter(s, es, e, c, i, k);
      assert Dropped(t, fs, c, i, k);
    } else if s.pc[c].outcome.DispatchError? {
      var i, k :| Cancelled(s, es, c, i, k);
      ClosedAfter(s, es, e, c, i, k);
      assert Cancelled(t, fs, c, i, k);
    }
  }

  lemma LookHistory(s: System, es: seq<Event>, c: Id)
    requires c in s.pc && Enabled(s, LookAtChannel(c)) && AskOk(s, c) && AskOk(Next(s, LookAtChannel(c)), c)
    ensures Watching(Next(s, LookAtChannel(c)), es + [LookAtChannel(c)], c, |es|)
  {
    LastLookSnoc(es, LookAtChannel(c), 0, c);
  }

  lemma StepKeepsHistory(s: System, es: seq<Event>, e: Event, c: Id)
    requires Inv(s) && Inv(Next(s, e)) && Enabled(s, e) && c in Next(s, e).pc
    requires c in s.pc ==> AskOk(s, c) && HistoryOk(s, es, c)
    ensures AskOk(Next(s, e), c) && HistoryOk(Next(s, e), es + [e], c)
  {
    assert AskOk(Next(s, e), c);
    if c !in s.pc {
      BeginHistory(s, es, c, e.deadline);
    } else {
      match s.pc[c]
      case Dispatching => DispatchHistory(s, es, e, c);
      case FailedDispatch => DispatchHistory(s, es, e, c);
      case Looked => WatchHistory(s, es, e, c);
      case Elapsed => WatchHistory(s, es, e, c);
      case TimedOut => ClosedHistory(s, es, e, c);
      case Done(_) => ClosedHistory(s, es, e, c);
      case Waiting => if e == LookAtChannel(c) { LookHistory(s, es, c); }
    }
  }

  lemma {:induction false} RunKeepsHistory(es: seq<Event>, t: System, c: Id)
    requires Run(INIT, es, t) && c in t.pc
    ensures AskOk(t, c) && HistoryOk(t, es, c)
    decreases |es|
  {
    if es != [] {
      var before, e, m := RunCut(es, t);
      if c in m.pc { RunKeepsHistory(before, m, c); }
      StepKeepsHistory(m, before, e, c);
    }
  }

  lemma RunCut(es: seq<Event>, t: System) returns (before: seq<Event>, e: Event, m: System)
    requires Run(INIT, es, t) && es != []
    ensures es == before + [e] && Run(INIT, before, m) && Enabled(m, e) && t == Next(m, e) && Inv(m) && Inv(t)
  {
    var n := |es| - 1;
    before, e := es[..n], es[n];
    m :| Run(INIT, before, m) && Enabled(m, e) && t == Next(m, e);
    RunKeepsInv(INIT, before, m);
    StepKeepsInv(m, e);
  }

  /**
    Between its last look at the channel and the drop of the receiving half, a reply came ahead of any sweep past its
    deadline.
   */
  ghost predicate AnsweredTooLate(es: seq<Event>, c: Id, deadline: int) {
    exists i, k ::
      0 <= i < k < |es| && es[k] == DropReceiver(c) && LastLook(es[..k], i, c) && Answered(es[..k], i, c, deadline)
  }

  /** Between its start and the cancel after a failed dispatch, a reply came ahead of any sweep past its deadline. */
  ghost predicate AnsweredAnyway(es: seq<Event>, c: Id, deadline: int) {
    exists i, k ::
      0 <= i < k < |es| && es[i] == Start(c, deadline) && es[k] == CancelFailed(c) && Answered(es[..k], i, c, deadline)
  }

  /** An ask starts, drops its receiving half and cancels at most once. */
  ghost predicate Once(es: seq<Event>, e: Event) { forall i, j :: 0 <= i < j < |es| && es[i] == e ==> es[j] != e }

  lemma DropEnds(s: System, e: Event, c: Id)
    requires Inv(s) && Enabled(s, e)
    ensures e == DropReceiver(c) || e == CancelFailed(c) ==> ReceiverAlive(s, c) && !ReceiverAlive(Next(s, e), c)
    ensures (exists d :: e == Start(c, d)) ==> c !in s.pc && c in Next(s, e).pc
    ensures c in s.pc ==> c in Next(s, e).pc
    ensures c in s.pc && !ReceiverAlive(s, c) ==> !ReceiverAlive(Next(s, e), c)
  {
  }

  /** What the marker events of one ask say about where it is. */
  ghost predicate Marked(s: System, es: seq<Event>, c: Id) {
    && ((exists d :: Start(c, d) in es) ==> c in s.pc)
    && (DropReceiver(c) in es || CancelFailed(c) in es ==> c in s.pc && !ReceiverAlive(s, c))
    && Once(es, DropReceiver(c)) && Once(es, CancelFailed(c)) && forall d :: Once(es, Start(c, d))
  }

  lemma StepKeepsMarked(s: System, es: seq<Event>, e: Event, c: Id)
    requires Inv(s) && Enabled(s, e) && Marked(s, es, c)
    ensures Marked(Next(s, e), es + [e], c)
  {
    DropEnds(s, e, c);
    assert forall x :: x in es + [e] <==> x in es || x == e;
    OnceSnoc(es, e, DropReceiver(c));
    OnceSnoc(es, e, CancelFailed(c));
    forall d ensures Once(es + [e], Start(c, d)) { OnceSnoc(es, e, Start(c, d)); }
  }

  lemma OnceSnoc(es: seq<Event>, e: Event, x: Event)
    requires Once(es, x) && (e == x ==> x !in es)
    ensures Once(es + [e], x)
  {
    assert forall n :: 0 <= n < |es| ==> (es + [e])[n] == es[n] && es[n] in es;
  }

  lemma {:induction false} RunKeepsMarked(es: seq<Event>, t: System, c: Id)
    requires Run(INIT, es, t)
    ensures Marked(t, es, c)
    decreases |es|
  {
    if es != [] {
      var before, e, m := RunCut(es, t);
      RunKeepsMarked(before, m, c);
      StepKeepsMarked(m, before, e, c);
    }
  }

  /** There is only one last look before the one drop, so the condition does not depend on which is named. */
  lemma TooLateIff(es: seq<Event>, c: Id, deadline: int, i: int, k: int)
    requires 0 <= i < k < |es| && es[k] == DropReceiver(c) && LastLook(es[..k], i, c) && Once(es, DropReceiver(c))
    ensures AnsweredTooLate(es, c, deadline) <==> Answered(es[..k], i, c, deadline)
  {
    if AnsweredTooLate(es, c, deadline) {
      var i', k' :| 0 <= i' < k' < |es| && es[k'] == DropReceiver(c) && LastLook(es[..k'], i', c)
        && Answered(es[..k'], i', c, deadline);
      assert k' == k;
      assert i' == i by { assert es[..k][i] == es[i] && es[..k][i'] == es[i']; }
    }
  }

  lemma AnywayIff(es: seq<Event>, c: Id, deadline: int, i: int, k: int)
    requires 0 <= i < k < |es| && es[i] == Start(c, deadline) && es[k] == CancelFailed(c)
    requires Once(es, CancelFailed(c)) && Once(es, Start(c, deadline))
    ensures AnsweredAnyway(es, c, deadline) <==> Answered(es[..k], i, c, deadline)
  {
    if AnsweredAnyway(es, c, deadline) {
      var i', k' :| 0 <= i' < k' < |es| && es[i'] == Start(c, deadline) && es[k'] == CancelFailed(c)
        && Answered(es[..k'], i', c, deadline);
      assert k' == k && i' == i;
    }
  }

  ghost predicate Lost(t: System, c: Id)
    requires c in t.pc && AskOk(t, c)
  {
    t.pc[c].Done? && !t.pc[c].outcome.Replied? && t.delivered[c] == 1
  }

  /**
    Lost replies, exactly. A returned ask had a reply delivered that it does not return if and only if it timed out and
    was answered after its last look, or its dispatch failed and it was answered all the same.
   */
  lemma LostReplyIff(es: seq<Event>, t: System, c: Id)
    requires Run(INIT, es, t) && c in t.pc && t.pc[c].Done?
    ensures AskOk(t, c)
    ensures Lost(t, c) <==>
            || (t.pc[c].outcome.Timeout? && AnsweredTooLate(es, c, t.deadline[c]))
            || (t.pc[c].outcome.DispatchError? && AnsweredAnyway(es, c, t.deadline[c]))
  {
    RunKeepsHistory(es, t, c);
    RunKeepsMarked(es, t, c);
    if t.pc[c].outcome.Timeout? {
      var i, k :| Dropped(t, es, c, i, k);
      TooLateIff(es, c, t.deadline[c], i, k);
    } else if t.pc[c].outcome.DispatchError? {
      var i, k :| Cancelled(t, es, c, i, k);
      AnywayIff(es, c, t.deadline[c], i, k);
    }
  }

  ghost predicate Reaches(s: System, t: System) { exists es :: Run(s, es, t) }

  lemma Extend(s: System, m: System, e: Event, t: System)
    requires Reaches(s, m) && Enabled(m, e) && t == Next(m, e)
    ensures Reaches(s, t)
  {
    var es :| Run(s, es, m);
    var fs := es + [e];
    assert fs[..|fs| - 1] == es && fs[|es|] == e;
    assert Run(s, fs, t);
  }

  /** Both happen: the actor answers although the dispatch is reported failed, */
  lemma LostToFailureReachable(m: Message, deadline: int)
    ensures exists t :: Reaches(INIT, t) && At(t, m.correlationId, Done(DispatchError))
              && m.correlationId in t.delivered && t.delivered[m.correlationId] == 1
  {
    var c := m.correlationId;
    assert Run(INIT, [], INIT);
    var s1 := Next(INIT, Start(c, deadline));
    Extend(INIT, INIT, Start(c, deadline), s1);
    var s2 := Next(s1, Reply(m));
    Extend(INIT, s1, Reply(m), s2);
    var s3 := Next(s2, DispatchFails(c));
    Extend(INIT, s2, DispatchFails(c), s3);
    Extend(INIT, s3, CancelFailed(c), Next(s3, CancelFailed(c)));
  }

  /** ... or the reply arrives after the ask has looked, and both sides believe in their own outcome. */
  lemma LostReplyReachable(m: Message, deadline: int)
    ensures exists t :: Reaches(INIT, t) && At(t, m.correlationId, Done(Timeout))
              && m.correlationId in t.delivered && t.delivered[m.correlationId] == 1
  {
    var c := m.correlationId;
    var s5 := LooksThenElapses(c, deadline);
    var s6 := Next(s5, Reply(m));
    Extend(INIT, s5, Reply(m), s6);
    var s7 := Next(s6, DropReceiver(c));
    Extend(INIT, s6, DropReceiver(c), s7);
    Extend(INIT, s7, CancelTimedOut(c), Next(s7, CancelTimedOut(c)));
  }

  lemma LooksThenElapses(c: Id, deadline: int) returns (s: System)
    ensures Reaches(INIT, s) && At(s, c, Elapsed) && c in s.table.entries && c in s.delivered && s.delivered[c] == 0
  {
    assert Run(INIT, [], INIT);
    var s1 := Next(INIT, Start(c, deadline));
    Extend(INIT, INIT, Start(c, deadline), s1);
    var s2 := Next(s1, DispatchOk(c));
    Extend(INIT, s1, DispatchOk(c), s2);
    var s3 := Next(s2, LookAtChannel(c));
    Extend(INIT, s2, LookAtChannel(c), s3);
    var s4 := Next(s3, TimeUp(c));
    Extend(INIT, s3, TimeUp(c), s4);
    s := Next(s4, TimerFires(c));
    Extend(INIT, s4, TimerFires(c), s);
  }

  // ---- it returns -----------------------------------------------------------------------------------------------

  /** Steps a call can still take itself once its timer has elapsed. */
  function StepsLeft(p: Pc): nat {
    match p
    case Dispatching => 6
    case Waiting => 5
    case Looked => 4
    case Elapsed => 3
    case TimedOut => 2
    case FailedDispatch => 1
    case Done(_) => 0
  }

  predicate Own(e: Event, c: Id) {
    && (e.DispatchOk? || e.DispatchFails? || e.CancelFailed? || e.Receive? || e.LookAtChannel? || e.TimerPending?
        || e.TimerFires? || e.DropReceiver? || e.CancelTimedOut?)
    && e.c == c
  }

  /**
    An ask never hangs: until it has returned a step of its own is possible, nobody else moves it, and once its timer
    has elapsed (which nothing undoes) each of its steps brings it closer.
   */
  lemma AskReturns(s: System, c: Id)
    requires c in s.pc && !s.pc[c].Done?
    ensures exists e :: Own(e, c) && Enabled(s, e)
    ensures forall e :: Enabled(s, e) ==> OwnProgress(s, e, c)
  {
    var e := match s.pc[c]
      case Dispatching => DispatchOk(c)
      case Waiting => if ChannelOf(s, c).Open? then LookAtChannel(c) else Receive(c)
      case Looked => if c in s.late then TimerFires(c) else TimerPending(c)
      case Elapsed => DropReceiver(c)
      case TimedOut => CancelTimedOut(c)
      case FailedDispatch => CancelFailed(c)
      case Done(_) => Receive(c);
    assert Own(e, c) && Enabled(s, e);
    forall f | Enabled(s, f) ensures OwnProgress(s, f, c) { OneStep(s, f, c); }
  }

  ghost predicate OwnProgress(s: System, e: Event, c: Id)
    requires c in s.pc
  {
    && c in Next(s, e).pc && (c in s.late ==> c in Next(s, e).late)
    && (!Own(e, c) ==> Next(s, e).pc[c] == s.pc[c])
    && (Own(e, c) && c in s.late ==> StepsLeft(Next(s, e).pc[c]) < StepsLeft(s.pc[c]))
  }

  lemma OneStep(s: System, f: Event, c: Id)
    requires c in s.pc && !s.pc[c].Done? && Enabled(s, f)
    ensures OwnProgress(s, f, c)
  {
  }
}
