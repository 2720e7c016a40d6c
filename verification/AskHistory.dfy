/** Which outcome an ask returns, and with which reply, read off the events of a run alone. */
module AskHistory {
  import opened Asks

  // ---- what the events say ----------------------------------------------------------------------------

  predicate Starts(e: Event, c: Id) { e.Start? && e.c == c }

  /** From the start at `i` up to `j`, neither a reply to `c` nor a sweep past its deadline. */
  ghost predicate FirstTouch(es: seq<Event>, c: Id, i: int, j: int) {
    0 <= i < j < |es| && Starts(es[i], c) && Untouched(es[..j], i, c, es[i].deadline)
  }

  /** The first thing to reach the ask's entry is this very reply. */
  ghost predicate AnsweredWith(es: seq<Event>, c: Id, m: Message) {
    m.correlationId == c && exists i, j :: FirstTouch(es, c, i, j) && es[j] == Reply(m)
  }

  /** The first thing to reach the ask's entry is a sweep past its deadline. */
  ghost predicate SweptFirst(es: seq<Event>, c: Id) {
    exists i, j :: FirstTouch(es, c, i, j) && Sweeps(es[j], es[i].deadline)
  }

  /** Started, and reached by neither a reply nor a sweep past its deadline. */
  ghost predicate StillOpen(es: seq<Event>, c: Id, deadline: int) {
    exists i :: 0 <= i < |es| && es[i] == Start(c, deadline) && Untouched(es, i, c, deadline)
  }

  // ---- one more event ---------------------------------------------------------------------------------

  lemma FirstTouchSnoc(es: seq<Event>, e: Event, c: Id, i: int, j: int)
    requires FirstTouch(es, c, i, j)
    ensures FirstTouch(es + [e], c, i, j) && (es + [e])[i] == es[i] && (es + [e])[j] == es[j]
  {
    assert (es + [e])[..j] == es[..j];
  }

  lemma AnsweredSnocWith(es: seq<Event>, e: Event, c: Id, m: Message)
    requires AnsweredWith(es, c, m)
    ensures AnsweredWith(es + [e], c, m)
  {
    var i, j :| FirstTouch(es, c, i, j) && es[j] == Reply(m);
    FirstTouchSnoc(es, e, c, i, j);
  }

  lemma SweptSnoc(es: seq<Event>, e: Event, c: Id)
    requires SweptFirst(es, c)
    ensures SweptFirst(es + [e], c)
  {
    var i, j :| FirstTouch(es, c, i, j) && Sweeps(es[j], es[i].deadline);
    FirstTouchSnoc(es, e, c, i, j);
  }

  /** An open ask is touched by the next event, or stays open. */
  lemma OpenSnoc(es: seq<Event>, e: Event, c: Id, deadline: int)
    requires StillOpen(es, c, deadline)
    ensures IsReply(e, c) ==> AnsweredWith(es + [e], c, e.m)
    ensures Sweeps(e, deadline) ==> SweptFirst(es + [e], c)
    ensures !IsReply(e, c) && !Sweeps(e, deadline) ==> StillOpen(es + [e], c, deadline)
  {
    var i :| 0 <= i < |es| && es[i] == Start(c, deadline) && Untouched(es, i, c, deadline);
    var fs := es + [e];
    assert fs[..|es|] == es && fs[i] == es[i] && fs[|es|] == e;
    UntouchedSnoc(es, e, i, c, deadline);
    assert FirstTouch(fs, c, i, |es|);
  }

  lemma JustStarted(es: seq<Event>, c: Id, deadline: int)
    ensures StillOpen(es + [Start(c, deadline)], c, deadline)
  {
    var fs := es + [Start(c, deadline)];
    assert fs[|es|] == Start(c, deadline) && Untouched(fs, |es|, c, deadline);
  }

  // ---- what every run keeps ---------------------------------------------------------------------------

  /** The channel of an ask holds what reached it first; one that nobody can write to any more is left out. */
  ghost predicate Told(s: System, es: seq<Event>, c: Id)
    requires c in s.pc && AskOk(s, c)
  {
    var ch := s.table.channels[c];
    && (ch.Open? ==> StillOpen(es, c, s.deadline[c]))
    && (ch.Filled? ==> AnsweredWith(es, c, ch.reply))
    && (ch.SenderDropped? && (ReceiverAlive(s, c) || s.pc[c] == Done(Closed)) ==> SweptFirst(es, c))
  }

  /** What one event does to the channel of an ask under way. */
  lemma ChannelOne(s: System, e: Event, c: Id)
    requires Inv(s) && Enabled(s, e) && c in s.pc && AskOk(s, c)
    ensures c in Next(s, e).pc && AskOk(Next(s, e), c) && Next(s, e).deadline[c] == s.deadline[c]
    ensures var was, now := s.table.channels[c], Next(s, e).table.channels[c];
            && (!was.Open? ==> now == was)
            && (was.Open? && IsReply(e, c) ==> now == if ReceiverAlive(s, c) then Filled(e.m) else SenderDropped)
            && (was.Open? && Sweeps(e, s.deadline[c]) ==> now == SenderDropped)
            && (was.Open? && !IsReply(e, c) && !Sweeps(e, s.deadline[c]) ==>
              now == was || (now.SenderDropped? && (e == CancelTimedOut(c) || e == CancelFailed(c))))
  {
    StepKeepsAsk(s, e, c);
  }

  /** Nothing brings a call back to life, and only an ask that looks can find its channel closed. */
  lemma LifeOne(s: System, e: Event, c: Id)
    requires Inv(s) && Enabled(s, e) && c in s.pc && AskOk(s, c)
    ensures c in Next(s, e).pc
    ensures ReceiverAlive(Next(s, e), c) ==> ReceiverAlive(s, c)
    ensures Next(s, e).pc[c] == Done(Closed) ==> ReceiverAlive(s, c) || s.pc[c] == Done(Closed)
    ensures e == CancelTimedOut(c) || e == CancelFailed(c) ==>
            !ReceiverAlive(Next(s, e), c) && Next(s, e).pc[c] != Done(Closed)
  {
  }

  lemma StepKeepsTold(s: System, es: seq<Event>, e: Event, c: Id)
    requires Inv(s) && Enabled(s, e) && c in s.pc && AskOk(s, c) && Told(s, es, c)
    ensures c in Next(s, e).pc && AskOk(Next(s, e), c) && Told(Next(s, e), es + [e], c)
  {
    ChannelOne(s, e, c);
    LifeOne(s, e, c);
    var ch := s.table.channels[c];
    if ch.Open? {
      OpenSnoc(es, e, c, s.deadline[c]);
    } else if ch.Filled? {
      AnsweredSnocWith(es, e, c, ch.reply);
    } else if SweptFirst(es, c) {
      SweptSnoc(es, e, c);
    }
  }

  lemma StartTold(s: System, es: seq<Event>, c: Id, deadline: int)
    requires Inv(s) && Enabled(s, Start(c, deadline))
    ensures c in Next(s, Start(c, deadline)).pc && AskOk(Next(s, Start(c, deadline)), c)
    ensures Told(Next(s, Start(c, deadline)), es + [Start(c, deadline)], c)
  {
    StepKeepsAsk(s, Start(c, deadline), c);
    JustStarted(es, c, deadline);
  }

  lemma {:induction false} RunTold(es: seq<Event>, t: System, c: Id)
    requires Run(INIT, es, t) && c in t.pc
    ensures AskOk(t, c) && Told(t, es, c)
    decreases |es|
  {
    if es != [] {
      var before, e, m := RunCut(es, t);
      if c in m.pc {
        RunTold(before, m, c);
        StepKeepsTold(m, before, e, c);
      } else {
        StartTold(m, before, c, e.deadline);
      }
    }
  }

  // ---- which event returned ---------------------------------------------------------------------------

  /** The step of the call that returned, if it has. */
  ghost predicate Ended(s: System, es: seq<Event>, c: Id)
    requires c in s.pc
  {
    && (s.pc[c].Done? && (s.pc[c].outcome.Replied? || s.pc[c].outcome.Closed?) <==> Receive(c) in es)
    && (s.pc[c] == Done(Timeout) <==> CancelTimedOut(c) in es)
    && (s.pc[c] == Done(DispatchError) <==> CancelFailed(c) in es)
  }

  ghost predicate NotBegun(es: seq<Event>, c: Id) {
    Receive(c) !in es && CancelTimedOut(c) !in es && CancelFailed(c) !in es && forall e :: e in es ==> !Starts(e, c)
  }

  ghost predicate OneStart(es: seq<Event>, c: Id) {
    forall i, j :: 0 <= i < j < |es| && Starts(es[i], c) ==> !Starts(es[j], c)
  }

  lemma EndedOne(s: System, es: seq<Event>, e: Event, c: Id)
    requires Enabled(s, e) && c in s.pc && Ended(s, es, c)
    ensures c in Next(s, e).pc && Ended(Next(s, e), es + [e], c) && !Starts(e, c)
  {
  }

  lemma NotBegunOne(s: System, es: seq<Event>, e: Event, c: Id)
    requires Enabled(s, e) && c !in s.pc && NotBegun(es, c)
    ensures c in Next(s, e).pc <==> Starts(e, c)
    ensures if Starts(e, c) then Ended(Next(s, e), es + [e], c) else NotBegun(es + [e], c)
  {
  }

  lemma OneStartSnoc(es: seq<Event>, e: Event, c: Id)
    requires OneStart(es, c) && (Starts(e, c) ==> forall f :: f in es ==> !Starts(f, c))
    ensures OneStart(es + [e], c)
  {
    assert forall n :: 0 <= n < |es| ==> (es + [e])[n] == es[n] && es[n] in es;
  }

  lemma {:induction false} RunEnded(es: seq<Event>, t: System, c: Id)
    requires Run(INIT, es, t)
    ensures OneStart(es, c)
    ensures if c in t.pc then Ended(t, es, c) else NotBegun(es, c)
    decreases |es|
  {
    if es != [] {
      var before, e, m := RunCut(es, t);
      RunEnded(before, m, c);
      if c in m.pc {
        EndedOne(m, before, e, c);
      } else {
        NotBegunOne(m, before, e, c);
      }
      OneStartSnoc(before, e, c);
    }
  }

  // ---- the outcome ------------------------------------------------------------------------------------

  /** Only one event can be the first to reach an ask. */
  lemma FirstTouchUnique(es: seq<Event>, c: Id, i: int, j: int, i': int, j': int)
    requires OneStart(es, c) && FirstTouch(es, c, i, j) && FirstTouch(es, c, i', j')
    requires IsReply(es[j], c) || Sweeps(es[j], es[i].deadline)
    requires IsReply(es[j'], c) || Sweeps(es[j'], es[i'].deadline)
    ensures i == i' && j == j'
  {
    assert i == i';
  }

  lemma ReplyIsUnique(es: seq<Event>, c: Id, m: Message, m': Message)
    requires OneStart(es, c) && AnsweredWith(es, c, m) && AnsweredWith(es, c, m')
    ensures m == m'
  {
    var i, j :| FirstTouch(es, c, i, j) && es[j] == Reply(m);
    var i', j' :| FirstTouch(es, c, i', j') && es[j'] == Reply(m');
    FirstTouchUnique(es, c, i, j, i', j');
  }

  lemma ReplyOrSweep(es: seq<Event>, c: Id, m: Message)
    requires OneStart(es, c) && AnsweredWith(es, c, m)
    ensures !SweptFirst(es, c)
  {
    var i, j :| FirstTouch(es, c, i, j) && es[j] == Reply(m);
    forall i', j' | FirstTouch(es, c, i', j') ensures !Sweeps(es[j'], es[i'].deadline) {
      if Sweeps(es[j'], es[i'].deadline) { FirstTouchUnique(es, c, i, j, i', j'); }
    }
  }

  /**
    How an ask returns, over every run. It returns a reply exactly when it received and the first thing to reach it
    after its start, ahead of any sweep past its deadline, was that very reply; it finds its channel closed exactly
    when it received and such a sweep came first; it times out or fails exactly by its own cancelling step.
   */
  lemma AskOutcomeIff(es: seq<Event>, t: System, c: Id, m: Message)
    requires Run(INIT, es, t) && c in t.pc
    ensures t.pc[c] == Done(Replied(m)) <==> Receive(c) in es && AnsweredWith(es, c, m)
    ensures t.pc[c] == Done(Closed) <==> Receive(c) in es && SweptFirst(es, c)
    ensures t.pc[c] == Done(Timeout) <==> CancelTimedOut(c) in es
    ensures t.pc[c] == Done(DispatchError) <==> CancelFailed(c) in es
  {
    RunTold(es, t, c);
    RunEnded(es, t, c);
    if Receive(c) in es {
      if t.pc[c] == Done(Closed) {
        if AnsweredWith(es, c, m) { ReplyOrSweep(es, c, m); }
      } else {
        var reply := t.pc[c].outcome.reply;
        ReplyOrSweep(es, c, reply);
        if AnsweredWith(es, c, m) { ReplyIsUnique(es, c, m, reply); }
      }
    }
  }
}
