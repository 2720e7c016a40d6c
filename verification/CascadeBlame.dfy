/** Who is blamed for a death: every reason and every exit message of a cascade, traced back through the run. */
module CascadeBlame {
  import opened Common
  import opened ActorIds
  import opened ExitReasons
  import opened LinkTable
  import opened ActorMonitors
  import opened ExitCascade
  import P = LinkProtocol

  ghost function Step(c: Setup, s: System, e: Event): System { if Enabled(c, s, e) then Next(c, s, e) else s }

  /** The state after the first `n` events. */
  ghost function StateAt(c: Setup, es: seq<Event>, n: nat): System
    requires n <= |es|
  {
    if n == 0 then Start(c) else Step(c, StateAt(c, es, n - 1), es[n - 1])
  }

  ghost predicate RunsTo(c: Setup, es: seq<Event>, n: nat)
    requires n <= |es|
  {
    n == 0 || (RunsTo(c, es, n - 1) && Enabled(c, StateAt(c, es, n - 1), es[n - 1]))
  }

  ghost predicate IsDying(s: System, a: ActorId, r: ExitReason) { a in s.life && s.life[a] == Dying(r) }

  ghost predicate IsAlive(s: System, a: ActorId) { a in s.life && s.life[a].Alive? }

  /** At some point up to `n` the actor was ending with this reason. */
  ghost predicate Died(c: Setup, es: seq<Event>, n: nat, a: ActorId, r: ExitReason)
    requires n <= |es|
  {
    exists m: nat :: m <= n && IsDying(StateAt(c, es, m), a, r)
  }

  /** `u` ended with the error `r`, was linked to `a` at the start, and so has sent it that reason. */
  ghost predicate Sender(c: Setup, es: seq<Event>, n: nat, u: ActorId, r: ExitReason, a: ActorId)
    requires n <= |es|
  {
    && Died(c, es, n, u, r) && (r.Error? || r.Linked?)
    && P.View(c.links, u, a) && !IsAlive(StateAt(c, es, n), u)
  }

  /** The reason an actor ends with, given the reason its sender ended with. */
  ghost predicate Fits(c: Setup, u: ActorId, r: ExitReason, a: ActorId, x: ExitReason) {
    if !Traps(c, a) then x == Linked(ParseOrUnknown(Canonical(u)), ParseHeader(ReasonText(r)))
    else
      || (x == ParseHeader(ReasonText(r)) && Propagate in c.may(Exit(a, u, ReasonText(r))))
      || (x == Normal && Fail in c.may(Exit(a, u, ReasonText(r))))
  }

  ghost predicate DeathsOk(c: Setup, es: seq<Event>, n: nat)
    requires n <= |es|
  {
    forall a, x :: a != c.root && IsDying(StateAt(c, es, n), a, x) ==>
      exists u, r :: Sender(c, es, n, u, r, a) && Fits(c, u, r, a, x)
  }

  ghost predicate MailOk(c: Setup, es: seq<Event>, n: nat)
    requires n <= |es|
  {
    forall e :: e in StateAt(c, es, n).mail ==>
      exists r :: Sender(c, es, n, e.from, r, e.to) && e.reasonText == ReasonText(r)
  }

  ghost predicate Ok(c: Setup, es: seq<Event>, n: nat)
    requires n <= |es|
  {
    && DeathsOk(c, es, n) && MailOk(c, es, n) && c.root in StateAt(c, es, n).life
    && !IsAlive(StateAt(c, es, n), c.root)
    && forall u, v :: P.View(StateAt(c, es, n).tables, u, v) ==> P.View(c.links, u, v)
  }

  lemma StepKeepsDead(c: Setup, s: System, e: Event, a: ActorId)
    requires Enabled(c, s, e) && a in s.life && !IsAlive(s, a)
    ensures a in Next(c, s, e).life && !IsAlive(Next(c, s, e), a)
  {
  }

  lemma DiedIsKnown(c: Setup, es: seq<Event>, n: nat, a: ActorId, r: ExitReason)
    requires n <= |es| && RunsTo(c, es, n) && Died(c, es, n, a, r)
    ensures a in StateAt(c, es, n).life
  {
    var m: nat :| m <= n && IsDying(StateAt(c, es, m), a, r);
    LivesOn(c, es, m, n, a);
  }

  lemma {:induction false} LivesOn(c: Setup, es: seq<Event>, m: nat, n: nat, a: ActorId)
    requires m <= n <= |es| && RunsTo(c, es, n) && a in StateAt(c, es, m).life
    ensures a in StateAt(c, es, n).life
    decreases n
  {
    if m < n { LivesOn(c, es, m, n - 1, a); }
  }

  /** A sender stays one. */
  lemma StillSender(c: Setup, es: seq<Event>, m: nat, n: nat, u: ActorId, r: ExitReason, a: ActorId)
    requires m < n == m + 1 <= |es| && RunsTo(c, es, n) && Sender(c, es, m, u, r, a)
    ensures Sender(c, es, n, u, r, a)
  {
    DiedIsKnown(c, es, m, u, r);
    StepKeepsDead(c, StateAt(c, es, m), es[m], u);
    var k: nat :| k <= m && IsDying(StateAt(c, es, k), u, r);
    assert k <= n;
  }

  /** The one who dies of a message dies as its sender's reason says. */
  lemma NewDeath(c: Setup, es: seq<Event>, m: nat, n: nat, e: Exit, choice: Choice)
    requires m < n == m + 1 <= |es| && RunsTo(c, es, n) && Ok(c, es, m) && es[m] == Deliver(e, choice)
    requires IsAlive(StateAt(c, es, m), e.to) && React(c, e, choice).Dying?
    ensures exists u, r :: Sender(c, es, n, u, r, e.to) && Fits(c, u, r, e.to, React(c, e, choice).reason)
  {
    var r :| Sender(c, es, m, e.from, r, e.to) && e.reasonText == ReasonText(r);
    StillSender(c, es, m, n, e.from, r, e.to);
    assert e == Exit(e.to, e.from, ReasonText(r));
    assert Fits(c, e.from, r, e.to, React(c, e, choice).reason);
  }

  lemma DeathsAfter(c: Setup, es: seq<Event>, m: nat, n: nat)
    requires m < n == m + 1 <= |es| && RunsTo(c, es, n) && Ok(c, es, m)
    ensures DeathsOk(c, es, n)
  {
    var s, t, e := StateAt(c, es, m), StateAt(c, es, n), es[m];
    forall a, x | a != c.root && IsDying(t, a, x)
      ensures exists u, r :: Sender(c, es, n, u, r, a) && Fits(c, u, r, a, x)
    {
      if IsDying(s, a, x) {
        var u, r :| Sender(c, es, m, u, r, a) && Fits(c, u, r, a, x);
        StillSender(c, es, m, n, u, r, a);
      } else {
        NewDeath(c, es, m, n, e.exit, e.choice);
      }
    }
  }

  lemma MailAfter(c: Setup, es: seq<Event>, m: nat, n: nat)
    requires m < n == m + 1 <= |es| && RunsTo(c, es, n) && Ok(c, es, m)
    ensures MailOk(c, es, n)
  {
    var s, t := StateAt(c, es, m), StateAt(c, es, n);
    forall e | e in t.mail ensures exists r :: Sender(c, es, n, e.from, r, e.to) && e.reasonText == ReasonText(r) {
      if e in s.mail {
        var r :| Sender(c, es, m, e.from, r, e.to) && e.reasonText == ReasonText(r);
        StillSender(c, es, m, n, e.from, r, e.to);
      } else {
        NewMail(c, es, m, n, es[m].actor, e);
      }
    }
  }

  lemma NewMail(c: Setup, es: seq<Event>, m: nat, n: nat, a: ActorId, e: Exit)
    requires m < n == m + 1 <= |es| && RunsTo(c, es, n) && Ok(c, es, m) && es[m] == Finish(a)
    requires e in StateAt(c, es, n).mail && e !in StateAt(c, es, m).mail
    ensures exists r :: Sender(c, es, n, e.from, r, e.to) && e.reasonText == ReasonText(r)
  {
    var s := StateAt(c, es, m);
    var r := s.life[a].reason;
    assert e in multiset(Sent(s, a, r));
    SentMail(s, a, r, e);
    assert IsDying(s, a, r);
    assert Died(c, es, n, a, r);
    assert Sender(c, es, n, e.from, r, e.to);
  }

  lemma TablesAfter(c: Setup, s: System, e: Event)
    requires Enabled(c, s, e) && forall u, v :: P.View(s.tables, u, v) ==> P.View(c.links, u, v)
    ensures forall u, v :: P.View(Next(c, s, e).tables, u, v) ==> P.View(c.links, u, v)
  {
    if e.Finish? {
      forall u, v | P.View(Next(c, s, e).tables, u, v) ensures P.View(c.links, u, v) {
        CleanupView(s.tables, e.actor, u, v);
      }
    }
  }

  lemma {:induction false} RunKeepsOk(c: Setup, es: seq<Event>, n: nat)
    requires WellFormed(c) && n <= |es| && RunsTo(c, es, n)
    ensures Ok(c, es, n)
    decreases n
  {
    if n > 0 {
      var m := n - 1;
      RunKeepsOk(c, es, m);
      DeathsAfter(c, es, m, n);
      MailAfter(c, es, m, n);
      TablesAfter(c, StateAt(c, es, m), es[m]);
      StepKeepsDead(c, StateAt(c, es, m), es[m], c.root);
    }
  }

  /** Runs counted by position are the runs of the cascade. */
  lemma RunByPosition(c: Setup, es: seq<Event>, t: System)
    requires Run(c, Start(c), es, t)
    ensures RunsTo(c, es, |es|) && StateAt(c, es, |es|) == t
  {
    Along(c, es, |es|, t);
    assert es[|es|..] == [];
  }

  lemma {:induction false} Along(c: Setup, es: seq<Event>, n: nat, t: System)
    requires n <= |es| && Run(c, Start(c), es, t)
    ensures RunsTo(c, es, n) && Run(c, StateAt(c, es, n), es[n..], t)
    decreases n
  {
    if n == 0 {
      assert es[0..] == es;
    } else {
      var m := n - 1;
      Along(c, es, m, t);
      Cut(es, m, n);
      FirstOf(c, StateAt(c, es, m), es[m..], t);
      OneOn(c, es, m, n);
    }
  }

  lemma Cut(es: seq<Event>, m: nat, n: nat)
    requires m < n == m + 1 <= |es|
    ensures es[m..] != [] && es[m..][0] == es[m] && es[m..][1..] == es[n..]
  {
  }

  lemma FirstOf(c: Setup, s: System, es: seq<Event>, t: System)
    requires es != [] && Run(c, s, es, t)
    ensures Enabled(c, s, es[0]) && Run(c, Next(c, s, es[0]), es[1..], t)
  {
  }

  lemma OneOn(c: Setup, es: seq<Event>, m: nat, n: nat)
    requires m < n == m + 1 <= |es| && RunsTo(c, es, m) && Enabled(c, StateAt(c, es, m), es[m])
    ensures RunsTo(c, es, n) && StateAt(c, es, n) == Next(c, StateAt(c, es, m), es[m])
  {
  }

  // ---- links that are left ----------------------------------------------------------------------------------------

  ghost predicate IsGone(s: System, a: ActorId) { a in s.life && s.life[a].Gone? }

  /** The node of `u` has cleaned up after one of the two. */
  ghost predicate Cleaned(s: System, u: ActorId, v: ActorId) { IsGone(s, u) || (IsGone(s, v) && v.nodeId == u.nodeId) }

  lemma StepCleans(c: Setup, s: System, e: Event, u: ActorId, v: ActorId)
    requires Enabled(c, s, e) && (P.View(s.tables, u, v) <==> P.View(c.links, u, v) && !Cleaned(s, u, v))
    ensures P.View(Next(c, s, e).tables, u, v) <==> P.View(c.links, u, v) && !Cleaned(Next(c, s, e), u, v)
  {
    if e.Finish? { CleanupView(s.tables, e.actor, u, v); }
  }

  /** At every point of a run a node records a link of the start unless its own clean-up took one of the two away. */
  lemma {:induction false} LinksLeft(c: Setup, es: seq<Event>, n: nat, u: ActorId, v: ActorId)
    requires n <= |es| && RunsTo(c, es, n)
    ensures var s := StateAt(c, es, n);
            P.View(s.tables, u, v) <==>
            P.View(c.links, u, v) && !IsGone(s, u) && !(IsGone(s, v) && v.nodeId == u.nodeId)
    decreases n
  {
    if n > 0 {
      var m := n - 1;
      LinksLeft(c, es, m, u, v);
      StepCleans(c, StateAt(c, es, m), es[m], u, v);
    }
  }

  // ---- how often an exit is sent ------------------------------------------------------------------------------------

  ghost predicate ListsDistinct(t: P.Tables) { forall n :: n in t ==> DuplicateFree(t[n]) }

  /** Nothing waits twice, and whatever waits comes from somebody whose end has been handled. */
  ghost predicate OnceEach(s: System) {
    ListsDistinct(s.tables) && forall e :: e in s.mail ==> s.mail[e] == 1 && IsGone(s, e.from)
  }

  lemma {:induction false} DistinctCount(s: seq<Exit>, e: Exit)
    requires NoDup(s)
    ensures multiset(s)[e] <= 1
  {
    if s != [] {
      var rest := s[1..];
      assert s == [s[0]] + rest;
      DistinctCount(rest, e);
      assert s[0] !in rest;
      assert multiset(rest)[s[0]] == 0;
    }
  }

  lemma SentOnce(s: System, a: ActorId, r: ExitReason, e: Exit)
    requires ListsDistinct(s.tables)
    ensures multiset(Sent(s, a, r))[e] <= 1 && (e in multiset(Sent(s, a, r)) ==> e.from == a)
  {
    SentMail(s, a, r, e);
    var peers, sent := Peers(P.TableOf(s.tables, a.nodeId), a), Sent(s, a, r);
    assert NoDup(peers);
    assert forall i :: 0 <= i < |sent| ==> sent[i].to == peers[i];
    assert NoDup(sent);
    DistinctCount(sent, e);
  }

  lemma FinishOnce(c: Setup, s: System, a: ActorId)
    requires Enabled(c, s, Finish(a)) && OnceEach(s)
    ensures OnceEach(Next(c, s, Finish(a)))
  {
    var t, sent := Next(c, s, Finish(a)), Sent(s, a, s.life[a].reason);
    NoDupAfterOp(P.TableOf(s.tables, a.nodeId), Cleanup(a));
    forall e | e in t.mail ensures t.mail[e] == 1 && IsGone(t, e.from) {
      SentOnce(s, a, s.life[a].reason, e);
      assert t.mail[e] == s.mail[e] + multiset(sent)[e];
    }
  }

  lemma DeliverOnce(c: Setup, s: System, e: Exit, choice: Choice)
    requires Enabled(c, s, Deliver(e, choice)) && OnceEach(s)
    ensures OnceEach(Next(c, s, Deliver(e, choice)))
  {
    var t := Next(c, s, Deliver(e, choice));
    forall f | f in t.mail ensures t.mail[f] == 1 && IsGone(t, f.from) { assert f in s.mail; }
  }

  lemma StepOnce(c: Setup, s: System, e: Event)
    requires Enabled(c, s, e) && OnceEach(s)
    ensures OnceEach(Next(c, s, e))
  {
    if e.Finish? { FinishOnce(c, s, e.actor); } else { DeliverOnce(c, s, e.exit, e.choice); }
  }

  /** From tables without duplicates, no exit message is ever under way twice at the same time. */
  lemma {:induction false} ExitsWaitOnce(c: Setup, es: seq<Event>, n: nat)
    requires n <= |es| && RunsTo(c, es, n) && ListsDistinct(c.links)
    ensures OnceEach(StateAt(c, es, n))
    decreases n
  {
    if n > 0 {
      var m := n - 1;
      ExitsWaitOnce(c, es, m);
      StepOnce(c, StateAt(c, es, m), es[m]);
    }
  }

  // ---- the main results -----------------------------------------------------------------------------------------

  /** Actor ids that the text form keeps. */
  ghost predicate PlainIds(c: Setup) {
    forall u, a :: P.View(c.links, u, a) ==> Valid(u) && '@' !in u.nodeId
  }

  /** What the text of a reason looks like to the one who reads it as a cause. */
  ghost function CauseRead(r: ExitReason): string { CauseText(ParseHeader(ReasonText(r))) }

  /**
    Whoever ends and is not the first to end was sent, over a link it had at the start, the reason of somebody who ended
    with an error before it and is no longer alive. If it does not trap exits it blames that actor; if it does, it ends
    with what it read, having been free to propagate, or normally, having been free to fail.
   */
  lemma BlameIsRight(c: Setup, es: seq<Event>, n: nat, a: ActorId, x: ExitReason)
    requires WellFormed(c) && PlainIds(c) && n <= |es| && RunsTo(c, es, n)
    requires a != c.root && IsDying(StateAt(c, es, n), a, x)
    ensures exists u, r :: Sender(c, es, n, u, r, a)
              && (!Traps(c, a) ==> x == Linked(u, ParseHeader(ReasonText(r))))
              && (Traps(c, a) ==>
                    || (x == ParseHeader(ReasonText(r)) && Propagate in c.may(Exit(a, u, ReasonText(r))))
                    || (x == Normal && Fail in c.may(Exit(a, u, ReasonText(r)))))
  {
    RunKeepsOk(c, es, n);
    var u, r :| Sender(c, es, n, u, r, a) && Fits(c, u, r, a, x);
    IdTrip(u);
  }

  /** An exit that waits carries its sender's reason; if the sender does not trap, its text names whom it blames. */
  lemma ExitNamesTheBlamed(c: Setup, es: seq<Event>, n: nat, e: Exit)
    requires WellFormed(c) && PlainIds(c) && n <= |es| && RunsTo(c, es, n) && e in StateAt(c, es, n).mail
    ensures exists r :: Sender(c, es, n, e.from, r, e.to) && e.reasonText == ReasonText(r)
    ensures e.from != c.root && !Traps(c, e.from) ==>
              exists u, r, m: nat :: m <= n && Sender(c, es, m, u, r, e.from)
                && e.reasonText == "linked:" + Canonical(u) + ":" + CauseRead(r)
  {
    RunKeepsOk(c, es, n);
    var x :| Sender(c, es, n, e.from, x, e.to) && e.reasonText == ReasonText(x);
    if e.from != c.root && !Traps(c, e.from) {
      var m: nat :| m <= n && IsDying(StateAt(c, es, m), e.from, x);
      RunsBefore(c, es, m, n);
      var u, r := Blamed(c, es, m, e.from, x);
      assert m <= n && Sender(c, es, m, u, r, e.from);
    }
  }

  lemma Blamed(c: Setup, es: seq<Event>, m: nat, a: ActorId, x: ExitReason) returns (u: ActorId, r: ExitReason)
    requires WellFormed(c) && PlainIds(c) && m <= |es| && RunsTo(c, es, m)
    requires a != c.root && !Traps(c, a) && IsDying(StateAt(c, es, m), a, x)
    ensures Sender(c, es, m, u, r, a) && ReasonText(x) == "linked:" + Canonical(u) + ":" + CauseRead(r)
  {
    BlameIsRight(c, es, m, a, x);
    u, r :| Sender(c, es, m, u, r, a) && x == Linked(u, ParseHeader(ReasonText(r)));
  }

  lemma {:induction false} RunsBefore(c: Setup, es: seq<Event>, m: nat, n: nat)
    requires m <= n <= |es| && RunsTo(c, es, n)
    ensures RunsTo(c, es, m)
    decreases n
  {
    if m < n { RunsBefore(c, es, m, n - 1); }
  }
}
