/**
  What a caller of the activation loop is told, and in what order messages arrive, read off the events of a run alone.
 */
module ActivationOutcomes {
  import opened Common
  import opened ActivationGuard

  // ---- what the events say ----------------------------------------------------------------------------

  /** A sender is registered: by the caller that activates, or by someone outside the guard. */
  predicate Brings(e: Event) { e.SpawnElsewhere? || (e.Spawn? && e.ok) }

  /** Somebody registered the actor and nobody has passivated it since. */
  ghost predicate LiveAfter(es: seq<Event>) {
    exists k :: 0 <= k < |es| && Brings(es[k]) && Passivate !in es[k..]
  }

  /** One of the caller's looks at the registry, `e`, found the actor running. */
  ghost predicate FoundLive(es: seq<Event>, e: Event) {
    exists k :: 0 <= k < |es| && es[k] == e && LiveAfter(es[..k])
  }

  /** The reason in the run for a caller to be told `o`. */
  ghost predicate Cause(es: seq<Event>, i: nat, o: Outcome) {
    match o
    case Delivered => FoundLive(es, Lookup(i))
    case AlreadyActive => FoundLive(es, Check(i))
    case Activated => Drain(i, true) in es
    case Failed => Resolve(i, false) in es || Spawn(i, false) in es || Drain(i, false) in es
  }

  // ---- one more event ---------------------------------------------------------------------------------

  /** The cause is this very event, given whether the actor is running. */
  predicate CauseNow(live: bool, e: Event, i: nat, o: Outcome) {
    match o
    case Delivered => live && e == Lookup(i)
    case AlreadyActive => live && e == Check(i)
    case Activated => e == Drain(i, true)
    case Failed => e == Resolve(i, false) || e == Spawn(i, false) || e == Drain(i, false)
  }

  lemma RunInit(s: State, es: seq<Event>, e: Event, t: State) returns (m: State)
    requires Run(s, es + [e], t)
    ensures Run(s, es, m) && Enabled(m, e) && t == Next(m, e)
  {
    m := RunSplit(s, es, [e], t);
    assert [e][1..] == [];
  }

  lemma LiveAfterOne(es: seq<Event>, e: Event)
    ensures LiveAfter(es + [e]) <==> Brings(e) || (LiveAfter(es) && e != Passivate)
  {
    var fs := es + [e];
    assert fs[|es|..] == [e];
    forall k | 0 <= k < |es| ensures fs[k..] == es[k..] + [e] {}
    if Brings(e) {
      assert Brings(fs[|es|]) && Passivate !in fs[|es|..];
    }
    if LiveAfter(es) && e != Passivate {
      var k :| 0 <= k < |es| && Brings(es[k]) && Passivate !in es[k..];
      assert Brings(fs[k]) && Passivate !in fs[k..];
    }
    if LiveAfter(fs) && !Brings(e) {
      var k :| 0 <= k < |fs| && Brings(fs[k]) && Passivate !in fs[k..];
      assert e in fs[k..];
      assert Brings(es[k]) && Passivate !in es[k..];
    }
  }

  lemma FoundLiveOne(es: seq<Event>, e: Event, f: Event)
    ensures FoundLive(es + [e], f) <==> FoundLive(es, f) || (e == f && LiveAfter(es))
  {
    var fs := es + [e];
    assert fs[..|es|] == es;
    forall k | 0 <= k < |es| ensures fs[..k] == es[..k] {}
    if FoundLive(es, f) {
      var k :| 0 <= k < |es| && es[k] == f && LiveAfter(es[..k]);
      assert fs[k] == f && LiveAfter(fs[..k]);
    }
    if e == f && LiveAfter(es) {
      assert fs[|es|] == f && LiveAfter(fs[..|es|]);
    }
  }

  lemma CauseOne(es: seq<Event>, e: Event, i: nat, o: Outcome)
    ensures Cause(es + [e], i, o) <==> Cause(es, i, o) || CauseNow(LiveAfter(es), e, i, o)
  {
    FoundLiveOne(es, e, Lookup(i));
    FoundLiveOne(es, e, Check(i));
  }

  lemma OthersKeepVerdict(s: State, e: Event, i: nat)
    requires Enabled(s, e) && i < |s.pc| && (Outside(e) || e.i != i)
    ensures |Next(s, e).pc| == |s.pc| && Verdict(Next(s, e).pc[i]) == Verdict(s.pc[i])
  {
  }

  lemma OwnVerdict(s: State, e: Event, o: Outcome)
    requires Enabled(s, e) && !Outside(e)
    ensures |Next(s, e).pc| == |s.pc| && e.i < |s.pc|
    ensures Verdict(Next(s, e).pc[e.i]) == Some(o) <==> Verdict(s.pc[e.i]) == Some(o) || CauseNow(s.live, e, e.i, o)
  {
  }

  lemma VerdictOne(s: State, e: Event, i: nat, o: Outcome)
    requires Enabled(s, e) && i < |s.pc|
    ensures |Next(s, e).pc| == |s.pc|
    ensures Verdict(Next(s, e).pc[i]) == Some(o) <==> Verdict(s.pc[i]) == Some(o) || CauseNow(s.live, e, i, o)
  {
    if Outside(e) || e.i != i {
      OthersKeepVerdict(s, e, i);
    } else {
      OwnVerdict(s, e, o);
    }
  }

  lemma LiveOne(s: State, e: Event)
    requires Enabled(s, e)
    ensures Next(s, e).live <==> Brings(e) || (s.live && e != Passivate)
  {
  }

  // ---- over every run ---------------------------------------------------------------------------------

  /** The actor runs exactly when it was registered more recently than it was passivated. */
  lemma {:induction false} LiveIff(n: nat, lossy: bool, es: seq<Event>, t: State)
    requires Run(Start(n, lossy), es, t)
    ensures t.live <==> LiveAfter(es)
    decreases |es|
  {
    if es != [] {
      var fs, e := es[..|es| - 1], es[|es| - 1];
      assert es == fs + [e];
      var m := RunInit(Start(n, lossy), fs, e, t);
      LiveIff(n, lossy, fs, m);
      LiveOne(m, e);
      LiveAfterOne(fs, e);
    }
  }

  /** A caller carries a verdict exactly when the run holds the reason for that verdict. */
  lemma {:induction false} VerdictIff(n: nat, lossy: bool, es: seq<Event>, t: State, i: nat, o: Outcome)
    requires Run(Start(n, lossy), es, t) && i < n
    ensures |t.pc| == n
    ensures Verdict(t.pc[i]) == Some(o) <==> Cause(es, i, o)
    decreases |es|
  {
    if es != [] {
      var fs, e := es[..|es| - 1], es[|es| - 1];
      assert es == fs + [e];
      var m := RunInit(Start(n, lossy), fs, e, t);
      VerdictIff(n, lossy, fs, m, i, o);
      LiveIff(n, lossy, fs, m);
      VerdictOne(m, e, i, o);
      CauseOne(fs, e, i, o);
    }
  }

  /** Direct delivery returns at once; every other verdict waits for the guard to be released. */
  predicate Held(p: Pc) { p.Releasing? ==> p.outcome != Delivered }

  lemma HeldOne(s: State, e: Event, i: nat)
    requires Enabled(s, e) && i < |s.pc| && Held(s.pc[i])
    ensures |Next(s, e).pc| == |s.pc| && Held(Next(s, e).pc[i])
    ensures var p, q := s.pc[i], Next(s, e).pc[i];
            q.Done? && q.outcome != Delivered <==> (p.Done? && p.outcome != Delivered) || e == Release(i)
  {
  }

  lemma {:induction false} ReleasedIff(n: nat, lossy: bool, es: seq<Event>, t: State, i: nat)
    requires Run(Start(n, lossy), es, t) && i < n
    ensures |t.pc| == n && Held(t.pc[i])
    ensures t.pc[i].Done? && t.pc[i].outcome != Delivered <==> Release(i) in es
    decreases |es|
  {
    if es != [] {
      var fs, e := es[..|es| - 1], es[|es| - 1];
      assert es == fs + [e];
      var m := RunInit(Start(n, lossy), fs, e, t);
      ReleasedIff(n, lossy, fs, m, i);
      HeldOne(m, e, i);
    }
  }

  /**
    What each caller is told, decided by the events. It fails exactly when the factory, the spawn or the activation
    mark failed for it; it is told the actor was active exactly when the actor ran at its check; it reports an
    activation exactly when it drained the queue; it delivers directly exactly when a lookup found the actor.
   */
  lemma OutcomeIff(n: nat, lossy: bool, es: seq<Event>, t: State, i: nat, o: Outcome)
    requires Run(Start(n, lossy), es, t) && i < n
    ensures |t.pc| == n
    ensures t.pc[i] == Done(o) <==> Cause(es, i, o) && (o == Delivered || Release(i) in es)
  {
    VerdictIff(n, lossy, es, t, i, o);
    ReleasedIff(n, lossy, es, t, i);
  }

  // ---- order of arrival -------------------------------------------------------------------------------

  /** Whatever has reached the mailbox stays there, in place. */
  lemma {:induction false} MailboxOnlyGrows(s: State, es: seq<Event>, t: State)
    requires Run(s, es, t)
    ensures s.mailbox <= t.mailbox
    decreases |es|
  {
    if es != [] {
      MailboxOnlyGrows(Next(s, es[0]), es[1..], t);
    }
  }

  ghost predicate Before(s: seq<nat>, i: nat, j: nat) {
    exists p, q :: 0 <= p < q < |s| && s[p] == i && s[q] == j
  }

  lemma BeforeInsert(a: seq<nat>, x: nat, b: seq<nat>, i: nat, j: nat)
    requires Before(a + b, i, j)
    ensures Before(a + [x] + b, i, j)
  {
    var s, t := a + b, a + [x] + b;
    var p, q :| 0 <= p < q < |s| && s[p] == i && s[q] == j;
    var p' := if p < |a| then p else p + 1;
    var q' := if q < |a| then q else q + 1;
    assert t[p'] == i && t[q'] == j;
  }

  /** On its way or there: what the mailbox holds, then what waits to be drained. */
  function Line(s: State): seq<nat> { s.mailbox + s.pending }

  lemma LineOne(s: State, e: Event)
    requires Enabled(s, e)
    ensures Line(Next(s, e)) ==
            if e.Queue? then Line(s) + [e.i]
            else if e.Lookup? && s.live then s.mailbox + [e.i] + s.pending
            else Line(s)
  {
  }

  lemma StepKeepsBefore(s: State, e: Event, i: nat, j: nat)
    requires Enabled(s, e) && Before(Line(s), i, j)
    ensures Before(Line(Next(s, e)), i, j)
  {
    LineOne(s, e);
    if e.Queue? {
      assert Line(s) + [] == Line(s) && Line(s) + [e.i] + [] == Line(s) + [e.i];
      BeforeInsert(Line(s), e.i, [], i, j);
    } else if e.Lookup? && s.live {
      BeforeInsert(s.mailbox, e.i, s.pending, i, j);
    }
  }

  lemma QueueGoesLast(s: State, i: nat, j: nat)
    requires Enabled(s, Queue(j)) && i in Line(s)
    ensures Before(Line(Next(s, Queue(j))), i, j)
  {
    LineOne(s, Queue(j));
    var p :| 0 <= p < |Line(s)| && Line(s)[p] == i;
    var l := Line(s) + [j];
    assert l[p] == i && l[|Line(s)|] == j;
  }

  lemma {:induction false} InLineAfter(n: nat, lossy: bool, es: seq<Event>, t: State, i: nat)
    requires Run(Start(n, lossy), es, t) && Queue(i) in es
    ensures i in Line(t)
    decreases |es|
  {
    var fs, e := es[..|es| - 1], es[|es| - 1];
    assert es == fs + [e];
    var m := RunInit(Start(n, lossy), fs, e, t);
    LineOne(m, e);
    if e != Queue(i) {
      InLineAfter(n, lossy, fs, m, i);
    }
  }

  lemma {:induction false} InLineInOrder(n: nat, lossy: bool, es: seq<Event>, t: State, a: nat, b: nat)
    requires Run(Start(n, lossy), es, t) && a < b < |es| && es[a].Queue? && es[b].Queue?
    ensures Before(Line(t), es[a].i, es[b].i)
    decreases |es|
  {
    var fs, e := es[..|es| - 1], es[|es| - 1];
    assert es == fs + [e];
    var m := RunInit(Start(n, lossy), fs, e, t);
    if b == |fs| {
      assert fs[a] == Queue(es[a].i);
      InLineAfter(n, lossy, fs, m, es[a].i);
      QueueGoesLast(m, es[a].i, es[b].i);
    } else {
      InLineInOrder(n, lossy, fs, m, a, b);
      StepKeepsBefore(m, e, es[a].i, es[b].i);
    }
  }

  /** First in, first out: once the later of two queued messages has arrived, the earlier one stands before it. */
  lemma QueuedArriveInOrder(n: nat, lossy: bool, es: seq<Event>, t: State, a: nat, b: nat)
    requires Run(Start(n, lossy), es, t) && a < b < |es| && es[a].Queue? && es[b].Queue?
    requires es[b].i in t.mailbox
    ensures Before(t.mailbox, es[a].i, es[b].i)
  {
    var i, j := es[a].i, es[b].i;
    InLineInOrder(n, lossy, es, t, a, b);
    StartSafe(n, lossy);
    RunSafe(Start(n, lossy), es, t);
    var p, q :| 0 <= p < q < |Line(t)| && Line(t)[p] == i && Line(t)[q] == j;
    OnceOnly(t, j);
    assert q >= |t.mailbox| ==> j in t.pending;
    assert t.mailbox[p] == i && t.mailbox[q] == j;
  }

  lemma OnceOnly(s: State, j: nat)
    requires Conserved(s) && j in s.mailbox
    ensures j !in s.pending
  {
    assert Copies(s, j) <= 1;
    assert multiset(s.mailbox)[j] >= 1;
    assert j in s.pending ==> multiset(s.pending)[j] >= 1;
  }
}
