/**
  Every way a cascade can end, without messages, tables or interleavings: an ordered list of deaths, each caused by an
  earlier one, after which every survivor may handle whatever the dead have sent it.
 */
module CascadeOutcomes {
  import opened ActorIds
  import opened ExitReasons
  import opened ActorMonitors
  import opened ExitCascade
  import opened CascadeOrder
  import P = LinkProtocol

  /** The reason with which `u` died in the list. */
  ghost function ReasonOf(c: Setup, w: seq<Kill>, u: ActorId): ExitReason {
    if w == [] then c.reason
    else
      var k := w[|w| - 1];
      var l := React(c, k.m, k.choice);
      if k.m.to == u && l.Dying? then l.reason else ReasonOf(c, w[..|w| - 1], u)
  }

  /** What a dead actor sends over an original link. */
  ghost function Last(c: Setup, w: seq<Kill>, u: ActorId, v: ActorId): Exit {
    Exit(v, u, ReasonText(ReasonOf(c, w, u)))
  }

  /** The dead `u` has sent to `v`. */
  ghost predicate Sends(c: Setup, w: seq<Kill>, u: ActorId, v: ActorId) {
    u in Victims(c, w) && IsError(ReasonOf(c, w, u)) && P.View(c.links, u, v)
  }

  /** `k` can come next: somebody already dead has sent this message, and somebody still alive dies of it. */
  ghost predicate Grows(c: Setup, w: seq<Kill>, k: Kill) {
    && Sends(c, w, k.m.from, k.m.to) && k.m == Last(c, w, k.m.from, k.m.to)
    && k.m.to in c.traps && k.m.to !in Victims(c, w)
    && Answers(c, k.m, k.choice) && React(c, k.m, k.choice).Dying?
  }

  ghost predicate Tree(c: Setup, w: seq<Kill>) {
    w == [] || (Tree(c, w[..|w| - 1]) && Grows(c, w[..|w| - 1], w[|w| - 1]))
  }

  /** Every survivor traps exits and may handle each message the dead have sent it. */
  ghost predicate Survivable(c: Setup, w: seq<Kill>) {
    forall u, v :: Sends(c, w, u, v) && v in c.traps && v !in Victims(c, w) ==>
      Traps(c, v) && Handle in c.may(Last(c, w, u, v))
  }

  /** Exactly these actors are dead at the end. */
  ghost predicate Outcome(c: Setup, dead: set<ActorId>) {
    exists w :: Tree(c, w) && Survivable(c, w) && Victims(c, w) == dead
  }

  ghost function DeadSet(t: System): set<ActorId> { set a | a in t.life && t.life[a].Gone? }

  lemma TreeSnoc(c: Setup, w: seq<Kill>, k: Kill)
    ensures Tree(c, w + [k]) <==> Tree(c, w) && Grows(c, w, k)
    ensures Victims(c, w + [k]) == Victims(c, w) + {k.m.to}
    ensures React(c, k.m, k.choice).Dying? ==> ReasonOf(c, w + [k], k.m.to) == React(c, k.m, k.choice).reason
    ensures forall u :: u != k.m.to ==> ReasonOf(c, w + [k], u) == ReasonOf(c, w, u)
  {
    var v := w + [k];
    assert v[..|v| - 1] == w && v[|v| - 1] == k;
  }

  lemma TreeCut(c: Setup, w: seq<Kill>) returns (v: seq<Kill>, k: Kill)
    requires Tree(c, w) && w != []
    ensures w == v + [k] && Tree(c, v) && Grows(c, v, k)
  {
    v, k := Cut(w);
  }

  lemma {:induction false} VictimsExist(c: Setup, w: seq<Kill>, a: ActorId)
    requires WellFormed(c) && Tree(c, w) && a in Victims(c, w)
    ensures a in c.traps
    decreases |w|
  {
    if w != [] {
      var v, k := TreeCut(c, w);
      TreeSnoc(c, v, k);
      if a != k.m.to { VictimsExist(c, v, a); }
    }
  }

  // ---- every run writes such a list -----------------------------------------------------------------------------

  ghost predicate Lives(c: Setup, s: System, w: seq<Kill>) {
    && s.life.Keys == c.traps.Keys && Victims(c, w) <= s.life.Keys
    && forall a :: a in s.life ==>
         (a in Victims(c, w) <==> !s.life[a].Alive?) && (s.life[a].Dying? ==> s.life[a].reason == ReasonOf(c, w, a))
  }

  ghost predicate TablesOk(c: Setup, s: System) {
    && (forall u, v :: P.View(s.tables, u, v) ==> P.View(c.links, u, v))
    && (forall u, v :: u in s.life && !s.life[u].Gone? && P.View(c.links, u, v) ==>
      P.View(s.tables, u, v) || (v in s.life && s.life[v].Gone?))
  }

  ghost predicate Gone(s: System, a: ActorId) { a in s.life && s.life[a].Gone? }

  ghost predicate MailOk(c: Setup, s: System, w: seq<Kill>) {
    forall e :: e in s.mail ==> Gone(s, e.from) && Sends(c, w, e.from, e.to) && e == Last(c, w, e.from, e.to)
  }

  /** What a dead actor has sent to a living one still waits, or may have been handled. */
  ghost predicate WaitsOrHandled(c: Setup, s: System, w: seq<Kill>, u: ActorId, v: ActorId) {
    Last(c, w, u, v) in s.mail || (Traps(c, v) && Handle in c.may(Last(c, w, u, v)))
  }

  ghost predicate PendingOk(c: Setup, s: System, w: seq<Kill>) {
    forall u, v :: Gone(s, u) && Sends(c, w, u, v) && v in s.life && s.life[v].Alive? ==> WaitsOrHandled(c, s, w, u, v)
  }

  ghost predicate Recorded(c: Setup, s: System, w: seq<Kill>) {
    Tree(c, w) && Lives(c, s, w) && TablesOk(c, s) && MailOk(c, s, w) && PendingOk(c, s, w)
  }

  lemma StartRecorded(c: Setup)
    requires WellFormed(c)
    ensures Recorded(c, Start(c), [])
  {
  }

  lemma DeathRecorded(c: Setup, s: System, w: seq<Kill>, m: Exit, choice: Choice)
    requires Recorded(c, s, w) && Enabled(c, s, Deliver(m, choice))
    requires m.to in s.life && s.life[m.to].Alive? && React(c, m, choice).Dying?
    ensures Recorded(c, Next(c, s, Deliver(m, choice)), w + [Kill(m, choice)])
  {
    var t, k := Next(c, s, Deliver(m, choice)), Kill(m, choice);
    assert Grows(c, w, k);
    TreeSnoc(c, w, k);
    DeathKeepsLives(c, s, w, k, t);
    DeathKeepsTables(c, s, k, t);
    DeathKeepsMail(c, s, w, k, t);
    DeathKeepsPending(c, s, w, k, t);
  }

  lemma DeathKeepsLives(c: Setup, s: System, w: seq<Kill>, k: Kill, t: System)
    requires Recorded(c, s, w) && Grows(c, w, k) && Enabled(c, s, Deliver(k.m, k.choice))
    requires k.m.to in s.life && s.life[k.m.to].Alive? && t == Next(c, s, Deliver(k.m, k.choice))
    ensures Lives(c, t, w + [k])
  {
    TreeSnoc(c, w, k);
  }

  lemma DeathKeepsTables(c: Setup, s: System, k: Kill, t: System)
    requires TablesOk(c, s) && Enabled(c, s, Deliver(k.m, k.choice)) && t == Next(c, s, Deliver(k.m, k.choice))
    requires k.m.to in s.life && s.life[k.m.to].Alive?
    ensures TablesOk(c, t)
  {
  }

  lemma DeathKeepsMail(c: Setup, s: System, w: seq<Kill>, k: Kill, t: System)
    requires Recorded(c, s, w) && Grows(c, w, k) && Enabled(c, s, Deliver(k.m, k.choice))
    requires t == Next(c, s, Deliver(k.m, k.choice))
    requires k.m.to in s.life && s.life[k.m.to].Alive?
    ensures MailOk(c, t, w + [k])
  {
    TreeSnoc(c, w, k);
    forall e | e in t.mail
      ensures Gone(t, e.from) && Sends(c, w + [k], e.from, e.to) && e == Last(c, w + [k], e.from, e.to)
    {
      assert e in s.mail;
    }
  }

  lemma DeathKeepsPending(c: Setup, s: System, w: seq<Kill>, k: Kill, t: System)
    requires Recorded(c, s, w) && Grows(c, w, k) && Enabled(c, s, Deliver(k.m, k.choice))
    requires t == Next(c, s, Deliver(k.m, k.choice))
    requires k.m.to in s.life && s.life[k.m.to].Alive?
    ensures PendingOk(c, t, w + [k])
  {
    TreeSnoc(c, w, k);
    forall u, v | Gone(t, u) && Sends(c, w + [k], u, v) && v in t.life && t.life[v].Alive?
      ensures WaitsOrHandled(c, t, w + [k], u, v)
    {
      assert Gone(s, u) && u != k.m.to && Sends(c, w, u, v);
      assert WaitsOrHandled(c, s, w, u, v);
    }
  }

  /** A message that is handled, or finds nobody alive, changes nothing but the mail. */
  lemma DeliveryRecorded(c: Setup, s: System, w: seq<Kill>, m: Exit, choice: Choice)
    requires Recorded(c, s, w) && Enabled(c, s, Deliver(m, choice))
    requires !(m.to in s.life && s.life[m.to].Alive? && React(c, m, choice).Dying?)
    ensures Recorded(c, Next(c, s, Deliver(m, choice)), w)
  {
    var t := Next(c, s, Deliver(m, choice));
    assert t.life == s.life;
    forall e | e in t.mail ensures Gone(t, e.from) && Sends(c, w, e.from, e.to) && e == Last(c, w, e.from, e.to) {
      assert e in s.mail;
    }
    forall u, v | Gone(t, u) && Sends(c, w, u, v) && v in t.life && t.life[v].Alive?
      ensures WaitsOrHandled(c, t, w, u, v)
    {
      assert WaitsOrHandled(c, s, w, u, v);
      if Last(c, w, u, v) == m { assert Traps(c, v) && choice == Handle; }
    }
  }

  lemma FinishRecorded(c: Setup, s: System, w: seq<Kill>, a: ActorId)
    requires Recorded(c, s, w) && Enabled(c, s, Finish(a))
    ensures Recorded(c, Next(c, s, Finish(a)), w)
  {
    FinishKeepsTables(c, s, a);
    FinishKeepsMail(c, s, w, a);
    FinishKeepsPending(c, s, w, a);
  }

  lemma FinishKeepsTables(c: Setup, s: System, a: ActorId)
    requires TablesOk(c, s) && Enabled(c, s, Finish(a))
    ensures TablesOk(c, Next(c, s, Finish(a)))
  {
    var t := Next(c, s, Finish(a));
    forall u, v
      ensures P.View(t.tables, u, v) <==> P.View(s.tables, u, v) && !(u.nodeId == a.nodeId && (u == a || v == a))
    {
      CleanupView(s.tables, a, u, v);
    }
  }

  lemma FinishKeepsMail(c: Setup, s: System, w: seq<Kill>, a: ActorId)
    requires Recorded(c, s, w) && Enabled(c, s, Finish(a))
    ensures MailOk(c, Next(c, s, Finish(a)), w)
  {
    var t := Next(c, s, Finish(a));
    forall e | e in t.mail ensures Gone(t, e.from) && Sends(c, w, e.from, e.to) && e == Last(c, w, e.from, e.to) {
      if e !in s.mail {
        assert e in multiset(Sent(s, a, s.life[a].reason));
        SentMail(s, a, s.life[a].reason, e);
      }
    }
  }

  lemma FinishKeepsPending(c: Setup, s: System, w: seq<Kill>, a: ActorId)
    requires Recorded(c, s, w) && Enabled(c, s, Finish(a))
    ensures PendingOk(c, Next(c, s, Finish(a)), w)
  {
    var t := Next(c, s, Finish(a));
    forall u, v | Gone(t, u) && Sends(c, w, u, v) && v in t.life && t.life[v].Alive?
      ensures WaitsOrHandled(c, t, w, u, v)
    {
      if u == a {
        SentMail(s, a, s.life[a].reason, Last(c, w, a, v));
        assert Last(c, w, a, v) in t.mail;
      } else {
        assert WaitsOrHandled(c, s, w, u, v);
      }
    }
  }

  lemma {:induction false} RunRecorded(c: Setup, s: System, w: seq<Kill>, es: seq<Event>, t: System)
    returns (v: seq<Kill>)
    requires Recorded(c, s, w) && Run(c, s, es, t)
    ensures Recorded(c, t, v)
    decreases |es|
  {
    if es == [] {
      v := w;
    } else {
      var u := StepRecorded(c, s, w, es[0]);
      v := RunRecorded(c, Next(c, s, es[0]), u, es[1..], t);
    }
  }

  lemma StepRecorded(c: Setup, s: System, w: seq<Kill>, e: Event) returns (v: seq<Kill>)
    requires Recorded(c, s, w) && Enabled(c, s, e)
    ensures Recorded(c, Next(c, s, e), v)
  {
    v := w;
    match e
    case Deliver(m, choice) =>
      if m.to in s.life && s.life[m.to].Alive? && React(c, m, choice).Dying? {
        DeathRecorded(c, s, w, m, choice);
        v := w + [Kill(m, choice)];
      } else {
        DeliveryRecorded(c, s, w, m, choice);
      }
    case Finish(a) => FinishRecorded(c, s, w, a);
  }

  lemma QuietIsOutcome(c: Setup, t: System)
    requires WellFormed(c) && Reachable(c, t) && Quiet(t)
    ensures Outcome(c, DeadSet(t))
  {
    var es :| Run(c, Start(c), es, t);
    StartRecorded(c);
    var w := RunRecorded(c, Start(c), [], es, t);
    assert Victims(c, w) == DeadSet(t);
    forall u, v | Sends(c, w, u, v) && v in c.traps && v !in Victims(c, w)
      ensures Traps(c, v) && Handle in c.may(Last(c, w, u, v))
    {
      assert WaitsOrHandled(c, t, w, u, v);
    }
  }

  // ---- every such list can happen ---------------------------------------------------------------------------------

  /** The deaths of the list have happened; all that the dead have sent to the living waits, and nothing else. */
  ghost predicate Enacted(c: Setup, w: seq<Kill>, s: System) {
    && s.life.Keys == c.traps.Keys
    && (forall a :: a in s.life ==> if a in Victims(c, w) then s.life[a].Gone? else s.life[a].Alive?)
    && (forall u, v :: u !in Victims(c, w) && v !in Victims(c, w) && P.View(c.links, u, v) ==> P.View(s.tables, u, v))
    && (forall u, v :: P.View(s.tables, u, v) ==> P.View(c.links, u, v))
    && (forall u, v :: Sends(c, w, u, v) && v !in Victims(c, w) ==> Last(c, w, u, v) in s.mail)
    && MailFits(c, w, s)
  }

  ghost predicate MailFits(c: Setup, w: seq<Kill>, s: System) {
    forall e :: e in s.mail ==> Sends(c, w, e.from, e.to) && e == Last(c, w, e.from, e.to)
  }

  /** The last death of the list is about to be handled. */
  ghost predicate AboutTo(c: Setup, w: seq<Kill>, a: ActorId, s: System) {
    && s.life.Keys == c.traps.Keys && a in s.life && a in Victims(c, w) && s.life[a] == Dying(ReasonOf(c, w, a))
    && (forall b :: b in s.life && b != a ==> if b in Victims(c, w) then s.life[b].Gone? else s.life[b].Alive?)
    && (forall u, v :: (u == a || u !in Victims(c, w)) && v !in Victims(c, w) && P.View(c.links, u, v) ==>
      P.View(s.tables, u, v))
    && (forall u, v :: P.View(s.tables, u, v) ==> P.View(c.links, u, v))
    && (forall u, v :: u != a && Sends(c, w, u, v) && v !in Victims(c, w) ==> Last(c, w, u, v) in s.mail)
    && MailFits(c, w, s)
  }

  lemma HandleDeath(c: Setup, w: seq<Kill>, a: ActorId, s: System)
    requires AboutTo(c, w, a, s)
    ensures Enabled(c, s, Finish(a)) && Enacted(c, w, Next(c, s, Finish(a)))
  {
    var t := Next(c, s, Finish(a));
    forall u, v
      ensures P.View(t.tables, u, v) <==> P.View(s.tables, u, v) && !(u.nodeId == a.nodeId && (u == a || v == a))
    {
      CleanupView(s.tables, a, u, v);
    }
    HandledMail(c, w, a, s);
  }

  lemma HandledMail(c: Setup, w: seq<Kill>, a: ActorId, s: System)
    requires AboutTo(c, w, a, s)
    ensures var t := Next(c, s, Finish(a));
            MailFits(c, w, t) && forall u, v :: Sends(c, w, u, v) && v !in Victims(c, w) ==> Last(c, w, u, v) in t.mail
  {
    var t := Next(c, s, Finish(a));
    forall u, v | Sends(c, w, u, v) && v !in Victims(c, w) ensures Last(c, w, u, v) in t.mail {
      if u == a { SentMail(s, a, s.life[a].reason, Last(c, w, a, v)); }
    }
    forall e | e in t.mail ensures Sends(c, w, e.from, e.to) && e == Last(c, w, e.from, e.to) {
      if e !in s.mail {
        assert e in multiset(Sent(s, a, s.life[a].reason));
        SentMail(s, a, s.life[a].reason, e);
      }
    }
  }

  lemma NextDeath(c: Setup, w: seq<Kill>, k: Kill, s: System)
    requires Enacted(c, w, s) && Grows(c, w, k)
    ensures Enabled(c, s, Deliver(k.m, k.choice)) && AboutTo(c, w + [k], k.m.to, Next(c, s, Deliver(k.m, k.choice)))
  {
    assert k.m in s.mail;
    NextDeathMail(c, w, k, s);
    NextDeathFits(c, w, k, s);
    TreeSnoc(c, w, k);
  }

  lemma NextDeathMail(c: Setup, w: seq<Kill>, k: Kill, s: System)
    requires Enacted(c, w, s) && Grows(c, w, k) && Enabled(c, s, Deliver(k.m, k.choice))
    ensures var t, v := Next(c, s, Deliver(k.m, k.choice)), w + [k];
            forall u, x :: u != k.m.to && Sends(c, v, u, x) && x !in Victims(c, v) ==> Last(c, v, u, x) in t.mail
  {
    TreeSnoc(c, w, k);
    var t, v := Next(c, s, Deliver(k.m, k.choice)), w + [k];
    forall u, x | u != k.m.to && Sends(c, v, u, x) && x !in Victims(c, v) ensures Last(c, v, u, x) in t.mail {
      assert Sends(c, w, u, x) && Last(c, w, u, x) in s.mail;
    }
  }

  lemma NextDeathFits(c: Setup, w: seq<Kill>, k: Kill, s: System)
    requires Enacted(c, w, s) && Grows(c, w, k) && Enabled(c, s, Deliver(k.m, k.choice))
    ensures MailFits(c, w + [k], Next(c, s, Deliver(k.m, k.choice)))
  {
    TreeSnoc(c, w, k);
    var t, v := Next(c, s, Deliver(k.m, k.choice)), w + [k];
    forall e | e in t.mail ensures Sends(c, v, e.from, e.to) && e == Last(c, v, e.from, e.to) {
      assert e in s.mail && e.from != k.m.to;
    }
  }

  ghost predicate CanEnact(c: Setup, w: seq<Kill>) { exists s :: Reachable(c, s) && Enacted(c, w, s) }

  lemma EnactEnd(c: Setup, w: seq<Kill>, a: ActorId, s: System)
    requires Reachable(c, s) && AboutTo(c, w, a, s)
    ensures CanEnact(c, w)
  {
    HandleDeath(c, w, a, s);
    ReachableStep(c, s, Finish(a));
  }

  lemma EnactNext(c: Setup, w: seq<Kill>, k: Kill)
    requires CanEnact(c, w) && Grows(c, w, k)
    ensures CanEnact(c, w + [k])
  {
    var s :| Reachable(c, s) && Enacted(c, w, s);
    NextDeath(c, w, k, s);
    ReachableStep(c, s, Deliver(k.m, k.choice));
    EnactEnd(c, w + [k], k.m.to, Next(c, s, Deliver(k.m, k.choice)));
  }

  lemma {:induction false} Enact(c: Setup, w: seq<Kill>)
    requires WellFormed(c) && Tree(c, w)
    ensures CanEnact(c, w)
    decreases |w|
  {
    if w == [] {
      assert Run(c, Start(c), [], Start(c));
      EnactEnd(c, w, c.root, Start(c));
    } else {
      var v, k := TreeCut(c, w);
      Enact(c, v);
      EnactNext(c, v, k);
    }
  }

  /** The survivors handle what waits for them. */
  lemma {:induction false} HandleRest(c: Setup, w: seq<Kill>, s: System) returns (t: System)
    requires WellFormed(c) && Reachable(c, s) && Survivable(c, w) && MailFits(c, w, s) && s.life.Keys == c.traps.Keys
    requires forall a :: a in s.life ==> if a in Victims(c, w) then s.life[a].Gone? else s.life[a].Alive?
    ensures Reachable(c, t) && Quiet(t) && t.life == s.life
    decreases |s.mail|
  {
    t := s;
    if s.mail != multiset{} {
      var m :| m in s.mail;
      var e := HandleOne(c, w, s, m);
      ReachableStep(c, s, e);
      t := HandleRest(c, w, Next(c, s, e));
    }
  }

  lemma HandleOne(c: Setup, w: seq<Kill>, s: System, m: Exit) returns (e: Event)
    requires WellFormed(c) && Survivable(c, w) && MailFits(c, w, s) && m in s.mail && s.life.Keys == c.traps.Keys
    requires forall a :: a in s.life ==> if a in Victims(c, w) then s.life[a].Gone? else s.life[a].Alive?
    ensures Enabled(c, s, e)
    ensures var t := Next(c, s, e); t.life == s.life && MailFits(c, w, t) && |t.mail| < |s.mail|
  {
    var living := m.to in s.life && s.life[m.to].Alive?;
    assert living ==> Traps(c, m.to) && Handle in c.may(m);
    e := Deliver(m, if living then Handle else if Traps(c, m.to) then AnAnswer(c, m) else Handle);
    assert Next(c, s, e).life == s.life;
  }

  lemma OutcomeHappens(c: Setup, dead: set<ActorId>)
    requires WellFormed(c) && Outcome(c, dead)
    ensures exists t :: Reachable(c, t) && Quiet(t) && DeadSet(t) == dead
  {
    var w :| Tree(c, w) && Survivable(c, w) && Victims(c, w) == dead;
    Enact(c, w);
    var s :| Reachable(c, s) && Enacted(c, w, s);
    EnactedDead(c, w, s);
    var t := HandleRest(c, w, s);
    assert DeadSet(t) == DeadSet(s);
  }

  lemma EnactedDead(c: Setup, w: seq<Kill>, s: System)
    requires WellFormed(c) && Tree(c, w) && Enacted(c, w, s)
    ensures DeadSet(s) == Victims(c, w)
  {
    forall a | a in Victims(c, w) ensures a in s.life { VictimsExist(c, w, a); }
  }

  // ---- the main results ---------------------------------------------------------------------------------------------

  /** A set of actors is what some quiet end leaves dead if and only if it is the outcome of such a list. */
  lemma DeadSetIff(c: Setup, dead: set<ActorId>)
    requires WellFormed(c)
    ensures (exists t :: Reachable(c, t) && Quiet(t) && DeadSet(t) == dead) <==> Outcome(c, dead)
  {
    if t :| Reachable(c, t) && Quiet(t) && DeadSet(t) == dead { QuietIsOutcome(c, t); }
    if Outcome(c, dead) { OutcomeHappens(c, dead); }
  }

  /** An actor is gone in every quiet end if and only if no outcome spares it. */
  lemma AlwaysGoneIff(c: Setup, a: ActorId)
    requires WellFormed(c)
    ensures (forall t :: Reachable(c, t) && Quiet(t) ==> a in DeadSet(t)) <==>
            (forall dead :: Outcome(c, dead) ==> a in dead)
  {
    if forall t :: Reachable(c, t) && Quiet(t) ==> a in DeadSet(t) {
      forall dead | Outcome(c, dead) ensures a in dead { OutcomeHappens(c, dead); }
    }
    if forall dead :: Outcome(c, dead) ==> a in dead {
      forall t | Reachable(c, t) && Quiet(t) ensures a in DeadSet(t) { QuietIsOutcome(c, t); }
    }
  }

  /** So the order of deliveries and the answers do not matter at all if and only if there is only one outcome. */
  lemma OrderIsIrrelevantIff(c: Setup)
    requires WellFormed(c)
    ensures (forall t, u :: Reachable(c, t) && Quiet(t) && Reachable(c, u) && Quiet(u) ==>
            DeadSet(t) == DeadSet(u)) <==>
            (forall d, e :: Outcome(c, d) && Outcome(c, e) ==> d == e)
  {
    if forall t, u :: Reachable(c, t) && Quiet(t) && Reachable(c, u) && Quiet(u) ==> DeadSet(t) == DeadSet(u) {
      forall d, e | Outcome(c, d) && Outcome(c, e) ensures d == e {
        OutcomeHappens(c, d);
        OutcomeHappens(c, e);
      }
    }
    if forall d, e :: Outcome(c, d) && Outcome(c, e) ==> d == e {
      forall t, u | Reachable(c, t) && Quiet(t) && Reachable(c, u) && Quiet(u) ensures DeadSet(t) == DeadSet(u) {
        QuietIsOutcome(c, t);
        QuietIsOutcome(c, u);
      }
    }
  }
}
