/**
  Who can die in a cascade, exactly. What an actor sends depends on which message killed it, and a trapping actor's
  answer on the message it takes first, so the order of deliveries can decide who dies.
 */
module CascadeOrder {
  import opened ActorIds
  import opened ExitReasons
  import opened ActorMonitors
  import opened ExitCascade
  import P = LinkProtocol

  /** One death of a chain: the message taken and the answer given to it. */
  datatype Kill = Kill(m: Exit, choice: Choice)

  ghost function Killed(w: seq<Kill>, root: ActorId): ActorId { if w == [] then root else w[|w| - 1].m.to }

  /** The reason the last actor of the chain dies with. */
  ghost function ReasonAfter(c: Setup, w: seq<Kill>): ExitReason {
    if w == [] then c.reason
    else
      var k := w[|w| - 1];
      var l := React(c, k.m, k.choice);
      if l.Dying? then l.reason else Normal
  }

  ghost function Victims(c: Setup, w: seq<Kill>): set<ActorId> {
    if w == [] then {c.root} else Victims(c, w[..|w| - 1]) + {w[|w| - 1].m.to}
  }

  /** `k` can come next: the last actor sends this very message over an original link, and a new actor dies of it. */
  ghost predicate Follows(c: Setup, w: seq<Kill>, k: Kill) {
    && IsError(ReasonAfter(c, w))
    && k.m == Exit(k.m.to, Killed(w, c.root), ReasonText(ReasonAfter(c, w)))
    && P.View(c.links, k.m.from, k.m.to)
    && k.m.to in c.traps && k.m.to !in Victims(c, w)
    && Answers(c, k.m, k.choice) && React(c, k.m, k.choice).Dying?
  }

  /** A chain of deaths, each the cause of the next, that starts at the first actor. */
  ghost predicate Walk(c: Setup, w: seq<Kill>) {
    w == [] || (Walk(c, w[..|w| - 1]) && Follows(c, w[..|w| - 1], w[|w| - 1]))
  }

  lemma WalkSnoc(c: Setup, w: seq<Kill>, k: Kill)
    ensures Walk(c, w + [k]) <==> Walk(c, w) && Follows(c, w, k)
    ensures Killed(w + [k], c.root) == k.m.to && Victims(c, w + [k]) == Victims(c, w) + {k.m.to}
    ensures React(c, k.m, k.choice).Dying? ==> ReasonAfter(c, w + [k]) == React(c, k.m, k.choice).reason
  {
    var v := w + [k];
    assert v[..|v| - 1] == w && v[|v| - 1] == k;
  }

  lemma Cut(w: seq<Kill>) returns (v: seq<Kill>, k: Kill)
    requires w != []
    ensures w == v + [k] && v == w[..|w| - 1] && k == w[|w| - 1]
  {
    v, k := w[..|w| - 1], w[|w| - 1];
  }

  lemma WalkCut(c: Setup, w: seq<Kill>) returns (v: seq<Kill>, k: Kill)
    requires Walk(c, w) && w != []
    ensures w == v + [k] && Walk(c, v) && Follows(c, v, k)
  {
    v, k := Cut(w);
  }

  ghost predicate Reachable(c: Setup, s: System) { exists es :: Run(c, Start(c), es, s) }

  // ---- whoever dies has such a chain ----------------------------------------------------------------------------

  /** The chain kills `a` with `r`, and all its actors are dead by now. */
  ghost predicate Explains(c: Setup, s: System, w: seq<Kill>, a: ActorId) {
    Walk(c, w) && Killed(w, c.root) == a && forall v :: v in Victims(c, w) ==> v in s.life && !s.life[v].Alive?
  }

  ghost predicate DeathExplained(c: Setup, s: System, a: ActorId)
    requires a in s.life
  {
    !s.life[a].Alive? ==>
      exists w :: Explains(c, s, w, a) && (s.life[a].Dying? ==> ReasonAfter(c, w) == s.life[a].reason)
  }

  ghost predicate MailExplained(c: Setup, s: System, e: Exit) {
    && P.View(c.links, e.from, e.to)
    && exists w ::
      Explains(c, s, w, e.from) && IsError(ReasonAfter(c, w)) && e.reasonText == ReasonText(ReasonAfter(c, w))
  }

  ghost predicate Explained(c: Setup, s: System) {
    && s.life.Keys == c.traps.Keys
    && (forall u, v :: P.View(s.tables, u, v) ==> P.View(c.links, u, v))
    && (forall e :: e in s.mail ==> MailExplained(c, s, e))
    && (forall a :: a in s.life ==> DeathExplained(c, s, a))
  }

  lemma StartExplained(c: Setup)
    requires WellFormed(c)
    ensures Explained(c, Start(c))
  {
    assert Explains(c, Start(c), [], c.root);
  }

  /** The dead stay dead, so what explained a death still does. */
  lemma StepKeepsExplains(c: Setup, s: System, e: Event, w: seq<Kill>, a: ActorId)
    requires Enabled(c, s, e) && Explains(c, s, w, a)
    ensures Explains(c, Next(c, s, e), w, a)
  {
  }

  lemma StepKeepsMail(c: Setup, s: System, e: Event, m: Exit)
    requires Enabled(c, s, e) && MailExplained(c, s, m)
    ensures MailExplained(c, Next(c, s, e), m)
  {
    var w :| Explains(c, s, w, m.from) && IsError(ReasonAfter(c, w)) && m.reasonText == ReasonText(ReasonAfter(c, w));
    StepKeepsExplains(c, s, e, w, m.from);
  }

  lemma StepKeepsDeath(c: Setup, s: System, e: Event, a: ActorId)
    requires Enabled(c, s, e) && a in s.life && DeathExplained(c, s, a) && a in Next(c, s, e).life
    requires !s.life[a].Alive?
    ensures DeathExplained(c, Next(c, s, e), a)
  {
    var w :| Explains(c, s, w, a) && (s.life[a].Dying? ==> ReasonAfter(c, w) == s.life[a].reason);
    StepKeepsExplains(c, s, e, w, a);
  }

  /** A death by a message: one more link on the chain that explains the message. */
  lemma NewDeath(c: Setup, s: System, m: Exit, choice: Choice)
    requires Enabled(c, s, Deliver(m, choice)) && MailExplained(c, s, m)
    requires s.life.Keys == c.traps.Keys && m.to in s.life && s.life[m.to].Alive? && React(c, m, choice).Dying?
    ensures var t := Next(c, s, Deliver(m, choice)); m.to in t.life && DeathExplained(c, t, m.to)
  {
    var t, k := Next(c, s, Deliver(m, choice)), Kill(m, choice);
    var w :| Explains(c, s, w, m.from) && IsError(ReasonAfter(c, w)) && m.reasonText == ReasonText(ReasonAfter(c, w));
    assert Follows(c, w, k);
    WalkSnoc(c, w, k);
    StepKeepsExplains(c, s, Deliver(m, choice), w, m.from);
    assert Explains(c, t, w + [k], m.to);
  }

  lemma DeliverExplained(c: Setup, s: System, m: Exit, choice: Choice)
    requires Explained(c, s) && Enabled(c, s, Deliver(m, choice))
    ensures Explained(c, Next(c, s, Deliver(m, choice)))
  {
    var e, t := Deliver(m, choice), Next(c, s, Deliver(m, choice));
    forall o | o in t.mail ensures MailExplained(c, t, o) { StepKeepsMail(c, s, e, o); }
    forall a | a in t.life ensures DeathExplained(c, t, a) {
      if !s.life[a].Alive? {
        StepKeepsDeath(c, s, e, a);
      } else if !t.life[a].Alive? {
        NewDeath(c, s, m, choice);
      }
    }
  }

  lemma NewMail(c: Setup, s: System, a: ActorId, o: Exit)
    requires Explained(c, s) && Enabled(c, s, Finish(a)) && o in multiset(Sent(s, a, s.life[a].reason))
    ensures MailExplained(c, s, o)
  {
    SentMail(s, a, s.life[a].reason, o);
    assert DeathExplained(c, s, a);
  }

  lemma FinishExplained(c: Setup, s: System, a: ActorId)
    requires Explained(c, s) && Enabled(c, s, Finish(a))
    ensures Explained(c, Next(c, s, Finish(a)))
  {
    var t := Next(c, s, Finish(a));
    forall u, v | P.View(t.tables, u, v) ensures P.View(c.links, u, v) { CleanupView(s.tables, a, u, v); }
    forall o | o in t.mail ensures MailExplained(c, t, o) {
      if o !in s.mail {
        assert o in multiset(Sent(s, a, s.life[a].reason));
        NewMail(c, s, a, o);
      }
      StepKeepsMail(c, s, Finish(a), o);
    }
    forall b | b in t.life ensures DeathExplained(c, t, b) {
      if !s.life[b].Alive? { StepKeepsDeath(c, s, Finish(a), b); }
    }
  }

  lemma {:induction false} RunExplained(c: Setup, s: System, es: seq<Event>, t: System)
    requires Explained(c, s) && Run(c, s, es, t)
    ensures Explained(c, t)
    decreases |es|
  {
    if es != [] {
      StepExplained(c, s, es[0]);
      RunExplained(c, Next(c, s, es[0]), es[1..], t);
    }
  }

  lemma StepExplained(c: Setup, s: System, e: Event)
    requires Explained(c, s) && Enabled(c, s, e)
    ensures Explained(c, Next(c, s, e))
  {
    match e
    case Deliver(m, choice) => DeliverExplained(c, s, m, choice);
    case Finish(a) => FinishExplained(c, s, a);
  }

  // ---- every such chain can happen ---------------------------------------------------------------------------------

  lemma RunCons(c: Setup, s: System, e: Event, rest: seq<Event>, all: seq<Event>, t: System)
    requires Enabled(c, s, e) && Run(c, Next(c, s, e), rest, t) && all == [e] + rest
    ensures Run(c, s, all, t)
  {
    assert all[0] == e && all[1..] == rest;
  }

  lemma RunOne(c: Setup, s: System, e: Event)
    requires Enabled(c, s, e)
    ensures Run(c, s, [e], Next(c, s, e))
  {
    assert Run(c, Next(c, s, e), [], Next(c, s, e));
    RunCons(c, s, e, [], [e], Next(c, s, e));
  }

  lemma FirstOfBoth(es: seq<Event>, fs: seq<Event>)
    requires es != []
    ensures es + fs == [es[0]] + (es[1..] + fs)
  {
    assert es == [es[0]] + es[1..];
  }

  lemma {:induction false} RunSnoc(c: Setup, s: System, es: seq<Event>, m: System, e: Event)
    requires Run(c, s, es, m) && Enabled(c, m, e)
    ensures Run(c, s, es + [e], Next(c, m, e))
    decreases |es|
  {
    if es == [] {
      RunOne(c, m, e);
      assert es + [e] == [e];
    } else {
      RunSnoc(c, Next(c, s, es[0]), es[1..], m, e);
      FirstOfBoth(es, [e]);
      RunCons(c, s, es[0], es[1..] + [e], es + [e], Next(c, m, e));
    }
  }

  lemma ReachableStep(c: Setup, s: System, e: Event)
    requires Reachable(c, s) && Enabled(c, s, e)
    ensures Reachable(c, Next(c, s, e))
  {
    var es :| Run(c, Start(c), es, s);
    RunSnoc(c, Start(c), es, s, e);
  }

  /** The chain has been played: its actors are gone, everyone else is untouched, and the last one's messages wait. */
  ghost predicate Played(c: Setup, w: seq<Kill>, s: System) {
    && s.life.Keys == c.traps.Keys
    && (forall a :: a in s.life ==> if a in Victims(c, w) then s.life[a].Gone? else s.life[a].Alive?)
    && (forall u, v :: u !in Victims(c, w) && v !in Victims(c, w) && P.View(c.links, u, v) ==> P.View(s.tables, u, v))
    && (forall v :: v !in Victims(c, w) && IsError(ReasonAfter(c, w)) && P.View(c.links, Killed(w, c.root), v) ==>
          Exit(v, Killed(w, c.root), ReasonText(ReasonAfter(c, w))) in s.mail)
  }

  /** The last actor of a chain is about to end, everything else is as the chain before it left it. */
  ghost predicate Poised(c: Setup, w: seq<Kill>, gone: set<ActorId>, s: System) {
    && s.life.Keys == c.traps.Keys && Killed(w, c.root) in s.life && Victims(c, w) == gone + {Killed(w, c.root)}
    && s.life[Killed(w, c.root)] == Dying(ReasonAfter(c, w))
    && (forall a :: a in s.life && a != Killed(w, c.root) ==> if a in gone then s.life[a].Gone? else s.life[a].Alive?)
    && (forall u, v :: u !in gone && v !in gone && P.View(c.links, u, v) ==> P.View(s.tables, u, v))
    && Killed(w, c.root) !in gone
  }

  lemma PoisedThenPlayed(c: Setup, w: seq<Kill>, gone: set<ActorId>, s: System)
    requires Poised(c, w, gone, s)
    ensures Enabled(c, s, Finish(Killed(w, c.root))) && Played(c, w, Next(c, s, Finish(Killed(w, c.root))))
  {
    var a, r := Killed(w, c.root), ReasonAfter(c, w);
    var t := Next(c, s, Finish(a));
    forall u, v | u !in Victims(c, w) && v !in Victims(c, w) && P.View(c.links, u, v) ensures P.View(t.tables, u, v) {
      CleanupView(s.tables, a, u, v);
    }
    forall v | v !in Victims(c, w) && IsError(r) && P.View(c.links, a, v) ensures Exit(v, a, ReasonText(r)) in t.mail {
      SentMail(s, a, r, Exit(v, a, ReasonText(r)));
    }
  }

  lemma PlayedThenPoised(c: Setup, w: seq<Kill>, k: Kill, s: System)
    requires Played(c, w, s) && Follows(c, w, k)
    ensures Enabled(c, s, Deliver(k.m, k.choice))
    ensures Poised(c, w + [k], Victims(c, w), Next(c, s, Deliver(k.m, k.choice)))
  {
    WalkSnoc(c, w, k);
    assert k.m in s.mail;
  }

  ghost predicate Playable(c: Setup, w: seq<Kill>) { exists s :: Reachable(c, s) && Played(c, w, s) }

  lemma PlayNext(c: Setup, w: seq<Kill>, k: Kill)
    requires Playable(c, w) && Follows(c, w, k)
    ensures Playable(c, w + [k])
  {
    var s :| Reachable(c, s) && Played(c, w, s);
    PlayedThenPoised(c, w, k, s);
    ReachableStep(c, s, Deliver(k.m, k.choice));
    PlayEnd(c, w + [k], Victims(c, w), Next(c, s, Deliver(k.m, k.choice)));
  }

  lemma PlayEnd(c: Setup, w: seq<Kill>, gone: set<ActorId>, s: System)
    requires Reachable(c, s) && Poised(c, w, gone, s)
    ensures Playable(c, w)
  {
    PoisedThenPlayed(c, w, gone, s);
    ReachableStep(c, s, Finish(Killed(w, c.root)));
  }

  lemma {:induction false} Play(c: Setup, w: seq<Kill>)
    requires WellFormed(c) && Walk(c, w)
    ensures Playable(c, w)
    decreases |w|
  {
    if w == [] {
      assert Run(c, Start(c), [], Start(c));
      PlayEnd(c, w, {}, Start(c));
    } else {
      var v, k := WalkCut(c, w);
      Play(c, v);
      PlayNext(c, v, k);
    }
  }

  lemma {:induction false} SomeBound(t: P.Tables, who: set<ActorId>) returns (most: nat)
    ensures forall a :: a in who ==> PeerCount(t, a) <= most
    decreases |who|
  {
    most := 0;
    if who != {} {
      var a :| a in who;
      var rest := SomeBound(t, who - {a});
      most := if PeerCount(t, a) > rest then PeerCount(t, a) else rest;
      forall b | b in who ensures PeerCount(t, b) <= most {
        assert b == a || b in who - {a};
      }
    }
  }

  lemma DeadStayDead(c: Setup, s: System, e: Event, v: ActorId)
    requires Enabled(c, s, e) && v in s.life && !s.life[v].Alive?
    ensures v in Next(c, s, e).life && !Next(c, s, e).life[v].Alive?
  {
  }

  /** From any state some run ends quietly, and the dead stay dead. */
  lemma {:induction false} RunOut(c: Setup, s: System, v: ActorId, most: nat) returns (t: System)
    requires WellFormed(c) && Reachable(c, s) && AtMost(s, most) && v in s.life && !s.life[v].Alive?
    ensures Reachable(c, t) && Quiet(t) && v in t.life && t.life[v].Gone?
    decreases Rank(s, most)
  {
    if Quiet(s) {
      t := s;
    } else {
      QuietIffStuck(c, s);
      var e :| Enabled(c, s, e);
      ReachableStep(c, s, e);
      StepLowersRank(c, s, e, most);
      DeadStayDead(c, s, e, v);
      t := RunOut(c, Next(c, s, e), v, most);
    }
  }

  // ---- the main results ----------------------------------------------------------------------------------------

  ghost predicate MayDie(c: Setup, a: ActorId) {
    exists t :: Reachable(c, t) && Quiet(t) && a in t.life && t.life[a].Gone?
  }

  ghost predicate HasWalk(c: Setup, a: ActorId) { exists w :: Walk(c, w) && Killed(w, c.root) == a }

  /** An actor dies in some order of deliveries and answers if and only if a chain of deaths leads to it. */
  lemma MayDieIff(c: Setup, a: ActorId)
    requires WellFormed(c)
    ensures MayDie(c, a) <==> HasWalk(c, a)
  {
    if MayDie(c, a) {
      var t :| Reachable(c, t) && Quiet(t) && a in t.life && t.life[a].Gone?;
      GoneHasWalk(c, t, a);
    }
    if HasWalk(c, a) {
      WalkedCanDie(c, a);
    }
  }

  lemma GoneHasWalk(c: Setup, t: System, a: ActorId)
    requires WellFormed(c) && Reachable(c, t) && a in t.life && t.life[a].Gone?
    ensures HasWalk(c, a)
  {
    var es :| Run(c, Start(c), es, t);
    StartExplained(c);
    RunExplained(c, Start(c), es, t);
    assert DeathExplained(c, t, a);
    var w :| Explains(c, t, w, a);
  }

  lemma WalkedCanDie(c: Setup, a: ActorId)
    requires WellFormed(c) && HasWalk(c, a)
    ensures MayDie(c, a)
  {
    var w :| Walk(c, w) && Killed(w, c.root) == a;
    Play(c, w);
    var s :| Reachable(c, s) && Played(c, w, s);
    LastIsVictim(c, w);
    var most := SomeBound(s.tables, s.life.Keys);
    var t := RunOut(c, s, a, most);
  }

  lemma {:induction false} LastIsVictim(c: Setup, w: seq<Kill>)
    requires WellFormed(c) && Walk(c, w)
    ensures Killed(w, c.root) in Victims(c, w) && Killed(w, c.root) in c.traps
  {
  }

  ghost predicate ExactlyReached(c: Setup, t: System) {
    forall a :: a in t.life ==> (t.life[a].Gone? <==> Reached(c, a))
  }

  /** Whoever a chain of deaths leads to is reached through certain forwarders. */
  ghost predicate Settled(c: Setup) { forall w :: Walk(c, w) ==> Reached(c, Killed(w, c.root)) }

  /** The bounds of a cascade: all of the reached, and only those a chain of deaths leads to. */
  lemma CascadeBetween(c: Setup, t: System, a: ActorId)
    requires WellFormed(c) && Reachable(c, t) && Quiet(t) && a in t.life
    ensures Reached(c, a) ==> t.life[a].Gone?
    ensures t.life[a].Gone? ==> HasWalk(c, a)
  {
    var es :| Run(c, Start(c), es, t);
    if Reached(c, a) { ReachedAreGone(c, es, t, a); }
    if t.life[a].Gone? { GoneHasWalk(c, t, a); }
  }

  /**
    Whatever the order of deliveries and the answers of trapping actors, the dead are exactly those reached through
    certain forwarders, if and only if every chain of deaths over the original links ends at one of those.
   */
  lemma CascadeExactIff(c: Setup)
    requires WellFormed(c)
    ensures Settled(c) <==> forall t :: Reachable(c, t) && Quiet(t) ==> ExactlyReached(c, t)
  {
    if Settled(c) {
      forall t | Reachable(c, t) && Quiet(t) ensures ExactlyReached(c, t) {
        forall a | a in t.life ensures t.life[a].Gone? <==> Reached(c, a) { CascadeBetween(c, t, a); }
      }
    }
    if forall t :: Reachable(c, t) && Quiet(t) ==> ExactlyReached(c, t) {
      forall w | Walk(c, w) ensures Reached(c, Killed(w, c.root)) {
        WalkedCanDie(c, Killed(w, c.root));
      }
    }
  }

  // ---- conditions a reader can check ----------------------------------------------------------------------------

  /** The text the first actor sends is not read back as an error, so a propagating trapper ends quietly. */
  ghost predicate QuietText(c: Setup) { !IsError(c.reason) || !ReadsAsError(ReasonText(c.reason)) }

  ghost predicate AlwaysHandles(c: Setup, a: ActorId) { forall m: Exit :: m.to == a ==> c.may(m) == {Handle} }

  /** Every trapping actor survives whatever comes or nothing that comes, and propagating comes to nothing. */
  ghost predicate Determined(c: Setup) {
    && (forall a :: Traps(c, a) ==> AlwaysHandles(c, a) || MustDie(c, a))
    && (QuietText(c) || forall m: Exit :: Traps(c, m.to) ==> Propagate !in c.may(m))
  }

  lemma HeaderIsError(text: string)
    ensures IsError(ParseHeader(text)) ==> ReadsAsError(text)
  {
  }

  lemma LinkedTextQuiet(r: ExitReason)
    requires r.Linked?
    ensures !ReadsAsError(ReasonText(r))
  {
    assert ReasonText(r)[0] == 'l';
    assert forall n :: 0 < n <= |ReasonText(r)| ==> ReasonText(r)[..n][0] == 'l';
  }

  lemma {:induction false} RootIsVictim(c: Setup, w: seq<Kill>)
    ensures c.root in Victims(c, w)
  {
    if w != [] { RootIsVictim(c, w[..|w| - 1]); }
  }

  /**
    The last actor of the chain is reached; if it passes the exit on it does so for certain, and not as an error
    text.
   */
  ghost predicate Tame(c: Setup, w: seq<Kill>) {
    && Reached(c, Killed(w, c.root))
    && (IsError(ReasonAfter(c, w)) ==>
          Killed(w, c.root) in Forwarding(c) && (w != [] ==> !ReadsAsError(ReasonText(ReasonAfter(c, w)))))
  }

  lemma {:induction false} DeterminedWalk(c: Setup, w: seq<Kill>)
    requires WellFormed(c) && Determined(c) && Walk(c, w)
    ensures Tame(c, w)
    decreases |w|
  {
    if w == [] {
      TameStart(c);
    } else {
      var v, k := WalkCut(c, w);
      DeterminedWalk(c, v);
      DeterminedStep(c, v, k);
    }
  }

  lemma TameStart(c: Setup)
    requires WellFormed(c)
    ensures Tame(c, [])
  {
    ReachedRoot(c);
  }

  lemma DeterminedStep(c: Setup, w: seq<Kill>, k: Kill)
    requires WellFormed(c) && Determined(c) && Tame(c, w) && Follows(c, w, k)
    ensures Tame(c, w + [k])
  {
    RootIsVictim(c, w);
    DeterminedKill(c, w, k);
    WalkSnoc(c, w, k);
    ReachedStep(c, Killed(w, c.root), k.m.to);
  }

  lemma DeterminedKill(c: Setup, w: seq<Kill>, k: Kill)
    requires WellFormed(c) && Determined(c) && Follows(c, w, k) && c.root in Victims(c, w)
    requires w != [] ==> !ReadsAsError(k.m.reasonText)
    ensures MustDie(c, k.m.to)
    ensures var r := React(c, k.m, k.choice).reason; IsError(r) ==>
            k.m.to in Forwarding(c) && !ReadsAsError(ReasonText(r))
  {
    var r := React(c, k.m, k.choice).reason;
    HeaderIsError(k.m.reasonText);
    if !Traps(c, k.m.to) {
      LinkedTextQuiet(r);
    } else {
      assert k.choice in c.may(k.m) && k.choice != Handle;
      assert !AlwaysHandles(c, k.m.to);
    }
  }

  /** Then the dead are exactly those reachable from the first actor through actors that pass the exit on. */
  lemma CascadeExact(c: Setup, t: System)
    requires WellFormed(c) && Determined(c) && Reachable(c, t) && Quiet(t)
    ensures ExactlyReached(c, t)
  {
    forall w | Walk(c, w) ensures Reached(c, Killed(w, c.root)) { DeterminedWalk(c, w); }
    CascadeExactIff(c);
  }

  /** A chain r - p - q on one node: `r` fails, `p` traps and always propagates, `q` does not trap. */
  ghost function Row(r: ActorId, p: ActorId, q: ActorId, message: string): Setup {
    Setup(map[r := false, p := true, q := false], _ => {Propagate},
          map[r.nodeId := map[r := [p], p := [r, q], q := [p]]], r, Error(message))
  }

  lemma RowView(c: Setup, r: ActorId, p: ActorId, q: ActorId, u: ActorId)
    requires r != p && p != q && q != r && r.nodeId == p.nodeId == q.nodeId && c.links == Row(r, p, q, "").links
    ensures P.View(c.links, r, p) && P.View(c.links, p, q)
    ensures P.View(c.links, u, q) ==> u == p
  {
    assert [p][0] == p && [r, q][1] == q;
    assert P.TableOf(c.links, u.nodeId) == if u.nodeId == r.nodeId then map[r := [p], p := [r, q], q := [p]] else map[];
  }

  lemma RowUnreached(c: Setup, r: ActorId, p: ActorId, q: ActorId, message: string)
    requires r != p && p != q && q != r && r.nodeId == p.nodeId == q.nodeId && c == Row(r, p, q, message)
    ensures !Reached(c, q)
  {
    assert p !in Forwarding(c);
    forall w | Chain(c, w) ensures w[|w| - 1] != q {
      if |w| > 1 { RowView(c, r, p, q, w[|w| - 2]); }
    }
  }

  lemma RowFirst(c: Setup, r: ActorId, p: ActorId, q: ActorId, message: string, k: Kill)
    requires r != p && p != q && q != r && r.nodeId == p.nodeId == q.nodeId && c == Row(r, p, q, message)
    requires k == Kill(Exit(p, r, message), Propagate)
    ensures Walk(c, [k]) && Killed([k], c.root) == p && Victims(c, [k]) == {r, p}
    ensures ReasonAfter(c, [k]) == ParseHeader(message)
  {
    RowView(c, r, p, q, r);
    assert Walk(c, []) && Follows(c, [], k);
    WalkSnoc(c, [], k);
    assert [] + [k] == [k];
  }

  lemma RowWalk(c: Setup, r: ActorId, p: ActorId, q: ActorId, message: string)
    requires r != p && p != q && q != r && r.nodeId == p.nodeId == q.nodeId && c == Row(r, p, q, message)
    requires IsError(ParseHeader(message))
    ensures HasWalk(c, q)
  {
    var k, l := Kill(Exit(p, r, message), Propagate), Kill(Exit(q, p, ReasonText(ParseHeader(message))), Propagate);
    RowFirst(c, r, p, q, message, k);
    RowView(c, r, p, q, p);
    assert Follows(c, [k], l);
    WalkSnoc(c, [k], l);
  }

  /**
    The condition does fail: on that chain it holds exactly when the message of the failure does not itself start
    with a tag that the receiver of the exit reads as an error.
   */
  lemma RowSettledIff(r: ActorId, p: ActorId, q: ActorId, message: string)
    requires r != p && p != q && q != r && r.nodeId == p.nodeId == q.nodeId
    ensures Settled(Row(r, p, q, message)) <==> !ReadsAsError(message)
  {
    var c := Row(r, p, q, message);
    if ReadsAsError(message) {
      RowUnreached(c, r, p, q, message);
      HeaderTrip(c.reason);
      RowWalk(c, r, p, q, message);
    } else {
      assert ReasonText(c.reason) == message;
      forall w | Walk(c, w) ensures Reached(c, Killed(w, c.root)) { DeterminedWalk(c, w); }
    }
  }
}
