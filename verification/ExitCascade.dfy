/**
  How one failure spreads over links. Exit messages wait in mailboxes and are handled in any order; an actor whose
  loop has stopped is later handled by its watcher, which sends to the peers its own node still lists and cleans up.
 */
module ExitCascade {
  import opened ActorIds
  import opened ExitReasons
  import opened LinkTable
  import opened ActorMonitors
  import P = LinkProtocol

  /** What a trapping actor's `handle_exit` may answer: carry on, end with the reason it was given, or fail. */
  datatype Choice = Handle | Propagate | Fail

  datatype Life = Alive | Dying(reason: ExitReason) | Gone

  /**
    Who exists and whether it traps exits, what a trapping actor may answer to each message (several answers if that
    depends on its state), the links at the start, and the first actor to end, with its reason.
   */
  datatype Setup = Setup(
    traps: map<ActorId, bool>, may: Exit -> set<Choice>, links: P.Tables, root: ActorId, reason: ExitReason)

  datatype System = System(tables: P.Tables, life: map<ActorId, Life>, mail: multiset<Exit>)

  datatype Event = Deliver(exit: Exit, choice: Choice) | Finish(actor: ActorId)

  predicate Traps(c: Setup, a: ActorId) { a in c.traps && c.traps[a] }

  /** A trapping actor always has an answer. */
  ghost predicate WellFormed(c: Setup) { c.root in c.traps && forall m: Exit :: Traps(c, m.to) ==> c.may(m) != {} }

  ghost function Start(c: Setup): System {
    System(c.links, map a | a in c.traps :: if a == c.root then Dying(c.reason) else Alive, multiset{})
  }

  /** The state of an actor that takes an exit message off its mailbox. */
  function React(c: Setup, m: Exit, choice: Choice): Life {
    if !Traps(c, m.to) then Dying(Linked(ParseOrUnknown(Canonical(m.from)), ParseHeader(m.reasonText)))
    else
      match choice
      case Handle => Alive
      case Propagate => Dying(ParseHeader(m.reasonText))
      case Fail => Dying(Normal)
  }

  predicate Answers(c: Setup, m: Exit, choice: Choice) { Traps(c, m.to) ==> choice in c.may(m) }

  ghost predicate Enabled(c: Setup, s: System, e: Event) {
    match e
    case Deliver(m, choice) => m in s.mail && Answers(c, m, choice)
    case Finish(a) => a in s.life && s.life[a].Dying?
  }

  /** A message to an actor that no longer runs, or never existed, is dropped. */
  ghost function Next(c: Setup, s: System, e: Event): System
    requires Enabled(c, s, e)
  {
    match e
    case Deliver(m, choice) =>
      var life := if m.to in s.life && s.life[m.to].Alive? then s.life[m.to := React(c, m, choice)] else s.life;
      System(s.tables, life, s.mail - multiset{m})
    case Finish(a) =>
      var table := P.TableOf(s.tables, a.nodeId);
      System(s.tables[a.nodeId := CleanupLinks(table, a)], s.life[a := Gone],
             s.mail + multiset(Sent(s, a, s.life[a].reason)))
  }

  function Sent(s: System, a: ActorId, reason: ExitReason): seq<Exit> {
    if IsError(reason) then Exits(Peers(P.TableOf(s.tables, a.nodeId), a), a, reason) else []
  }

  ghost predicate Run(c: Setup, s: System, es: seq<Event>, t: System)
    decreases |es|
  {
    if es == [] then s == t else Enabled(c, s, es[0]) && Run(c, Next(c, s, es[0]), es[1..], t)
  }

  /** Nothing waits and nobody is half dead; exactly then no event is possible. */
  ghost predicate Quiet(s: System) { s.mail == multiset{} && forall a :: a in s.life ==> !s.life[a].Dying? }

  lemma QuietIffStuck(c: Setup, s: System)
    requires WellFormed(c)
    ensures Quiet(s) <==> forall e :: !Enabled(c, s, e)
  {
    if !Quiet(s) {
      if s.mail != multiset{} {
        var m :| m in s.mail;
        var choice := if Traps(c, m.to) then AnAnswer(c, m) else Handle;
        assert Enabled(c, s, Deliver(m, choice));
      } else {
        var a :| a in s.life && s.life[a].Dying?;
        assert Enabled(c, s, Finish(a));
      }
    } else {
      assert forall e: Event :: e.Deliver? ==> e.exit !in s.mail;
    }
  }

  /** One of the answers a trapping actor may give. */
  ghost function AnAnswer(c: Setup, m: Exit): (choice: Choice)
    requires c.may(m) != {}
    ensures choice in c.may(m)
  {
    var choice :| choice in c.may(m);
    choice
  }

  // ---- reachability ---------------------------------------------------------------------------------

  /** Whatever it is sent, the actor does not survive it. */
  ghost predicate MustDie(c: Setup, a: ActorId) {
    a in c.traps && (c.traps[a] ==> forall m: Exit :: m.to == a ==> Handle !in c.may(m))
  }

  /** `u` passes an exit on to `v`, and `v` dies of it. */
  ghost predicate Hop(c: Setup, u: ActorId, v: ActorId) {
    u in Forwarding(c) && P.View(c.links, u, v) && MustDie(c, v)
  }

  /** A chain of such hops that starts at the first actor. */
  ghost predicate Chain(c: Setup, p: seq<ActorId>) {
    p != [] && if |p| == 1 then p[0] == c.root else Chain(c, p[..|p| - 1]) && Hop(c, p[|p| - 2], p[|p| - 1])
  }

  ghost predicate Reached(c: Setup, a: ActorId) {
    exists p :: Chain(c, p) && p[|p| - 1] == a
  }

  lemma ReachedRoot(c: Setup)
    ensures Reached(c, c.root)
  {
    assert Chain(c, [c.root]);
  }

  lemma ReachedStep(c: Setup, a: ActorId, b: ActorId)
    requires Reached(c, a) && Hop(c, a, b)
    ensures Reached(c, b)
  {
    var p :| Chain(c, p) && p[|p| - 1] == a;
    assert (p + [b])[..|p|] == p;
    assert Chain(c, p + [b]);
  }

  /** Actors that pass an exit on for certain: the first one if its reason is an error, and those that do not trap. */
  ghost function Forwarding(c: Setup): set<ActorId> {
    set a | a in c.traps && if a == c.root then IsError(c.reason) else !c.traps[a]
  }

  // ---- steps on tables and mail -----------------------------------------------------------------------

  lemma CleanupView(t: P.Tables, a: ActorId, u: ActorId, v: ActorId)
    ensures P.View(t[a.nodeId := CleanupLinks(P.TableOf(t, a.nodeId), a)], u, v) <==>
            P.View(t, u, v) && !(u.nodeId == a.nodeId && (u == a || v == a))
  {
    CleanupLinksRelation(P.TableOf(t, a.nodeId), a);
  }

  lemma SentMail(s: System, a: ActorId, reason: ExitReason, e: Exit)
    ensures e in multiset(Sent(s, a, reason)) <==>
            IsError(reason) && P.View(s.tables, a, e.to) && e == Exit(e.to, a, ReasonText(reason))
  {
    var peers, sent := Peers(P.TableOf(s.tables, a.nodeId), a), Sent(s, a, reason);
    if IsError(reason) {
      assert |sent| == |peers|;
      if e.to in peers && e == Exit(e.to, a, ReasonText(reason)) {
        var i :| 0 <= i < |peers| && peers[i] == e.to;
        assert sent[i] == e;
      }
      if e in sent {
        var i :| 0 <= i < |sent| && sent[i] == e;
        assert peers[i] == e.to;
      }
    }
  }

  // ---- everybody reachable dies ---------------------------------------------------------------------

  /** An edge out of a sender that is done has had its effect, or its message is still waiting. */
  ghost predicate Spreads(c: Setup, s: System) {
    && s.life.Keys == c.traps.Keys
    && c.root in s.life && !s.life[c.root].Alive?
    && (forall u :: u in s.life && s.life[u].Dying? && u in Forwarding(c) ==> IsError(s.life[u].reason))
    && (forall u, v :: u in s.life && !s.life[u].Gone? && P.View(c.links, u, v) ==>
          P.View(s.tables, u, v) || (v in s.life && s.life[v].Gone?))
    && (forall u, v :: u in Forwarding(c) && s.life[u].Gone? && P.View(c.links, u, v) && MustDie(c, v) ==>
          !s.life[v].Alive? || Waits(s, v))
  }

  ghost predicate Waits(s: System, v: ActorId) { exists e :: e in s.mail && e.to == v }

  lemma DeliverSpreads(c: Setup, s: System, m: Exit, choice: Choice)
    requires WellFormed(c) && Spreads(c, s) && Enabled(c, s, Deliver(m, choice))
    ensures Spreads(c, Next(c, s, Deliver(m, choice)))
  {
    var t := Next(c, s, Deliver(m, choice));
    forall u, v | u in Forwarding(c) && t.life[u].Gone? && P.View(c.links, u, v) && MustDie(c, v)
      ensures !t.life[v].Alive? || Waits(t, v)
    {
      if s.life[v].Alive? && v != m.to {
        var e :| e in s.mail && e.to == v;
        assert e in t.mail;
      }
    }
  }

  lemma FinishSpreads(c: Setup, s: System, a: ActorId)
    requires WellFormed(c) && Spreads(c, s) && Enabled(c, s, Finish(a))
    ensures Spreads(c, Next(c, s, Finish(a)))
  {
    var t := Next(c, s, Finish(a));
    forall u, v | u in t.life && !t.life[u].Gone? && P.View(c.links, u, v)
      ensures P.View(t.tables, u, v) || (v in t.life && t.life[v].Gone?)
    {
      CleanupView(s.tables, a, u, v);
    }
    forall u, v | u in Forwarding(c) && t.life[u].Gone? && P.View(c.links, u, v) && MustDie(c, v)
      ensures !t.life[v].Alive? || Waits(t, v)
    {
      if u == a && t.life[v].Alive? {
        var e := Exit(v, a, ReasonText(s.life[a].reason));
        SentMail(s, a, s.life[a].reason, e);
        assert e in t.mail;
      } else if u != a && s.life[v].Alive? {
        var e :| e in s.mail && e.to == v;
        assert e in t.mail;
      }
    }
  }

  lemma {:induction false} RunSpreads(c: Setup, s: System, es: seq<Event>, t: System)
    requires WellFormed(c) && Run(c, s, es, t) && Spreads(c, s)
    ensures Spreads(c, t)
    decreases |es|
  {
    if es != [] {
      StepSpreads(c, s, es[0]);
      RunSpreads(c, Next(c, s, es[0]), es[1..], t);
    }
  }

  lemma StepSpreads(c: Setup, s: System, e: Event)
    requires WellFormed(c) && Spreads(c, s) && Enabled(c, s, e)
    ensures Spreads(c, Next(c, s, e))
  {
    match e
    case Deliver(m, choice) => DeliverSpreads(c, s, m, choice);
    case Finish(a) => FinishSpreads(c, s, a);
  }

  lemma {:induction false} ChainDies(c: Setup, s: System, p: seq<ActorId>)
    requires WellFormed(c) && Spreads(c, s) && Quiet(s) && Chain(c, p)
    ensures p[|p| - 1] in s.life && s.life[p[|p| - 1]].Gone?
  {
    if |p| > 1 {
      var q := p[..|p| - 1];
      ChainDies(c, s, q);
      assert Hop(c, q[|q| - 1], p[|p| - 1]);
    }
  }

  lemma StartSpreads(c: Setup)
    requires WellFormed(c)
    ensures Spreads(c, Start(c))
  {
  }

  /** When all is quiet, everyone reached through certain forwarders is gone, whatever was delivered when. */
  lemma ReachedAreGone(c: Setup, es: seq<Event>, t: System, a: ActorId)
    requires WellFormed(c) && Run(c, Start(c), es, t) && Quiet(t) && Reached(c, a)
    ensures a in t.life && t.life[a].Gone?
  {
    StartSpreads(c);
    RunSpreads(c, Start(c), es, t);
    var p :| Chain(c, p) && p[|p| - 1] == a;
    ChainDies(c, t, p);
  }

  // ---- it ends ----------------------------------------------------------------------------------------

  function PeerCount(t: P.Tables, a: ActorId): nat { |Peers(P.TableOf(t, a.nodeId), a)| }

  ghost function NotGone(s: System): set<ActorId> { set a | a in s.life && !s.life[a].Gone? }

  ghost function Rank(s: System, most: nat): nat { |s.mail| + (most + 1) * |NotGone(s)| }

  ghost predicate AtMost(s: System, most: nat) { forall a :: a in s.life ==> PeerCount(s.tables, a) <= most }

  lemma PeersShrink(t: P.Tables, a: ActorId, u: ActorId)
    ensures PeerCount(t[a.nodeId := CleanupLinks(P.TableOf(t, a.nodeId), a)], u) <= PeerCount(t, u)
  {
  }

  lemma FinishKeepsAtMost(c: Setup, s: System, a: ActorId, most: nat)
    requires Enabled(c, s, Finish(a)) && AtMost(s, most)
    ensures AtMost(Next(c, s, Finish(a)), most)
  {
    var t := Next(c, s, Finish(a));
    forall u | u in t.life ensures PeerCount(t.tables, u) <= most {
      assert u in s.life;
      PeersShrink(s.tables, a, u);
    }
  }

  lemma FinishLowersRank(c: Setup, s: System, a: ActorId, most: nat)
    requires Enabled(c, s, Finish(a)) && AtMost(s, most)
    ensures Rank(Next(c, s, Finish(a)), most) < Rank(s, most)
  {
    var t, sent := Next(c, s, Finish(a)), Sent(s, a, s.life[a].reason);
    assert NotGone(t) == NotGone(s) - {a};
    assert |NotGone(t)| == |NotGone(s)| - 1;
    calc {
      (most + 1) * |NotGone(s)|;
      (most + 1) * (|NotGone(t)| + 1);
      (most + 1) * |NotGone(t)| + (most + 1);
    }
    assert |sent| <= PeerCount(s.tables, a) <= most;
    assert |t.mail| == |s.mail| + |sent|;
  }

  lemma StepLowersRank(c: Setup, s: System, e: Event, most: nat)
    requires Enabled(c, s, e) && AtMost(s, most)
    ensures Next(c, s, e).life.Keys == s.life.Keys && AtMost(Next(c, s, e), most)
    ensures Rank(Next(c, s, e), most) < Rank(s, most)
  {
    match e
    case Deliver(m, _) =>
      assert NotGone(Next(c, s, e)) == NotGone(s);
    case Finish(a) =>
      FinishKeepsAtMost(c, s, a, most);
      FinishLowersRank(c, s, a, most);
  }

  lemma {:induction false} RunIsShort(c: Setup, s: System, es: seq<Event>, t: System, most: nat)
    requires AtMost(s, most) && Run(c, s, es, t)
    ensures |es| <= Rank(s, most)
    decreases |es|
  {
    if es != [] {
      StepLowersRank(c, s, es[0], most);
      RunIsShort(c, Next(c, s, es[0]), es[1..], t, most);
    }
  }

  /** The cascade ends: with at most `most` links per actor, no run takes more than (most + 1) steps per actor. */
  lemma CascadeEnds(c: Setup, es: seq<Event>, t: System, most: nat)
    requires WellFormed(c) && Run(c, Start(c), es, t)
    requires forall a :: a in c.traps ==> PeerCount(c.links, a) <= most
    ensures |es| <= (most + 1) * |c.traps|
  {
    StartRank(c, most);
    RunIsShort(c, Start(c), es, t, most);
  }

  lemma StartRank(c: Setup, most: nat)
    requires WellFormed(c)
    ensures Rank(Start(c), most) == (most + 1) * |c.traps|
  {
    assert NotGone(Start(c)) == c.traps.Keys;
  }
}
