/**
  The echo protocol of `ActorRegistry::link` / `unlink`, seen only through what each actor's own node believes about
  each pair and the calls that are under way.
 */
module LinkBeliefs {
  import opened ActorIds

  datatype Kind = Link | Unlink

  /** `link_actor(x, y)` / `unlink_actor(x, y)`: runs the operation on `x`'s node. */
  datatype Rpc = Rpc(kind: Kind, x: ActorId, y: ActorId)

  datatype Event = Request(kind: Kind, a: ActorId, b: ActorId) | Deliver(rpc: Rpc)

  type Pair = (ActorId, ActorId)

  /** `(x, y)` is believed when `x`'s own node records the link; calls may be delayed and reordered, not lost. */
  datatype Net = Net(believed: iset<Pair>, inFlight: multiset<Rpc>)

  ghost predicate Settled(s: Net, k: Kind, x: ActorId, y: ActorId) { ((x, y) in s.believed) == k.Link? }

  ghost function Settle(believed: iset<Pair>, k: Kind, x: ActorId, y: ActorId): iset<Pair> {
    if k.Link? then believed + iset{(x, y)} else believed - iset{(x, y)}
  }

  /** The local-first branch: guard read and local write in one step, then at most one call to the peer. */
  ghost function LocalFirst(s: Net, k: Kind, x: ActorId, y: ActorId): Net {
    Net(Settle(s.believed, k, x, y),
        if Settled(s, k, x, y) then s.inFlight else s.inFlight + multiset{Rpc(k, y, x)})
  }

  predicate CrossNode(x: ActorId, y: ActorId) { x.nodeId != y.nodeId }

  /** Requests start on the first actor's node and were accepted by scope validation. */
  ghost predicate Enabled(inFlight: multiset<Rpc>, e: Event) {
    match e
    case Request(_, a, b) => CrossNode(a, b)
    case Deliver(m) => m in inFlight
  }

  ghost function Next(s: Net, e: Event): Net {
    match e
    case Request(k, a, b) => LocalFirst(s, k, a, b)
    case Deliver(m) => LocalFirst(s.(inFlight := s.inFlight - multiset{m}), m.kind, m.x, m.y)
  }

  /** `x`'s value of the pair is on its way to `y`'s node. */
  ghost predicate Carries(s: Net, x: ActorId, y: ActorId) {
    Rpc(if (x, y) in s.believed then Link else Unlink, y, x) in s.inFlight
  }

  ghost predicate Disagree(s: Net, x: ActorId, y: ActorId) {
    CrossNode(x, y) && ((x, y) in s.believed) != ((y, x) in s.believed)
  }

  ghost predicate Repaired(s: Net, x: ActorId, y: ActorId) {
    Disagree(s, x, y) ==> Carries(s, x, y) || Carries(s, y, x)
  }

  /** Whenever two nodes disagree about a pair, some call under way carries one side's value to the other. */
  ghost predicate DisagreementInFlight(s: Net) {
    && (forall m :: m in s.inFlight ==> CrossNode(m.x, m.y))
    && (forall x, y :: Repaired(s, x, y))
  }

  /** What is said about the pair `(p, q)` stays under way unless it is the consumed call `used`. */
  lemma CarriesKept(s: Net, t: Net, used: Rpc, p: ActorId, q: ActorId)
    requires forall m :: m in s.inFlight && m != used ==> m in t.inFlight
    requires ((p, q) in s.believed) == ((p, q) in t.believed) && Carries(s, p, q)
    requires used != Rpc(if (p, q) in s.believed then Link else Unlink, q, p)
    ensures Carries(t, p, q)
  {
  }

  /** A local-first step on `(x, y)` repairs or keeps every disagreement, even when it consumes a call for `x`. */
  lemma LocalFirstPair(s: Net, kept: multiset<Rpc>, k: Kind, x: ActorId, y: ActorId, p: ActorId, q: ActorId)
    requires Repaired(s, p, q) && CrossNode(x, y)
    requires kept == s.inFlight || kept == s.inFlight - multiset{Rpc(k, x, y)}
    ensures Repaired(LocalFirst(s.(inFlight := kept), k, x, y), p, q)
  {
    if (p, q) == (x, y) || (p, q) == (y, x) {
      SamePairRepaired(s, kept, k, x, y);
    } else {
      OtherPairRepaired(s, kept, k, x, y, p, q);
    }
  }

  lemma SamePairRepaired(s: Net, kept: multiset<Rpc>, k: Kind, x: ActorId, y: ActorId)
    requires Repaired(s, x, y) && CrossNode(x, y)
    requires kept == s.inFlight || kept == s.inFlight - multiset{Rpc(k, x, y)}
    ensures var t := LocalFirst(s.(inFlight := kept), k, x, y); Repaired(t, x, y) && Repaired(t, y, x)
  {
    var t := LocalFirst(s.(inFlight := kept), k, x, y);
    if !Settled(s, k, x, y) {
      assert Carries(t, x, y);
    } else if Disagree(s, x, y) {
      if Carries(s, x, y) {
        CarriesKept(s, t, Rpc(k, x, y), x, y);
      } else {
        CarriesKept(s, t, Rpc(k, x, y), y, x);
      }
    }
  }

  lemma OtherPairRepaired(s: Net, kept: multiset<Rpc>, k: Kind, x: ActorId, y: ActorId, p: ActorId, q: ActorId)
    requires Repaired(s, p, q) && (p, q) != (x, y) && (p, q) != (y, x)
    requires kept == s.inFlight || kept == s.inFlight - multiset{Rpc(k, x, y)}
    ensures Repaired(LocalFirst(s.(inFlight := kept), k, x, y), p, q)
  {
    var t := LocalFirst(s.(inFlight := kept), k, x, y);
    if Disagree(s, p, q) {
      if Carries(s, p, q) {
        CarriesKept(s, t, Rpc(k, x, y), p, q);
      } else {
        CarriesKept(s, t, Rpc(k, x, y), q, p);
      }
    }
  }

  lemma LocalFirstKeepsInvariant(s: Net, kept: multiset<Rpc>, k: Kind, x: ActorId, y: ActorId)
    requires DisagreementInFlight(s) && CrossNode(x, y)
    requires kept == s.inFlight || kept == s.inFlight - multiset{Rpc(k, x, y)}
    ensures DisagreementInFlight(LocalFirst(s.(inFlight := kept), k, x, y))
  {
    var t := LocalFirst(s.(inFlight := kept), k, x, y);
    forall p, q ensures Repaired(t, p, q) { LocalFirstPair(s, kept, k, x, y, p, q); }
  }

  lemma StepKeepsInvariant(s: Net, e: Event)
    requires DisagreementInFlight(s) && Enabled(s.inFlight, e)
    ensures DisagreementInFlight(Next(s, e))
  {
    match e
    case Request(k, a, b) => LocalFirstKeepsInvariant(s, s.inFlight, k, a, b);
    case Deliver(m) => LocalFirstKeepsInvariant(s, s.inFlight - multiset{m}, m.kind, m.x, m.y);
  }

  // ---- does it ever fall quiet? -------------------------------------------------------------------

  /** These deliveries can happen in this order; no new requests arrive. */
  ghost predicate CanDeliver(s: Net, ms: seq<Rpc>)
    decreases |ms|
  {
    ms == [] || (ms[0] in s.inFlight && CanDeliver(Next(s, Deliver(ms[0])), ms[1..]))
  }

  /** Calls of both kinds about one pair are under way at once. */
  ghost predicate Mixed(inFlight: multiset<Rpc>, x: ActorId, y: ActorId) {
    && (Rpc(Link, x, y) in inFlight || Rpc(Link, y, x) in inFlight)
    && (Rpc(Unlink, x, y) in inFlight || Rpc(Unlink, y, x) in inFlight)
  }

  ghost predicate Unmixed(inFlight: multiset<Rpc>) { forall x, y :: !Mixed(inFlight, x, y) }

  /** The views that some call under way has yet to change, on the side it runs on or on the other. */
  ghost function Unsettled(s: Net): set<Pair> {
    (set m | m in s.inFlight && !Settled(s, m.kind, m.x, m.y) :: (m.x, m.y)) +
    (set m | m in s.inFlight && !Settled(s, m.kind, m.y, m.x) :: (m.y, m.x))
  }

  ghost function Rank(s: Net): nat { |s.inFlight| + |Unsettled(s)| }

  lemma SubsetSize<T>(small: set<T>, big: set<T>)
    requires small <= big
    ensures |small| <= |big|
  {
    if small != {} {
      var x :| x in small;
      SubsetSize(small - {x}, big - {x});
    }
  }

  lemma DeliveryKeepsUnmixed(s: Net, m: Rpc)
    requires Unmixed(s.inFlight) && m in s.inFlight
    ensures Unmixed(Next(s, Deliver(m)).inFlight)
  {
    var s' := Next(s, Deliver(m));
    assert forall o :: o in s'.inFlight ==> o in s.inFlight || o == Rpc(m.kind, m.y, m.x);
    forall x, y ensures !Mixed(s'.inFlight, x, y) {
      assert !Mixed(s.inFlight, x, y) && !Mixed(s.inFlight, m.x, m.y);
    }
  }

  lemma UnsettledShrinks(s: Net, m: Rpc, v: Pair)
    requires DisagreementInFlight(s) && Unmixed(s.inFlight) && m in s.inFlight
    requires v in Unsettled(Next(s, Deliver(m)))
    ensures v in Unsettled(s) && v != (m.x, m.y)
  {
    var s' := Next(s, Deliver(m));
    var o :| o in s'.inFlight && (v == (o.x, o.y) || v == (o.y, o.x)) && !Settled(s', o.kind, v.0, v.1);
    assert !Mixed(s.inFlight, m.x, m.y);
    if o in s.inFlight {
      assert (v == (m.x, m.y) || v == (m.y, m.x)) ==> o.kind == m.kind;
      assert !Settled(s, o.kind, v.0, v.1);
    } else {
      assert o == Rpc(m.kind, m.y, m.x);
      assert v == (m.y, m.x) && !Settled(s, m.kind, m.y, m.x);
    }
  }

  lemma DeliveryLowersRank(s: Net, m: Rpc)
    requires DisagreementInFlight(s) && Unmixed(s.inFlight) && m in s.inFlight
    ensures Rank(Next(s, Deliver(m))) < Rank(s)
  {
    var s' := Next(s, Deliver(m));
    var gone := if Settled(s, m.kind, m.x, m.y) then {} else {(m.x, m.y)};
    forall v | v in Unsettled(s') ensures v in Unsettled(s) - gone {
      UnsettledShrinks(s, m, v);
    }
    SubsetSize(Unsettled(s'), Unsettled(s) - gone);
    assert gone <= Unsettled(s);
    assert |Unsettled(s) - gone| == |Unsettled(s)| - |gone|;
  }

  lemma {:induction false} UnmixedRunIsShort(s: Net, ms: seq<Rpc>)
    requires DisagreementInFlight(s) && Unmixed(s.inFlight) && CanDeliver(s, ms)
    ensures |ms| <= Rank(s)
    decreases |ms|
  {
    if ms != [] {
      DeliveryLowersRank(s, ms[0]);
      DeliveryKeepsUnmixed(s, ms[0]);
      StepKeepsInvariant(s, Deliver(ms[0]));
      UnmixedRunIsShort(Next(s, Deliver(ms[0])), ms[1..]);
    }
  }

  /** A delivery that changes a view sends its call back and leaves the others under way. */
  lemma FlipKeepsMixed(s: Net, m: Rpc, other: Rpc)
    requires m in s.inFlight && other in s.inFlight && m.kind != other.kind
    requires (other.x, other.y) == (m.x, m.y) || (other.x, other.y) == (m.y, m.x)
    requires !Settled(s, m.kind, m.x, m.y)
    ensures Mixed(Next(s, Deliver(m)).inFlight, m.x, m.y)
  {
    var s' := Next(s, Deliver(m));
    assert other in s'.inFlight;
    assert Rpc(m.kind, m.y, m.x) in s'.inFlight;
  }

  /** With both kinds under way there is always a delivery that changes a view and keeps both kinds under way. */
  lemma MixedStep(s: Net, x: ActorId, y: ActorId) returns (m: Rpc)
    requires DisagreementInFlight(s) && Mixed(s.inFlight, x, y)
    ensures m in s.inFlight && Mixed(Next(s, Deliver(m)).inFlight, x, y)
  {
    var link := if Rpc(Link, x, y) in s.inFlight then Rpc(Link, x, y) else Rpc(Link, y, x);
    var unlink := if Rpc(Unlink, x, y) in s.inFlight then Rpc(Unlink, x, y) else Rpc(Unlink, y, x);
    if !Settled(s, Link, link.x, link.y) {
      m := link;
      FlipKeepsMixed(s, link, unlink);
    } else if !Settled(s, Unlink, unlink.x, unlink.y) {
      m := unlink;
      FlipKeepsMixed(s, unlink, link);
    } else {
      // Each call sits where its value already holds, so the two sides disagree and a repair is under way.
      assert unlink == Rpc(Unlink, link.y, link.x);
      assert Disagree(s, link.x, link.y) && Repaired(s, link.x, link.y);
      if Carries(s, link.x, link.y) {
        m := Rpc(Link, link.y, link.x);
        FlipKeepsMixed(s, m, unlink);
      } else {
        m := Rpc(Unlink, link.x, link.y);
        FlipKeepsMixed(s, m, link);
      }
    }
  }

  lemma {:induction false} MixedRunsOn(s: Net, x: ActorId, y: ActorId, n: nat) returns (ms: seq<Rpc>)
    requires DisagreementInFlight(s) && Mixed(s.inFlight, x, y)
    ensures |ms| == n && CanDeliver(s, ms)
    decreases n
  {
    if n == 0 {
      ms := [];
    } else {
      var m := MixedStep(s, x, y);
      StepKeepsInvariant(s, Deliver(m));
      var rest := MixedRunsOn(Next(s, Deliver(m)), x, y, n - 1);
      ms := [m] + rest;
      assert ms[1..] == rest;
    }
  }
}

/**
  The same protocol over the real link tables: every node keeps its own table, a request on the first actor's node
  writes there and, unless the table already agreed, calls the second actor's node, which does the same back.
 */
module LinkProtocol {
  import opened Common
  import opened ActorIds
  import opened LinkTable
  import opened B = LinkBeliefs

  type Node = string

  type Tables = map<Node, Links>

  function TableOf(t: Tables, n: Node): Links { if n in t then t[n] else map[] }

  /** What `x`'s own node records about the pair. */
  predicate View(t: Tables, x: ActorId, y: ActorId) { IsLinked(TableOf(t, x.nodeId), x, y) }

  function Write(t: Tables, n: Node, k: Kind, x: ActorId, y: ActorId): Tables {
    t[n := if k.Link? then AddLink(TableOf(t, n), x, y) else RemoveLink(TableOf(t, n), x, y)]
  }

  ghost function Beliefs(t: Tables): iset<Pair> { iset x: ActorId, y: ActorId | View(t, x, y) :: (x, y) }

  lemma ViewIsBelief(t: Tables, x: ActorId, y: ActorId)
    ensures View(t, x, y) <==> (x, y) in Beliefs(t)
  {
  }

  /** What one write does to one view. */
  lemma WriteView(t: Tables, n: Node, k: Kind, x: ActorId, y: ActorId, p: ActorId, q: ActorId)
    requires k.Link? ==> x != y
    ensures View(Write(t, n, k, x, y), p, q) == if p.nodeId == n && SamePair(x, y, p, q) then k.Link? else View(t, p, q)
  {
    if k.Link? {
      AddLinkRelation(TableOf(t, n), x, y);
    } else {
      RemoveLinkRelation(TableOf(t, n), x, y);
    }
  }

  /** Writing a cross-node pair on one owner's node changes that owner's view and nothing else. */
  lemma WriteBeliefs(t: Tables, n: Node, k: Kind, x: ActorId, y: ActorId)
    requires CrossNode(x, y) && (n == x.nodeId || n == y.nodeId)
    ensures Beliefs(Write(t, n, k, x, y)) ==
            if n == x.nodeId then Settle(Beliefs(t), k, x, y) else Settle(Beliefs(t), k, y, x)
  {
    var t' := Write(t, n, k, x, y);
    var b := if n == x.nodeId then Settle(Beliefs(t), k, x, y) else Settle(Beliefs(t), k, y, x);
    forall v: Pair ensures v in Beliefs(t') <==> v in b {
      WriteView(t, n, k, x, y, v.0, v.1);
      ViewIsBelief(t', v.0, v.1);
      ViewIsBelief(t, v.0, v.1);
    }
  }

  // ---- concurrent requests and deliveries ---------------------------------------------------------

  datatype Cluster = Cluster(tables: Tables, inFlight: multiset<Rpc>)

  const INIT := Cluster(map[], multiset{})

  function LocalFirstStep(s: Cluster, k: Kind, x: ActorId, y: ActorId): Cluster {
    Cluster(Write(s.tables, x.nodeId, k, x, y),
            if View(s.tables, x, y) == k.Link? then s.inFlight else s.inFlight + multiset{Rpc(k, y, x)})
  }

  function Step(s: Cluster, e: Event): Cluster {
    match e
    case Request(k, a, b) => LocalFirstStep(s, k, a, b)
    case Deliver(m) => LocalFirstStep(s.(inFlight := s.inFlight - multiset{m}), m.kind, m.x, m.y)
  }

  ghost predicate Run(s: Cluster, es: seq<Event>, t: Cluster)
    decreases |es|
  {
    if es == [] then s == t else Enabled(s.inFlight, es[0]) && Run(Step(s, es[0]), es[1..], t)
  }

  ghost function Abs(s: Cluster): B.Net { B.Net(Beliefs(s.tables), s.inFlight) }

  /** The tables refine the beliefs step by step. */
  lemma StepRefines(s: Cluster, e: Event)
    requires e.Request? ==> CrossNode(e.a, e.b)
    requires e.Deliver? ==> CrossNode(e.rpc.x, e.rpc.y)
    ensures Abs(Step(s, e)) == Next(Abs(s), e)
  {
    match e
    case Request(k, a, b) => WriteBeliefs(s.tables, a.nodeId, k, a, b);
    case Deliver(m) => WriteBeliefs(s.tables, m.x.nodeId, m.kind, m.x, m.y);
  }

  lemma {:induction false} RunRefines(s: Cluster, es: seq<Event>, t: Cluster)
    requires DisagreementInFlight(Abs(s)) && Run(s, es, t)
    ensures DisagreementInFlight(Abs(t))
    decreases |es|
  {
    if es != [] {
      StepRefines(s, es[0]);
      StepKeepsInvariant(Abs(s), es[0]);
      RunRefines(Step(s, es[0]), es[1..], t);
    }
  }

  ghost predicate NodesAgree(t: Tables) {
    forall x, y :: CrossNode(x, y) ==> View(t, x, y) == View(t, y, x)
  }

  lemma InitQuiet()
    ensures DisagreementInFlight(Abs(INIT))
  {
  }

  /**
    Convergence. After any interleaving of link and unlink requests and deliveries, whenever two nodes disagree about
    a pair a call under way carries one side's value to the other; once nothing is under way, all nodes agree. Here a
    call reads its guard and writes in one step and no actor ends; `LinkRaces` takes both apart.
   */
  lemma Convergence(es: seq<Event>, t: Cluster)
    requires Run(INIT, es, t)
    ensures forall x, y :: CrossNode(x, y) && View(t.tables, x, y) != View(t.tables, y, x) ==>
              || Rpc(if View(t.tables, x, y) then Link else Unlink, y, x) in t.inFlight
              || Rpc(if View(t.tables, y, x) then Link else Unlink, x, y) in t.inFlight
    ensures t.inFlight == multiset{} ==> NodesAgree(t.tables)
  {
    InitQuiet();
    RunRefines(INIT, es, t);
    forall x, y | CrossNode(x, y) && View(t.tables, x, y) != View(t.tables, y, x)
      ensures || Rpc(if View(t.tables, x, y) then Link else Unlink, y, x) in t.inFlight
              || Rpc(if View(t.tables, y, x) then Link else Unlink, x, y) in t.inFlight
    {
      PairRepaired(t, x, y);
    }
  }

  lemma PairRepaired(t: Cluster, x: ActorId, y: ActorId)
    requires Repaired(Abs(t), x, y) && CrossNode(x, y) && View(t.tables, x, y) != View(t.tables, y, x)
    ensures || Rpc(if View(t.tables, x, y) then Link else Unlink, y, x) in t.inFlight
            || Rpc(if View(t.tables, y, x) then Link else Unlink, x, y) in t.inFlight
  {
    ViewIsBelief(t.tables, x, y);
    ViewIsBelief(t.tables, y, x);
  }

  ghost predicate CanDeliverAll(s: Cluster, ms: seq<Rpc>)
    decreases |ms|
  {
    ms == [] || (ms[0] in s.inFlight && CanDeliverAll(Step(s, Deliver(ms[0])), ms[1..]))
  }

  /** At most `bound` deliveries are left, whatever their order. */
  ghost predicate QuietWithin(s: Cluster, bound: nat) { forall ms :: CanDeliverAll(s, ms) ==> |ms| <= bound }

  ghost predicate FallsQuiet(s: Cluster) { exists bound: nat :: QuietWithin(s, bound) }

  lemma {:induction false} SameDeliveries(s: Cluster, ms: seq<Rpc>)
    requires DisagreementInFlight(Abs(s))
    ensures CanDeliverAll(s, ms) <==> CanDeliver(Abs(s), ms)
    decreases |ms|
  {
    if ms != [] && ms[0] in s.inFlight {
      StepRefines(s, Deliver(ms[0]));
      StepKeepsInvariant(Abs(s), Deliver(ms[0]));
      SameDeliveries(Step(s, Deliver(ms[0])), ms[1..]);
    }
  }

  /**
    Quiescence, exactly. From any reachable state the remaining deliveries are bounded in every order if and only if
    no pair has a link and an unlink under way together; otherwise some order echoes the two forever.
   */
  lemma QuietIffUnmixed(es: seq<Event>, s: Cluster)
    requires Run(INIT, es, s)
    ensures FallsQuiet(s) <==> Unmixed(s.inFlight)
  {
    InitQuiet();
    RunRefines(INIT, es, s);
    if Unmixed(s.inFlight) {
      forall ms | CanDeliverAll(s, ms) ensures |ms| <= Rank(Abs(s)) {
        SameDeliveries(s, ms);
        UnmixedRunIsShort(Abs(s), ms);
      }
      assert QuietWithin(s, Rank(Abs(s)));
    } else {
      var x, y :| Mixed(s.inFlight, x, y);
      forall bound: nat ensures !QuietWithin(s, bound) {
        var ms := MixedRunsOn(Abs(s), x, y, bound + 1);
        SameDeliveries(s, ms);
      }
    }
  }

  /** Two requests on one node, the second before the first call is answered, already reach such a state. */
  lemma EchoForeverReachable(a: ActorId, b: ActorId)
    requires CrossNode(a, b)
    ensures exists s :: Run(INIT, [Request(Link, a, b), Request(Unlink, a, b)], s) && !FallsQuiet(s)
  {
    var s1 := Step(INIT, Request(Link, a, b));
    var s2 := Step(s1, Request(Unlink, a, b));
    var es := [Request(Link, a, b), Request(Unlink, a, b)];
    assert es[1..] == [Request(Unlink, a, b)] && es[1..][1..] == [];
    assert Run(s2, [], s2);
    assert Run(s1, es[1..], s2);
    QuietIffUnmixed(es, s2);
    assert s2.inFlight == multiset{Rpc(Link, b, a), Rpc(Unlink, b, a)} by {
      WriteView(INIT.tables, a.nodeId, Link, a, b, a, b);
    }
    assert Mixed(s2.inFlight, a, b);
  }

  // ---- one call, run to the end -------------------------------------------------------------------

  datatype LinkError = SelfLink

  function UnsettledSides(t: Tables, k: Kind, a: ActorId, b: ActorId): nat {
    (if View(t, a, b) == k.Link? then 0 else 1) + (if View(t, b, a) == k.Link? then 0 else 1)
  }

  /** Local-first branch as a synchronous call chain; returns the tables and the number of calls made to peers. */
  function LocalFirstCall(t: Tables, k: Kind, a: ActorId, b: ActorId): (r: (Tables, nat))
    requires CrossNode(a, b)
    decreases UnsettledSides(t, k, a, b)
  {
    var t1 := Write(t, a.nodeId, k, a, b);
    if View(t, a, b) == k.Link? then (t1, 0)
    else
      WriteView(t, a.nodeId, k, a, b, a, b);
      WriteView(t, a.nodeId, k, a, b, b, a);
      var (t2, n) := LocalFirstCall(t1, k, b, a);
      (t2, n + 1)
  }

  /** `link` / `unlink` issued on node `at`, all placements of the operands. */
  function Call(t: Tables, at: Node, k: Kind, a: ActorId, b: ActorId): (r: Result<(Tables, nat), LinkError>) {
    if k.Link? && a == b then Err(SelfLink)
    else if a.nodeId == at && b.nodeId == at then Ok((Write(t, at, k, a, b), 0))
    else if a.nodeId == at then Ok(LocalFirstCall(t, k, a, b))
    else if b.nodeId == at then
      if View(t, b, a) == k.Link? then Ok((Write(t, at, k, a, b), 0))
      else
        var (t1, n) := LocalFirstCall(t, k, a, b);
        Ok((Write(t1, at, k, a, b), n + 1))
    else if a.nodeId == b.nodeId then
      // Both operands live together elsewhere: the two calls run on that node, in both operand orders.
      Ok((Write(Write(t, a.nodeId, k, a, b), b.nodeId, k, b, a), 2))
    else
      var (t1, n1) := LocalFirstCall(t, k, a, b);
      var (t2, n2) := LocalFirstCall(t1, k, b, a);
      Ok((t2, n1 + n2 + 2))
  }

  /** Calls made to peers when the tables agreed beforehand. */
  function ExpectedCalls(at: Node, a: ActorId, b: ActorId, settled: bool): nat {
    if a.nodeId == at then (if settled then 0 else 2)
    else if b.nodeId == at then (if settled then 0 else 3)
    else (if settled then 2 else 4)
  }

  /** One local-first call, from any tables: the caller's side settles, the peer's side only if it was called. */
  lemma LocalFirstOutcome(t: Tables, k: Kind, a: ActorId, b: ActorId)
    requires CrossNode(a, b)
    ensures var (t', n) := LocalFirstCall(t, k, a, b);
            && Beliefs(t') == (if View(t, a, b) == k.Link? then Settle(Beliefs(t), k, a, b)
                               else Settle(Settle(Beliefs(t), k, a, b), k, b, a))
            && n == (if View(t, a, b) == k.Link? then 0 else if View(t, b, a) == k.Link? then 1 else 2)
    decreases UnsettledSides(t, k, a, b)
  {
    WriteBeliefs(t, a.nodeId, k, a, b);
    if View(t, a, b) != k.Link? {
      WriteView(t, a.nodeId, k, a, b, a, b);
      WriteView(t, a.nodeId, k, a, b, b, a);
      var t1 := Write(t, a.nodeId, k, a, b);
      LocalFirstOutcome(t1, k, b, a);
      if View(t1, b, a) != k.Link? {
        var both := Settle(Settle(Beliefs(t), k, a, b), k, b, a);
        assert Settle(both, k, a, b) == both;
      }
    }
  }

  /**
    Echo termination. From tables that agree on the pair, the call ends with the pair settled on both owning nodes,
    after exactly 2, 3 or 4 calls to peers (local-first, remote-first, third node), fewer when already settled, and no
    other view of any node is touched.
   */
  lemma EchoTerminates(t: Tables, at: Node, k: Kind, a: ActorId, b: ActorId)
    requires CrossNode(a, b) && View(t, a, b) == View(t, b, a)
    ensures Call(t, at, k, a, b).Ok?
    ensures var (t', n) := Call(t, at, k, a, b).value;
            && Beliefs(t') == Settle(Settle(Beliefs(t), k, a, b), k, b, a)
            && n == ExpectedCalls(at, a, b, View(t, a, b) == k.Link?)
  {
    ViewIsBelief(t, a, b);
    ViewIsBelief(t, b, a);
    if a.nodeId == at {
      LocalFirstOutcome(t, k, a, b);
    } else if b.nodeId == at {
      RemoteFirstEcho(t, k, a, b);
    } else {
      ThirdNodeEcho(t, at, k, a, b);
    }
  }

  lemma RemoteFirstEcho(t: Tables, k: Kind, a: ActorId, b: ActorId)
    requires CrossNode(a, b) && View(t, a, b) == View(t, b, a)
    ensures Call(t, b.nodeId, k, a, b).Ok?
    ensures var (t', n) := Call(t, b.nodeId, k, a, b).value;
            && Beliefs(t') == Settle(Settle(Beliefs(t), k, a, b), k, b, a)
            && n == ExpectedCalls(b.nodeId, a, b, View(t, a, b) == k.Link?)
  {
    ViewIsBelief(t, a, b);
    ViewIsBelief(t, b, a);
    LocalFirstOutcome(t, k, a, b);
    var t1 := LocalFirstCall(t, k, a, b).0;
    WriteBeliefs(t, b.nodeId, k, a, b);
    WriteBeliefs(t1, b.nodeId, k, a, b);
  }

  lemma ThirdNodeEcho(t: Tables, at: Node, k: Kind, a: ActorId, b: ActorId)
    requires CrossNode(a, b) && View(t, a, b) == View(t, b, a) && at != a.nodeId && at != b.nodeId
    ensures Call(t, at, k, a, b).Ok?
    ensures var (t', n) := Call(t, at, k, a, b).value;
            && Beliefs(t') == Settle(Settle(Beliefs(t), k, a, b), k, b, a)
            && n == ExpectedCalls(at, a, b, View(t, a, b) == k.Link?)
  {
    ViewIsBelief(t, a, b);
    ViewIsBelief(t, b, a);
    LocalFirstOutcome(t, k, a, b);
    var t1 := LocalFirstCall(t, k, a, b).0;
    ViewIsBelief(t1, b, a);
    LocalFirstOutcome(t1, k, b, a);
  }

  /**
    What a call leaves behind, for every placement of its operands: a self-link is refused and nothing else is; after
    any other call both owners hold the pair as asked and every other view is as it was. Only for owners on different
    nodes does this need that they agreed beforehand. For owners on one node it takes no call from there, two from
    elsewhere.
   */
  lemma CallSettles(t: Tables, at: Node, k: Kind, a: ActorId, b: ActorId)
    requires CrossNode(a, b) ==> View(t, a, b) == View(t, b, a)
    ensures Call(t, at, k, a, b).Err? <==> k.Link? && a == b
    ensures Call(t, at, k, a, b).Ok? ==>
              forall p, q :: View(Call(t, at, k, a, b).value.0, p, q) ==
                             if SamePair(a, b, p, q) then k.Link? else View(t, p, q)
    ensures Call(t, at, k, a, b).Ok? && !CrossNode(a, b) ==>
              Call(t, at, k, a, b).value.1 == if a.nodeId == at then 0 else 2
  {
    if Call(t, at, k, a, b).Ok? {
      var t' := Call(t, at, k, a, b).value.0;
      if CrossNode(a, b) {
        EchoTerminates(t, at, k, a, b);
      }
      forall p, q ensures View(t', p, q) == if SamePair(a, b, p, q) then k.Link? else View(t, p, q) {
        if CrossNode(a, b) {
          ViewIsBelief(t, p, q);
          ViewIsBelief(t', p, q);
        } else {
          OneNodeCall(t, at, k, a, b, p, q);
        }
      }
    }
  }

  /** Two owners on one node: one write there, or, from elsewhere, two that say the same. */
  lemma OneNodeCall(t: Tables, at: Node, k: Kind, a: ActorId, b: ActorId, p: ActorId, q: ActorId)
    requires a.nodeId == b.nodeId && (k.Link? ==> a != b)
    ensures Call(t, at, k, a, b).Ok?
    ensures View(Call(t, at, k, a, b).value.0, p, q) == if SamePair(a, b, p, q) then k.Link? else View(t, p, q)
  {
    WriteView(t, a.nodeId, k, a, b, p, q);
    WriteView(Write(t, a.nodeId, k, a, b), b.nodeId, k, b, a, p, q);
  }

  /**
    Without that agreement a local-first call can leave the peer untold: it repairs the pair iff it had to act
    itself.
   */
  lemma LocalFirstHealsIff(t: Tables, k: Kind, a: ActorId, b: ActorId)
    requires CrossNode(a, b) && View(t, a, b) != View(t, b, a)
    ensures var t' := Call(t, a.nodeId, k, a, b).value.0;
            View(t', a, b) == View(t', b, a) <==> View(t, a, b) != k.Link?
  {
    LocalFirstOutcome(t, k, a, b);
    var t' := LocalFirstCall(t, k, a, b).0;
    ViewIsBelief(t, a, b);
    ViewIsBelief(t, b, a);
    ViewIsBelief(t', a, b);
    ViewIsBelief(t', b, a);
  }
}
