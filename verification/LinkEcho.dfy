/**
  Does the echo of link calls ever end, when guard read and write are apart? Without new requests, from any state.
 */
module LinkEcho {
  import opened ActorIds
  import opened B = LinkBeliefs
  import P = LinkProtocol
  import opened R = LinkRaces

  /** Only calls already under way move. */
  predicate Internal(e: R.Event) { e.ReadRpc? || e.Write? }

  ghost predicate Reach(s: System, es: seq<R.Event>, t: System)
    decreases |es|
  {
    if es == [] then s == t
    else Internal(es[0]) && R.Enabled(s, es[0]) && Reach(R.Next(s, es[0]), es[1..], t)
  }

  ghost predicate Echoes(s: System, es: seq<R.Event>) { exists t :: Reach(s, es, t) }

  ghost predicate QuietWithin(s: System, bound: nat) { forall es :: Echoes(s, es) ==> |es| <= bound }

  ghost predicate FallsQuiet(s: System) { exists bound: nat :: QuietWithin(s, bound) }

  // ---- what is under way about a pair --------------------------------------------------------------------------

  ghost predicate Flies(s: System, k: Kind, x: ActorId, y: ActorId) { Rpc(k, x, y) in s.inFlight }

  /** A call that has yet to write and will tell the peer. */
  ghost predicate Poised(s: System, k: Kind, x: ActorId, y: ActorId) {
    exists i :: 0 <= i < |s.calls| && Pending(s.calls[i]) && Tells(s.calls[i]) && s.calls[i].rpc == Rpc(k, x, y)
  }

  /** A call that has yet to write and will not tell: it can only set the view. */
  ghost predicate Setter(s: System, k: Kind, x: ActorId, y: ActorId) {
    exists i :: 0 <= i < |s.calls| && Pending(s.calls[i]) && !Tells(s.calls[i]) && s.calls[i].rpc == Rpc(k, x, y)
  }

  predicate Pending(c: Call) { !c.written }

  /** A call of this kind about the pair may yet be passed on. */
  ghost predicate Live(s: System, k: Kind, x: ActorId, y: ActorId) {
    Flies(s, k, x, y) || Flies(s, k, y, x) || Poised(s, k, x, y) || Poised(s, k, y, x)
  }

  /**
    Both kinds are about to run out: every link sits where the pair is linked, every unlink where it is not, and nothing
    that has yet to write can change either view.
   */
  ghost predicate Stuck(s: System, x: ActorId, y: ActorId) {
    && P.View(s.tables, x, y) && !P.View(s.tables, y, x)
    && !Flies(s, Link, y, x) && !Flies(s, Unlink, x, y)
    && (forall k :: !Poised(s, k, x, y) && !Poised(s, k, y, x))
    && !Setter(s, Unlink, x, y) && !Setter(s, Link, y, x)
  }

  ghost predicate Calm(s: System, x: ActorId, y: ActorId) {
    !Live(s, Link, x, y) || !Live(s, Unlink, x, y) || Stuck(s, x, y) || Stuck(s, y, x)
  }

  ghost predicate AllCalm(s: System) { forall x, y :: CrossNode(x, y) ==> Calm(s, x, y) }

  // ---- if a pair is not calm its calls can go round for ever ------------------------------------------------------

  function Opposite(k: Kind): Kind { if k.Link? then Unlink else Link }

  ghost predicate Open(s: System, k: Kind, x: ActorId, y: ActorId) {
    Flies(s, k, x, y) && P.View(s.tables, x, y) != k.Link?
  }

  ghost predicate GoingWith(s: System, k: Kind, x: ActorId, y: ActorId) {
    || (Open(s, k, x, y) && Flies(s, Opposite(k), y, x))
    || (Open(s, k, y, x) && Flies(s, Opposite(k), x, y))
    || (Flies(s, k, x, y) && Flies(s, Opposite(k), x, y))
    || (Flies(s, k, y, x) && Flies(s, Opposite(k), y, x))
  }

  /** One kind flies to where it changes the view and the other flies too, or both fly to one node. */
  ghost predicate Going(s: System, x: ActorId, y: ActorId) {
    GoingWith(s, Link, x, y) || GoingWith(s, Unlink, x, y)
  }

  /** A call that changes the view where it is read is read, written and sent back. */
  lemma PassOn(s: System, k: Kind, x: ActorId, y: ActorId) returns (es: seq<R.Event>, t: System)
    requires Crossing(s) && CrossNode(x, y) && Open(s, k, x, y)
    ensures |es| == 2 && Reach(s, es, t) && Crossing(t)
    ensures P.View(t.tables, x, y) == k.Link? && P.View(t.tables, y, x) == P.View(s.tables, y, x) && Flies(t, k, y, x)
    ensures forall m :: m in s.inFlight && m != Rpc(k, x, y) ==> m in t.inFlight
  {
    var m, c := Rpc(k, x, y), |s.calls|;
    var r := R.Next(s, ReadRpc(m));
    StepKeepsCrossing(s, ReadRpc(m));
    assert r.calls[c] == Call(m, P.View(s.tables, x, y), false);
    t := R.Next(r, R.Write(c));
    StepKeepsCrossing(r, R.Write(c));
    ViewAfter(r, R.Write(c), x, y);
    ViewAfter(r, R.Write(c), y, x);
    es := [ReadRpc(m), R.Write(c)];
    assert es[1..] == [R.Write(c)] && es[1..][1..] == [];
    assert Reach(t, [], t) && Reach(r, es[1..], t);
  }

  lemma GoesOn(s: System, x: ActorId, y: ActorId) returns (es: seq<R.Event>, t: System)
    requires Crossing(s) && CrossNode(x, y) && Going(s, x, y)
    ensures |es| == 2 && Reach(s, es, t) && Crossing(t) && Going(t, x, y)
  {
    var k := if GoingWith(s, Link, x, y) then Link else Unlink;
    if Open(s, k, x, y) && Flies(s, Opposite(k), y, x) {
      es, t := PassOn(s, k, x, y);
      assert Flies(t, k, y, x) && Flies(t, Opposite(k), y, x);
    } else if Open(s, k, y, x) && Flies(s, Opposite(k), x, y) {
      es, t := PassOn(s, k, y, x);
      assert Flies(t, k, x, y) && Flies(t, Opposite(k), x, y);
    } else if Flies(s, k, x, y) && Flies(s, Opposite(k), x, y) {
      es, t := BothAtOne(s, k, x, y);
    } else {
      es, t := BothAtOne(s, k, y, x);
    }
  }

  /** Two opposite calls at one node: one of them changes the view, and then the other would. */
  lemma BothAtOne(s: System, k: Kind, x: ActorId, y: ActorId) returns (es: seq<R.Event>, t: System)
    requires Crossing(s) && CrossNode(x, y) && Flies(s, k, x, y) && Flies(s, Opposite(k), x, y)
    ensures |es| == 2 && Reach(s, es, t) && Crossing(t) && Going(t, x, y) && Going(t, y, x)
  {
    var j := if Open(s, k, x, y) then k else Opposite(k);
    es, t := PassOn(s, j, x, y);
    assert Open(t, Opposite(j), x, y) && Flies(t, Opposite(Opposite(j)), y, x);
  }

  lemma ReachCons(s: System, e: R.Event, rest: seq<R.Event>, all: seq<R.Event>, t: System)
    requires Internal(e) && R.Enabled(s, e) && Reach(R.Next(s, e), rest, t) && all == [e] + rest
    ensures Reach(s, all, t)
  {
    assert all[0] == e && all[1..] == rest;
  }

  lemma {:induction false} ReachTwice(s: System, es: seq<R.Event>, m: System, fs: seq<R.Event>, t: System)
    requires Reach(s, es, m) && Reach(m, fs, t)
    ensures Reach(s, es + fs, t)
    decreases |es|
  {
    if es == [] {
      assert es + fs == fs;
    } else {
      ReachTwice(R.Next(s, es[0]), es[1..], m, fs, t);
      FirstOfBoth(es, fs);
      ReachCons(s, es[0], es[1..] + fs, es + fs, t);
    }
  }

  lemma FirstOfBoth(es: seq<R.Event>, fs: seq<R.Event>)
    requires es != []
    ensures es + fs == [es[0]] + (es[1..] + fs)
  {
    assert es == [es[0]] + es[1..];
  }

  lemma ReachThenEcho(s: System, es: seq<R.Event>, t: System, fs: seq<R.Event>)
    requires Reach(s, es, t) && Echoes(t, fs)
    ensures Echoes(s, es + fs)
  {
    var u :| Reach(t, fs, u);
    ReachTwice(s, es, t, fs, u);
  }

  lemma {:induction false} GoesOnFor(s: System, x: ActorId, y: ActorId, n: nat) returns (es: seq<R.Event>)
    requires Crossing(s) && CrossNode(x, y) && Going(s, x, y)
    ensures Echoes(s, es) && |es| >= n
    decreases n
  {
    es := [];
    assert Reach(s, [], s);
    if n > 0 {
      var first, t := GoesOn(s, x, y);
      var rest := GoesOnFor(t, x, y, n - 1);
      ReachThenEcho(s, first, t, rest);
      es := first + rest;
    }
  }

  /** A call that is about to tell does so. */
  lemma Tell(s: System, k: Kind, x: ActorId, y: ActorId) returns (es: seq<R.Event>, t: System)
    requires Crossing(s) && CrossNode(x, y) && Poised(s, k, x, y)
    ensures Reach(s, es, t) && Crossing(t) && Flies(t, k, y, x) && P.View(t.tables, x, y) == k.Link?
    ensures P.View(t.tables, y, x) == P.View(s.tables, y, x) && s.inFlight <= t.inFlight
    ensures forall p, q :: Poised(s, Opposite(k), p, q) ==> Poised(t, Opposite(k), p, q)
  {
    var i :| 0 <= i < |s.calls| && Pending(s.calls[i]) && Tells(s.calls[i]) && s.calls[i].rpc == Rpc(k, x, y);
    t := R.Next(s, R.Write(i));
    es := [R.Write(i)];
    assert es[1..] == [] && Reach(t, [], t);
    StepKeepsCrossing(s, R.Write(i));
    ViewAfter(s, R.Write(i), x, y);
    ViewAfter(s, R.Write(i), y, x);
    forall p, q | Poised(s, Opposite(k), p, q) ensures Poised(t, Opposite(k), p, q) {
      var j :| 0 <= j < |s.calls| && Pending(s.calls[j]) && Tells(s.calls[j])
        && s.calls[j].rpc == Rpc(Opposite(k), p, q);
      assert t.calls[j] == s.calls[j];
    }
  }

  /** With one kind about to tell and the other live, both come to fly. */
  lemma PoisedGetsGoing(s: System, k: Kind, x: ActorId, y: ActorId) returns (es: seq<R.Event>, t: System)
    requires Crossing(s) && CrossNode(x, y) && Poised(s, k, x, y) && Live(s, Opposite(k), x, y)
    ensures Reach(s, es, t) && Crossing(t) && Going(t, x, y) && Going(t, y, x)
  {
    var o, m := Opposite(k), s;
    es, m := Tell(s, k, x, y);
    assert Opposite(o) == k;
    if Flies(s, o, x, y) {
      t := m;
      assert Open(t, o, x, y) && Flies(t, k, y, x);
    } else if Flies(s, o, y, x) {
      t := m;
      assert Flies(t, o, y, x) && Flies(t, k, y, x);
    } else {
      var fs;
      if Poised(s, o, x, y) {
        fs, t := Tell(m, o, x, y);
        assert Flies(t, o, y, x) && Flies(t, k, y, x);
      } else {
        fs, t := Tell(m, o, y, x);
        assert Flies(t, o, x, y) && Open(t, k, y, x);
      }
      ReachTwice(s, es, m, fs, t);
      es := es + fs;
    }
  }

  /** A setter that turns the view against the calls that wait for it. */
  lemma Set(s: System, k: Kind, x: ActorId, y: ActorId) returns (es: seq<R.Event>, t: System)
    requires Crossing(s) && CrossNode(x, y) && Setter(s, k, x, y)
    ensures Reach(s, es, t) && Crossing(t) && P.View(t.tables, x, y) == k.Link? && t.inFlight == s.inFlight
  {
    var i :| 0 <= i < |s.calls| && Pending(s.calls[i]) && !Tells(s.calls[i]) && s.calls[i].rpc == Rpc(k, x, y);
    t := R.Next(s, R.Write(i));
    es := [R.Write(i)];
    assert es[1..] == [] && Reach(t, [], t);
    StepKeepsCrossing(s, R.Write(i));
    ViewAfter(s, R.Write(i), x, y);
  }

  /** Links at `x` only, unlinks at `y` only, none about to tell: unless stuck, they get going. */
  lemma ApartGetsGoing(s: System, x: ActorId, y: ActorId) returns (es: seq<R.Event>, t: System)
    requires Crossing(s) && CrossNode(x, y) && Flies(s, Link, x, y) && Flies(s, Unlink, y, x)
    requires Setter(s, Unlink, x, y) || Setter(s, Link, y, x) || !P.View(s.tables, x, y) || P.View(s.tables, y, x)
    ensures Reach(s, es, t) && Crossing(t) && Going(t, x, y) && Going(t, y, x)
  {
    assert Opposite(Link) == Unlink && Opposite(Unlink) == Link;
    es, t := [], s;
    if !P.View(s.tables, x, y) {
      assert Open(t, Link, x, y);
    } else if P.View(s.tables, y, x) {
      assert Open(t, Unlink, y, x);
    } else if Setter(s, Unlink, x, y) {
      es, t := Set(s, Unlink, x, y);
      assert Open(t, Link, x, y) && Flies(t, Unlink, y, x);
    } else {
      es, t := Set(s, Link, y, x);
      assert Open(t, Unlink, y, x) && Flies(t, Link, x, y);
    }
  }

  lemma NotCalmGetsGoing(s: System, x: ActorId, y: ActorId) returns (es: seq<R.Event>, t: System)
    requires Crossing(s) && CrossNode(x, y) && !Calm(s, x, y)
    ensures Reach(s, es, t) && Crossing(t) && Going(t, x, y)
  {
    assert Opposite(Link) == Unlink && Opposite(Unlink) == Link;
    if k :| Poised(s, k, x, y) {
      es, t := PoisedGetsGoing(s, k, x, y);
    } else if k :| Poised(s, k, y, x) {
      es, t := PoisedGetsGoing(s, k, y, x);
    } else {
      es, t := FlyingGetsGoing(s, x, y);
    }
  }

  lemma FlyingGetsGoing(s: System, x: ActorId, y: ActorId) returns (es: seq<R.Event>, t: System)
    requires Crossing(s) && CrossNode(x, y) && !Calm(s, x, y) && forall k :: !Poised(s, k, x, y) && !Poised(s, k, y, x)
    ensures Reach(s, es, t) && Crossing(t) && Going(t, x, y)
  {
    assert Opposite(Link) == Unlink;
    es, t := [], s;
    if (Flies(s, Link, x, y) && Flies(s, Unlink, x, y)) || (Flies(s, Link, y, x) && Flies(s, Unlink, y, x)) {
    } else if Flies(s, Link, x, y) {
      es, t := ApartGetsGoing(s, x, y);
    } else {
      es, t := ApartGetsGoing(s, y, x);
    }
  }

  lemma NotCalmNeverQuiet(s: System, x: ActorId, y: ActorId)
    requires Crossing(s) && CrossNode(x, y) && !Calm(s, x, y)
    ensures !FallsQuiet(s)
  {
    var es, t := NotCalmGetsGoing(s, x, y);
    forall bound: nat ensures !QuietWithin(s, bound) {
      var rest := GoesOnFor(t, x, y, bound + 1);
      ReachThenEcho(s, es, t, rest);
      assert Echoes(s, es + rest) && |es + rest| > bound;
    }
  }

  // ---- calm pairs stay calm ------------------------------------------------------------------------------------

  /** Where each thing under way comes from. */
  lemma UnderWayAfter(s: System, e: R.Event, k: Kind, x: ActorId, y: ActorId)
    requires Crossing(s) && CrossNode(x, y) && Internal(e) && R.Enabled(s, e)
    ensures Flies(R.Next(s, e), k, x, y) ==>
              Flies(s, k, x, y) || (e.Write? && Tells(s.calls[e.i]) && s.calls[e.i].rpc == Rpc(k, y, x))
    ensures Poised(R.Next(s, e), k, x, y) ==>
              Poised(s, k, x, y) || (e == ReadRpc(Rpc(k, x, y)) && P.View(s.tables, x, y) != k.Link?)
    ensures Setter(R.Next(s, e), k, x, y) ==>
              Setter(s, k, x, y) || (e == ReadRpc(Rpc(k, x, y)) && P.View(s.tables, x, y) == k.Link?)
  {
    if Poised(R.Next(s, e), k, x, y) { PoisedAfter(s, e, k, x, y); }
    if Setter(R.Next(s, e), k, x, y) { SetterAfter(s, e, k, x, y); }
  }

  lemma PoisedAfter(s: System, e: R.Event, k: Kind, x: ActorId, y: ActorId)
    requires Internal(e) && R.Enabled(s, e) && Poised(R.Next(s, e), k, x, y)
    ensures Poised(s, k, x, y) || (e == ReadRpc(Rpc(k, x, y)) && P.View(s.tables, x, y) != k.Link?)
  {
    var t := R.Next(s, e);
    var i :| 0 <= i < |t.calls| && Pending(t.calls[i]) && Tells(t.calls[i]) && t.calls[i].rpc == Rpc(k, x, y);
    if i < |s.calls| { CallAfter(s, e, i); }
  }

  lemma SetterAfter(s: System, e: R.Event, k: Kind, x: ActorId, y: ActorId)
    requires Internal(e) && R.Enabled(s, e) && Setter(R.Next(s, e), k, x, y)
    ensures Setter(s, k, x, y) || (e == ReadRpc(Rpc(k, x, y)) && P.View(s.tables, x, y) == k.Link?)
  {
    var t := R.Next(s, e);
    var i :| 0 <= i < |t.calls| && Pending(t.calls[i]) && !Tells(t.calls[i]) && t.calls[i].rpc == Rpc(k, x, y);
    if i < |s.calls| { CallAfter(s, e, i); }
  }

  /** Nothing new of a kind becomes live. */
  lemma LiveAfter(s: System, e: R.Event, k: Kind, x: ActorId, y: ActorId)
    requires Crossing(s) && CrossNode(x, y) && Internal(e) && R.Enabled(s, e) && Live(R.Next(s, e), k, x, y)
    ensures Live(s, k, x, y)
  {
    UnderWayAfter(s, e, k, x, y);
    UnderWayAfter(s, e, k, y, x);
    if e.Write? && Tells(s.calls[e.i]) {
      assert Poised(s, s.calls[e.i].rpc.kind, s.calls[e.i].rpc.x, s.calls[e.i].rpc.y);
    }
  }

  lemma StuckAfter(s: System, e: R.Event, x: ActorId, y: ActorId)
    requires Crossing(s) && CrossNode(x, y) && Internal(e) && R.Enabled(s, e) && Stuck(s, x, y)
    ensures Stuck(R.Next(s, e), x, y)
  {
    var t := R.Next(s, e);
    forall k ensures !Poised(t, k, x, y) && !Poised(t, k, y, x) {
      UnderWayAfter(s, e, k, x, y);
      UnderWayAfter(s, e, k, y, x);
    }
    StuckViews(s, e, x, y);
    UnderWayAfter(s, e, Link, y, x);
    UnderWayAfter(s, e, Unlink, x, y);
    if e.Write? && Tells(s.calls[e.i]) {
      assert Poised(s, s.calls[e.i].rpc.kind, s.calls[e.i].rpc.x, s.calls[e.i].rpc.y);
    }
  }

  lemma StuckViews(s: System, e: R.Event, x: ActorId, y: ActorId)
    requires Crossing(s) && CrossNode(x, y) && Internal(e) && R.Enabled(s, e) && Stuck(s, x, y)
    ensures P.View(R.Next(s, e).tables, x, y) && !P.View(R.Next(s, e).tables, y, x)
  {
    ViewAfter(s, e, x, y);
    ViewAfter(s, e, y, x);
    if e.Write? {
      var c := s.calls[e.i];
      assert Tells(c) ==> Poised(s, c.rpc.kind, c.rpc.x, c.rpc.y);
      assert !Tells(c) ==> Setter(s, c.rpc.kind, c.rpc.x, c.rpc.y);
    }
  }

  lemma CalmAfter(s: System, e: R.Event, x: ActorId, y: ActorId)
    requires Crossing(s) && CrossNode(x, y) && Internal(e) && R.Enabled(s, e) && Calm(s, x, y)
    ensures Calm(R.Next(s, e), x, y)
  {
    var t := R.Next(s, e);
    if Stuck(s, x, y) {
      StuckAfter(s, e, x, y);
    } else if Stuck(s, y, x) {
      StuckAfter(s, e, y, x);
    } else if !Live(s, Link, x, y) {
      if Live(t, Link, x, y) { LiveAfter(s, e, Link, x, y); }
    } else {
      if Live(t, Unlink, x, y) { LiveAfter(s, e, Unlink, x, y); }
    }
  }

  // ---- a weight that every step lowers ----------------------------------------------------------------------------

  /** Whether the view is not yet as the call asks. */
  ghost predicate Against(v: iset<Pair>, k: Kind, x: ActorId, y: ActorId) { ((x, y) in v) != k.Link? }

  /** How many times a flying call can still be passed on if nothing turns a view against it. */
  ghost function Hops(v: iset<Pair>, m: Rpc): nat {
    if !Against(v, m.kind, m.x, m.y) then 0 else if Against(v, m.kind, m.y, m.x) then 2 else 1
  }

  ghost function FlyWeight(v: iset<Pair>, base: nat, m: Rpc): nat { base + 1 + 2 * Hops(v, m) }

  ghost function CallWeight(v: iset<Pair>, base: nat, c: Call): nat {
    if c.written then 0
    else if Tells(c) then base + 2 + if Against(v, c.rpc.kind, c.rpc.y, c.rpc.x) then 2 else 0
    else base
  }

  ghost function Flying(v: iset<Pair>, base: nat, ms: multiset<Rpc>): nat {
    if ms == multiset{} then 0
    else
      var m :| m in ms;
      FlyWeight(v, base, m) + Flying(v, base, ms - multiset{m})
  }

  ghost function Calling(v: iset<Pair>, base: nat, calls: seq<Call>): nat {
    if calls == [] then 0
    else Calling(v, base, calls[..|calls| - 1]) + CallWeight(v, base, calls[|calls| - 1])
  }

  ghost function Views(s: System): iset<Pair> { P.Beliefs(s.tables) }

  ghost function Weight(s: System, base: nat): nat {
    Flying(Views(s), base, s.inFlight) + Calling(Views(s), base, s.calls)
  }

  lemma {:induction false} FlyingSplit(v: iset<Pair>, base: nat, ms: multiset<Rpc>, m: Rpc)
    requires m in ms
    ensures Flying(v, base, ms) == FlyWeight(v, base, m) + Flying(v, base, ms - multiset{m})
    decreases |ms|
  {
    var o :| o in ms && Flying(v, base, ms) == FlyWeight(v, base, o) + Flying(v, base, ms - multiset{o});
    if o != m {
      FlyingSplit(v, base, ms - multiset{o}, m);
      FlyingSplit(v, base, ms - multiset{m}, o);
      assert ms - multiset{o} - multiset{m} == ms - multiset{m} - multiset{o};
    }
  }

  lemma FlyingAdd(v: iset<Pair>, base: nat, ms: multiset<Rpc>, m: Rpc)
    ensures Flying(v, base, ms + multiset{m}) == FlyWeight(v, base, m) + Flying(v, base, ms)
  {
    FlyingSplit(v, base, ms + multiset{m}, m);
    assert ms + multiset{m} - multiset{m} == ms;
  }

  lemma {:induction false} FlyingMore(v: iset<Pair>, w: iset<Pair>, base: nat, ms: multiset<Rpc>, d: nat)
    requires forall m :: m in ms ==> FlyWeight(w, base, m) <= FlyWeight(v, base, m) + d
    ensures Flying(w, base, ms) <= Flying(v, base, ms) + d * |ms|
    decreases |ms|
  {
    if ms != multiset{} {
      var m :| m in ms;
      FlyingSplit(v, base, ms, m);
      FlyingSplit(w, base, ms, m);
      FlyingMore(v, w, base, ms - multiset{m}, d);
      assert |ms - multiset{m}| == |ms| - 1;
      assert d * |ms| == d * (|ms| - 1) + d;
    }
  }

  lemma CallingPush(v: iset<Pair>, base: nat, calls: seq<Call>, c: Call)
    ensures Calling(v, base, calls + [c]) == Calling(v, base, calls) + CallWeight(v, base, c)
  {
    assert (calls + [c])[..|calls|] == calls;
  }

  lemma {:induction false} CallingWrite(v: iset<Pair>, base: nat, calls: seq<Call>, i: nat)
    requires i < |calls|
    ensures Calling(v, base, Written(calls, i)) + CallWeight(v, base, calls[i]) == Calling(v, base, calls)
    decreases |calls|
  {
    var n := |calls| - 1;
    if i == n {
      assert Written(calls, i)[..n] == calls[..n];
    } else {
      assert Written(calls, i)[..n] == Written(calls[..n], i) && Written(calls, i)[n] == calls[n];
      CallingWrite(v, base, calls[..n], i);
    }
  }

  predicate Passes(c: Call) { Pending(c) && Tells(c) }

  function PassCount(calls: seq<Call>): nat {
    if calls == [] then 0 else PassCount(calls[..|calls| - 1]) + if Passes(calls[|calls| - 1]) then 1 else 0
  }

  lemma {:induction false} CallingMore(v: iset<Pair>, w: iset<Pair>, base: nat, calls: seq<Call>, d: nat)
    requires forall i :: 0 <= i < |calls| && Passes(calls[i]) ==>
            CallWeight(w, base, calls[i]) <= CallWeight(v, base, calls[i]) + d
    ensures Calling(w, base, calls) <= Calling(v, base, calls) + d * PassCount(calls)
    decreases |calls|
  {
    if calls != [] {
      var n := |calls| - 1;
      CallingMore(v, w, base, calls[..n], d);
      assert calls[..n] + [calls[n]] == calls;
      if Passes(calls[n]) { assert d * (PassCount(calls[..n]) + 1) == d * PassCount(calls[..n]) + d; }
    }
  }

  /** What may still be passed on: flying calls, and calls about to tell. Never more. */
  ghost function Size(s: System): nat { |s.inFlight| + PassCount(s.calls) }

  lemma {:induction false} PassWrite(calls: seq<Call>, i: nat)
    requires i < |calls|
    ensures PassCount(Written(calls, i)) + (if Passes(calls[i]) then 1 else 0) == PassCount(calls)
    decreases |calls|
  {
    var n := |calls| - 1;
    if i == n {
      assert Written(calls, i)[..n] == calls[..n];
    } else {
      assert Written(calls, i)[..n] == Written(calls[..n], i) && Written(calls, i)[n] == calls[n];
      PassWrite(calls[..n], i);
    }
  }

  lemma SizeAfter(s: System, e: R.Event)
    requires Internal(e) && R.Enabled(s, e)
    ensures Size(R.Next(s, e)) <= Size(s)
  {
    match e
    case ReadRpc(m) =>
      var c := Call(m, P.View(s.tables, m.x, m.y), false);
      assert (s.calls + [c])[..|s.calls|] == s.calls;
      assert |s.inFlight - multiset{m}| == |s.inFlight| - 1;
    case Write(i) => PassWrite(s.calls, i);
  }

  // ---- each step ---------------------------------------------------------------------------------------------------

  lemma ReadLowersWeight(s: System, m: Rpc, base: nat)
    requires m in s.inFlight
    ensures Weight(R.Next(s, ReadRpc(m)), base) < Weight(s, base)
  {
    var v, c := Views(s), Call(m, P.View(s.tables, m.x, m.y), false);
    P.ViewIsBelief(s.tables, m.x, m.y);
    FlyingSplit(v, base, s.inFlight, m);
    CallingPush(v, base, s.calls, c);
  }

  lemma ViewsAfterWrite(s: System, i: nat)
    requires Crossing(s) && R.Enabled(s, R.Write(i))
    ensures var m := s.calls[i].rpc; Views(R.Next(s, R.Write(i))) == Settle(Views(s), m.kind, m.x, m.y)
  {
    var m := s.calls[i].rpc;
    assert CrossNode(m.x, m.y);
    P.WriteBeliefs(s.tables, m.x.nodeId, m.kind, m.x, m.y);
  }

  /** A setter may turn a view against everything else; that is what the base is for. */
  lemma SetLowersWeight(s: System, i: nat, base: nat)
    requires Crossing(s) && R.Enabled(s, R.Write(i)) && !Tells(s.calls[i]) && 4 * Size(s) < base
    ensures Weight(R.Next(s, R.Write(i)), base) < Weight(s, base)
  {
    var v, w := Views(s), Views(R.Next(s, R.Write(i)));
    CallingWrite(v, base, s.calls, i);
    FlyingMore(v, w, base, s.inFlight, 4);
    CallingMore(v, w, base, Written(s.calls, i), 4);
    PassWrite(s.calls, i);
  }

  /** Told writes only meet calls of their own kind, so their view turns against nobody. */
  lemma TellLowersWeight(s: System, i: nat, base: nat)
    requires Crossing(s) && R.Enabled(s, R.Write(i)) && Tells(s.calls[i])
    requires Calm(s, s.calls[i].rpc.x, s.calls[i].rpc.y)
    ensures Weight(R.Next(s, R.Write(i)), base) < Weight(s, base)
  {
    var m, v, w := s.calls[i].rpc, Views(s), Views(R.Next(s, R.Write(i)));
    ViewsAfterWrite(s, i);
    OthersNoHeavier(s, i, v, w, base);
    CallingWrite(v, base, s.calls, i);
    FlyingAdd(w, base, s.inFlight, Rpc(m.kind, m.y, m.x));
    SentIsLighter(v, w, s.calls[i], base);
  }

  /** The call sent weighs less than the call about to send it. */
  lemma SentIsLighter(v: iset<Pair>, w: iset<Pair>, c: Call, base: nat)
    requires !c.written && Tells(c) && CrossNode(c.rpc.x, c.rpc.y) && w == Settle(v, c.rpc.kind, c.rpc.x, c.rpc.y)
    ensures FlyWeight(w, base, Rpc(c.rpc.kind, c.rpc.y, c.rpc.x)) < CallWeight(v, base, c)
  {
  }

  lemma OthersNoHeavier(s: System, i: nat, v: iset<Pair>, w: iset<Pair>, base: nat)
    requires Crossing(s) && R.Enabled(s, R.Write(i)) && Tells(s.calls[i])
    requires Calm(s, s.calls[i].rpc.x, s.calls[i].rpc.y)
    requires w == Settle(v, s.calls[i].rpc.kind, s.calls[i].rpc.x, s.calls[i].rpc.y)
    ensures Flying(w, base, s.inFlight) <= Flying(v, base, s.inFlight)
    ensures Calling(w, base, Written(s.calls, i)) <= Calling(v, base, Written(s.calls, i))
    ensures CrossNode(s.calls[i].rpc.x, s.calls[i].rpc.y)
  {
    var m, calls := s.calls[i].rpc, Written(s.calls, i);
    OnlyThisKind(s, i);
    forall o | o in s.inFlight ensures FlyWeight(w, base, o) <= FlyWeight(v, base, o) + 0 { SettledIsLighter(v, m, o); }
    FlyingMore(v, w, base, s.inFlight, 0);
    forall j | 0 <= j < |calls| && Passes(calls[j])
      ensures CallWeight(w, base, calls[j]) <= CallWeight(v, base, calls[j]) + 0
    {
      SettledIsLighter(v, m, calls[j].rpc);
    }
    CallingMore(v, w, base, calls, 0);
  }

  lemma SettledIsLighter(v: iset<Pair>, m: Rpc, o: Rpc)
    requires (o.x, o.y) == (m.x, m.y) || (o.x, o.y) == (m.y, m.x) ==> o.kind == m.kind
    ensures var w := Settle(v, m.kind, m.x, m.y);
            Hops(w, o) <= Hops(v, o) && (Against(w, o.kind, o.y, o.x) ==> Against(v, o.kind, o.y, o.x))
  {
  }

  lemma OnlyThisKind(s: System, i: nat)
    requires Crossing(s) && R.Enabled(s, R.Write(i)) && Tells(s.calls[i]) && Calm(s, s.calls[i].rpc.x, s.calls[i].rpc.y)
    ensures var m := s.calls[i].rpc;
            && (forall o :: o in s.inFlight && ((o.x, o.y) == (m.x, m.y) || (o.x, o.y) == (m.y, m.x)) ==>
              o.kind == m.kind)
            && (forall j :: 0 <= j < |s.calls| && Passes(s.calls[j]) && About(s.calls[j], m.x, m.y) ==>
              s.calls[j].rpc.kind == m.kind)
  {
    var m := s.calls[i].rpc;
    assert Poised(s, m.kind, m.x, m.y);
    assert !Live(s, Opposite(m.kind), m.x, m.y);
    forall o | o in s.inFlight && ((o.x, o.y) == (m.x, m.y) || (o.x, o.y) == (m.y, m.x)) ensures o.kind == m.kind {
      assert o == Rpc(o.kind, o.x, o.y) && Flies(s, o.kind, o.x, o.y);
    }
    forall j | 0 <= j < |s.calls| && Passes(s.calls[j]) && About(s.calls[j], m.x, m.y)
      ensures s.calls[j].rpc.kind == m.kind
    {
      var o := s.calls[j].rpc;
      assert o == Rpc(o.kind, o.x, o.y) && Poised(s, o.kind, o.x, o.y);
    }
  }

  lemma StepLowersWeight(s: System, e: R.Event, base: nat)
    requires Crossing(s) && AllCalm(s) && Internal(e) && R.Enabled(s, e) && 4 * Size(s) < base
    ensures Weight(R.Next(s, e), base) < Weight(s, base)
    ensures Crossing(R.Next(s, e)) && AllCalm(R.Next(s, e)) && 4 * Size(R.Next(s, e)) < base
  {
    StepKeepsCrossing(s, e);
    SizeAfter(s, e);
    forall x, y | CrossNode(x, y) ensures Calm(R.Next(s, e), x, y) { CalmAfter(s, e, x, y); }
    match e
    case ReadRpc(m) => ReadLowersWeight(s, m, base);
    case Write(i) =>
      assert CrossNode(s.calls[i].rpc.x, s.calls[i].rpc.y);
      if Tells(s.calls[i]) { TellLowersWeight(s, i, base); } else { SetLowersWeight(s, i, base); }
  }

  lemma {:induction false} CalmIsShort(s: System, es: seq<R.Event>, t: System, base: nat)
    requires Crossing(s) && AllCalm(s) && 4 * Size(s) < base && Reach(s, es, t)
    ensures |es| <= Weight(s, base)
    decreases |es|
  {
    if es != [] {
      StepLowersWeight(s, es[0], base);
      CalmIsShort(R.Next(s, es[0]), es[1..], t, base);
    }
  }

  /**
    With guard read and write apart, from any state the calls under way come to rest in every order if and only if for
    every pair one kind can no longer be passed on, or both are about to run out.
   */
  lemma QuietIffCalm(s: System)
    requires Crossing(s)
    ensures FallsQuiet(s) <==> AllCalm(s)
  {
    if AllCalm(s) {
      var base := 4 * Size(s) + 1;
      forall es | Echoes(s, es) ensures |es| <= Weight(s, base) {
        var t :| Reach(s, es, t);
        CalmIsShort(s, es, t, base);
      }
      assert QuietWithin(s, Weight(s, base));
    } else {
      var x, y :| CrossNode(x, y) && !Calm(s, x, y);
      NotCalmNeverQuiet(s, x, y);
    }
  }
}
