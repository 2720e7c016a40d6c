/**
  The link protocol with its steps taken apart: a call reads its guard under one lock and writes under another, other
  calls and the ends of actors may come in between, and an actor that ends is cleaned from its own node's table only.
 */
module LinkRaces {
  import opened ActorIds
  import opened LinkTable
  import opened B = LinkBeliefs
  import P = LinkProtocol

  /** A call that has read whether its pair was linked, and whether it has written since. */
  datatype Call = Call(rpc: Rpc, was: bool, written: bool)

  /** `calls` is every call ever begun, `ended` every actor that has ended. */
  datatype System = System(tables: P.Tables, inFlight: multiset<Rpc>, calls: seq<Call>, ended: set<ActorId>)

  datatype Event = ReadRequest(rpc: Rpc) | ReadRpc(rpc: Rpc) | Write(i: nat) | Terminate(a: ActorId)

  const INIT := System(map[], multiset{}, [], {})

  function Begin(s: System, m: Rpc): seq<Call> { s.calls + [Call(m, P.View(s.tables, m.x, m.y), false)] }

  function Written(calls: seq<Call>, i: nat): seq<Call>
    requires i < |calls|
  {
    calls[i := calls[i].(written := true)]
  }

  /** The peer is told unless the guard said that the pair already was as asked. */
  predicate Tells(c: Call) { c.was != c.rpc.kind.Link? }

  ghost predicate Enabled(s: System, e: Event) {
    match e
    case ReadRequest(m) => CrossNode(m.x, m.y)
    case ReadRpc(m) => m in s.inFlight
    case Write(i) => i < |s.calls| && !s.calls[i].written
    case Terminate(_) => true
  }

  ghost function Next(s: System, e: Event): System
    requires Enabled(s, e)
  {
    match e
    case ReadRequest(m) => s.(calls := Begin(s, m))
    case ReadRpc(m) => s.(inFlight := s.inFlight - multiset{m}, calls := Begin(s, m))
    case Write(i) =>
      var c := s.calls[i];
      var m := c.rpc;
      s.(tables := P.Write(s.tables, m.x.nodeId, m.kind, m.x, m.y),
         inFlight := if Tells(c) then s.inFlight + multiset{Rpc(m.kind, m.y, m.x)} else s.inFlight,
         calls := Written(s.calls, i))
    case Terminate(a) =>
      s.(tables := s.tables[a.nodeId := CleanupLinks(P.TableOf(s.tables, a.nodeId), a)], ended := s.ended + {a})
  }

  /** The event writes the view that `x`'s node has of the pair. */
  predicate Writes(s: System, e: Event, x: ActorId, y: ActorId) {
    e.Write? && e.i < |s.calls| && (s.calls[e.i].rpc.x, s.calls[e.i].rpc.y) == (x, y)
  }

  predicate Told(s: System, e: Event, x: ActorId, y: ActorId) { Writes(s, e, x, y) && Tells(s.calls[e.i]) }

  /** A write that changes the view without telling: the guard said settled, and no longer is. */
  predicate Silent(s: System, e: Event, x: ActorId, y: ActorId) {
    Writes(s, e, x, y) && !Tells(s.calls[e.i]) && P.View(s.tables, x, y) != s.calls[e.i].was
  }

  ghost predicate Run(s: System, es: seq<Event>, t: System)
    decreases |es|
  {
    if es == [] then s == t else Enabled(s, es[0]) && Run(Next(s, es[0]), es[1..], t)
  }

  ghost predicate Quiet(s: System) { s.inFlight == multiset{} && forall i :: 0 <= i < |s.calls| ==> s.calls[i].written }

  ghost predicate Agree(t: P.Tables, x: ActorId, y: ActorId) { P.View(t, x, y) == P.View(t, y, x) }

  // ---- one step --------------------------------------------------------------------------------------------------

  ghost predicate CallsCross(s: System) {
    forall j :: 0 <= j < |s.calls| ==> CrossNode(s.calls[j].rpc.x, s.calls[j].rpc.y)
  }

  ghost predicate Crossing(s: System) { CallsCross(s) && forall m :: m in s.inFlight ==> CrossNode(m.x, m.y) }

  lemma StepKeepsCrossing(s: System, e: Event)
    requires Crossing(s) && Enabled(s, e)
    ensures Crossing(Next(s, e))
  {
    if e.Write? { WriteKeepsCrossing(s, e.i); }
  }

  lemma WriteKeepsCrossing(s: System, i: nat)
    requires Crossing(s) && Enabled(s, Write(i))
    ensures Crossing(Next(s, Write(i)))
  {
    assert CrossNode(s.calls[i].rpc.x, s.calls[i].rpc.y);
  }

  lemma EndedView(t: P.Tables, a: ActorId, x: ActorId, y: ActorId)
    ensures P.View(t[a.nodeId := CleanupLinks(P.TableOf(t, a.nodeId), a)], x, y) <==>
            P.View(t, x, y) && !(x.nodeId == a.nodeId && (x == a || y == a))
  {
    CleanupLinksRelation(P.TableOf(t, a.nodeId), a);
  }

  lemma OwnSide(m: Rpc, p: ActorId, q: ActorId)
    requires CrossNode(m.x, m.y)
    ensures p.nodeId == m.x.nodeId && SamePair(m.x, m.y, p, q) <==> (p, q) == (m.x, m.y)
  {
  }

  /** What an event does to one view: only a write of that view, or the end of its owner, touches it. */
  lemma ViewAfter(s: System, e: Event, x: ActorId, y: ActorId)
    requires Crossing(s) && Enabled(s, e) && CrossNode(x, y)
    ensures P.View(Next(s, e).tables, x, y) ==
            if Writes(s, e, x, y) then s.calls[e.i].rpc.kind.Link? else P.View(s.tables, x, y) && e != Terminate(x)
  {
    match e
    case Write(i) =>
      var m := s.calls[i].rpc;
      P.WriteView(s.tables, m.x.nodeId, m.kind, m.x, m.y, x, y);
      OwnSide(m, x, y);
    case Terminate(a) => EndedView(s.tables, a, x, y);
    case _ =>
  }

  /** Short of told writes and the end of its owner, a view changes exactly at silent writes. */
  lemma UntoldStep(s: System, e: Event, x: ActorId, y: ActorId)
    requires Crossing(s) && Enabled(s, e) && CrossNode(x, y) && !Told(s, e, x, y) && e != Terminate(x)
    ensures P.View(Next(s, e).tables, x, y) == (P.View(s.tables, x, y) != Silent(s, e, x, y))
  {
    ViewAfter(s, e, x, y);
  }

  /** What a call is about and what it read never change, and it has written exactly after its own write. */
  lemma CallAfter(s: System, e: Event, i: nat)
    requires Enabled(s, e) && i < |s.calls|
    ensures i < |Next(s, e).calls|
    ensures Next(s, e).calls[i] == s.calls[i].(written := s.calls[i].written || e == Write(i))
  {
  }

  // ---- runs from the start ---------------------------------------------------------------------------------------

  ghost function Step(s: System, e: Event): System { if Enabled(s, e) then Next(s, e) else s }

  /** The state after the first `n` events. */
  ghost function StateAt(es: seq<Event>, n: nat): System
    requires n <= |es|
  {
    if n == 0 then INIT else Step(StateAt(es, n - 1), es[n - 1])
  }

  ghost predicate RunsTo(es: seq<Event>, n: nat)
    requires n <= |es|
  {
    n == 0 || (RunsTo(es, n - 1) && Enabled(StateAt(es, n - 1), es[n - 1]))
  }

  /** Every event of the sequence is possible when it comes. */
  ghost predicate IsRun(es: seq<Event>) { RunsTo(es, |es|) }

  lemma {:induction false} RunsBefore(es: seq<Event>, m: nat, n: nat)
    requires m <= n <= |es| && RunsTo(es, n)
    ensures RunsTo(es, m)
    decreases n
  {
    if m < n { RunsBefore(es, m, n - 1); }
  }

  lemma StepAt(es: seq<Event>, n: nat, m: nat)
    requires IsRun(es) && n < |es| && m == n + 1
    ensures Enabled(StateAt(es, n), es[n]) && StateAt(es, m) == Next(StateAt(es, n), es[n])
  {
    RunsBefore(es, m, |es|);
  }

  ghost function Final(es: seq<Event>): System { StateAt(es, |es|) }

  lemma {:induction false} RunCrosses(es: seq<Event>, n: nat)
    requires IsRun(es) && n <= |es|
    ensures Crossing(StateAt(es, n))
  {
    if n > 0 {
      RunCrosses(es, n - 1);
      StepAt(es, n - 1, n);
      StepKeepsCrossing(StateAt(es, n - 1), es[n - 1]);
    }
  }

  lemma {:induction false} EndedKept(es: seq<Event>, a: ActorId, m: nat)
    requires IsRun(es) && m <= |es| && a in StateAt(es, m).ended
    ensures a in Final(es).ended
    decreases |es| - m
  {
    if m < |es| {
      StepAt(es, m, m + 1);
      EndedKept(es, a, m + 1);
    }
  }

  lemma NotEndedThen(es: seq<Event>, a: ActorId, n: nat)
    requires IsRun(es) && n < |es| && a !in Final(es).ended
    ensures es[n] != Terminate(a)
  {
    StepAt(es, n, n + 1);
    if a in StateAt(es, n + 1).ended { EndedKept(es, a, n + 1); }
  }

  predicate Odd(n: nat) { n % 2 == 1 }

  /** How many of the events from `a` up to `b` are silent writes of the view. */
  ghost function SilentCount(es: seq<Event>, x: ActorId, y: ActorId, a: nat, b: nat): nat
    requires b <= |es|
  {
    if b <= a then 0
    else SilentCount(es, x, y, a, b - 1) + if Silent(StateAt(es, b - 1), es[b - 1], x, y) then 1 else 0
  }

  /** No told write of the view from `a` on. */
  ghost predicate NoneTold(es: seq<Event>, x: ActorId, y: ActorId, a: nat) {
    forall n :: a <= n < |es| ==> !Told(StateAt(es, n), es[n], x, y)
  }

  /** From a point after which the view is not told, its value is decided by the parity of its silent writes. */
  lemma {:induction false} ViewThrough(es: seq<Event>, x: ActorId, y: ActorId, a: nat, b: nat)
    requires IsRun(es) && CrossNode(x, y) && x !in Final(es).ended && a <= b <= |es| && NoneTold(es, x, y, a)
    ensures P.View(StateAt(es, b).tables, x, y) ==
            (P.View(StateAt(es, a).tables, x, y) != Odd(SilentCount(es, x, y, a, b)))
    decreases b
  {
    if a < b {
      var n := b - 1;
      ViewThrough(es, x, y, a, n);
      ViewStep(es, x, y, a, n, b);
      OneMore(es, x, y, a, n, b);
    }
  }

  lemma OneMore(es: seq<Event>, x: ActorId, y: ActorId, a: nat, n: nat, b: nat)
    requires a <= n < b == n + 1 <= |es|
    ensures Odd(SilentCount(es, x, y, a, b)) ==
            (Odd(SilentCount(es, x, y, a, n)) != Silent(StateAt(es, n), es[n], x, y))
  {
  }

  lemma ViewStep(es: seq<Event>, x: ActorId, y: ActorId, a: nat, n: nat, b: nat)
    requires IsRun(es) && CrossNode(x, y) && x !in Final(es).ended && a <= n < b == n + 1 <= |es|
    requires NoneTold(es, x, y, a)
    ensures P.View(StateAt(es, b).tables, x, y) ==
            (P.View(StateAt(es, n).tables, x, y) != Silent(StateAt(es, n), es[n], x, y))
  {
    RunCrosses(es, n);
    NotEndedThen(es, x, n);
    StepAt(es, n, b);
    UntoldStep(StateAt(es, n), es[n], x, y);
  }

  // ---- the last told write and the call it makes --------------------------------------------------------------------

  /** The event at `i` is a told write of the view, and no write of the pair on either node is told after it. */
  ghost predicate LastTold(es: seq<Event>, x: ActorId, y: ActorId, i: nat) {
    && i < |es| && Told(StateAt(es, i), es[i], x, y)
    && NoneTold(es, x, y, i + 1) && NoneTold(es, y, x, i + 1)
  }

  ghost function KindAt(es: seq<Event>, i: nat): Kind
    requires i < |es| && es[i].Write? && es[i].i < |StateAt(es, i).calls|
  {
    StateAt(es, i).calls[es[i].i].rpc.kind
  }

  /** The event at `j` takes the call that the told write at `i` makes. */
  ghost predicate Answers(es: seq<Event>, x: ActorId, y: ActorId, i: nat, j: nat)
    requires LastTold(es, x, y, i)
  {
    i < j < |es| && es[j] == ReadRpc(Rpc(KindAt(es, i), y, x))
  }

  lemma {:induction false} TakenSomewhere(es: seq<Event>, m: Rpc, n: nat) returns (j: nat)
    requires IsRun(es) && n <= |es| && m in StateAt(es, n).inFlight && m !in Final(es).inFlight
    ensures n <= j < |es| && es[j] == ReadRpc(m)
    decreases |es| - n
  {
    if n == |es| {
      assert false;
    } else if es[n] == ReadRpc(m) {
      j := n;
    } else {
      StepAt(es, n, n + 1);
      j := TakenSomewhere(es, m, n + 1);
    }
  }

  /** What the call with this index is about and what it read, wherever one looks from `m` on. */
  ghost predicate CallIs(es: seq<Event>, i: nat, m: nat, rpc: Rpc, was: bool)
    requires m <= |es|
  {
    i < |StateAt(es, m).calls| && StateAt(es, m).calls[i].rpc == rpc && StateAt(es, m).calls[i].was == was
  }

  lemma CallNext(es: seq<Event>, i: nat, m: nat, n: nat, rpc: Rpc, was: bool)
    requires IsRun(es) && m < n == m + 1 <= |es| && CallIs(es, i, m, rpc, was)
    ensures CallIs(es, i, n, rpc, was)
    ensures StateAt(es, n).calls[i].written <==> StateAt(es, m).calls[i].written || es[m] == Write(i)
  {
    StepAt(es, m, n);
    CallAfter(StateAt(es, m), es[m], i);
  }

  /** A call that is not yet written, in a run that ends quietly, writes at some point. */
  lemma {:induction false} WrittenSomewhere(es: seq<Event>, i: nat, m: nat, rpc: Rpc, was: bool) returns (n: nat)
    requires IsRun(es) && Quiet(Final(es)) && m <= |es| && CallIs(es, i, m, rpc, was)
    requires !StateAt(es, m).calls[i].written
    ensures m <= n < |es| && es[n] == Write(i) && CallIs(es, i, n, rpc, was)
    decreases |es| - m
  {
    if m == |es| {
      assert false;
    } else if es[m] == Write(i) {
      n := m;
    } else {
      CallNext(es, i, m, m + 1, rpc, was);
      n := WrittenSomewhere(es, i, m + 1, rpc, was);
    }
  }

  /** A call that is read at `j` and told by nobody afterwards found its pair as asked. */
  lemma UntoldCallFoundIt(es: seq<Event>, m: Rpc, j: nat)
    requires IsRun(es) && Quiet(Final(es)) && j < |es| && es[j] == ReadRpc(m) && NoneTold(es, m.x, m.y, j)
    ensures P.View(StateAt(es, j).tables, m.x, m.y) == m.kind.Link?
  {
    var c, was := |StateAt(es, j).calls|, P.View(StateAt(es, j).tables, m.x, m.y);
    StepAt(es, j, j + 1);
    var n := WrittenSomewhere(es, c, j + 1, m, was);
    assert !Told(StateAt(es, n), es[n], m.x, m.y);
  }

  /** The told write leaves its own view as asked and its call under way. */
  lemma ToldWrite(es: seq<Event>, x: ActorId, y: ActorId, i: nat)
    requires IsRun(es) && CrossNode(x, y) && LastTold(es, x, y, i)
    ensures P.View(StateAt(es, i + 1).tables, x, y) == KindAt(es, i).Link?
    ensures Rpc(KindAt(es, i), y, x) in StateAt(es, i + 1).inFlight
  {
    RunCrosses(es, i);
    StepAt(es, i, i + 1);
    ViewAfter(StateAt(es, i), es[i], x, y);
  }

  /** In a quiet end somebody has taken that call. */
  lemma ToldIsAnswered(es: seq<Event>, x: ActorId, y: ActorId, i: nat) returns (j: nat)
    requires IsRun(es) && Quiet(Final(es)) && CrossNode(x, y) && LastTold(es, x, y, i)
    ensures Answers(es, x, y, i, j)
  {
    ToldWrite(es, x, y, i);
    j := TakenSomewhere(es, Rpc(KindAt(es, i), y, x), i + 1);
  }

  /**
    Agreement, exactly. After the last told write of a pair its two nodes hold the same value at the write and where its
    call is taken; from there on only silent writes change them. So they end in agreement if and only if the silent
    writes of the one view since the write and of the other since the call are both odd or both even in number.
   */
  lemma AgreeIff(es: seq<Event>, x: ActorId, y: ActorId, i: nat, j: nat)
    requires IsRun(es) && Quiet(Final(es)) && CrossNode(x, y) && x !in Final(es).ended && y !in Final(es).ended
    requires LastTold(es, x, y, i) && Answers(es, x, y, i, j)
    ensures Agree(Final(es).tables, x, y) <==>
            Odd(SilentCount(es, x, y, i + 1, |es|)) == Odd(SilentCount(es, y, x, j, |es|))
  {
    ToldWrite(es, x, y, i);
    ViewThrough(es, x, y, i + 1, |es|);
    UntoldCallFoundIt(es, Rpc(KindAt(es, i), y, x), j);
    ViewThrough(es, y, x, j, |es|);
  }

  // ---- a pair that nobody was ever told about -----------------------------------------------------------------------

  ghost predicate About(c: Call, x: ActorId, y: ActorId) {
    (c.rpc.x, c.rpc.y) == (x, y) || (c.rpc.x, c.rpc.y) == (y, x)
  }

  /** Neither node has the pair, and no call about it has ever read otherwise. */
  ghost predicate Blank(s: System, x: ActorId, y: ActorId) {
    && !P.View(s.tables, x, y) && !P.View(s.tables, y, x)
    && forall i :: 0 <= i < |s.calls| && About(s.calls[i], x, y) ==> !s.calls[i].was
  }

  lemma StepKeepsBlank(s: System, e: Event, x: ActorId, y: ActorId)
    requires Crossing(s) && Enabled(s, e) && CrossNode(x, y) && Blank(s, x, y) && !Told(s, e, x, y) && !Told(s, e, y, x)
    ensures Blank(Next(s, e), x, y)
  {
    ViewAfter(s, e, x, y);
    ViewAfter(s, e, y, x);
    var t := Next(s, e);
    forall i | 0 <= i < |t.calls| && About(t.calls[i], x, y) ensures !t.calls[i].was {
      if i < |s.calls| { CallAfter(s, e, i); }
    }
  }

  lemma {:induction false} BlankThrough(es: seq<Event>, x: ActorId, y: ActorId, n: nat)
    requires IsRun(es) && CrossNode(x, y) && NoneTold(es, x, y, 0) && NoneTold(es, y, x, 0) && n <= |es|
    ensures Blank(StateAt(es, n), x, y)
  {
    if n > 0 {
      BlankThrough(es, x, y, n - 1);
      RunCrosses(es, n - 1);
      StepAt(es, n - 1, n);
      StepKeepsBlank(StateAt(es, n - 1), es[n - 1], x, y);
    }
  }

  lemma {:induction false} FindLastTold(es: seq<Event>, x: ActorId, y: ActorId, n: nat) returns (i: nat)
    requires n < |es| && (Told(StateAt(es, n), es[n], x, y) || Told(StateAt(es, n), es[n], y, x))
    ensures LastTold(es, x, y, i) || LastTold(es, y, x, i)
    decreases |es| - n
  {
    if k :| n < k < |es| && (Told(StateAt(es, k), es[k], x, y) || Told(StateAt(es, k), es[k], y, x)) {
      i := FindLastTold(es, x, y, k);
    } else {
      i := n;
    }
  }

  /**
    Every quiet end is one of these: nobody was ever told, and the nodes agree; or there is a last told write and its
    call.
   */
  lemma QuietSplits(es: seq<Event>, x: ActorId, y: ActorId)
    requires IsRun(es) && Quiet(Final(es)) && CrossNode(x, y)
    ensures || (NoneTold(es, x, y, 0) && NoneTold(es, y, x, 0) && Agree(Final(es).tables, x, y))
            || (exists i: nat, j: nat :: LastTold(es, x, y, i) && Answers(es, x, y, i, j))
            || (exists i: nat, j: nat :: LastTold(es, y, x, i) && Answers(es, y, x, i, j))
  {
    if NoneTold(es, x, y, 0) && NoneTold(es, y, x, 0) {
      BlankThrough(es, x, y, |es|);
    } else {
      var n :| 0 <= n < |es| && (Told(StateAt(es, n), es[n], x, y) || Told(StateAt(es, n), es[n], y, x));
      var i := FindLastTold(es, x, y, n);
      if LastTold(es, x, y, i) {
        var j := ToldIsAnswered(es, x, y, i);
      } else {
        var j := ToldIsAnswered(es, y, x, i);
      }
    }
  }

  // ---- conditions on a run -----------------------------------------------------------------------------------------

  ghost predicate NeverSilent(es: seq<Event>, x: ActorId, y: ActorId) {
    forall n :: 0 <= n < |es| ==> !Silent(StateAt(es, n), es[n], x, y)
  }

  lemma {:induction false} NoSilentCount(es: seq<Event>, x: ActorId, y: ActorId, a: nat, b: nat)
    requires b <= |es| && NeverSilent(es, x, y)
    ensures SilentCount(es, x, y, a, b) == 0
    decreases b
  {
    if a < b { NoSilentCount(es, x, y, a, b - 1); }
  }

  /** In particular the nodes of a pair agree in a quiet end if no write of that pair is silent, whatever others do. */
  lemma RacesConverge(es: seq<Event>, x: ActorId, y: ActorId)
    requires IsRun(es) && Quiet(Final(es)) && CrossNode(x, y) && x !in Final(es).ended && y !in Final(es).ended
    requires NeverSilent(es, x, y) && NeverSilent(es, y, x)
    ensures Agree(Final(es).tables, x, y)
  {
    QuietSplits(es, x, y);
    if i: nat, j: nat :| LastTold(es, x, y, i) && Answers(es, x, y, i, j) {
      NeverSilentAgrees(es, x, y, i, j);
    } else if i: nat, j: nat :| LastTold(es, y, x, i) && Answers(es, y, x, i, j) {
      NeverSilentAgrees(es, y, x, i, j);
    }
  }

  lemma NeverSilentAgrees(es: seq<Event>, x: ActorId, y: ActorId, i: nat, j: nat)
    requires IsRun(es) && Quiet(Final(es)) && CrossNode(x, y) && x !in Final(es).ended && y !in Final(es).ended
    requires NeverSilent(es, x, y) && NeverSilent(es, y, x) && LastTold(es, x, y, i) && Answers(es, x, y, i, j)
    ensures Agree(Final(es).tables, x, y)
  {
    NoSilentCount(es, x, y, i + 1, |es|);
    NoSilentCount(es, y, x, j, |es|);
    AgreeIff(es, x, y, i, j);
  }

  /** The event writes the view that call `i` has read, or ends its owner, before the call has written. */
  ghost predicate Disturbs(s: System, e: Event, i: nat) {
    && i < |s.calls| && !s.calls[i].written && e != Write(i)
    && (Writes(s, e, s.calls[i].rpc.x, s.calls[i].rpc.y) || e == Terminate(s.calls[i].rpc.x))
  }

  /** No call about the pair is disturbed between its guard read and its write. */
  ghost predicate Undisturbed(es: seq<Event>, x: ActorId, y: ActorId) {
    forall n, i :: 0 <= n < |es| && 0 <= i < |StateAt(es, n).calls| && About(StateAt(es, n).calls[i], x, y) ==>
      !Disturbs(StateAt(es, n), es[n], i)
  }

  /** Every call about the pair that has yet to write still finds what it read. */
  ghost predicate Steady(s: System, x: ActorId, y: ActorId) {
    forall i :: 0 <= i < |s.calls| && About(s.calls[i], x, y) && !s.calls[i].written ==>
      P.View(s.tables, s.calls[i].rpc.x, s.calls[i].rpc.y) == s.calls[i].was
  }

  lemma StepKeepsSteady(s: System, e: Event, x: ActorId, y: ActorId)
    requires Crossing(s) && Enabled(s, e) && Steady(s, x, y)
    requires forall i :: 0 <= i < |s.calls| && About(s.calls[i], x, y) ==> !Disturbs(s, e, i)
    ensures Steady(Next(s, e), x, y)
  {
    var t := Next(s, e);
    forall i | 0 <= i < |t.calls| && About(t.calls[i], x, y) && !t.calls[i].written
      ensures P.View(t.tables, t.calls[i].rpc.x, t.calls[i].rpc.y) == t.calls[i].was
    {
      if i < |s.calls| {
        CallAfter(s, e, i);
        ViewAfter(s, e, s.calls[i].rpc.x, s.calls[i].rpc.y);
      }
    }
  }

  lemma {:induction false} UndisturbedIsSteady(es: seq<Event>, x: ActorId, y: ActorId, n: nat)
    requires IsRun(es) && Undisturbed(es, x, y) && n <= |es|
    ensures Steady(StateAt(es, n), x, y)
  {
    if n > 0 {
      var m := n - 1;
      UndisturbedIsSteady(es, x, y, m);
      RunCrosses(es, m);
      StepAt(es, m, n);
      StepKeepsSteady(StateAt(es, m), es[m], x, y);
    }
  }

  /**
    A pair none of whose calls is disturbed between guard read and write, by another write of the same view or by the
    end of its owner, has no silent write, so in a quiet end its nodes agree.
   */
  lemma UndisturbedConverges(es: seq<Event>, x: ActorId, y: ActorId)
    requires IsRun(es) && Quiet(Final(es)) && CrossNode(x, y) && x !in Final(es).ended && y !in Final(es).ended
    requires Undisturbed(es, x, y)
    ensures NeverSilent(es, x, y) && NeverSilent(es, y, x) && Agree(Final(es).tables, x, y)
  {
    forall n | 0 <= n < |es| ensures !Silent(StateAt(es, n), es[n], x, y) && !Silent(StateAt(es, n), es[n], y, x) {
      UndisturbedIsSteady(es, x, y, n);
      StepAt(es, n, n + 1);
    }
    RacesConverge(es, x, y);
  }

  // ---- silent writes do happen ------------------------------------------------------------------------------------

  /** A silent write flips its own view, sends nothing and leaves every other view alone. */
  lemma SilentWriteSplits(s: System, i: nat)
    requires Crossing(s) && Enabled(s, Write(i)) && Silent(s, Write(i), s.calls[i].rpc.x, s.calls[i].rpc.y)
    ensures var m, t := s.calls[i].rpc, Next(s, Write(i));
            && t.inFlight == s.inFlight && (Agree(s.tables, m.x, m.y) <==> !Agree(t.tables, m.x, m.y))
            && forall p, q :: CrossNode(p, q) && (p, q) != (m.x, m.y) ==>
              P.View(t.tables, p, q) == P.View(s.tables, p, q)
  {
    var m, t := s.calls[i].rpc, Next(s, Write(i));
    ViewAfter(s, Write(i), m.x, m.y);
    forall p, q | CrossNode(p, q) && (p, q) != (m.x, m.y) ensures P.View(t.tables, p, q) == P.View(s.tables, p, q) {
      ViewAfter(s, Write(i), p, q);
    }
  }

  ghost predicate Reaches(s: System, t: System) { exists es :: Run(s, es, t) }

  lemma {:induction false} RunSnoc(s: System, es: seq<Event>, m: System, e: Event)
    requires Run(s, es, m) && Enabled(m, e)
    ensures Run(s, es + [e], Next(m, e))
    decreases |es|
  {
    if es == [] {
      assert Run(Next(m, e), [], Next(m, e));
      assert (es + [e])[1..] == [];
    } else {
      RunSnoc(Next(s, es[0]), es[1..], m, e);
      assert (es + [e])[1..] == es[1..] + [e];
    }
  }

  lemma Extend(s: System, m: System, e: Event)
    requires Reaches(s, m) && Enabled(m, e)
    ensures Reaches(s, Next(m, e))
  {
    var es :| Run(s, es, m);
    RunSnoc(s, es, m, e);
  }

  /** Both views of the pair, and which calls about it have yet to write. */
  ghost predicate Shows(s: System, a: ActorId, b: ActorId, ab: bool, ba: bool) {
    P.View(s.tables, a, b) == ab && P.View(s.tables, b, a) == ba
  }

  lemma WriteShows(s: System, i: nat, a: ActorId, b: ActorId, ba: bool)
    requires CrossNode(a, b) && Enabled(s, Write(i)) && P.View(s.tables, b, a) == ba
    requires s.calls[i].rpc.x == a && s.calls[i].rpc.y == b
    ensures Shows(Next(s, Write(i)), a, b, s.calls[i].rpc.kind.Link?, ba)
  {
    var m := s.calls[i].rpc;
    P.WriteView(s.tables, a.nodeId, m.kind, a, b, a, b);
    P.WriteView(s.tables, a.nodeId, m.kind, a, b, b, a);
  }

  /** An unlink that reads its guard, and a link that runs to the end on both nodes before the unlink writes. */
  lemma LinkOvertakes(a: ActorId, b: ActorId) returns (s: System)
    requires CrossNode(a, b)
    ensures Reaches(INIT, s) && Shows(s, a, b, true, true) && s.ended == {} && s.inFlight == multiset{}
    ensures |s.calls| == 4 && s.calls[0] == Call(Rpc(Unlink, a, b), false, false)
    ensures s.calls[1].written && s.calls[2].written && s.calls[3].written
  {
    var s4 := LinkReachesPeer(a, b);
    var s5 := Next(s4, Write(2));
    WriteShows(s4, 2, b, a, true);
    Extend(INIT, s4, Write(2));
    var s6 := Next(s5, ReadRpc(Rpc(Link, a, b)));
    Extend(INIT, s5, ReadRpc(Rpc(Link, a, b)));
    WriteShows(s6, 3, a, b, true);
    Extend(INIT, s6, Write(3));
    s := Next(s6, Write(3));
  }

  lemma LinkReachesPeer(a: ActorId, b: ActorId) returns (s: System)
    requires CrossNode(a, b)
    ensures Reaches(INIT, s) && Shows(s, a, b, true, false) && s.ended == {} && s.inFlight == multiset{}
    ensures |s.calls| == 3 && s.calls[0] == Call(Rpc(Unlink, a, b), false, false)
    ensures s.calls[1].written && s.calls[2] == Call(Rpc(Link, b, a), false, false)
  {
    assert Run(INIT, [], INIT);
    var s1 := Next(INIT, ReadRequest(Rpc(Unlink, a, b)));
    Extend(INIT, INIT, ReadRequest(Rpc(Unlink, a, b)));
    var s2 := Next(s1, ReadRequest(Rpc(Link, a, b)));
    Extend(INIT, s1, ReadRequest(Rpc(Link, a, b)));
    WriteShows(s2, 1, a, b, false);
    var s3 := Next(s2, Write(1));
    Extend(INIT, s2, Write(1));
    s := Next(s3, ReadRpc(Rpc(Link, b, a)));
    Extend(INIT, s3, ReadRpc(Rpc(Link, b, a)));
  }

  /** Then the unlink writes on its own node and tells nobody: all is quiet, and the two nodes disagree. */
  lemma SilentWriteReachable(a: ActorId, b: ActorId)
    requires CrossNode(a, b)
    ensures exists t :: Reaches(INIT, t) && Quiet(t) && t.ended == {} && !Agree(t.tables, a, b)
  {
    var s := LinkOvertakes(a, b);
    WriteShows(s, 0, a, b, true);
    Extend(INIT, s, Write(0));
    var t := Next(s, Write(0));
    assert Reaches(INIT, t) && Quiet(t) && t.ended == {} && !Agree(t.tables, a, b);
  }

  // ---- the end of an actor ----------------------------------------------------------------------------------------

  /** Nodes that agreed still do after an actor ends if and only if it had no link to another node. */
  lemma EndKeepsAgreementIff(s: System, a: ActorId)
    requires P.NodesAgree(s.tables)
    ensures P.NodesAgree(Next(s, Terminate(a)).tables) <==> forall y :: CrossNode(a, y) ==> !P.View(s.tables, a, y)
  {
    var t := Next(s, Terminate(a)).tables;
    forall x, y ensures P.View(t, x, y) <==> P.View(s.tables, x, y) && !(x.nodeId == a.nodeId && (x == a || y == a)) {
      EndedView(s.tables, a, x, y);
    }
    if y :| CrossNode(a, y) && P.View(s.tables, a, y) {
      assert P.View(t, y, a) && !P.View(t, a, y);
    }
  }
}
