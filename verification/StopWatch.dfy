/** One incarnation of an actor: explicit stops racing with the watcher of its message loop over the "stopping" flag. */
module StopWatch {
  /** A call of `stop_actor_impl`. `had` is whether the lookup found a live instance. */
  datatype Stop = Entered | Found | Ready(had: bool) | HasHandled(had: bool) | Unregistered(had: bool) | Returned

  /**
    The watcher: waiting for the message loop to end, between its test of the flag and its two clean-up calls,
    finished.
   */
  datatype Watcher = Waiting | Taken | WatcherHandled | Finished(skipped: bool)

  /** `flag`: the actor is in `stopping_actors`. `handled`: how often its termination has been handled. */
  datatype State = State(
    registered: bool, flag: bool, loopEnded: bool, watcher: Watcher, stops: seq<Stop>, handled: nat)

  datatype Event =
    | LoopEnds
    | Enter
    | Lookup(k: nat)
    | Mark(k: nat)
    | StopHandles(k: nat)
    | StopUnregisters(k: nat)
    | StopReturns(k: nat)
    | StopClears(k: nat)
    | WatcherTakes
    | WatcherHandles
    | WatcherUnregisters

  function Fresh(staleFlag: bool): State { State(true, staleFlag, false, Waiting, [], 0) }

  predicate Is(s: State, k: nat, p: Stop) { k < |s.stops| && s.stops[k] == p }

  /** A message loop may end by itself, or because a stop asked it to; any number of stops may be under way. */
  predicate Enabled(s: State, e: Event) {
    match e
    case LoopEnds => !s.loopEnded
    case Enter => true
    case Lookup(k) => Is(s, k, Entered)
    case Mark(k) => Is(s, k, Found)
    case StopHandles(k) => k < |s.stops| && s.stops[k].Ready?
    case StopUnregisters(k) => k < |s.stops| && s.stops[k].HasHandled?
    case StopReturns(k) => Is(s, k, Unregistered(true))
    case StopClears(k) => Is(s, k, Unregistered(false))
    case WatcherTakes => s.loopEnded && s.watcher == Waiting
    case WatcherHandles => s.watcher == Taken
    case WatcherUnregisters => s.watcher == WatcherHandled
  }

  function Next(s: State, e: Event): State
    requires Enabled(s, e)
  {
    match e
    case LoopEnds => s.(loopEnded := true)
    case Enter => s.(stops := s.stops + [Entered])
    case Lookup(k) => s.(stops := s.stops[k := if s.registered then Found else Ready(false)])
    case Mark(k) => s.(stops := s.stops[k := Ready(true)], flag := true)
    case StopHandles(k) => s.(stops := s.stops[k := HasHandled(s.stops[k].had)], handled := s.handled + 1)
    case StopUnregisters(k) => s.(stops := s.stops[k := Unregistered(s.stops[k].had)], registered := false)
    case StopReturns(k) => s.(stops := s.stops[k := Returned])
    case StopClears(k) => s.(stops := s.stops[k := Returned], flag := false)
    case WatcherTakes => s.(watcher := if s.flag then Finished(true) else Taken, flag := false)
    case WatcherHandles => s.(watcher := WatcherHandled, handled := s.handled + 1)
    case WatcherUnregisters => s.(watcher := Finished(false), registered := false)
  }

  /** `es` leads from `s` to `t`. */
  ghost predicate Run(s: State, es: seq<Event>, t: State)
    decreases |es|
  {
    if es == [] then s == t
    else
      var n := |es| - 1;
      exists m :: Run(s, es[..n], m) && Enabled(m, es[n]) && t == Next(m, es[n])
  }

  /** Nothing is left to do: the watcher and every stop call are through. */
  predicate Settled(s: State) { s.watcher.Finished? && forall k :: 0 <= k < |s.stops| ==> s.stops[k] == Returned }

  // ---- what the order of events says ----------------------------------------------------------------------------

  ghost predicate Precedes(es: seq<Event>, a: Event, b: Event) {
    exists i, j :: 0 <= i < j < |es| && es[i] == a && es[j] == b
  }

  /** A mark that nothing has taken away within `es[i..end]`. */
  ghost predicate StandsUntil(es: seq<Event>, i: nat, end: nat)
    requires i < end <= |es|
  {
    es[i].Mark? && forall m :: i < m < end ==> es[m] != WatcherTakes && !es[m].StopClears?
  }

  ghost predicate Stands(es: seq<Event>) { exists i :: 0 <= i < |es| && StandsUntil(es, i, |es|) }

  lemma StandsSnoc(es: seq<Event>, e: Event)
    ensures Stands(es + [e]) <==> e.Mark? || (Stands(es) && e != WatcherTakes && !e.StopClears?)
  {
    var fs := es + [e];
    if e.Mark? {
      assert StandsUntil(fs, |es|, |fs|);
    } else if Stands(es) && e != WatcherTakes && !e.StopClears? {
      var i :| 0 <= i < |es| && StandsUntil(es, i, |es|);
      assert StandsUntil(fs, i, |fs|);
    } else if Stands(fs) {
      var i :| 0 <= i < |fs| && StandsUntil(fs, i, |fs|);
      assert fs[|es|] == e;
      StandsShorter(es, e, i);
    }
  }

  lemma StandsShorter(es: seq<Event>, e: Event, i: nat)
    requires i < |es| && StandsUntil(es + [e], i, |es| + 1)
    ensures StandsUntil(es, i, |es|)
  {
    assert forall m :: 0 <= m < |es| ==> (es + [e])[m] == es[m];
  }

  lemma PrecedesBefore(es: seq<Event>, e: Event, a: Event, b: Event, i: nat, j: nat)
    requires i < j <= |es| && (es + [e])[i] == a && (es + [e])[j] == b
    ensures Precedes(es, a, b) || (a in es && e == b)
  {
    assert es[i] == a;
    if j < |es| { assert es[j] == b; }
  }

  lemma PrecedesSnoc(es: seq<Event>, e: Event, a: Event, b: Event)
    ensures Precedes(es + [e], a, b) <==> Precedes(es, a, b) || (a in es && e == b)
  {
    var fs := es + [e];
    if Precedes(es, a, b) {
      var i, j :| 0 <= i < j < |es| && es[i] == a && es[j] == b;
      assert fs[i] == a && fs[j] == b;
    }
    if a in es && e == b {
      var i :| 0 <= i < |es| && es[i] == a;
      assert fs[i] == a && fs[|es|] == b;
    }
    if Precedes(fs, a, b) {
      var i, j :| 0 <= i < j < |fs| && fs[i] == a && fs[j] == b;
      PrecedesBefore(es, e, a, b, i, j);
    }
  }

  // ---- the invariant --------------------------------------------------------------------------------------------

  predicate PastMark(p: Stop) { !p.Entered? && !p.Found? }

  predicate PastHandle(p: Stop) { p.HasHandled? || p.Unregistered? || p.Returned? }

  function CountHandled(stops: seq<Stop>): nat {
    if stops == [] then 0 else CountHandled(stops[..|stops| - 1]) + if PastHandle(stops[|stops| - 1]) then 1 else 0
  }

  lemma {:induction false} CountUpdate(stops: seq<Stop>, k: nat, p: Stop)
    requires k < |stops|
    ensures CountHandled(stops[k := p]) ==
            CountHandled(stops) + (if PastHandle(p) then 1 else 0) - if PastHandle(stops[k]) then 1 else 0
    decreases |stops|
  {
    var n := |stops| - 1;
    if k == n {
      assert stops[k := p][..n] == stops[..n];
    } else {
      assert stops[k := p][..n] == stops[..n][k := p];
      CountUpdate(stops[..n], k, p);
    }
  }

  lemma CountPush(stops: seq<Stop>, p: Stop)
    ensures CountHandled(stops + [p]) == CountHandled(stops) + if PastHandle(p) then 1 else 0
  {
    assert (stops + [p])[..|stops|] == stops;
  }

  function WatcherCount(w: Watcher): nat { if w == WatcherHandled || w == Finished(false) then 1 else 0 }

  lemma StepCounts(s: State, e: Event)
    requires Enabled(s, e) && s.handled == CountHandled(s.stops) + WatcherCount(s.watcher)
    ensures var t := Next(s, e); t.handled == CountHandled(t.stops) + WatcherCount(t.watcher)
  {
    var t := Next(s, e);
    match e
    case Enter => CountPush(s.stops, Entered);
    case Lookup(k) => CountUpdate(s.stops, k, t.stops[k]);
    case Mark(k) => CountUpdate(s.stops, k, t.stops[k]);
    case StopHandles(k) => CountUpdate(s.stops, k, t.stops[k]);
    case StopUnregisters(k) => CountUpdate(s.stops, k, t.stops[k]);
    case StopReturns(k) => CountUpdate(s.stops, k, t.stops[k]);
    case StopClears(k) => CountUpdate(s.stops, k, t.stops[k]);
    case _ =>
  }

  lemma {:induction false} AllHandled(stops: seq<Stop>)
    requires forall k :: 0 <= k < |stops| ==> stops[k] == Returned
    ensures CountHandled(stops) == |stops|
    decreases |stops|
  {
    if stops != [] { AllHandled(stops[..|stops| - 1]); }
  }

  /** A stop's own marks and clearings, read off its position: it clears only what it never marked. */
  ghost predicate StopOk(s: State, es: seq<Event>, k: nat) {
    && (Mark(k) in es ==> k < |s.stops| && PastMark(s.stops[k]))
    && (StopClears(k) in es ==> k < |s.stops| && s.stops[k].Returned? && Mark(k) !in es)
    && (k < |s.stops| ==>
          match s.stops[k]
          case Ready(had) => had <==> Mark(k) in es
          case HasHandled(had) => had <==> Mark(k) in es
          case Unregistered(had) => had <==> Mark(k) in es
          case _ => true)
  }

  lemma StepKeepsStop(s: State, es: seq<Event>, e: Event, k: nat)
    requires Enabled(s, e) && StopOk(s, es, k)
    ensures StopOk(Next(s, e), es + [e], k)
  {
    assert forall f :: f in es + [e] <==> f in es || f == e;
  }

  ghost predicate Took(s: State) { !s.watcher.Waiting? }

  /** The whole run so far, from no stale flag. */
  ghost predicate Inv(s: State, es: seq<Event>) {
    && s.handled == CountHandled(s.stops) + WatcherCount(s.watcher)
    && (forall k :: StopOk(s, es, k))
    && FlagOk(s, es)
  }

  ghost predicate FlagOk(s: State, es: seq<Event>) {
    && (s.flag <==> Stands(es))
    && (Took(s) <==> WatcherTakes in es)
    && (s.watcher == Finished(true) <==> MarkStandsAtTake(es))
  }

  /** When the watcher looked, a mark stood. */
  ghost predicate MarkStandsAtTake(es: seq<Event>) {
    exists j :: 0 <= j < |es| && es[j] == WatcherTakes && Stands(es[..j])
  }

  lemma TakeSnoc(es: seq<Event>, e: Event)
    ensures MarkStandsAtTake(es + [e]) <==> MarkStandsAtTake(es) || (e == WatcherTakes && Stands(es))
  {
    var fs := es + [e];
    assert fs[..|es|] == es;
    assert forall j :: 0 <= j < |es| ==> fs[..j] == es[..j] && fs[j] == es[j];
    if MarkStandsAtTake(es) {
      var j :| 0 <= j < |es| && es[j] == WatcherTakes && Stands(es[..j]);
      assert fs[j] == WatcherTakes && Stands(fs[..j]);
    }
    if e == WatcherTakes && Stands(es) {
      assert fs[|es|] == WatcherTakes && Stands(fs[..|es|]);
    }
    if MarkStandsAtTake(fs) {
      var j :| 0 <= j < |fs| && fs[j] == WatcherTakes && Stands(fs[..j]);
      if j < |es| { assert es[j] == WatcherTakes && Stands(es[..j]); }
    }
  }

  lemma StepKeepsInv(s: State, es: seq<Event>, e: Event)
    requires Inv(s, es) && Enabled(s, e)
    ensures Inv(Next(s, e), es + [e])
  {
    StepCounts(s, e);
    StepKeepsStops(s, es, e);
    StepKeepsFlag(s, es, e);
  }

  lemma StepKeepsStops(s: State, es: seq<Event>, e: Event)
    requires Enabled(s, e) && forall k :: StopOk(s, es, k)
    ensures forall k :: StopOk(Next(s, e), es + [e], k)
  {
    forall k: nat ensures StopOk(Next(s, e), es + [e], k) { StepKeepsStop(s, es, e, k); }
  }

  lemma StepKeepsFlag(s: State, es: seq<Event>, e: Event)
    requires Enabled(s, e) && FlagOk(s, es)
    ensures FlagOk(Next(s, e), es + [e])
  {
    StandsSnoc(es, e);
    TakeSnoc(es, e);
  }

  lemma {:induction false} RunKeepsInv(es: seq<Event>, t: State)
    requires Run(Fresh(false), es, t)
    ensures Inv(t, es)
    decreases |es|
  {
    if es != [] {
      var n := |es| - 1;
      var m :| Run(Fresh(false), es[..n], m) && Enabled(m, es[n]) && t == Next(m, es[n]);
      RunKeepsInv(es[..n], m);
      StepKeepsInv(m, es[..n], es[n]);
      assert es == es[..n] + [es[n]];
    }
  }

  // ---- main results ---------------------------------------------------------------------------------------------

  /**
    At least once, for any number of stops and every interleaving: a settled incarnation that began without a stale
    flag was handled once per stop, and once more by the watcher unless a standing mark made it step aside.
   */
  lemma HandledAtLeastOnce(es: seq<Event>, t: State)
    requires Run(Fresh(false), es, t) && Settled(t)
    ensures t.handled >= 1
    ensures t.handled == |t.stops| + if MarkStandsAtTake(es) then 0 else 1
  {
    RunKeepsInv(es, t);
    AllHandled(t.stops);
    if MarkStandsAtTake(es) {
      var j :| 0 <= j < |es| && es[j] == WatcherTakes && Stands(es[..j]);
      var i :| 0 <= i < j && StandsUntil(es[..j], i, j);
      assert es[i] == es[..j][i];
      assert StopOk(t, es, es[i].k);
    }
  }

  // ---- a single stop ------------------------------------------------------------------------------------------

  ghost predicate MarkFirst(es: seq<Event>) { Precedes(es, Mark(0), WatcherTakes) }

  ghost predicate OneStop(s: State, es: seq<Event>) {
    |s.stops| <= 1 ==>
      && (s.watcher == Finished(true) <==> MarkFirst(es))
      && (s.flag <==> Mark(0) in es && !MarkFirst(es))
  }

  lemma MarkFirstNeedsBoth(es: seq<Event>)
    ensures MarkFirst(es) ==> Mark(0) in es && WatcherTakes in es
  {
  }

  lemma StepKeepsOneStop(s: State, es: seq<Event>, e: Event)
    requires StopOk(s, es, 0) && (Took(s) <==> WatcherTakes in es) && OneStop(s, es) && Enabled(s, e)
    ensures OneStop(Next(s, e), es + [e])
  {
    PrecedesSnoc(es, e, Mark(0), WatcherTakes);
    MarkFirstNeedsBoth(es);
    assert Mark(0) in es + [e] <==> Mark(0) in es || e == Mark(0);
  }

  lemma {:induction false} RunKeepsOneStop(es: seq<Event>, t: State)
    requires Run(Fresh(false), es, t)
    ensures OneStop(t, es)
    decreases |es|
  {
    if es != [] {
      var n := |es| - 1;
      var m :| Run(Fresh(false), es[..n], m) && Enabled(m, es[n]) && t == Next(m, es[n]);
      RunKeepsInv(es[..n], m);
      RunKeepsOneStop(es[..n], m);
      StepKeepsOneStop(m, es[..n], es[n]);
      assert es == es[..n] + [es[n]];
    }
  }

  /**
    Exactly once. With one stop, termination is handled once exactly when the mark comes before the watcher looks at
    the flag; the watcher then consumes the mark. Otherwise it is handled twice, and a mark that came too late stays
    behind as a stale flag.
   */
  lemma HandledOnceIff(es: seq<Event>, t: State)
    requires Run(Fresh(false), es, t) && Settled(t) && |t.stops| == 1
    ensures t.handled == (if MarkFirst(es) then 1 else 2)
    ensures t.flag <==> Mark(0) in es && !MarkFirst(es)
  {
    HandledAtLeastOnce(es, t);
    RunKeepsInv(es, t);
    RunKeepsOneStop(es, t);
  }

  /** In particular a mark set before the message loop ends is always in time, */
  lemma {:induction false} MarkBeforeEndIsInTime(es: seq<Event>, t: State)
    requires Run(Fresh(false), es, t) && Took(t) && Precedes(es, Mark(0), LoopEnds)
    ensures MarkFirst(es)
    decreases |es|
  {
    var n := |es| - 1;
    var m :| Run(Fresh(false), es[..n], m) && Enabled(m, es[n]) && t == Next(m, es[n]);
    assert es == es[..n] + [es[n]];
    PrecedesSnoc(es[..n], es[n], Mark(0), WatcherTakes);
    PrecedesSnoc(es[..n], es[n], Mark(0), LoopEnds);
    if Took(m) && es[n] != LoopEnds {
      MarkBeforeEndIsInTime(es[..n], m);
    } else {
      TookAfterEnd(es[..n], m);
    }
  }

  lemma {:induction false} TookAfterEnd(es: seq<Event>, t: State)
    requires Run(Fresh(false), es, t)
    ensures Took(t) ==> t.loopEnded
    decreases |es|
  {
    if es != [] {
      var n := |es| - 1;
      var m :| Run(Fresh(false), es[..n], m) && Enabled(m, es[n]) && t == Next(m, es[n]);
      TookAfterEnd(es[..n], m);
    }
  }

  // ---- what a stale flag does to the next incarnation -------------------------------------------------------------

  ghost predicate Unstopped(s: State, stale: bool) {
    s.stops == [] ==>
      && s.handled == WatcherCount(s.watcher)
      && (s.watcher.Waiting? ==> s.flag == stale)
      && (!s.watcher.Waiting? ==> (s.watcher == Finished(true) <==> stale))
      && (s.registered <==> s.watcher != Finished(false))
  }

  lemma StepKeepsUnstopped(s: State, e: Event, stale: bool)
    requires Unstopped(s, stale) && Enabled(s, e)
    ensures Unstopped(Next(s, e), stale)
  {
  }

  lemma {:induction false} NoStopInv(stale: bool, es: seq<Event>, t: State)
    requires Run(Fresh(stale), es, t)
    ensures Unstopped(t, stale)
    decreases |es|
  {
    if es != [] {
      var n := |es| - 1;
      var m :| Run(Fresh(stale), es[..n], m) && Enabled(m, es[n]) && t == Next(m, es[n]);
      NoStopInv(stale, es[..n], m);
      StepKeepsUnstopped(m, es[n], stale);
    }
  }

  /**
    A message loop that ends with no stop under way is handled, and unregistered, if and only if its incarnation did not
    inherit a stale flag: otherwise monitors and links never hear of it and the dead actor stays registered.
   */
  lemma CrashHandledIff(stale: bool, es: seq<Event>, t: State)
    requires Run(Fresh(stale), es, t) && Settled(t) && t.stops == []
    ensures t.handled == (if stale then 0 else 1) && (t.registered <==> stale)
  {
    NoStopInv(stale, es, t);
  }

  // ---- who is registered, and what each stop did ------------------------------------------------------------------

  predicate Unregisters(e: Event) { e.StopUnregisters? || e.WatcherUnregisters? }

  ghost predicate NoneUnregisters(es: seq<Event>) { forall i :: 0 <= i < |es| ==> !Unregisters(es[i]) }

  /** The lookup of stop `k` came before anybody unregistered the actor. */
  ghost predicate FoundIt(es: seq<Event>, k: nat) {
    exists j :: 0 <= j < |es| && es[j] == Lookup(k) && NoneUnregisters(es[..j])
  }

  lemma NoneUnregistersSnoc(es: seq<Event>, e: Event)
    ensures NoneUnregisters(es + [e]) <==> NoneUnregisters(es) && !Unregisters(e)
  {
    var fs := es + [e];
    assert fs[|es|] == e && forall i :: 0 <= i < |es| ==> fs[i] == es[i];
  }

  lemma FoundItSnoc(es: seq<Event>, e: Event, k: nat)
    ensures FoundIt(es + [e], k) <==> FoundIt(es, k) || (e == Lookup(k) && NoneUnregisters(es))
  {
    var fs := es + [e];
    assert fs[..|es|] == es && fs[|es|] == e;
    assert forall j :: 0 <= j < |es| ==> fs[..j] == es[..j] && fs[j] == es[j];
    if FoundIt(es, k) {
      var j :| 0 <= j < |es| && es[j] == Lookup(k) && NoneUnregisters(es[..j]);
      assert fs[j] == Lookup(k) && NoneUnregisters(fs[..j]);
    }
    if e == Lookup(k) && NoneUnregisters(es) {
      assert fs[|es|] == Lookup(k) && NoneUnregisters(fs[..|es|]);
    }
    if FoundIt(fs, k) {
      var j :| 0 <= j < |fs| && fs[j] == Lookup(k) && NoneUnregisters(fs[..j]);
      if j < |es| { assert es[j] == Lookup(k) && NoneUnregisters(es[..j]); }
    }
  }

  /** What a stop call has behind it: its lookup, whether that found the actor, and each of its later steps. */
  datatype Past = Past(
    looked: bool, found: bool, marked: bool, handled: bool, unregistered: bool, returned: bool, cleared: bool)

  ghost function PastOf(es: seq<Event>, k: nat): Past {
    Past(Lookup(k) in es, FoundIt(es, k), Mark(k) in es, StopHandles(k) in es, StopUnregisters(k) in es,
         StopReturns(k) in es, StopClears(k) in es)
  }

  /** Where a stop call is follows from what it has behind it. */
  predicate Fits(p: Stop, d: Past) {
    && (d.looked <==> !p.Entered?) && (p.Entered? ==> !d.found) && (p.Found? ==> d.found)
    && (p.Ready? || p.HasHandled? || p.Unregistered? ==> p.had == d.found)
    && (d.marked <==> PastMark(p) && d.found)
    && (d.handled <==> PastHandle(p))
    && (d.unregistered <==> p.Unregistered? || p.Returned?)
    && (d.returned <==> p.Returned? && d.found)
    && (d.cleared <==> p.Returned? && !d.found)
  }

  function More(d: Past, e: Event, k: nat, registered: bool): Past {
    Past(d.looked || e == Lookup(k), d.found || (e == Lookup(k) && registered), d.marked || e == Mark(k),
         d.handled || e == StopHandles(k), d.unregistered || e == StopUnregisters(k), d.returned || e == StopReturns(k),
         d.cleared || e == StopClears(k))
  }

  /** A step of stop call `k`. */
  predicate StepOf(e: Event, k: nat) {
    && (e.Lookup? || e.Mark? || e.StopHandles? || e.StopUnregisters? || e.StopReturns? || e.StopClears?)
    && e.k == k
  }

  function PlaceOf(s: State, k: nat): Stop { if k < |s.stops| then s.stops[k] else Entered }

  function Moved(p: Stop, e: Event, registered: bool): Stop {
    match e
    case Lookup(_) => if registered then Found else Ready(false)
    case Mark(_) => Ready(true)
    case StopHandles(_) => HasHandled(if p.Ready? then p.had else false)
    case StopUnregisters(_) => Unregistered(if p.HasHandled? then p.had else false)
    case _ => Returned
  }

  lemma StepMoves(s: State, e: Event, k: nat)
    requires Enabled(s, e)
    ensures PlaceOf(Next(s, e), k) == if StepOf(e, k) then Moved(PlaceOf(s, k), e, s.registered) else PlaceOf(s, k)
  {
  }

  lemma MoveFits(s: State, e: Event, k: nat, d: Past)
    requires Enabled(s, e) && StepOf(e, k) && Fits(PlaceOf(s, k), d)
    ensures Fits(Moved(PlaceOf(s, k), e, s.registered), More(d, e, k, s.registered))
  {
  }

  lemma StepFits(s: State, e: Event, k: nat, d: Past)
    requires Enabled(s, e) && Fits(PlaceOf(s, k), d)
    ensures Fits(PlaceOf(Next(s, e), k), More(d, e, k, s.registered))
  {
    StepMoves(s, e, k);
    if StepOf(e, k) {
      MoveFits(s, e, k, d);
    } else {
      assert More(d, e, k, s.registered) == d;
    }
  }

  lemma PastSnoc(es: seq<Event>, e: Event, k: nat)
    ensures PastOf(es + [e], k) == More(PastOf(es, k), e, k, NoneUnregisters(es))
  {
    FoundItSnoc(es, e, k);
  }

  ghost predicate Registers(s: State, es: seq<Event>) {
    (s.registered <==> NoneUnregisters(es)) && (s.watcher == Finished(false) <==> WatcherUnregisters in es)
  }

  lemma RegisteredOne(s: State, es: seq<Event>, e: Event)
    requires Enabled(s, e) && Registers(s, es)
    ensures Registers(Next(s, e), es + [e])
  {
    NoneUnregistersSnoc(es, e);
  }

  /** The actor is registered exactly until the first of the stops or the watcher unregisters it. */
  lemma {:induction false} RegisteredIff(stale: bool, es: seq<Event>, t: State)
    requires Run(Fresh(stale), es, t)
    ensures t.registered <==> NoneUnregisters(es)
    ensures t.watcher == Finished(false) <==> WatcherUnregisters in es
    decreases |es|
  {
    if es != [] {
      var n := |es| - 1;
      var m :| Run(Fresh(stale), es[..n], m) && Enabled(m, es[n]) && t == Next(m, es[n]);
      RegisteredIff(stale, es[..n], m);
      RegisteredOne(m, es[..n], es[n]);
      assert es == es[..n] + [es[n]];
    }
  }

  lemma {:induction false} RunFits(stale: bool, es: seq<Event>, t: State, k: nat)
    requires Run(Fresh(stale), es, t)
    ensures Fits(PlaceOf(t, k), PastOf(es, k))
    decreases |es|
  {
    if es != [] {
      var n := |es| - 1;
      var m :| Run(Fresh(stale), es[..n], m) && Enabled(m, es[n]) && t == Next(m, es[n]);
      RunFits(stale, es[..n], m, k);
      RegisteredIff(stale, es[..n], m);
      StepFits(m, es[n], k, PastOf(es[..n], k));
      PastSnoc(es[..n], es[n], k);
      assert es == es[..n] + [es[n]];
    }
  }

  /**
    Every stop that has returned has handled the termination and unregistered the actor. It marked the actor, and left
    the flag to the watcher, exactly when its lookup came before any unregistration; otherwise it cleared the flag.
   */
  lemma StopDoesItAll(stale: bool, es: seq<Event>, t: State, k: nat)
    requires Run(Fresh(stale), es, t) && k < |t.stops| && t.stops[k] == Returned
    ensures StopHandles(k) in es && StopUnregisters(k) in es && !t.registered
    ensures Mark(k) in es <==> FoundIt(es, k)
    ensures StopReturns(k) in es <==> FoundIt(es, k)
    ensures StopClears(k) in es <==> !FoundIt(es, k)
  {
    RunFits(stale, es, t, k);
    RegisteredIff(stale, es, t);
  }

  /** A settled actor is still registered only if nobody stopped it and a stale flag made its watcher step aside. */
  lemma SettledIsUnregistered(stale: bool, es: seq<Event>, t: State)
    requires Run(Fresh(stale), es, t) && Settled(t)
    ensures t.registered <==> t.stops == [] && stale
  {
    RegisteredIff(stale, es, t);
    NoStopInv(stale, es, t);
    if t.stops != [] { StopDoesItAll(stale, es, t, 0); }
  }

  ghost predicate Reaches(s: State, t: State) { exists es :: Run(s, es, t) }

  lemma Extend(s: State, m: State, e: Event, t: State)
    requires Reaches(s, m) && Enabled(m, e) && t == Next(m, e)
    ensures Reaches(s, t)
  {
    var es :| Run(s, es, m);
    var fs := es + [e];
    assert fs[..|fs| - 1] == es && fs[|es|] == e;
    assert Run(s, fs, t);
  }

  lemma StopFinds(s: State)
    requires s == Fresh(false)
    ensures Reaches(s, State(true, false, false, Waiting, [Found], 0))
  {
    assert Run(s, [], s);
    var s1 := State(true, false, false, Waiting, [Entered], 0);
    Extend(s, s, Enter, s1);
    assert [Entered][0 := Found] == [Found];
    Extend(s, s1, Lookup(0), State(true, false, false, Waiting, [Found], 0));
  }

  /** The actor crashes between the stop's lookup and its mark, and the watcher looks at the flag in between. */
  lemma LateMark(s: State)
    requires s == Fresh(false)
    ensures Reaches(s, State(true, true, true, Taken, [Ready(true)], 0))
  {
    StopFinds(s);
    var s2 := State(true, false, false, Waiting, [Found], 0);
    var s3 := State(true, false, true, Waiting, [Found], 0);
    var s4 := State(true, false, true, Taken, [Found], 0);
    Extend(s, s2, LoopEnds, s3);
    Extend(s, s3, WatcherTakes, s4);
    assert [Found][0 := Ready(true)] == [Ready(true)];
    Extend(s, s4, Mark(0), State(true, true, true, Taken, [Ready(true)], 0));
  }

  lemma WatcherCleansUp(s: State)
    requires s == Fresh(false)
    ensures Reaches(s, State(false, true, true, Finished(false), [Ready(true)], 1))
  {
    LateMark(s);
    var s5 := State(true, true, true, Taken, [Ready(true)], 0);
    var s6 := State(true, true, true, WatcherHandled, [Ready(true)], 1);
    Extend(s, s5, WatcherHandles, s6);
    Extend(s, s6, WatcherUnregisters, State(false, true, true, Finished(false), [Ready(true)], 1));
  }

  /** So the late mark does happen, and both sides then handle the termination. */
  lemma StaleFlagReachable()
    ensures exists t :: Reaches(Fresh(false), t) && Settled(t) && |t.stops| == 1 && t.flag && t.handled == 2
  {
    var s := Fresh(false);
    WatcherCleansUp(s);
    var s7 := State(false, true, true, Finished(false), [Ready(true)], 1);
    var s8 := State(false, true, true, Finished(false), [HasHandled(true)], 2);
    var s9 := State(false, true, true, Finished(false), [Unregistered(true)], 2);
    assert [Ready(true)][0 := HasHandled(true)] == [HasHandled(true)];
    Extend(s, s7, StopHandles(0), s8);
    assert [HasHandled(true)][0 := Unregistered(true)] == [Unregistered(true)];
    Extend(s, s8, StopUnregisters(0), s9);
    Extend(s, s9, StopReturns(0), State(false, true, true, Finished(false), [Returned], 2));
  }
}
