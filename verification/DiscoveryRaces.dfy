/**
  The discovery helpers running side by side. A query holds the cache lock for its lookup and again for its insert, not
  for the registry read in between. Writes of nodes, applications and workflows hold it from invalidation to the end
  of the registry write; writes of actors give it back after the invalidation.
 */
module DiscoveryRaces {
  import opened Common
  import R = RecencyList
  import opened D = Discovery

  /** A registry read on its way to the cache, and when it was made. */
  datatype ReadCall = ReadCall(q: Query, found: seq<Row>, at: nat)

  /** A write: when it invalidated, and when it took effect, if it has. */
  datatype WriteCall = WriteCall(op: Op, at: nat, effect: Option<nat>)

  /** `origin` tells when what is under a key was read and when it was inserted. */
  datatype System = System(
    world: World, time: nat, fetched: seq<ReadCall>, writes: seq<WriteCall>, origin: map<string, (nat, nat)>)

  datatype Event =
    | Lookup(q: Query, now: int)
    | Read(q: Query)
    | Insert(i: nat, now: int)
    | WriteAll(op: Op)
    | InvalidateFor(op: Op)
    | TakeEffect(i: nat)

  const INIT := System(World([], []), 0, [], [], map[])

  predicate IsWrite(op: Op) { op.Register? || op.Unregister? }

  predicate Enabled(s: System, e: Event) {
    match e
    case Lookup(q, _) => IsQuery(q)
    case Read(q) => IsQuery(q)
    case Insert(i, _) => i < |s.fetched|
    case WriteAll(op) => IsWrite(op) && !op.row.kind.Actor?
    case InvalidateFor(op) => IsWrite(op) && op.row.kind.Actor?
    case TakeEffect(i) => i < |s.writes| && s.writes[i].effect.None?
  }

  /** The registry after a write, if it is accepted. */
  function Effect(rows: seq<Row>, op: Op): seq<Row>
    requires IsWrite(op)
  {
    if !op.accepted then rows else if op.Register? then Upsert(rows, op.row) else Delete(rows, op.row)
  }

  ghost function Change(s: System, e: Event): System
    requires Enabled(s, e) && forall i :: 0 <= i < |s.writes| ==> IsWrite(s.writes[i].op)
  {
    var w := s.world;
    match e
    case Lookup(q, now) => s.(world := w.(cache := R.Get(w.cache, TTL_SECONDS, Key(q), now).0))
    case Read(q) => s.(fetched := s.fetched + [ReadCall(q, Answer(w.rows, q), s.time)])
    case Insert(i, now) =>
      var r := s.fetched[i];
      s.(world := w.(cache := R.Insert(w.cache, CAPACITY, Key(r.q), r.found, now)),
        origin := s.origin[Key(r.q) := (r.at, s.time)])
    case WriteAll(op) =>
      s.(world := World(Invalidate(w.cache, op.row), Effect(w.rows, op)),
        writes := s.writes + [WriteCall(op, s.time, Some(s.time))])
    case InvalidateFor(op) =>
      s.(world := w.(cache := Invalidate(w.cache, op.row)), writes := s.writes + [WriteCall(op, s.time, None)])
    case TakeEffect(i) =>
      s.(world := w.(rows := Effect(w.rows, s.writes[i].op)),
        writes := s.writes[i := s.writes[i].(effect := Some(s.time))])
  }

  ghost function Next(s: System, e: Event): System
    requires Enabled(s, e) && WellFormed(s)
  {
    Change(s, e).(time := s.time + 1)
  }

  /** Writes are writes, queries are queries, and only actor writes take effect later than they invalidate. */
  ghost predicate WellFormed(s: System) {
    && (forall i :: 0 <= i < |s.writes| ==> IsWrite(s.writes[i].op) && Timed(s, s.writes[i]))
    && (forall i :: 0 <= i < |s.fetched| ==> IsQuery(s.fetched[i].q) && s.fetched[i].at < s.time)
  }

  ghost predicate Timed(s: System, w: WriteCall) {
    && w.at < s.time && (w.effect.Some? ==> w.at <= w.effect.value < s.time)
    && (IsWrite(w.op) && !w.op.row.kind.Actor? ==> w.effect == Some(w.at))
  }

  lemma StepWellFormed(s: System, e: Event)
    requires WellFormed(s) && Enabled(s, e)
    ensures WellFormed(Next(s, e))
  {
  }

  ghost predicate Run(s: System, es: seq<Event>, t: System)
    decreases |es|
  {
    if es == [] then s == t else Enabled(s, es[0]) && WellFormed(s) && Run(Next(s, es[0]), es[1..], t)
  }

  // ---- what may be wrong with what is cached -----------------------------------------------------------------------

  /** An accepted write in the query's scope that took effect after `read`. */
  ghost predicate Later(w: WriteCall, q: Query, read: nat) {
    IsWrite(w.op) && w.op.accepted && InScope(w.op.row, q) && w.effect.Some? && read < w.effect.value
  }

  /** ... and invalidated before `insert`: the two overlap. */
  ghost predicate Overlaps(w: WriteCall, q: Query, read: nat, insert: nat) { Later(w, q, read) && w.at < insert }

  ghost predicate SomeLater(s: System, q: Query, read: nat) {
    exists i :: 0 <= i < |s.writes| && Later(s.writes[i], q, read)
  }

  ghost predicate SomeOverlap(s: System, q: Query, read: nat, insert: nat) {
    exists i :: 0 <= i < |s.writes| && Overlaps(s.writes[i], q, read, insert)
  }

  ghost predicate FetchedOk(s: System, q: Query) {
    forall i :: 0 <= i < |s.fetched| && s.fetched[i].q == q ==>
      s.fetched[i].found == Answer(s.world.rows, q) || SomeLater(s, q, s.fetched[i].at)
  }

  ghost predicate EntryOk(s: System, q: Query, e: R.Entry<string, seq<Row>>) {
    && Key(q) in s.origin
    && var (read, insert) := s.origin[Key(q)];
       && read < insert < s.time
       && (forall i :: 0 <= i < |s.writes| && IsWrite(s.writes[i].op) && InScope(s.writes[i].op.row, q) ==>
         s.writes[i].at < insert)
       && (e.value == Answer(s.world.rows, q) || SomeOverlap(s, q, read, insert))
  }

  ghost predicate CacheOk(s: System, q: Query) {
    forall e :: e in s.world.cache && e.key == Key(q) ==> EntryOk(s, q, e)
  }

  ghost predicate Ok(s: System, q: Query) { WellFormed(s) && FetchedOk(s, q) && CacheOk(s, q) }

  lemma EffectElsewhere(rows: seq<Row>, op: Op, q: Query)
    requires IsWrite(op) && !(op.accepted && InScope(op.row, q))
    ensures Answer(Effect(rows, op), q) == Answer(rows, q)
  {
    if op.accepted {
      UpsertElsewhere(rows, op.row, q);
      DeleteElsewhere(rows, op.row, q);
    }
  }

  lemma LookupKeeps(s: System, p: Query, now: int, q: Query)
    requires Ok(s, q) && IsQuery(p)
    ensures Ok(Next(s, Lookup(p, now)), q)
  {
    var t := Next(s, Lookup(p, now));
    forall e | e in t.world.cache && e.key == Key(q) ensures EntryOk(t, q, e) {
      R.GetEntries(s.world.cache, TTL_SECONDS, Key(p), now, e);
      assert EntryOk(s, q, e);
    }
  }

  lemma ReadKeeps(s: System, p: Query, q: Query)
    requires Ok(s, q) && IsQuery(p)
    ensures Ok(Next(s, Read(p)), q)
  {
    var t := Next(s, Read(p));
    forall i | 0 <= i < |t.fetched| && t.fetched[i].q == q
      ensures t.fetched[i].found == Answer(t.world.rows, q) || SomeLater(t, q, t.fetched[i].at)
    {
      if i < |s.fetched| {
        assert t.fetched[i] == s.fetched[i];
        assert SomeLater(s, q, s.fetched[i].at) ==> SomeLater(t, q, s.fetched[i].at);
      }
    }
    forall e | e in t.world.cache && e.key == Key(q) ensures EntryOk(t, q, e) { assert EntryOk(s, q, e); }
  }

  lemma SameKeySameQuery(p: Query, q: Query)
    requires IsQuery(p) && IsQuery(q) && ColonFree(q) && Key(p) == Key(q)
    ensures p == q
  {
    SameKeyColonFree(p, q);
    KeyUnique(p, q);
  }

  lemma InsertKeeps(s: System, i: nat, now: int, q: Query)
    requires Ok(s, q) && i < |s.fetched| && IsQuery(q) && ColonFree(q)
    ensures Ok(Next(s, Insert(i, now)), q)
  {
    var t, r := Next(s, Insert(i, now)), s.fetched[i];
    forall e | e in t.world.cache && e.key == Key(q) ensures EntryOk(t, q, e) {
      R.InsertEntries(s.world.cache, CAPACITY, Key(r.q), r.found, now, e);
      if e.key == Key(r.q) {
        SameKeySameQuery(r.q, q);
        InsertedOk(s, i, now, q, e);
      } else {
        assert EntryOk(s, q, e);
      }
    }
  }

  lemma InsertedOk(s: System, i: nat, now: int, q: Query, e: R.Entry<string, seq<Row>>)
    requires Ok(s, q) && i < |s.fetched| && s.fetched[i].q == q && e.value == s.fetched[i].found
    ensures EntryOk(Next(s, Insert(i, now)), q, e)
  {
    var t, r := Next(s, Insert(i, now)), s.fetched[i];
    if SomeLater(s, q, r.at) {
      var j :| 0 <= j < |s.writes| && Later(s.writes[j], q, r.at);
      assert Overlaps(t.writes[j], q, r.at, s.time);
    }
  }

  /** What an invalidation leaves under the key of `q` is untouched by rows out of its scope. */
  lemma SurvivorOutOfScope(s: System, row: Row, q: Query, e: R.Entry<string, seq<Row>>)
    requires IsQuery(q) && e in Invalidate(s.world.cache, row) && e.key == Key(q)
    ensures e in s.world.cache && !InScope(row, q)
  {
    InvalidateEntries(s.world.cache, row, e);
    if InScope(row, q) { InvalidatesAffected(row, q); }
  }

  lemma MoreWrites(s: System, t: System, q: Query, read: nat, insert: nat)
    requires |s.writes| <= |t.writes|
    requires forall i :: 0 <= i < |s.writes| && s.writes[i].effect.Some? ==> t.writes[i] == s.writes[i]
    ensures SomeLater(s, q, read) ==> SomeLater(t, q, read)
    ensures SomeOverlap(s, q, read, insert) ==> SomeOverlap(t, q, read, insert)
  {
    if SomeLater(s, q, read) {
      var i :| 0 <= i < |s.writes| && Later(s.writes[i], q, read);
      assert Later(t.writes[i], q, read);
    }
    if SomeOverlap(s, q, read, insert) {
      var i :| 0 <= i < |s.writes| && Overlaps(s.writes[i], q, read, insert);
      assert Overlaps(t.writes[i], q, read, insert);
    }
  }

  /** Reads already made stay right, or the write that changed the answer is on record. */
  lemma FetchedAfterWrite(s: System, t: System, q: Query, j: nat)
    requires Ok(s, q) && t.fetched == s.fetched && j < |t.writes| && IsWrite(t.writes[j].op)
    requires |s.writes| <= |t.writes|
    requires forall i :: 0 <= i < |s.writes| && s.writes[i].effect.Some? ==> t.writes[i] == s.writes[i]
    requires t.world.rows == s.world.rows
            || (t.world.rows == Effect(s.world.rows, t.writes[j].op) && t.writes[j].effect == Some(s.time))
    ensures FetchedOk(t, q)
  {
    forall i | 0 <= i < |t.fetched| && t.fetched[i].q == q
      ensures t.fetched[i].found == Answer(t.world.rows, q) || SomeLater(t, q, t.fetched[i].at)
    {
      MoreWrites(s, t, q, s.fetched[i].at, 0);
      if t.world.rows != s.world.rows {
        if InScope(t.writes[j].op.row, q) && t.writes[j].op.accepted {
          assert Later(t.writes[j], q, s.fetched[i].at);
        } else {
          EffectElsewhere(s.world.rows, t.writes[j].op, q);
        }
      }
    }
  }

  lemma WriteKeeps(s: System, e: Event, q: Query)
    requires Ok(s, q) && IsQuery(q) && Enabled(s, e) && (e.WriteAll? || e.InvalidateFor?)
    ensures Ok(Next(s, e), q)
  {
    var t, n := Next(s, e), |s.writes|;
    StepWellFormed(s, e);
    FetchedAfterWrite(s, t, q, n);
    forall c | c in t.world.cache && c.key == Key(q) ensures EntryOk(t, q, c) {
      SurvivorOutOfScope(s, e.op.row, q, c);
      assert EntryOk(s, q, c);
      EffectElsewhere(s.world.rows, e.op, q);
      var (read, insert) := s.origin[Key(q)];
      MoreWrites(s, t, q, read, insert);
    }
  }

  lemma EffectKeeps(s: System, i: nat, q: Query)
    requires Ok(s, q) && IsQuery(q) && Enabled(s, TakeEffect(i))
    ensures Ok(Next(s, TakeEffect(i)), q)
  {
    var t, op := Next(s, TakeEffect(i)), s.writes[i].op;
    StepWellFormed(s, TakeEffect(i));
    FetchedAfterWrite(s, t, q, i);
    forall c | c in t.world.cache && c.key == Key(q) ensures EntryOk(t, q, c) {
      assert EntryOk(s, q, c);
      var (read, insert) := s.origin[Key(q)];
      MoreWrites(s, t, q, read, insert);
      if op.accepted && InScope(op.row, q) {
        assert Overlaps(t.writes[i], q, read, insert);
      } else {
        EffectElsewhere(s.world.rows, op, q);
      }
    }
  }

  lemma StepKeepsOk(s: System, e: Event, q: Query)
    requires Ok(s, q) && IsQuery(q) && ColonFree(q) && Enabled(s, e)
    ensures Ok(Next(s, e), q)
  {
    match e
    case Lookup(p, now) => LookupKeeps(s, p, now, q);
    case Read(p) => ReadKeeps(s, p, q);
    case Insert(i, now) => InsertKeeps(s, i, now, q);
    case TakeEffect(i) => EffectKeeps(s, i, q);
    case _ => WriteKeeps(s, e, q);
  }

  lemma {:induction false} RunKeepsOk(s: System, es: seq<Event>, t: System, q: Query)
    requires Ok(s, q) && IsQuery(q) && ColonFree(q) && Run(s, es, t)
    ensures Ok(t, q)
    decreases |es|
  {
    if es != [] {
      StepKeepsOk(s, es[0], q);
      RunKeepsOk(Next(s, es[0]), es[1..], t, q);
    }
  }

  /**
    In every interleaving, a hit on a colon-free query is wrong only if some accepted write in its scope overlaps with
    the entry: it invalidated before the entry was inserted and took effect after the entry was read. For anything but
    actors, whose writes do both at once, that means between the read and the insert.
   */
  lemma WrongOnlyIfOverlap(es: seq<Event>, t: System, q: Query, now: int)
    requires Run(INIT, es, t) && IsQuery(q) && ColonFree(q)
    ensures var hit := R.Get(t.world.cache, TTL_SECONDS, Key(q), now).1;
            hit.Some? && hit.value != Answer(t.world.rows, q) ==>
              && Key(q) in t.origin
              && var (read, insert) := t.origin[Key(q)];
                 exists i :: 0 <= i < |t.writes| && Overlaps(t.writes[i], q, read, insert)
                   && (!KindOf(q).Actor? ==> read < t.writes[i].effect.value == t.writes[i].at < insert)
  {
    RunKeepsOk(INIT, es, t, q);
    if R.Has(t.world.cache, Key(q)) {
      var e := R.Lookup(t.world.cache, Key(q));
      assert e in t.world.cache && EntryOk(t, q, e);
      var (read, insert) := t.origin[Key(q)];
      if SomeOverlap(t, q, read, insert) {
        var i :| 0 <= i < |t.writes| && Overlaps(t.writes[i], q, read, insert);
        assert Timed(t, t.writes[i]);
      }
    }
  }

  // ---- and each kind of overlap does mislead -----------------------------------------------------------------------

  ghost predicate Wrong(t: System, q: Query, now: int) {
    var hit := R.Get(t.world.cache, TTL_SECONDS, Key(q), now).1; hit.Some? && hit.value != Answer(t.world.rows, q)
  }

  ghost predicate Reachable(t: System) { exists es :: Run(INIT, es, t) }

  lemma {:induction false} RunSnoc(s: System, es: seq<Event>, m: System, e: Event)
    requires Run(s, es, m) && WellFormed(m) && Enabled(m, e)
    ensures Run(s, es + [e], Next(m, e))
    decreases |es|
  {
    if es == [] {
      assert Run(Next(m, e), [], Next(m, e));
      assert (es + [e])[1..] == [];
    } else {
      RunSnoc(Next(s, es[0]), es[1..], m, e);
      assert (es + [e])[1..] == es[1..] + [e];
    }
  }

  lemma Then(m: System, e: Event, t: System)
    requires Reachable(m) && WellFormed(m) && Enabled(m, e) && t == Next(m, e)
    ensures Reachable(t) && WellFormed(t)
  {
    var es :| Run(INIT, es, m);
    RunSnoc(INIT, es, m, e);
    StepWellFormed(m, e);
  }

  function NewRow(q: Query): Op { Register(RowFor(q), true) }

  /** The registry has the row and the cache still says that there is none. */
  lemma StaleIsWrong(t: System, q: Query)
    requires t.world == World(R.Insert([], CAPACITY, Key(q), [], 0), [RowFor(q)])
    ensures Wrong(t, q, 0)
  {
    InsertThenHit([], Key(q), [], 0);
    assert Select([RowFor(q)][1..], q) == [];
  }

  /** A query that finds nothing, up to its registry read. */
  lemma MissedAndRead(s: System, q: Query) returns (t: System)
    requires Reachable(s) && WellFormed(s) && IsQuery(q) && s.world == World([], []) && s.fetched == []
    ensures Reachable(t) && WellFormed(t) && t.world == World([], [])
    ensures t == s.(time := s.time + 2, fetched := [ReadCall(q, [], s.time + 1)])
  {
    var m := Next(s, Lookup(q, 0));
    assert m == s.(time := s.time + 1);
    Then(s, Lookup(q, 0), m);
    t := Next(m, Read(q));
    Then(m, Read(q), t);
  }

  /** For any query but one for actors: read, write, insert. */
  lemma WriteBetween(q: Query) returns (t: System)
    requires IsQuery(q) && !KindOf(q).Actor?
    ensures Reachable(t) && Wrong(t, q, 0) && |t.writes| == 1 && Key(q) in t.origin
    ensures t.origin[Key(q)].0 < t.writes[0].at < t.origin[Key(q)].1 && t.writes[0].effect == Some(t.writes[0].at)
  {
    assert Run(INIT, [], INIT);
    var s := MissedAndRead(INIT, q);
    var w := Next(s, WriteAll(NewRow(q)));
    Then(s, WriteAll(NewRow(q)), w);
    t := Next(w, Insert(0, 0));
    Then(w, Insert(0, 0), t);
    StaleIsWrong(t, q);
  }

  /** For actors: a whole query between the invalidation of a write and its effect. */
  lemma QueryInside(q: Query) returns (t: System)
    requires IsQuery(q) && KindOf(q).Actor?
    ensures Reachable(t) && Wrong(t, q, 0) && |t.writes| == 1 && Key(q) in t.origin && t.writes[0].effect.Some?
    ensures t.writes[0].at < t.origin[Key(q)].0 < t.origin[Key(q)].1 < t.writes[0].effect.value
  {
    assert Run(INIT, [], INIT);
    var s := Next(INIT, InvalidateFor(NewRow(q)));
    Then(INIT, InvalidateFor(NewRow(q)), s);
    var r := MissedAndRead(s, q);
    t := InsertThenEffect(r, q);
  }

  /** ... or the invalidation between read and insert, and the effect after both. */
  lemma EffectAfter(q: Query) returns (t: System)
    requires IsQuery(q) && KindOf(q).Actor?
    ensures Reachable(t) && Wrong(t, q, 0) && |t.writes| == 1 && Key(q) in t.origin && t.writes[0].effect.Some?
    ensures t.origin[Key(q)].0 < t.writes[0].at < t.origin[Key(q)].1 < t.writes[0].effect.value
  {
    assert Run(INIT, [], INIT);
    var s := MissedAndRead(INIT, q);
    var r := Next(s, InvalidateFor(NewRow(q)));
    Then(s, InvalidateFor(NewRow(q)), r);
    t := InsertThenEffect(r, q);
  }

  lemma InsertThenEffect(s: System, q: Query) returns (t: System)
    requires Reachable(s) && WellFormed(s) && s.world == World([], []) && |s.fetched| == 1 && s.fetched[0].q == q
    requires s.fetched[0].found == []
    requires |s.writes| == 1 && s.writes[0].op == NewRow(q) && s.writes[0].effect.None?
    ensures Reachable(t) && Wrong(t, q, 0) && |t.writes| == 1 && Key(q) in t.origin
    ensures t.origin[Key(q)] == (s.fetched[0].at, s.time) && t.writes[0].at == s.writes[0].at
    ensures t.writes[0].effect == Some(s.time + 1)
  {
    var m := Next(s, Insert(0, 0));
    Then(s, Insert(0, 0), m);
    t := Next(m, TakeEffect(0));
    Then(m, TakeEffect(0), t);
    StaleIsWrong(t, q);
  }
}
