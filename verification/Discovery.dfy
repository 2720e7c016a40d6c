/**
  The discovery helpers around the object registry: each write invalidates cached answers by a pattern on the key
  text, each query asks the cache before the registry. Is the cache ever visible?
 */
module Discovery {
  import opened Common
  import opened ActorIds
  import R = RecencyList
  import opened DiscoveryCaches

  const CAPACITY: nat := 1000
  const TTL_SECONDS := 60

  datatype ObjectKind = Node | Application | Workflow | Actor | Service

  /** A registration; `category` is the application name, workflow definition or actor type. */
  datatype Row = Row(kind: ObjectKind, tenant: string, namespace: string, id: string, category: string, address: string)

  datatype Query =
    | Nodes(tenant: string, namespace: string)
    | Named(kind: ObjectKind, category: string, tenant: string, namespace: string)

  predicate IsQuery(q: Query) { q.Named? ==> q.kind.Application? || q.kind.Workflow? || q.kind.Actor? }

  function KindOf(q: Query): ObjectKind { if q.Nodes? then Node else q.kind }

  function KindText(k: ObjectKind): string {
    match k
    case Node => "node"
    case Application => "application"
    case Workflow => "workflow"
    case Actor => "actor"
    case Service => "service_link"
  }

  function ScopeText(tenant: string, namespace: string): string { tenant + ":" + namespace }

  /** The cache key of each of the four `discover_*` helpers. */
  function Key(q: Query): string {
    match q
    case Nodes(t, ns) => KindText(Node) + ":" + ScopeText(t, ns)
    case Named(k, c, t, ns) => KindText(k) + ":" + (c + ":" + ScopeText(t, ns))
  }

  predicate HasPrefix(s: string, p: string) { |p| <= |s| && s[..|p|] == p }

  predicate HasSuffix(s: string, p: string) { |p| <= |s| && s[|s| - |p|..] == p }

  predicate HasInfix(s: string, p: string) { exists i :: 0 <= i <= |s| && OccursAt(s, p, i) }

  /**
    Which keys the register and unregister helpers for this kind drop; services are never queried through the cache.
   */
  predicate Invalidates(kind: ObjectKind, tenant: string, namespace: string, key: string) {
    match kind
    case Node => HasPrefix(key, KindText(Node) + ":" + ScopeText(tenant, namespace))
    case Service => HasPrefix(key, KindText(Service) + ":") && HasInfix(key, ScopeText(tenant, namespace))
    case _ => HasPrefix(key, KindText(kind) + ":") && HasSuffix(key, ":" + ScopeText(tenant, namespace))
  }

  // ---- the registry -------------------------------------------------------------------------------------

  predicate SameObject(a: Row, b: Row) {
    a.kind == b.kind && a.tenant == b.tenant && a.namespace == b.namespace && a.id == b.id
  }

  function Upsert(rows: seq<Row>, row: Row): seq<Row> {
    if rows == [] then [row]
    else if SameObject(rows[0], row) then [row] + rows[1..]
    else [rows[0]] + Upsert(rows[1..], row)
  }

  function Delete(rows: seq<Row>, row: Row): seq<Row> {
    if rows == [] then []
    else (if SameObject(rows[0], row) then [] else [rows[0]]) + Delete(rows[1..], row)
  }

  predicate Selects(q: Query, row: Row) {
    row.kind == KindOf(q) && row.tenant == q.tenant && row.namespace == q.namespace
      && (q.Named? ==> row.category == q.category)
  }

  function Select(rows: seq<Row>, q: Query): seq<Row> {
    if rows == [] then [] else (if Selects(q, rows[0]) then [rows[0]] else []) + Select(rows[1..], q)
  }

  function Limit(q: Query): nat { if KindOf(q).Actor? then 10000 else 1000 }

  /** What the registry answers when asked directly. */
  function Answer(rows: seq<Row>, q: Query): seq<Row> {
    var found := Select(rows, q);
    if |found| <= Limit(q) then found else found[..Limit(q)]
  }

  lemma {:induction false} UpsertElsewhere(rows: seq<Row>, row: Row, q: Query)
    requires !(row.kind == KindOf(q) && row.tenant == q.tenant && row.namespace == q.namespace)
    ensures Select(Upsert(rows, row), q) == Select(rows, q)
  {
    if rows != [] {
      if SameObject(rows[0], row) {
        assert ([row] + rows[1..])[1..] == rows[1..];
      } else {
        UpsertElsewhere(rows[1..], row, q);
        assert ([rows[0]] + Upsert(rows[1..], row))[1..] == Upsert(rows[1..], row);
      }
    }
  }

  lemma {:induction false} DeleteElsewhere(rows: seq<Row>, row: Row, q: Query)
    requires !(row.kind == KindOf(q) && row.tenant == q.tenant && row.namespace == q.namespace)
    ensures Select(Delete(rows, row), q) == Select(rows, q)
  {
    if rows != [] {
      DeleteElsewhere(rows[1..], row, q);
      if SameObject(rows[0], row) {
        assert Delete(rows, row) == Delete(rows[1..], row);
      } else {
        assert Delete(rows, row)[1..] == Delete(rows[1..], row);
      }
    }
  }

  // ---- keys -----------------------------------------------------------------------------------------------

  predicate NoColon(s: string) { ':' !in s }

  predicate ColonFree(q: Query) {
    NoColon(q.tenant) && NoColon(q.namespace) && (q.Named? ==> NoColon(q.category))
  }

  /** The text before the first colon, and the text after it, are determined by the whole. */
  lemma SplitUnique(a: string, b: string, c: string, d: string)
    requires NoColon(a) && NoColon(c) && a + ":" + b == c + ":" + d
    ensures a == c && b == d
  {
    var s := a + ":" + b;
    assert s[|a|] == ':' && s[|c|] == ':';
    assert forall i :: 0 <= i < |a| ==> s[i] == a[i];
    assert forall i :: 0 <= i < |c| ==> s[i] == c[i];
    assert |a| == |c|;
    assert a == s[..|a|] && c == s[..|c|];
    assert b == s[|a| + 1..] && d == s[|c| + 1..];
  }

  lemma KindTextPlain(k: ObjectKind)
    ensures NoColon(KindText(k))
  {
  }

  lemma KindTextUnique(a: ObjectKind, b: ObjectKind)
    requires KindText(a) == KindText(b)
    ensures a == b
  {
    assert KindText(a)[0] == KindText(b)[0] && |KindText(a)| == |KindText(b)|;
    assert KindText(Application)[1] == 'p' && KindText(Actor)[1] == 'c';
  }

  /** The part of a key behind its kind. */
  function AfterKind(q: Query): string {
    if q.Nodes? then ScopeText(q.tenant, q.namespace) else q.category + ":" + ScopeText(q.tenant, q.namespace)
  }

  /** Colon-free queries with the same key are the same query. */
  lemma KeyUnique(p: Query, q: Query)
    requires IsQuery(p) && IsQuery(q) && ColonFree(p) && ColonFree(q) && Key(p) == Key(q)
    ensures p == q
  {
    KindTextPlain(KindOf(p));
    KindTextPlain(KindOf(q));
    SplitUnique(KindText(KindOf(p)), AfterKind(p), KindText(KindOf(q)), AfterKind(q));
    KindTextUnique(KindOf(p), KindOf(q));
    if p.Named? {
      SplitUnique(p.category, ScopeText(p.tenant, p.namespace), q.category, ScopeText(q.tenant, q.namespace));
    }
    SplitUnique(p.tenant, p.namespace, q.tenant, q.namespace);
  }

  lemma CutAtColon(s: string) returns (a: string, b: string)
    requires !NoColon(s)
    ensures s == a + ":" + b && |a| < |s| && |b| < |s|
  {
    var i :| 0 <= i < |s| && s[i] == ':';
    a, b := s[..i], s[i + 1..];
  }

  /** Another query shares the key exactly when some part contains a colon. */
  lemma KeySharedIff(q: Query)
    requires IsQuery(q)
    ensures (exists p :: IsQuery(p) && p != q && Key(p) == Key(q)) <==> !ColonFree(q)
  {
    if !ColonFree(q) {
      var p := SharingQuery(q);
    } else {
      forall p | IsQuery(p) && Key(p) == Key(q) ensures p == q {
        SameKeyColonFree(p, q);
        KeyUnique(p, q);
      }
    }
  }

  lemma SharingQuery(q: Query) returns (p: Query)
    requires IsQuery(q) && !ColonFree(q)
    ensures IsQuery(p) && p != q && Key(p) == Key(q)
  {
    if !NoColon(q.tenant) && q.Nodes? {
      var a, b := CutAtColon(q.tenant);
      p := Nodes(a, b + ":" + q.namespace);
      assert ScopeText(p.tenant, p.namespace) == ScopeText(q.tenant, q.namespace);
    } else if q.Nodes? {
      var a, b := CutAtColon(q.namespace);
      p := Nodes(q.tenant + ":" + a, b);
      assert ScopeText(p.tenant, p.namespace) == ScopeText(q.tenant, q.namespace);
    } else if !NoColon(q.category) {
      var a, b := CutAtColon(q.category);
      p := Named(q.kind, a, b + ":" + q.tenant, q.namespace);
      assert p.category + ":" + ScopeText(p.tenant, p.namespace) == q.category + ":" + ScopeText(q.tenant, q.namespace);
    } else if !NoColon(q.tenant) {
      var a, b := CutAtColon(q.tenant);
      p := Named(q.kind, q.category + ":" + a, b, q.namespace);
      assert p.category + ":" + ScopeText(p.tenant, p.namespace) == q.category + ":" + ScopeText(q.tenant, q.namespace);
    } else {
      var a, b := CutAtColon(q.namespace);
      p := Named(q.kind, q.category, q.tenant + ":" + a, b);
      assert p.category + ":" + ScopeText(p.tenant, p.namespace) == q.category + ":" + ScopeText(q.tenant, q.namespace);
    }
  }

  function Colons(s: string): nat {
    if s == "" then 0 else (if s[0] == ':' then 1 else 0) + Colons(s[1..])
  }

  lemma {:induction false} ColonsConcat(s: string, t: string)
    ensures Colons(s + t) == Colons(s) + Colons(t)
  {
    if s == "" {
      assert s + t == t;
    } else {
      assert (s + t)[1..] == s[1..] + t;
      ColonsConcat(s[1..], t);
    }
  }

  lemma {:induction false} ColonsZero(s: string)
    ensures Colons(s) == 0 <==> NoColon(s)
  {
    if s != "" {
      assert s == [s[0]] + s[1..];
      ColonsZero(s[1..]);
    }
  }

  lemma KeyColons(q: Query)
    ensures Colons(Key(q)) ==
            Colons(q.tenant) + Colons(q.namespace) + 2 + if q.Named? then 1 + Colons(q.category) else 0
  {
    KindTextPlain(KindOf(q));
    ColonsZero(KindText(KindOf(q)));
    var scope := ScopeText(q.tenant, q.namespace);
    ColonsConcat(q.tenant + ":", q.namespace);
    ColonsConcat(q.tenant, ":");
    assert Colons(":") == 1;
    var rest := if q.Nodes? then scope else q.category + ":" + scope;
    if q.Named? {
      ColonsConcat(q.category + ":", scope);
      ColonsConcat(q.category, ":");
    }
    ColonsConcat(KindText(KindOf(q)) + ":", rest);
    ColonsConcat(KindText(KindOf(q)), ":");
  }

  /** The number of colons is fixed by the kind, so a query that shares a colon-free query's key is colon-free. */
  lemma SameKeyColonFree(p: Query, q: Query)
    requires IsQuery(p) && IsQuery(q) && Key(p) == Key(q) && ColonFree(q)
    ensures ColonFree(p)
  {
    KindTextPlain(KindOf(p));
    KindTextPlain(KindOf(q));
    SplitUnique(KindText(KindOf(p)), AfterKind(p), KindText(KindOf(q)), AfterKind(q));
    KindTextUnique(KindOf(p), KindOf(q));
    KeyColons(p);
    KeyColons(q);
    ColonsZero(p.tenant);
    ColonsZero(p.namespace);
    ColonsZero(q.tenant);
    ColonsZero(q.namespace);
    if p.Named? {
      ColonsZero(p.category);
      ColonsZero(q.category);
    }
  }

  /** Every key a write can affect matches its invalidation pattern, colons or not. */
  lemma InvalidatesAffected(row: Row, q: Query)
    requires IsQuery(q) && row.kind == KindOf(q) && row.tenant == q.tenant && row.namespace == q.namespace
    ensures Invalidates(row.kind, row.tenant, row.namespace, Key(q))
  {
    var key, scope := Key(q), ScopeText(q.tenant, q.namespace);
    if q.Named? {
      assert key == (KindText(q.kind) + ":") + (q.category + ":" + scope);
      assert key == (KindText(q.kind) + ":" + q.category) + (":" + scope);
      assert key[..|KindText(q.kind) + ":"|] == KindText(q.kind) + ":";
      assert key[|key| - |":" + scope|..] == ":" + scope;
    }
  }

  // ---- serial runs --------------------------------------------------------------------------------------

  type Cache = seq<R.Entry<string, seq<Row>>>

  datatype World = World(cache: Cache, rows: seq<Row>)

  /** A helper call; `accepted` is the registry's verdict on a write, which the helpers pass through. */
  datatype Op =
    | Discover(q: Query, now: int)
    | Register(row: Row, accepted: bool)
    | Unregister(row: Row, accepted: bool)

  predicate IsOp(op: Op) { op.Discover? ==> IsQuery(op.q) }

  ghost function Invalidate(cache: Cache, row: Row): Cache {
    R.DropAll(cache, k => Invalidates(row.kind, row.tenant, row.namespace, k))
  }

  ghost function Apply(w: World, op: Op): (r: (World, Option<seq<Row>>)) {
    match op
    case Discover(q, now) =>
      var (cache, hit) := R.Get(w.cache, TTL_SECONDS, Key(q), now);
      if hit.Some? then (w.(cache := cache), hit)
      else
        var found := Answer(w.rows, q);
        (w.(cache := R.Insert(cache, CAPACITY, Key(q), found, now)), Some(found))
    case Register(row, accepted) =>
      (World(Invalidate(w.cache, row), if accepted then Upsert(w.rows, row) else w.rows), None)
    case Unregister(row, accepted) =>
      (World(Invalidate(w.cache, row), if accepted then Delete(w.rows, row) else w.rows), None)
  }

  /** What is cached under the key of `q` is what the registry would answer to `q` now. */
  ghost predicate Fresh(w: World, q: Query) {
    forall e :: e in w.cache && e.key == Key(q) ==> e.value == Answer(w.rows, q)
  }

  /** Asking `q` from there, hit or miss, answers as the registry would. */
  lemma DiscoverTransparent(w: World, q: Query, now: int)
    requires Fresh(w, q)
    ensures Fresh(Apply(w, Discover(q, now)).0, q)
    ensures Apply(w, Discover(q, now)).1 == Some(Answer(w.rows, q))
  {
    var cache := R.Get(w.cache, TTL_SECONDS, Key(q), now).0;
    if R.Has(w.cache, Key(q)) { assert R.Lookup(w.cache, Key(q)) in w.cache; }
    forall e | e in Apply(w, Discover(q, now)).0.cache && e.key == Key(q) ensures e.value == Answer(w.rows, q) {
      if e in cache {
        R.GetEntries(w.cache, TTL_SECONDS, Key(q), now, e);
      } else {
        R.InsertEntries(cache, CAPACITY, Key(q), Answer(w.rows, q), now, e);
      }
    }
  }

  /** Asking anything else, colons or not, leaves the key of a colon-free query alone. */
  lemma OtherDiscoverKeepsFresh(w: World, p: Query, q: Query, now: int)
    requires Fresh(w, q) && IsQuery(p) && IsQuery(q) && ColonFree(q) && p != q
    ensures Fresh(Apply(w, Discover(p, now)).0, q)
  {
    assert Key(p) != Key(q) by {
      if Key(p) == Key(q) {
        SameKeyColonFree(p, q);
        KeyUnique(p, q);
      }
    }
    var cache := R.Get(w.cache, TTL_SECONDS, Key(p), now).0;
    forall e | e in Apply(w, Discover(p, now)).0.cache && e.key == Key(q) ensures e.value == Answer(w.rows, q) {
      if e !in cache { R.InsertEntries(cache, CAPACITY, Key(p), Answer(w.rows, p), now, e); }
      R.GetEntries(w.cache, TTL_SECONDS, Key(p), now, e);
    }
  }

  predicate InScope(row: Row, q: Query) {
    row.kind == KindOf(q) && row.tenant == q.tenant && row.namespace == q.namespace
  }

  lemma InvalidateEntries(cache: Cache, row: Row, e: R.Entry<string, seq<Row>>)
    ensures e in Invalidate(cache, row) <==> e in cache && !Invalidates(row.kind, row.tenant, row.namespace, e.key)
  {
    R.DropAllMember(cache, k => Invalidates(row.kind, row.tenant, row.namespace, k), e);
  }

  /** A write, accepted or refused, leaves under the key of any query only what it did not affect. */
  lemma WriteKeepsFresh(w: World, op: Op, q: Query)
    requires Fresh(w, q) && IsQuery(q) && !op.Discover?
    ensures Fresh(Apply(w, op).0, q)
  {
    forall e | e in Invalidate(w.cache, op.row) && e.key == Key(q) ensures e.value == Answer(Apply(w, op).0.rows, q) {
      InvalidateEntries(w.cache, op.row, e);
      assert !InScope(op.row, q) by {
        if InScope(op.row, q) { InvalidatesAffected(op.row, q); }
      }
      UpsertElsewhere(w.rows, op.row, q);
      DeleteElsewhere(w.rows, op.row, q);
    }
  }

  ghost function Run(ops: seq<Op>): World {
    if ops == [] then World([], []) else Apply(Run(ops[..|ops| - 1]), ops[|ops| - 1]).0
  }

  ghost predicate IsRun(ops: seq<Op>) { forall i :: 0 <= i < |ops| ==> IsOp(ops[i]) }

  lemma {:induction false} RunKeepsFresh(ops: seq<Op>, q: Query)
    requires IsRun(ops) && IsQuery(q) && ColonFree(q)
    ensures Fresh(Run(ops), q)
  {
    if ops != [] {
      var n := |ops| - 1;
      RunKeepsFresh(ops[..n], q);
      match ops[n]
      case Discover(p, now) =>
        if p == q {
          DiscoverTransparent(Run(ops[..n]), q, now);
        } else {
          OtherDiscoverKeepsFresh(Run(ops[..n]), p, q, now);
        }
      case _ => WriteKeepsFresh(Run(ops[..n]), ops[n], q);
    }
  }

  /**
    Transparency. After any serial run of helper calls, whatever else was asked, a query without a colon in its parts
    answers exactly what the registry would answer if asked directly, hit or miss, at any time.
   */
  lemma CacheIsInvisible(ops: seq<Op>, q: Query, now: int)
    requires IsRun(ops) && IsQuery(q) && ColonFree(q)
    ensures Apply(Run(ops), Discover(q, now)).1 == Some(Answer(Run(ops).rows, q))
  {
    RunKeepsFresh(ops, q);
    DiscoverTransparent(Run(ops), q, now);
  }

  /** No serial run shows a difference between asking the cache and asking the registry. */
  ghost predicate Transparent(q: Query) {
    forall ops, now :: IsRun(ops) ==> Apply(Run(ops), Discover(q, now)).1 == Some(Answer(Run(ops).rows, q))
  }

  /** The exact condition: the cache is invisible to a query iff no part of that query contains a colon. */
  lemma TransparentIff(q: Query)
    requires IsQuery(q)
    ensures Transparent(q) <==> ColonFree(q)
  {
    if ColonFree(q) {
      forall ops, now | IsRun(ops) ensures Apply(Run(ops), Discover(q, now)).1 == Some(Answer(Run(ops).rows, q)) {
        CacheIsInvisible(ops, q, now);
      }
    } else {
      var p := SharingQuery(q);
      SharedKeyLeaks(p, q, 0);
    }
  }

  // ---- why the conditions are needed ----------------------------------------------------------------------

  lemma InsertThenHit(cache: Cache, key: string, found: seq<Row>, now: int)
    ensures R.Get(R.Insert(cache, CAPACITY, key, found, now), TTL_SECONDS, key, now).1 == Some(found)
  {
    var l := R.Insert(cache, CAPACITY, key, found, now);
    assert l[|l| - 1] == R.Entry(key, found, now);
    R.DropLacks(cache, key);
    assert forall i :: 0 <= i < |l| - 1 ==> l[i].key != key;
  }

  /** A row that exactly this query selects. */
  function RowFor(q: Query): Row {
    Row(KindOf(q), q.tenant, q.namespace, "", if q.Named? then q.category else "", "")
  }

  lemma OnlyItsRow(p: Query, q: Query)
    requires IsQuery(p) && IsQuery(q) && p != q
    ensures Selects(p, RowFor(p)) && !Selects(q, RowFor(p))
    ensures Answer([RowFor(p)], p) == [RowFor(p)] && Answer([RowFor(p)], q) == []
  {
    assert Select([RowFor(p)][1..], p) == [] && Select([RowFor(p)][1..], q) == [];
  }

  ghost function LeakingRun(p: Query, now: int): seq<Op> { [Register(RowFor(p), true), Discover(p, now)] }

  lemma AfterLeakingRun(p: Query, now: int)
    ensures var w := Run(LeakingRun(p, now));
            w.rows == [RowFor(p)] && w.cache == R.Insert([], CAPACITY, Key(p), Answer([RowFor(p)], p), now)
  {
    var ops := LeakingRun(p, now);
    assert ops[..1] == [Register(RowFor(p), true)] && ops[..1][..0] == [];
    assert Run(ops[..1]) == World([], [RowFor(p)]);
  }

  /** A query that shares another's key is given the other's answer, and that answer is wrong. */
  lemma SharedKeyLeaks(p: Query, q: Query, now: int)
    requires IsQuery(p) && IsQuery(q) && Key(p) == Key(q) && p != q
    ensures IsRun(LeakingRun(p, now))
    ensures var w := Run(LeakingRun(p, now));
            && Apply(w, Discover(q, now)).1 == Some(Answer(w.rows, p)) && Answer(w.rows, p) != Answer(w.rows, q)
  {
    AfterLeakingRun(p, now);
    OnlyItsRow(p, q);
    InsertThenHit([], Key(p), [RowFor(p)], now);
  }

  /** The state after a write that came between a query's registry read and its insert. */
  ghost function Raced(w: World, q: Query, write: Op, now: int): World {
    var w' := Apply(w, write).0;
    w'.(cache := R.Insert(w'.cache, CAPACITY, Key(q), Answer(w.rows, q), now))
  }

  /**
    Serial matters. After such a race the next query gets the answer from before the write, so it is wrong exactly
    when the write changed the answer; only an accepted write in the query's own scope can.
   */
  lemma RacingWriteLeavesStale(w: World, q: Query, write: Op, now: int)
    requires !write.Discover?
    ensures var raced := Raced(w, q, write, now);
            && Apply(raced, Discover(q, now)).1 == Some(Answer(w.rows, q))
            && (Apply(raced, Discover(q, now)).1 != Some(Answer(raced.rows, q)) ==>
              write.accepted && InScope(write.row, q))
  {
    InsertThenHit(Apply(w, write).0.cache, Key(q), Answer(w.rows, q), now);
    if !InScope(write.row, q) {
      UpsertElsewhere(w.rows, write.row, q);
      DeleteElsewhere(w.rows, write.row, q);
    }
  }

  lemma {:induction false} UpsertNew(rows: seq<Row>, row: Row, q: Query)
    requires Selects(q, row) && Select(rows, q) == []
    ensures Select(Upsert(rows, row), q) == [row]
  {
    if rows == [] {
      assert Select([row][1..], q) == [];
    } else if SameObject(rows[0], row) {
      assert ([row] + rows[1..])[1..] == rows[1..];
    } else {
      UpsertNew(rows[1..], row, q);
      assert ([rows[0]] + Upsert(rows[1..], row))[1..] == Upsert(rows[1..], row);
    }
  }

  lemma {:induction false} DeleteGone(rows: seq<Row>, row: Row, q: Query)
    ensures row !in Select(Delete(rows, row), q)
  {
    if rows != [] {
      DeleteGone(rows[1..], row, q);
      if SameObject(rows[0], row) {
        assert Delete(rows, row) == Delete(rows[1..], row);
      } else {
        assert Delete(rows, row)[1..] == Delete(rows[1..], row);
      }
    }
  }

  /** And from every state some write does, for every query: a first row, or the removal of the first one found. */
  lemma SomeRaceMisleads(w: World, q: Query, now: int) returns (write: Op)
    requires IsQuery(q)
    ensures !write.Discover?
    ensures var raced := Raced(w, q, write, now); Apply(raced, Discover(q, now)).1 != Some(Answer(raced.rows, q))
  {
    var found := Select(w.rows, q);
    if found == [] {
      write := Register(RowFor(q), true);
      UpsertNew(w.rows, RowFor(q), q);
    } else {
      write := Unregister(found[0], true);
      DeleteGone(w.rows, found[0], q);
      assert Answer(w.rows, q)[0] == found[0];
      assert found[0] !in Answer(Delete(w.rows, found[0]), q);
    }
    RacingWriteLeavesStale(w, q, write, now);
  }

  // ---- the helpers ------------------------------------------------------------------------------------------

  /** The shared cache and the registry it fronts. */
  class Helpers {
    const cache: DiscoveryCache<string, seq<Row>>
    var rows: seq<Row>

    ghost predicate Valid()
      reads this, cache
    {
      cache.Valid() && cache.capacity == CAPACITY && cache.ttl == TTL_SECONDS
    }

    ghost function State(): World
      reads this, cache
      requires Valid()
    {
      World(cache.Contents(), rows)
    }

    constructor ()
      ensures Valid() && State() == Run([]) && fresh(cache)
    {
      cache := new DiscoveryCache(CAPACITY, TTL_SECONDS);
      rows := [];
    }

    /** `discover_nodes`, `discover_application_nodes`, `discover_workflow_nodes`, `discover_actors_by_type`. */
    method Discover(q: Query, now: int) returns (found: seq<Row>)
      requires Valid()
      modifies cache
      ensures Valid() && (State(), Some(found)) == Apply(old(State()), Op.Discover(q, now))
    {
      var hit := cache.Get(Key(q), now);
      if hit.Some? {
        return hit.value;
      }
      found := Answer(rows, q);
      cache.Insert(Key(q), found, now);
    }

    /**
      `register_node`, `register_application`, `register_workflow`, `register_actor`,
      `register_outbound_service_link`.
     */
    method Register(row: Row, accepted: bool)
      requires Valid()
      modifies this`rows, cache
      ensures Valid() && State() == Apply(old(State()), Op.Register(row, accepted)).0
    {
      var dropped := cache.RemoveMatching(k => Invalidates(row.kind, row.tenant, row.namespace, k));
      if accepted {
        rows := Upsert(rows, row);
      }
    }

    /** `unregister_application`, `unregister_actor`. */
    method Unregister(row: Row, accepted: bool)
      requires Valid()
      modifies this`rows, cache
      ensures Valid() && State() == Apply(old(State()), Op.Unregister(row, accepted)).0
    {
      var dropped := cache.RemoveMatching(k => Invalidates(row.kind, row.tenant, row.namespace, k));
      if accepted {
        rows := Delete(rows, row);
      }
    }
  }
}
