/**
  What the discovery helpers answer, read off the calls made so far: the registrations still standing, by kind, scope
  and category, up to the number each helper asks for. And which cached answers a write throws away.
 */
module DiscoveryAnswers {
  import opened Common
  import R = RecencyList
  import opened Discovery

  // ---- the history --------------------------------------------------------------------------------------

  /** An accepted write of the object this row registers. */
  predicate Rewrites(op: Op, row: Row) {
    !op.Discover? && op.accepted
      && op.row.kind == row.kind && op.row.tenant == row.tenant && op.row.namespace == row.namespace
      && op.row.id == row.id
  }

  /** At `i` the row was registered, and no accepted write of its object came later. */
  ghost predicate LastWrite(ops: seq<Op>, row: Row, i: int) {
    0 <= i < |ops| && ops[i] == Op.Register(row, true) && forall j :: i < j < |ops| ==> !Rewrites(ops[j], row)
  }

  /** The last accepted write of this object registered exactly this row. */
  ghost predicate Registered(ops: seq<Op>, row: Row) { exists i :: LastWrite(ops, row, i) }

  /** The row is what the query is about. */
  predicate Wanted(q: Query, row: Row) {
    match q
    case Nodes(t, ns) => row.kind.Node? && row.tenant == t && row.namespace == ns
    case Named(k, c, t, ns) => row.kind == k && row.category == c && row.tenant == t && row.namespace == ns
  }

  function Most(q: Query): nat { if q.Named? && q.kind.Actor? then 10000 else 1000 }

  lemma RegisteredOne(ops: seq<Op>, op: Op, row: Row)
    ensures Registered(ops + [op], row) <==>
            op == Op.Register(row, true) || (Registered(ops, row) && !Rewrites(op, row))
  {
    var all := ops + [op];
    assert all[|ops|] == op && forall j :: 0 <= j < |ops| ==> all[j] == ops[j];
    if op == Op.Register(row, true) {
      assert LastWrite(all, row, |ops|);
    }
    if Registered(ops, row) && !Rewrites(op, row) {
      var i :| LastWrite(ops, row, i);
      assert LastWrite(all, row, i);
    }
    if Registered(all, row) && op != Op.Register(row, true) {
      var i :| LastWrite(all, row, i);
      assert LastWrite(ops, row, i);
    }
  }

  // ---- the registry's rows ------------------------------------------------------------------------------

  /** No object is registered twice. */
  ghost predicate OneEach(rows: seq<Row>) {
    forall i, j :: 0 <= i < j < |rows| ==> !SameObject(rows[i], rows[j])
  }

  lemma {:induction false} UpsertMember(rows: seq<Row>, row: Row, r: Row)
    requires OneEach(rows)
    ensures r in Upsert(rows, row) <==> r == row || (r in rows && !SameObject(r, row))
  {
    if rows != [] {
      assert rows == [rows[0]] + rows[1..];
      UpsertMember(rows[1..], row, r);
    }
  }

  lemma {:induction false} DeleteMember(rows: seq<Row>, row: Row, r: Row)
    ensures r in Delete(rows, row) <==> r in rows && !SameObject(r, row)
  {
    if rows != [] {
      assert rows == [rows[0]] + rows[1..];
      DeleteMember(rows[1..], row, r);
    }
  }

  lemma {:induction false} SelectMember(rows: seq<Row>, q: Query, r: Row)
    ensures r in Select(rows, q) <==> r in rows && Selects(q, r)
  {
    if rows != [] {
      assert rows == [rows[0]] + rows[1..];
      SelectMember(rows[1..], q, r);
    }
  }

  lemma OneEachCons(row: Row, rows: seq<Row>)
    requires OneEach(rows) && forall r :: r in rows ==> !SameObject(row, r)
    ensures OneEach([row] + rows)
  {
  }

  lemma {:induction false} UpsertOneEach(rows: seq<Row>, row: Row)
    requires OneEach(rows)
    ensures OneEach(Upsert(rows, row))
  {
    if rows != [] && !SameObject(rows[0], row) {
      UpsertOneEach(rows[1..], row);
      forall r | r in Upsert(rows[1..], row) ensures !SameObject(rows[0], r) { UpsertMember(rows[1..], row, r); }
      OneEachCons(rows[0], Upsert(rows[1..], row));
    }
  }

  lemma {:induction false} DeleteOneEach(rows: seq<Row>, row: Row)
    requires OneEach(rows)
    ensures OneEach(Delete(rows, row))
  {
    if rows != [] {
      DeleteOneEach(rows[1..], row);
      forall r | r in Delete(rows[1..], row) ensures !SameObject(rows[0], r) { DeleteMember(rows[1..], row, r); }
      OneEachCons(rows[0], Delete(rows[1..], row));
    }
  }

  lemma {:induction false} SelectOneEach(rows: seq<Row>, q: Query)
    requires OneEach(rows)
    ensures OneEach(Select(rows, q))
  {
    if rows != [] {
      SelectOneEach(rows[1..], q);
      forall r | r in Select(rows[1..], q) ensures !SameObject(rows[0], r) { SelectMember(rows[1..], q, r); }
      OneEachCons(rows[0], Select(rows[1..], q));
    }
  }

  /** The registry holds exactly the registrations still standing, each once. */
  lemma {:induction false} RowsAreHistory(ops: seq<Op>, row: Row)
    ensures OneEach(Run(ops).rows)
    ensures row in Run(ops).rows <==> Registered(ops, row)
  {
    if ops != [] {
      var before, op := ops[..|ops| - 1], ops[|ops| - 1];
      assert ops == before + [op];
      RowsAreHistory(before, row);
      RegisteredOne(before, op, row);
      var rows := Run(before).rows;
      if op.Register? && op.accepted {
        UpsertMember(rows, op.row, row);
        UpsertOneEach(rows, op.row);
      } else if op.Unregister? && op.accepted {
        DeleteMember(rows, op.row, row);
        DeleteOneEach(rows, op.row);
      }
    }
  }

  // ---- the answer ---------------------------------------------------------------------------------------

  lemma {:induction false} CountOneEach(rows: seq<Row>)
    requires OneEach(rows)
    ensures |set r | r in rows| == |rows|
  {
    if rows != [] {
      var rest := rows[1..];
      CountOneEach(rest);
      assert rows[0] !in rest;
      assert (set r | r in rows) == {rows[0]} + (set r | r in rest);
    }
  }

  lemma SelectsIff(q: Query, row: Row)
    ensures Selects(q, row) <==> Wanted(q, row)
  {
  }

  /** The registry's answer: all the standing registrations the query is about, or as many as may be asked for. */
  lemma DirectAnswer(ops: seq<Op>, q: Query) returns (all: set<Row>)
    ensures forall row :: row in all <==> Registered(ops, row) && Wanted(q, row)
    ensures var found := Answer(Run(ops).rows, q);
            && (forall row :: row in found ==> row in all)
            && OneEach(found)
            && |found| == (if |all| <= Most(q) then |all| else Most(q))
            && (|all| <= Most(q) ==> forall row :: row in all ==> row in found)
  {
    var rows := Run(ops).rows;
    var picked := Select(rows, q);
    all := set r | r in picked;
    forall row ensures row in all <==> Registered(ops, row) && Wanted(q, row) {
      RowsAreHistory(ops, row);
      SelectMember(rows, q, row);
      SelectsIff(q, row);
    }
    RowsAreHistory(ops, RowFor(q));
    SelectOneEach(rows, q);
    CountOneEach(picked);
  }

  /**
    The whole helper, cache included. After any serial run of helper calls a colon-free query is answered with
    registrations whose last accepted write in that run registered exactly that row, none twice: every one of the
    query's kind, scope and category if they are at most 1000 (10000 for actors), otherwise that many of them.
   */
  lemma AnswerIsHistory(ops: seq<Op>, q: Query, now: int) returns (all: set<Row>)
    requires IsRun(ops) && IsQuery(q) && ColonFree(q)
    ensures forall row :: row in all <==> Registered(ops, row) && Wanted(q, row)
    ensures var answer := Apply(Run(ops), Op.Discover(q, now)).1;
            && answer.Some?
            && (forall row :: row in answer.value ==> row in all)
            && OneEach(answer.value)
            && |answer.value| == (if |all| <= Most(q) then |all| else Most(q))
            && (|all| <= Most(q) ==> forall row :: row in all ==> row in answer.value)
  {
    all := DirectAnswer(ops, q);
    CacheIsInvisible(ops, q, now);
  }

  // ---- what a write throws away -------------------------------------------------------------------------

  /** The text behind the last colon, and the text before it, are determined by the whole. */
  lemma SplitUniqueBack(a: string, b: string, c: string, d: string)
    requires NoColon(b) && NoColon(d) && a + ":" + b == c + ":" + d
    ensures a == c && b == d
  {
    var s := a + ":" + b;
    assert s[|a|] == ':' && s[|c|] == ':';
    assert forall i :: |a| < i < |s| ==> s[i] == b[i - |a| - 1];
    assert forall i :: |c| < i < |s| ==> s[i] == d[i - |c| - 1];
    assert |a| == |c|;
    assert a == s[..|a|] && c == s[..|c|];
    assert b == s[|a| + 1..] && d == s[|c| + 1..];
  }

  /** Up to the first colon, a text is all or nothing of what it starts with. */
  lemma HeadIff(a: string, rest: string, c: string)
    requires NoColon(a) && NoColon(c)
    ensures HasPrefix(a + ":" + rest, c + ":") <==> a == c
  {
    var s, head := a + ":" + rest, c + ":";
    if HasPrefix(s, head) {
      assert s == head + s[|head|..];
      SplitUnique(a, rest, c, s[|head|..]);
    }
    if a == c {
      assert s[..|head|] == head;
    }
  }

  /** The kind in front of a key is the query's kind. */
  lemma KeyKind(q: Query, k: ObjectKind)
    ensures HasPrefix(Key(q), KindText(k) + ":") <==> k == KindOf(q)
  {
    KindTextPlain(k);
    KindTextPlain(KindOf(q));
    KeyParts(q);
    HeadIff(KindText(KindOf(q)), AfterKind(q), KindText(k));
    if KindText(k) == KindText(KindOf(q)) { KindTextUnique(k, KindOf(q)); }
  }

  lemma KeyParts(q: Query)
    ensures Key(q) == KindText(KindOf(q)) + ":" + AfterKind(q)
  {
  }

  lemma KeyScope(q: Query, tenant: string, namespace: string)
    requires q.Named? && ColonFree(q) && NoColon(tenant) && NoColon(namespace)
    ensures HasSuffix(Key(q), ":" + ScopeText(tenant, namespace)) <==> q.tenant == tenant && q.namespace == namespace
  {
    var front := KindText(q.kind) + ":" + q.category;
    assert Key(q) == front + (":" + ScopeText(q.tenant, q.namespace));
    ScopeBehind(front, q.tenant, q.namespace, tenant, namespace);
  }

  lemma ScopeBehind(front: string, t: string, ns: string, tenant: string, namespace: string)
    requires NoColon(t) && NoColon(ns) && NoColon(tenant) && NoColon(namespace)
    ensures HasSuffix(front + (":" + ScopeText(t, ns)), ":" + ScopeText(tenant, namespace)) <==>
            t == tenant && ns == namespace
  {
    var key, tail := front + (":" + ScopeText(t, ns)), ":" + ScopeText(tenant, namespace);
    if HasSuffix(key, tail) {
      var rest := key[..|key| - |tail|];
      assert key == rest + tail;
      Regroup(front, t, ns);
      Regroup(rest, tenant, namespace);
      SplitUniqueBack(front + ":" + t, ns, rest + ":" + tenant, namespace);
      SplitUniqueBack(front, t, rest, tenant);
    }
  }

  lemma Regroup(front: string, t: string, ns: string)
    ensures front + (":" + ScopeText(t, ns)) == (front + ":" + t) + ":" + ns
  {
  }

  lemma NodeKeyScope(q: Query, tenant: string, namespace: string)
    requires q.Nodes? && ColonFree(q) && NoColon(tenant) && NoColon(namespace)
    ensures HasPrefix(ScopeText(q.tenant, q.namespace), ScopeText(tenant, namespace)) <==>
            q.tenant == tenant && HasPrefix(q.namespace, namespace)
  {
    var scope, head := ScopeText(q.tenant, q.namespace), ScopeText(tenant, namespace);
    if HasPrefix(scope, head) {
      var rest := scope[|head|..];
      assert scope == tenant + ":" + (namespace + rest);
      SplitUnique(q.tenant, q.namespace, tenant, namespace + rest);
      assert q.namespace[..|namespace|] == namespace;
    }
    if q.tenant == tenant && HasPrefix(q.namespace, namespace) {
      assert q.namespace == namespace + q.namespace[|namespace|..];
      assert scope == head + q.namespace[|namespace|..];
    }
  }

  lemma PrefixBehind(head: string, s: string, p: string)
    ensures HasPrefix(head + s, head + p) <==> HasPrefix(s, p)
  {
    var t, u := head + s, head + p;
    if HasPrefix(s, p) {
      assert t[..|u|] == head + s[..|p|];
    }
    if HasPrefix(t, u) {
      assert s[..|p|] == t[|head|..|u|];
      assert p == u[|head|..];
    }
  }

  /**
    What exactly a write drops, without colons: applications, workflows and actors lose the answers of their own kind,
    tenant and namespace and nothing else; a node also drops the answers of namespaces that continue its own; a
    service link drops nothing.
   */
  lemma InvalidatesIff(kind: ObjectKind, tenant: string, namespace: string, q: Query)
    requires IsQuery(q) && ColonFree(q) && NoColon(tenant) && NoColon(namespace)
    ensures Invalidates(kind, tenant, namespace, Key(q)) <==>
            && kind == KindOf(q) && q.tenant == tenant
            && (if kind.Node? then HasPrefix(q.namespace, namespace) else q.namespace == namespace)
  {
    KeyKind(q, kind);
    if q.Named? {
      KeyScope(q, tenant, namespace);
      if kind.Node? {
        var head := KindText(Node) + ":";
        PrefixOfPrefix(Key(q), head, ScopeText(tenant, namespace));
      }
    } else if kind.Node? {
      NodeKeyScope(q, tenant, namespace);
      PrefixBehind(KindText(Node) + ":", ScopeText(q.tenant, q.namespace), ScopeText(tenant, namespace));
    }
  }

  /** A write, accepted or refused, drops the answers of exactly those queries and leaves every other as it is. */
  lemma WriteDropsExactly(w: World, op: Op, q: Query)
    requires !op.Discover? && NoColon(op.row.tenant) && NoColon(op.row.namespace) && IsQuery(q) && ColonFree(q)
    ensures var dropped := op.row.kind == KindOf(q) && q.tenant == op.row.tenant
              && (if op.row.kind.Node? then HasPrefix(q.namespace, op.row.namespace)
                  else q.namespace == op.row.namespace);
            forall e: R.Entry<string, seq<Row>> :: e.key == Key(q) ==>
              (e in Apply(w, op).0.cache <==> e in w.cache && !dropped)
  {
    InvalidatesIff(op.row.kind, op.row.tenant, op.row.namespace, q);
    forall e: R.Entry<string, seq<Row>> { InvalidateEntries(w.cache, op.row, e); }
  }

  lemma PrefixOfPrefix(s: string, p: string, rest: string)
    ensures HasPrefix(s, p + rest) ==> HasPrefix(s, p)
  {
    if HasPrefix(s, p + rest) {
      assert s[..|p|] == (p + rest)[..|p|];
    }
  }

  // ---- the cache's own limits ---------------------------------------------------------------------------

  /**
    A query that lost the race with a write serves the old answer for one minute and no longer: asked again at `later`,
    the helper answers from the cache while less than 60 seconds have gone by, and from the registry after that.
   */
  lemma StaleForAMinute(w: World, q: Query, write: Op, now: int, later: int)
    requires !write.Discover?
    ensures var raced := Raced(w, q, write, now);
            Apply(raced, Op.Discover(q, later)).1 ==
            Some(if later - now < 60 then Answer(w.rows, q) else Answer(raced.rows, q))
  {
    var l := R.Insert(Apply(w, write).0.cache, CAPACITY, Key(q), Answer(w.rows, q), now);
    assert l[|l| - 1] == R.Entry(Key(q), Answer(w.rows, q), now);
    R.DropLacks(Apply(w, write).0.cache, Key(q));
    assert forall i :: 0 <= i < |l| - 1 ==> l[i].key != Key(q);
  }

  /** The helpers keep the cache as its operations do, so its order of touches and its size hold after every run. */
  lemma {:induction false} CacheIsTidy(ops: seq<Op>) returns (touched: seq<string>)
    ensures R.Tidy(R.Trail(Run(ops).cache, touched), CAPACITY)
  {
    touched := [];
    if ops != [] {
      var n := |ops| - 1;
      touched := CacheIsTidy(ops[..n]);
      touched := OneMoreCall(Run(ops[..n]), ops[n], touched);
    }
  }

  lemma OneMoreCall(w: World, op: Op, touched: seq<string>) returns (after: seq<string>)
    requires R.Tidy(R.Trail(w.cache, touched), CAPACITY)
    ensures R.Tidy(R.Trail(Apply(w, op).0.cache, after), CAPACITY)
  {
    var s := R.Trail(w.cache, touched);
    if op.Discover? {
      var got := R.GetOp(Key(op.q), op.now);
      R.StepTidy(s, CAPACITY, TTL_SECONDS, got);
      var t := R.Apply(s, CAPACITY, TTL_SECONDS, got);
      after := t.touched;
      if R.Get(w.cache, TTL_SECONDS, Key(op.q), op.now).1.None? {
        var put := R.InsertOp(Key(op.q), Answer(w.rows, op.q), op.now);
        R.StepTidy(t, CAPACITY, TTL_SECONDS, put);
        after := R.Apply(t, CAPACITY, TTL_SECONDS, put).touched;
      }
    } else {
      var drop := R.RemoveMatchingOp(k => Invalidates(op.row.kind, op.row.tenant, op.row.namespace, k));
      R.StepTidy(s, CAPACITY, TTL_SECONDS, drop);
      after := touched;
    }
  }

  /** At most 1000 answers are kept, and a query throws out another's answer only if there are that many. */
  lemma CacheIsBounded(ops: seq<Op>, q: Query, now: int)
    ensures |Run(ops).cache| <= 1000
    ensures |Run(ops).cache| < 1000 ==>
              forall e :: e in Run(ops).cache && e.key != Key(q) ==> e in Apply(Run(ops), Op.Discover(q, now)).0.cache
  {
    var touched := CacheIsTidy(ops);
    var cache := Run(ops).cache;
    var got := R.Get(cache, TTL_SECONDS, Key(q), now).0;
    R.GetExactly(cache, TTL_SECONDS, Key(q), now);
    var step := R.GetOp(Key(q), now);
    R.StepTidy(R.Trail(cache, touched), CAPACITY, TTL_SECONDS, step);
    R.InsertExactly(got, CAPACITY, Key(q), Answer(Run(ops).rows, q), now);
    GetShrinks(cache, Key(q), now);
  }

  lemma GetShrinks(cache: Cache, key: string, now: int)
    ensures |R.Get(cache, TTL_SECONDS, key, now).0| <= |cache|
  {
    R.DropFacts(cache, key);
  }
}
