/** A recency-ordered list with expiry: what the discovery cache is meant to be. Least recently touched first. */
module RecencyList {
  import opened Common

  datatype Entry<K, V> = Entry(key: K, value: V, stamp: int)

  ghost predicate KeysDistinct<K, V>(l: seq<Entry<K, V>>) {
    forall i, j :: 0 <= i < j < |l| ==> l[i].key != l[j].key
  }

  ghost predicate Has<K, V>(l: seq<Entry<K, V>>, k: K) { exists i :: 0 <= i < |l| && l[i].key == k }

  ghost function Lookup<K, V>(l: seq<Entry<K, V>>, k: K): (r: Entry<K, V>)
    requires Has(l, k)
    ensures r in l && r.key == k
  {
    var i :| 0 <= i < |l| && l[i].key == k;
    l[i]
  }

  ghost function Drop<K, V>(l: seq<Entry<K, V>>, k: K): seq<Entry<K, V>> {
    if l == [] then [] else (if l[0].key == k then [] else [l[0]]) + Drop(l[1..], k)
  }

  ghost function DropAll<K, V>(l: seq<Entry<K, V>>, p: K -> bool): seq<Entry<K, V>> {
    if l == [] then [] else (if p(l[0].key) then [] else [l[0]]) + DropAll(l[1..], p)
  }

  /** `duration_since` that saturates when the clock went backwards. */
  function Age(now: int, stamp: int): int { if now < stamp then 0 else now - stamp }

  ghost function Get<K, V>(l: seq<Entry<K, V>>, ttl: int, k: K, now: int): (seq<Entry<K, V>>, Option<V>) {
    if !Has(l, k) then (l, None)
    else
      var e := Lookup(l, k);
      if Age(now, e.stamp) >= ttl then (Drop(l, k), None) else (Drop(l, k) + [e], Some(e.value))
  }

  ghost function Insert<K, V>(l: seq<Entry<K, V>>, capacity: nat, k: K, v: V, now: int): seq<Entry<K, V>> {
    var rest := if Has(l, k) then Drop(l, k) else if |l| >= capacity && l != [] then l[1..] else l;
    rest + [Entry(k, v, now)]
  }

  lemma {:induction false} DropMember<K, V>(l: seq<Entry<K, V>>, k: K, e: Entry<K, V>)
    ensures e in Drop(l, k) <==> e in l && e.key != k
  {
    if l != [] {
      DropMember(l[1..], k, e);
      assert l == [l[0]] + l[1..];
    }
  }

  lemma {:induction false} DropAllMember<K, V>(l: seq<Entry<K, V>>, p: K -> bool, e: Entry<K, V>)
    ensures e in DropAll(l, p) <==> e in l && !p(e.key)
  {
    if l != [] {
      DropAllMember(l[1..], p, e);
      assert l == [l[0]] + l[1..];
    }
  }

  lemma {:induction false} DropDistinct<K, V>(l: seq<Entry<K, V>>, k: K)
    requires KeysDistinct(l)
    ensures KeysDistinct(Drop(l, k))
  {
    if l != [] {
      var rest := Drop(l[1..], k);
      DropDistinct(l[1..], k);
      forall i | 0 <= i < |rest| ensures rest[i].key != l[0].key {
        var x: Entry<K, V> := rest[i];
        DropMember(l[1..], k, x);
        var m :| 0 <= m < |l[1..]| && l[1..][m] == x;
        assert l[m + 1] == x;
      }
    }
  }

  lemma {:induction false} DropFacts<K, V>(l: seq<Entry<K, V>>, k: K)
    ensures forall e :: e in Drop(l, k) <==> e in l && e.key != k
    ensures |Drop(l, k)| <= |l|
    ensures Has(l, k) ==> |Drop(l, k)| < |l|
    ensures KeysDistinct(l) ==> KeysDistinct(Drop(l, k))
  {
    if l != [] {
      DropFacts(l[1..], k);
      assert l == [l[0]] + l[1..];
      if KeysDistinct(l) { DropDistinct(l, k); }
      if Has(l, k) && l[0].key != k {
        var i :| 0 <= i < |l| && l[i].key == k;
        assert l[1..][i - 1].key == k;
      }
    }
  }

  lemma {:induction false} DropAllFacts<K, V>(l: seq<Entry<K, V>>, p: K -> bool)
    ensures forall e :: e in DropAll(l, p) <==> e in l && !p(e.key)
    ensures |DropAll(l, p)| <= |l|
    ensures KeysDistinct(l) ==> KeysDistinct(DropAll(l, p))
  {
    if l != [] {
      var rest := DropAll(l[1..], p);
      DropAllFacts(l[1..], p);
      assert l == [l[0]] + l[1..];
      if KeysDistinct(l) {
        forall i | 0 <= i < |rest| ensures rest[i].key != l[0].key {
          var x: Entry<K, V> := rest[i];
          DropAllMember(l[1..], p, x);
          var m :| 0 <= m < |l[1..]| && l[1..][m] == x;
          assert l[m + 1] == x;
        }
      }
    }
  }

  lemma GetEntries<K, V>(l: seq<Entry<K, V>>, ttl: int, k: K, now: int, e: Entry<K, V>)
    requires e in Get(l, ttl, k, now).0
    ensures e in l
  {
    DropMember(l, k, e);
  }

  lemma InsertEntries<K, V>(l: seq<Entry<K, V>>, capacity: nat, k: K, v: V, now: int, e: Entry<K, V>)
    requires e in Insert(l, capacity, k, v, now)
    ensures e == Entry(k, v, now) || (e in l && e.key != k)
  {
    DropMember(l, k, e);
    if e in l && !Has(l, k) {
      var i :| 0 <= i < |l| && l[i] == e;
      assert l[i].key != k;
    }
  }

  /**
    A get, exactly: it hits iff an entry of the key is younger than the time to live, a clock that went back counting as
    no age at all; an entry of the key that is too old goes, and nothing else does.
   */
  lemma GetExactly<K, V>(l: seq<Entry<K, V>>, ttl: int, k: K, now: int)
    requires KeysDistinct(l)
    ensures var (l', r) := Get(l, ttl, k, now);
            && (r.Some? <==> exists e :: e in l && e.key == k && Young(e, ttl, now))
            && (forall e :: e in l && e.key == k && Young(e, ttl, now) ==> r == Some(e.value))
            && (forall e :: e in l' <==> e in l && (e.key != k || Young(e, ttl, now)))
  {
    DropFacts(l, k);
    forall e | e in l && e.key == k ensures Has(l, k) && e == Lookup(l, k) {
      var i :| 0 <= i < |l| && l[i] == e;
      var j :| 0 <= j < |l| && l[j] == Lookup(l, k);
    }
  }

  predicate Young<K, V>(e: Entry<K, V>, ttl: int, now: int) { 0 < ttl && now - e.stamp < ttl }

  /** An insert, exactly: it replaces the entry of its key, or else, when full, the one in front goes. */
  lemma InsertExactly<K, V>(l: seq<Entry<K, V>>, capacity: nat, k: K, v: V, now: int)
    requires KeysDistinct(l)
    ensures var l' := Insert(l, capacity, k, v, now);
            forall e :: e in l' <==>
              || e == Entry(k, v, now)
              || (e in l && e.key != k && (Has(l, k) || |l| < capacity || e != l[0]))
  {
    DropFacts(l, k);
    forall e | e in l && !Has(l, k) ensures e.key != k && (e in l[1..] <==> e != l[0]) {
      var i :| 0 <= i < |l| && l[i] == e;
      assert i > 0 ==> l[1..][i - 1] == e;
      assert l == [l[0]] + l[1..];
    }
  }

  // ---- runs -------------------------------------------------------------------------------------------

  datatype Op<!K, V> =
    | GetOp(k: K, now: int)
    | InsertOp(k: K, v: V, now: int)
    | RemoveOp(k: K)
    | RemoveMatchingOp(p: K -> bool)

  /** The list and the keys touched so far: inserted, or found. */
  datatype Trail<K, V> = Trail(list: seq<Entry<K, V>>, touched: seq<K>)

  ghost function Apply<K, V>(s: Trail<K, V>, capacity: nat, ttl: int, op: Op<K, V>): Trail<K, V> {
    match op
    case GetOp(k, now) =>
      var (l, r) := Get(s.list, ttl, k, now);
      Trail(l, if r.Some? then s.touched + [k] else s.touched)
    case InsertOp(k, v, now) => Trail(Insert(s.list, capacity, k, v, now), s.touched + [k])
    case RemoveOp(k) => Trail(Drop(s.list, k), s.touched)
    case RemoveMatchingOp(p) => Trail(DropAll(s.list, p), s.touched)
  }

  ghost function Run<K, V>(capacity: nat, ttl: int, ops: seq<Op<K, V>>): Trail<K, V> {
    if ops == [] then Trail([], []) else Apply(Run(capacity, ttl, ops[..|ops| - 1]), capacity, ttl, ops[|ops| - 1])
  }

  /** Position of the last touch of `k`, or -1. */
  ghost function LastTouch<K>(touched: seq<K>, k: K): int {
    if touched == [] then -1
    else if touched[|touched| - 1] == k then |touched| - 1
    else LastTouch(touched[..|touched| - 1], k)
  }

  lemma LastTouchPush<K>(touched: seq<K>, x: K, k: K)
    ensures LastTouch(touched + [x], k) == if x == k then |touched| else LastTouch(touched, k)
    ensures -1 <= LastTouch(touched, k) < |touched|
  {
    assert (touched + [x])[..|touched|] == touched;
    if touched != [] { LastTouchPush(touched[..|touched| - 1], x, k); }
  }

  ghost predicate ByRecency<K, V>(s: Trail<K, V>) {
    forall i, j :: 0 <= i < j < |s.list| ==> LastTouch(s.touched, s.list[i].key) < LastTouch(s.touched, s.list[j].key)
  }

  /** Operations that replace or remove whatever is stored under `k`. */
  predicate Displaces<K(==), V>(op: Op<K, V>, k: K) {
    match op
    case InsertOp(x, _, _) => x == k
    case RemoveOp(x) => x == k
    case RemoveMatchingOp(p) => p(k)
    case GetOp(_, _) => false
  }

  /** The last insert of `e`'s key before `n` stored exactly `e`, and nothing removed the key since. */
  ghost predicate LatestAt<K, V>(ops: seq<Op<K, V>>, i: nat, n: nat, e: Entry<K, V>)
    requires i < n <= |ops|
  {
    && ops[i] == InsertOp(e.key, e.value, e.stamp)
    && forall j :: i < j < n ==> !Displaces(ops[j], e.key)
  }

  ghost predicate Latest<K, V>(ops: seq<Op<K, V>>, n: nat, e: Entry<K, V>)
    requires n <= |ops|
  {
    exists i: nat :: i < n && LatestAt(ops, i, n, e)
  }

  ghost predicate IsSubsequence<T>(s: seq<T>, t: seq<T>)
    decreases |t|
  {
    if t == [] then s == []
    else IsSubsequence(s, t[1..]) || (s != [] && s[0] == t[0] && IsSubsequence(s[1..], t[1..]))
  }

  lemma {:induction false} SubsequenceKeepsRecency<K, V>(s: seq<Entry<K, V>>, t: seq<Entry<K, V>>, touched: seq<K>)
    requires IsSubsequence(s, t) && ByRecency(Trail(t, touched))
    ensures ByRecency(Trail(s, touched))
    ensures forall e :: e in s ==> e in t
    decreases |t|
  {
    if t != [] {
      if IsSubsequence(s, t[1..]) {
        SubsequenceKeepsRecency(s, t[1..], touched);
      } else {
        SubsequenceKeepsRecency(s[1..], t[1..], touched);
        assert s == [s[0]] + s[1..] && t == [t[0]] + t[1..];
        forall j | 0 < j < |s| ensures LastTouch(touched, s[0].key) < LastTouch(touched, s[j].key) {
          assert s[j] == s[1..][j - 1] && s[j] in t[1..];
          var m :| 0 <= m < |t[1..]| && t[1..][m] == s[j];
          assert t[m + 1] == s[j];
        }
        forall i, j | 0 <= i < j < |s| ensures LastTouch(touched, s[i].key) < LastTouch(touched, s[j].key) {
          if i > 0 { assert s[i] == s[1..][i - 1] && s[j] == s[1..][j - 1]; }
        }
      }
    }
  }

  lemma {:induction false} SubsequenceSelf<T>(t: seq<T>)
    ensures IsSubsequence(t, t)
  {
    if t != [] { SubsequenceSelf(t[1..]); }
  }

  lemma {:induction false} DropIsSubsequence<K, V>(l: seq<Entry<K, V>>, k: K)
    ensures IsSubsequence(Drop(l, k), l)
  {
    if l != [] {
      DropIsSubsequence(l[1..], k);
      if l[0].key != k { assert Drop(l, k)[1..] == Drop(l[1..], k); } else { assert Drop(l, k) == Drop(l[1..], k); }
    }
  }

  lemma {:induction false} DropAllIsSubsequence<K, V>(l: seq<Entry<K, V>>, p: K -> bool)
    ensures IsSubsequence(DropAll(l, p), l)
  {
    if l != [] {
      DropAllIsSubsequence(l[1..], p);
      if !p(l[0].key) {
        assert DropAll(l, p)[1..] == DropAll(l[1..], p);
      } else {
        assert DropAll(l, p) == DropAll(l[1..], p);
      }
    }
  }

  /** Appending the entry touched last keeps the order. */
  lemma PushKeepsRecency<K, V>(l: seq<Entry<K, V>>, touched: seq<K>, e: Entry<K, V>)
    requires ByRecency(Trail(l, touched)) && !Has(l, e.key)
    ensures ByRecency(Trail(l + [e], touched + [e.key]))
  {
    forall k ensures LastTouch(touched + [e.key], k) == (if k == e.key then |touched| else LastTouch(touched, k)) &&
                     LastTouch(touched, k) < |touched| { LastTouchPush(touched, e.key, k); }
  }

  lemma DropLacks<K, V>(l: seq<Entry<K, V>>, k: K)
    ensures !Has(Drop(l, k), k)
  {
    DropFacts(l, k);
    forall i | 0 <= i < |Drop(l, k)| ensures Drop(l, k)[i].key != k { assert Drop(l, k)[i] in Drop(l, k); }
  }

  ghost predicate Tidy<K, V>(s: Trail<K, V>, capacity: nat) {
    KeysDistinct(s.list) && ByRecency(s) && |s.list| <= if capacity > 1 then capacity else 1
  }

  lemma StepTidy<K, V>(s: Trail<K, V>, capacity: nat, ttl: int, op: Op<K, V>)
    requires Tidy(s, capacity)
    ensures Tidy(Apply(s, capacity, ttl, op), capacity)
  {
    var l := s.list;
    match op
    case RemoveOp(k) => StepDrop(s, k);
    case RemoveMatchingOp(p) =>
      DropAllFacts(l, p);
      DropAllIsSubsequence(l, p);
      SubsequenceKeepsRecency(DropAll(l, p), l, s.touched);
    case GetOp(k, now) => StepGet(s, capacity, ttl, k, now);
    case InsertOp(k, v, now) => StepInsert(s, capacity, ttl, k, v, now);
  }

  lemma StepGet<K, V>(s: Trail<K, V>, capacity: nat, ttl: int, k: K, now: int)
    requires Tidy(s, capacity)
    ensures Tidy(Apply(s, capacity, ttl, GetOp(k, now)), capacity)
  {
    var l := s.list;
    StepDrop(s, k);
    if Has(l, k) {
      DropFacts(l, k);
      DropLacks(l, k);
      PushKeepsRecency(Drop(l, k), s.touched, Lookup(l, k));
      PushDistinct(Drop(l, k), Lookup(l, k));
    }
  }

  lemma StepInsert<K, V>(s: Trail<K, V>, capacity: nat, ttl: int, k: K, v: V, now: int)
    requires Tidy(s, capacity)
    ensures Tidy(Apply(s, capacity, ttl, InsertOp(k, v, now)), capacity)
  {
    var l := s.list;
    StepDrop(s, k);
    var rest := if Has(l, k) then Drop(l, k) else if |l| >= capacity && l != [] then l[1..] else l;
    if Has(l, k) { DropFacts(l, k); DropLacks(l, k); }
    if rest != Drop(l, k) { assert ByRecency(Trail(rest, s.touched)); }
    PushKeepsRecency(rest, s.touched, Entry(k, v, now));
    PushDistinct(rest, Entry(k, v, now));
  }

  lemma StepDrop<K, V>(s: Trail<K, V>, k: K)
    requires KeysDistinct(s.list) && ByRecency(s)
    ensures KeysDistinct(Drop(s.list, k)) && ByRecency(Trail(Drop(s.list, k), s.touched))
    ensures |Drop(s.list, k)| <= |s.list|
  {
    DropFacts(s.list, k);
    DropIsSubsequence(s.list, k);
    SubsequenceKeepsRecency(Drop(s.list, k), s.list, s.touched);
  }

  lemma PushDistinct<K, V>(l: seq<Entry<K, V>>, e: Entry<K, V>)
    requires KeysDistinct(l) && !Has(l, e.key)
    ensures KeysDistinct(l + [e])
  {
  }

  /** Where the entries of a step come from: kept from before, or just inserted. */
  lemma StepEntries<K, V>(s: Trail<K, V>, capacity: nat, ttl: int, op: Op<K, V>, e: Entry<K, V>)
    requires e in Apply(s, capacity, ttl, op).list
    ensures (e in s.list && !Displaces(op, e.key)) || op == InsertOp(e.key, e.value, e.stamp)
  {
    match op
    case RemoveOp(k) => DropFacts(s.list, k);
    case RemoveMatchingOp(p) => DropAllFacts(s.list, p);
    case GetOp(k, now) => DropFacts(s.list, k);
    case InsertOp(k, v, now) => DropFacts(s.list, k);
  }

  lemma LatestStep<K, V>(ops: seq<Op<K, V>>, e: Entry<K, V>)
    requires ops != []
    requires || ops[|ops| - 1] == InsertOp(e.key, e.value, e.stamp)
             || (Latest(ops[..|ops| - 1], |ops| - 1, e) && !Displaces(ops[|ops| - 1], e.key))
    ensures Latest(ops, |ops|, e)
  {
    var n := |ops| - 1;
    if ops[n] == InsertOp(e.key, e.value, e.stamp) {
      assert LatestAt(ops, n, |ops|, e);
    } else {
      var i: nat :| i < n && LatestAt(ops[..n], i, n, e);
      assert LatestAt(ops, i, |ops|, e);
    }
  }

  /**
    Over any operation sequence: keys are distinct, the size stays within max(capacity, 1), the list is ordered by
    last touch (so what insertion evicts is the least recently touched key), and each entry is the latest insert.
   */
  lemma {:induction false} RunIsLru<K, V>(capacity: nat, ttl: int, ops: seq<Op<K, V>>)
    ensures Tidy(Run(capacity, ttl, ops), capacity)
    ensures forall e :: e in Run(capacity, ttl, ops).list ==> Latest(ops, |ops|, e)
  {
    if ops != [] {
      var n := |ops| - 1;
      var before := Run(capacity, ttl, ops[..n]);
      RunIsLru(capacity, ttl, ops[..n]);
      StepTidy(before, capacity, ttl, ops[n]);
      forall e | e in Run(capacity, ttl, ops).list ensures Latest(ops, |ops|, e) {
        StepEntries(before, capacity, ttl, ops[n], e);
        LatestStep(ops, e);
      }
    }
  }

  /** A hit returns the value inserted last, younger than the time to live; the entry becomes the most recent. */
  lemma HitIsLatest<K, V>(capacity: nat, ttl: int, ops: seq<Op<K, V>>, k: K, now: int)
    requires Get(Run(capacity, ttl, ops).list, ttl, k, now).1.Some?
    ensures exists e :: Latest(ops, |ops|, e) && e.key == k && Age(now, e.stamp) < ttl
              && Get(Run(capacity, ttl, ops).list, ttl, k, now).1 == Some(e.value)
  {
    RunIsLru(capacity, ttl, ops);
    assert Lookup(Run(capacity, ttl, ops).list, k) in Run(capacity, ttl, ops).list;
  }
}

/** The cache itself: a map for the values and a queue of keys for the order, updated in place. */
module DiscoveryCaches {
  import opened Common
  import opened RecencyList

  ghost predicate Matches<K(!new), V>(queue: seq<K>, m: map<K, (V, int)>) {
    NoDup(queue) && forall k :: k in queue <==> k in m
  }

  /** The recency list that queue and map stand for. */
  ghost function ListOf<K, V>(queue: seq<K>, m: map<K, (V, int)>): seq<Entry<K, V>>
    requires forall k :: k in queue ==> k in m
  {
    seq(|queue|, i requires 0 <= i < |queue| => Entry(queue[i], m[queue[i]].0, m[queue[i]].1))
  }

  lemma ListHas<K(!new), V>(queue: seq<K>, m: map<K, (V, int)>, k: K)
    requires Matches(queue, m)
    ensures Has(ListOf(queue, m), k) <==> k in m
    ensures k in m ==> Lookup(ListOf(queue, m), k) == Entry(k, m[k].0, m[k].1)
  {
    var l := ListOf(queue, m);
    if k in m {
      var i :| 0 <= i < |queue| && queue[i] == k;
      assert l[i].key == k;
    }
  }

  lemma ListCons<K, V>(k: K, queue: seq<K>, m: map<K, (V, int)>)
    requires k in m && forall x :: x in queue ==> x in m
    ensures ListOf([k] + queue, m) == [Entry(k, m[k].0, m[k].1)] + ListOf(queue, m)
  {
  }

  /** Dropping a key from the queue drops it from the list, whatever happens to its map entry. */
  lemma {:induction false} ListWithout<K(!new), V>(queue: seq<K>, m: map<K, (V, int)>, m': map<K, (V, int)>, k: K)
    requires forall x :: x in queue ==> x in m
    requires forall x :: x in queue && x != k ==> x in m' && m'[x] == m[x]
    ensures ListOf(Without(queue, k), m') == Drop(ListOf(queue, m), k)
  {
    if queue != [] {
      ListWithout(queue[1..], m, m', k);
      assert ListOf(queue, m)[1..] == ListOf(queue[1..], m);
      if queue[0] != k {
        assert queue[0] in queue;
        ListCons(queue[0], Without(queue[1..], k), m');
      }
    }
  }

  lemma ListPush<K, V>(queue: seq<K>, m: map<K, (V, int)>, m': map<K, (V, int)>, k: K)
    requires forall x :: x in queue ==> x in m && x in m' && m'[x] == m[x]
    requires k in m'
    ensures ListOf(queue + [k], m') == ListOf(queue, m) + [Entry(k, m'[k].0, m'[k].1)]
  {
  }

  /** In a queue without duplicates, removing at a key's position removes the key. */
  lemma {:induction false} RemoveAt<K(!new)>(queue: seq<K>, pos: nat)
    requires NoDup(queue) && pos < |queue|
    ensures queue[..pos] + queue[pos + 1..] == Without(queue, queue[pos])
  {
    if pos == 0 {
      assert queue[0] !in queue[1..];
      assert queue[..0] + queue[1..] == queue[1..];
    } else {
      RemoveAt(queue[1..], pos - 1);
      assert queue[..pos] + queue[pos + 1..] == [queue[0]] + (queue[1..][..pos - 1] + queue[1..][pos..]);
    }
  }

  ghost function DropSet<K, V>(l: seq<Entry<K, V>>, gone: set<K>): seq<Entry<K, V>> {
    if l == [] then [] else (if l[0].key in gone then [] else [l[0]]) + DropSet(l[1..], gone)
  }

  lemma {:induction false} DropSetMore<K, V>(l: seq<Entry<K, V>>, gone: set<K>, k: K)
    ensures Drop(DropSet(l, gone), k) == DropSet(l, gone + {k})
  {
    if l != [] {
      DropSetMore(l[1..], gone, k);
      if l[0].key in gone {
        assert DropSet(l, gone) == DropSet(l[1..], gone);
      } else {
        assert DropSet(l, gone)[1..] == DropSet(l[1..], gone);
      }
    }
  }

  lemma {:induction false} DropSetNone<K, V>(l: seq<Entry<K, V>>)
    ensures DropSet(l, {}) == l
  {
    if l != [] { DropSetNone(l[1..]); }
  }

  lemma {:induction false} DropSetIsDropAll<K, V>(l: seq<Entry<K, V>>, gone: set<K>, p: K -> bool)
    requires forall i :: 0 <= i < |l| ==> (l[i].key in gone <==> p(l[i].key))
    ensures DropSet(l, gone) == DropAll(l, p)
  {
    if l != [] { DropSetIsDropAll(l[1..], gone, p); }
  }

  class DiscoveryCache<K(==,!new), V(!new)> {
    const capacity: nat
    const ttl: int
    var entries: map<K, (V, int)>
    var queue: seq<K>

    ghost predicate Valid()
      reads this
    {
      Matches(queue, entries)
    }

    ghost function Contents(): seq<Entry<K, V>>
      reads this
      requires Valid()
    {
      ListOf(queue, entries)
    }

    constructor (capacity: nat, ttl: int)
      ensures Valid() && Contents() == [] && this.capacity == capacity && this.ttl == ttl
    {
      this.capacity, this.ttl := capacity, ttl;
      entries, queue := map[], [];
    }

    method Position(key: K) returns (pos: Option<nat>)
      ensures pos.Some? ==> pos.value < |queue| && queue[pos.value] == key
      ensures pos.None? ==> key !in queue
    {
      for i := 0 to |queue|
        invariant key !in queue[..i]
      {
        if queue[i] == key {
          return Some(i);
        }
        assert queue[..i + 1] == queue[..i] + [queue[i]];
      }
      assert queue[..|queue|] == queue;
      pos := None;
    }

    /** Take a key out of the queue, wherever it is. */
    method Unqueue(key: K)
      requires NoDup(queue)
      modifies this`queue
      ensures queue == Without(old(queue), key)
    {
      var pos := Position(key);
      if pos.Some? {
        RemoveAt(queue, pos.value);
        queue := queue[..pos.value] + queue[pos.value + 1..];
      }
    }

    method Remove(key: K) returns (r: Option<V>)
      requires Valid()
      modifies this
      ensures Valid() && Contents() == Drop(old(Contents()), key)
      ensures r == if key in old(entries) then Some(old(entries)[key].0) else None
      ensures entries == old(entries) - {key}
    {
      ListWithout(queue, entries, entries - {key}, key);
      WithoutNoDup(queue, key);
      if key in entries {
        r := Some(entries[key].0);
        entries := entries - {key};
        Unqueue(key);
      } else {
        r := None;
        assert entries - {key} == entries;
      }
    }

    /** A hit moves the key to the back; an expired entry is removed. Refines `RecencyList.Get`. */
    method Get(key: K, now: int) returns (r: Option<V>)
      requires Valid()
      modifies this
      ensures Valid() && (Contents(), r) == RecencyList.Get(old(Contents()), ttl, key, now)
    {
      ListHas(queue, entries, key);
      if key !in entries {
        return None;
      }
      if Age(now, entries[key].1) >= ttl {
        var dropped := Remove(key);
        return None;
      }
      ListWithout(queue, entries, entries, key);
      WithoutNoDup(queue, key);
      Unqueue(key);
      ListPush(queue, entries, entries, key);
      queue := queue + [key];
      r := Some(entries[key].0);
    }

    /** A new key evicts the front of the queue when the cache is full. Refines `RecencyList.Insert`. */
    method Insert(key: K, value: V, now: int)
      requires Valid()
      modifies this
      ensures Valid() && Contents() == RecencyList.Insert(old(Contents()), capacity, key, value, now)
    {
      ListHas(queue, entries, key);
      assert |ListOf(queue, entries)| == |queue|;
      QueueSize();
      if key in entries {
        ListWithout(queue, entries, entries[key := (value, now)], key);
        WithoutNoDup(queue, key);
        entries := entries[key := (value, now)];
        Unqueue(key);
        ListPush(queue, entries, entries, key);
        queue := queue + [key];
        return;
      }
      if |entries| >= capacity && queue != [] {
        assert queue[0] !in queue[1..];
        assert ListOf(queue[1..], entries - {queue[0]}) == ListOf(queue, entries)[1..];
        entries, queue := entries - {queue[0]}, queue[1..];
      }
      ListPush(queue, entries, entries[key := (value, now)], key);
      entries, queue := entries[key := (value, now)], queue + [key];
    }

    lemma QueueSize()
      requires Valid()
      ensures |queue| == |entries|
    {
      SeqSize(queue, entries.Keys);
    }

    /** Removes every matching key, in whatever order the map yields them. */
    method RemoveMatching(p: K -> bool) returns (count: nat)
      requires Valid()
      modifies this
      ensures Valid() && Contents() == DropAll(old(Contents()), p)
      ensures count == |set k | k in old(entries) && p(k)|
    {
      var matching := set k | k in entries && p(k);
      count := |matching|;
      var todo := matching;
      ghost var start := Contents();
      DropSetNone(start);
      assert matching - todo == {};
      while todo != {}
        invariant Valid() && todo <= matching
        invariant Contents() == DropSet(start, matching - todo)
        decreases |todo|
      {
        var k :| k in todo;
        var dropped := Remove(k);
        DropSetMore(start, matching - todo, k);
        assert matching - todo + {k} == matching - (todo - {k});
        todo := todo - {k};
      }
      assert matching - {} == matching;
      forall i | 0 <= i < |start| ensures start[i].key in matching <==> p(start[i].key) {
        assert start[i].key == old(queue)[i] && old(queue)[i] in old(queue);
      }
      DropSetIsDropAll(start, matching, p);
    }
  }

  lemma {:induction false} SeqSize<K(!new)>(s: seq<K>, keys: set<K>)
    requires NoDup(s) && forall k :: k in s <==> k in keys
    ensures |s| == |keys|
  {
    if s == [] {
      assert keys == {};
    } else {
      assert s == [s[0]] + s[1..];
      forall k ensures k in s[1..] <==> k in keys - {s[0]} { assert k in s <==> k == s[0] || k in s[1..]; }
      SeqSize(s[1..], keys - {s[0]});
    }
  }
}
