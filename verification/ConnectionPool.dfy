/** Bounded round-robin connection pools, one per service and node. */
module RoundRobin {
  import opened Common

  /** A connection, told apart by the order in which it was opened. */
  datatype Channel = Channel(id: nat, address: string)

  datatype Pool = Pool(channels: seq<Channel>, size: nat, address: string)

  function NewPool(address: string, size: nat): Pool { Pool([], if size < 1 then 1 else size, address) }

  /** `rotate_left(1)`. */
  function Rotated(s: seq<Channel>): seq<Channel>
    requires s != []
  {
    s[1..] + [s[0]]
  }

  /** What a get does: open one more connection while there is room, which may fail, then hand out in rotation. */
  function Take(p: Pool, offer: Option<Channel>): (r: (Pool, Option<Channel>))
    requires p.size >= 1
  {
    if |p.channels| < p.size then
      match offer
      case None => (p, None)
      case Some(c) => (p.(channels := Rotated(p.channels + [c])), Some((p.channels + [c])[0]))
    else (p.(channels := Rotated(p.channels)), Some(p.channels[0]))
  }

  type Key = (string, string)

  datatype Request = Request(key: Key, address: string, connectable: bool)

  /** All pools, the configured size, and how many connections have been opened so far. */
  datatype Manager = Manager(pools: map<Key, Pool>, size: nat, dialled: nat)

  function Located(pools: map<Key, Pool>, key: Key, address: string, size: nat): Pool {
    if key in pools && pools[key].address == address then pools[key] else NewPool(address, size)
  }

  function PoolFor(m: Manager, req: Request): Pool { Located(m.pools, req.key, req.address, m.size) }

  function Offer(m: Manager, req: Request): Option<Channel> {
    if req.connectable then Some(Channel(m.dialled, req.address)) else None
  }

  predicate Opens(m: Manager, req: Request) {
    req.connectable && |PoolFor(m, req).channels| < PoolFor(m, req).size
  }

  ghost predicate PoolOk(p: Pool, size: nat, dialled: nat) {
    && p.size == size && |p.channels| <= size && NoDup(p.channels)
    && forall i :: 0 <= i < |p.channels| ==> p.channels[i].address == p.address && p.channels[i].id < dialled
  }

  ghost predicate Valid(m: Manager) {
    m.size >= 1 && forall k :: k in m.pools ==> PoolOk(m.pools[k], m.size, m.dialled)
  }

  function Connect(m: Manager, req: Request): (r: (Manager, Option<Channel>))
    requires Valid(m)
  {
    var (p, c) := Take(PoolFor(m, req), Offer(m, req));
    (Manager(m.pools[req.key := p], m.size, if Opens(m, req) then m.dialled + 1 else m.dialled), c)
  }

  // ---- what every request keeps ------------------------------------------------------------------------------

  lemma RotatedSame(s: seq<Channel>)
    requires s != [] && NoDup(s)
    ensures NoDup(Rotated(s)) && |Rotated(s)| == |s|
    ensures forall c :: c in Rotated(s) <==> c in s
  {
    assert s == [s[0]] + s[1..];
  }

  lemma TakeKeepsPool(p: Pool, offer: Option<Channel>, dialled: nat)
    requires p.size >= 1 && PoolOk(p, p.size, dialled) && (offer.Some? ==> offer.value == Channel(dialled, p.address))
    ensures var (q, c) := Take(p, offer);
            && PoolOk(q, p.size, dialled + 1) && q.address == p.address
            && (|p.channels| < p.size && offer.Some? ==> |q.channels| == |p.channels| + 1)
            && (|p.channels| == p.size || offer.None? ==> PoolOk(q, p.size, dialled) && |q.channels| == |p.channels|)
            && (c.Some? <==> offer.Some? || |p.channels| == p.size)
            && (c.Some? ==> c.value in q.channels)
  {
    if |p.channels| < p.size {
      if offer.Some? {
        RotatedSame(p.channels + [offer.value]);
        RotatedOk(p.(channels := p.channels + [offer.value]), dialled + 1);
      }
    } else {
      RotatedSame(p.channels);
      RotatedOk(p, dialled);
    }
  }

  lemma RotatedOk(p: Pool, dialled: nat)
    requires p.channels != [] && PoolOk(p, p.size, dialled)
    ensures PoolOk(p.(channels := Rotated(p.channels)), p.size, dialled)
  {
    RotatedSame(p.channels);
    var r := Rotated(p.channels);
    forall i | 0 <= i < |r| ensures r[i].address == p.address && r[i].id < dialled {
      assert r[i] in p.channels;
    }
  }

  lemma ConnectKeepsValid(m: Manager, req: Request)
    requires Valid(m)
    ensures Valid(Connect(m, req).0) && Connect(m, req).0.size == m.size
  {
    var p, n := PoolFor(m, req), Connect(m, req).0;
    TakeKeepsPool(p, Offer(m, req), m.dialled);
    forall k | k in n.pools ensures PoolOk(n.pools[k], n.size, n.dialled) {
      if k != req.key { assert PoolOk(m.pools[k], m.size, m.dialled); }
    }
  }

  /** Other keys are untouched; the pool of this key grows by the connections opened, if it is for the same address. */
  lemma ConnectIsLocal(m: Manager, req: Request)
    requires Valid(m)
    ensures var n := Connect(m, req).0;
            && n.pools.Keys == m.pools.Keys + {req.key} && n.pools[req.key].address == req.address
            && |n.pools[req.key].channels| == |PoolFor(m, req).channels| + n.dialled - m.dialled
            && forall k :: k in m.pools && k != req.key ==> n.pools[k] == m.pools[k]
  {
    TakeKeepsPool(PoolFor(m, req), Offer(m, req), m.dialled);
  }

  /**
    A channel that is handed out always belongs to the address asked for, never to an earlier one, and is in the pool
    of its key. A request fails only if the pool still has room and the address cannot be connected to.
   */
  lemma AnswerFits(m: Manager, req: Request)
    requires Valid(m)
    ensures var (n, c) := Connect(m, req);
            && (c.Some? <==> req.connectable || |PoolFor(m, req).channels| == m.size)
            && (c.Some? ==> c.value.address == req.address && c.value in n.pools[req.key].channels)
  {
    var p := PoolFor(m, req);
    TakeKeepsPool(p, Offer(m, req), m.dialled);
    var (q, c) := Take(p, Offer(m, req));
    if c.Some? {
      var i :| 0 <= i < |q.channels| && q.channels[i] == c.value;
    }
  }

  // ---- runs ----------------------------------------------------------------------------------------------------

  ghost function After(m: Manager, reqs: seq<Request>): Manager
    requires Valid(m)
    decreases |reqs|
  {
    if reqs == [] then m else ConnectKeepsValid(m, reqs[0]); After(Connect(m, reqs[0]).0, reqs[1..])
  }

  /** The answers to the requests for one key, in order. */
  ghost function Answers(m: Manager, reqs: seq<Request>, key: Key): seq<Option<Channel>>
    requires Valid(m)
    decreases |reqs|
  {
    if reqs == [] then []
    else
      ConnectKeepsValid(m, reqs[0]);
      (if reqs[0].key == key then [Connect(m, reqs[0]).1] else []) + Answers(Connect(m, reqs[0]).0, reqs[1..], key)
  }

  ghost function Total(pools: map<Key, Pool>): nat {
    if pools == map[] then 0
    else
      var k :| k in pools;
      |pools[k].channels| + Total(pools - {k})
  }

  /** The sum does not depend on the order of keys. */
  lemma {:induction false} TotalSplit(pools: map<Key, Pool>, k: Key)
    requires k in pools
    ensures Total(pools) == |pools[k].channels| + Total(pools - {k})
    decreases |pools|
  {
    var j :| j in pools && Total(pools) == |pools[j].channels| + Total(pools - {j});
    if j != k {
      TotalSplit(pools - {j}, k);
      TotalSplit(pools - {k}, j);
      assert pools - {j} - {k} == pools - {k} - {j};
    }
  }

  lemma {:induction false} TotalBound(pools: map<Key, Pool>, size: nat)
    requires forall k :: k in pools ==> |pools[k].channels| <= size
    ensures Total(pools) <= size * |pools|
    decreases |pools|
  {
    if pools != map[] {
      var k :| k in pools;
      TotalSplit(pools, k);
      TotalBound(pools - {k}, size);
      assert |pools - {k}| == |pools| - 1 by {
        assert (pools - {k}).Keys == pools.Keys - {k};
        assert |pools.Keys - {k}| == |pools.Keys| - 1;
      }
      assert size * |pools| == size * (|pools| - 1) + size;
    }
  }

  /** Bound: over any run no more than `pool_size` connections are pooled per service and node. */
  lemma {:induction false} RunIsBounded(m: Manager, reqs: seq<Request>)
    requires Valid(m)
    ensures Valid(After(m, reqs)) && After(m, reqs).size == m.size
    ensures Total(After(m, reqs).pools) <= m.size * |After(m, reqs).pools|
    decreases |reqs|
  {
    if reqs == [] {
      TotalBound(m.pools, m.size);
    } else {
      ConnectKeepsValid(m, reqs[0]);
      RunIsBounded(Connect(m, reqs[0]).0, reqs[1..]);
    }
  }

  // ---- fairness ------------------------------------------------------------------------------------------------

  ghost predicate Full(m: Manager, key: Key) { key in m.pools && |m.pools[key].channels| == m.size }

  ghost predicate KeepsAddress(reqs: seq<Request>, key: Key, address: string) {
    forall i :: 0 <= i < |reqs| && reqs[i].key == key ==> reqs[i].address == address
  }

  lemma ModNext(i: nat, k: nat)
    requires k > 0
    ensures (i + 1) % k == if i % k == k - 1 then 0 else i % k + 1
  {
    var q, r := i / k, i % k;
    assert i == k * q + r;
    if r == k - 1 {
      ModIs(i + 1, k, q + 1, 0);
    } else {
      ModIs(i + 1, k, q, r + 1);
    }
  }

  lemma MulBelow(k: int, d: int)
    requires k > 0
    ensures k * d < k ==> d <= 0
    ensures -k < k * d ==> d >= 0
  {
    if d >= 1 { assert k * d >= k * 1; }
    if d <= -1 { assert k * d <= k * -1; }
  }

  lemma ModIs(a: nat, k: nat, q: nat, r: nat)
    requires r < k && a == k * q + r
    ensures a % k == r
  {
    var d := a / k - q;
    assert a == k * (a / k) + a % k;
    assert k * d == r - a % k by { assert k * d == k * (a / k) - k * q; }
    MulBelow(k, d);
  }

  /** `i` modulo `k`, counted up. */
  function Slot(i: nat, k: nat): (r: nat)
    requires k > 0
    ensures r < k
  {
    if i == 0 then 0 else if Slot(i - 1, k) == k - 1 then 0 else Slot(i - 1, k) + 1
  }

  lemma {:induction false} SlotIsMod(i: nat, k: nat)
    requires k > 0
    ensures Slot(i, k) == i % k
  {
    if i > 0 {
      SlotIsMod(i - 1, k);
      ModNext(i - 1, k);
    }
  }

  lemma FullPoolTurn(m: Manager, req: Request)
    requires Valid(m) && Full(m, req.key) && m.pools[req.key].address == req.address
    ensures var (n, c) := Connect(m, req);
            && Full(n, req.key) && n.pools[req.key].address == req.address
            && n.pools[req.key].channels == Rotated(m.pools[req.key].channels)
            && c == Some(m.pools[req.key].channels[0])
  {
  }

  /** Answers that hand out the channels in strict rotation. */
  ghost predicate InRotation(answers: seq<Option<Channel>>, channels: seq<Channel>) {
    channels != [] && forall i :: 0 <= i < |answers| ==> answers[i] == Some(channels[Slot(i, |channels|)])
  }

  /** If the rest is answered in rotation from the second channel on, the whole is from the first. */
  lemma OneEarlier(all: seq<Option<Channel>>, rest: seq<Option<Channel>>, channels: seq<Channel>)
    requires channels != [] && all == [Some(channels[0])] + rest && InRotation(rest, Rotated(channels))
    ensures InRotation(all, channels)
  {
    forall i | 0 <= i < |all| ensures all[i] == Some(channels[Slot(i, |channels|)]) {
      if i > 0 { assert all[i] == rest[i - 1]; }
    }
  }

  /**
    Once a pool is full, the requests for its key are answered by its channels in strict rotation, whatever other keys
    ask for in between and whether or not the node could be connected to.
   */
  lemma {:induction false} FullPoolRotates(m: Manager, reqs: seq<Request>, key: Key)
    requires Valid(m) && Full(m, key) && KeepsAddress(reqs, key, m.pools[key].address)
    ensures InRotation(Answers(m, reqs, key), m.pools[key].channels)
    decreases |reqs|
  {
    if reqs != [] {
      var n := AfterRequest(m, reqs, key);
      FullPoolRotates(n, reqs[1..], key);
      if reqs[0].key == key { OneEarlier(Answers(m, reqs, key), Answers(n, reqs[1..], key), m.pools[key].channels); }
    }
  }

  /** The first request of a run, and what it leaves for the rest. */
  lemma AfterRequest(m: Manager, reqs: seq<Request>, key: Key) returns (n: Manager)
    requires Valid(m) && Full(m, key) && reqs != [] && KeepsAddress(reqs, key, m.pools[key].address)
    ensures Valid(n) && Full(n, key) && n.size == m.size && KeepsAddress(reqs[1..], key, n.pools[key].address)
    ensures var channels := m.pools[key].channels;
            if reqs[0].key == key
            then Answers(m, reqs, key) == [Some(channels[0])] + Answers(n, reqs[1..], key)
              && n.pools[key].channels == Rotated(channels)
            else Answers(m, reqs, key) == Answers(n, reqs[1..], key) && n.pools[key].channels == channels
  {
    n := Connect(m, reqs[0]).0;
    ConnectKeepsValid(m, reqs[0]);
    if reqs[0].key == key {
      assert reqs[0].address == m.pools[key].address;
      FullPoolTurn(m, reqs[0]);
    } else {
      ConnectIsLocal(m, reqs[0]);
    }
  }

  /** In any window of `k` consecutive positions each residue occurs exactly once. */
  lemma WindowHits(from: nat, k: nat, r: nat) returns (j: nat)
    requires r < k
    ensures from <= j < from + k && j % k == r
    ensures forall j' :: from <= j' < from + k && j' % k == r ==> j' == j
  {
    var q := from / k;
    assert from == k * q + from % k;
    j := if from % k <= r then k * q + r else k * (q + 1) + r;
    ModIs(j, k, if from % k <= r then q else q + 1, r);
    forall j' | from <= j' < from + k && j' % k == r ensures j' == j {
      SameResidue(j, j', k);
    }
  }

  lemma SameResidue(a: nat, b: nat, k: nat)
    requires k > 0 && a % k == b % k && a < b + k && b < a + k
    ensures a == b
  {
    var p, q := a / k, b / k;
    assert a == k * p + a % k && b == k * q + b % k;
    assert a - b == k * (p - q);
    MulBelow(k, p - q);
  }

  /** Fairness: any `pool_size` consecutive gets from a full pool return each of its channels exactly once. */
  lemma WindowServesEachOnce(m: Manager, reqs: seq<Request>, key: Key, from: nat, c: Channel) returns (j: nat)
    requires Valid(m) && Full(m, key) && KeepsAddress(reqs, key, m.pools[key].address)
    requires from + m.size <= |Answers(m, reqs, key)| && c in m.pools[key].channels
    ensures from <= j < from + m.size && Answers(m, reqs, key)[j] == Some(c)
    ensures forall j' :: from <= j' < from + m.size && Answers(m, reqs, key)[j'] == Some(c) ==> j' == j
  {
    var chs := m.pools[key].channels;
    var r :| 0 <= r < |chs| && chs[r] == c;
    j := WindowHits(from, m.size, r);
    FullPoolRotates(m, reqs, key);
    SlotIsMod(j, m.size);
    forall j' | from <= j' < from + m.size && Answers(m, reqs, key)[j'] == Some(c) ensures j' == j {
      SlotIsMod(j', m.size);
      assert chs[j' % m.size] == chs[r];
    }
  }

  // ---- which channel is handed out while a pool grows ----------------------------------------------------------

  /** The pool of one address after some gets, and its log: channels in the order they were opened and handed out. */
  ghost function Played(address: string, size: nat, offers: seq<Option<Channel>>): (r: (Pool, seq<Channel>))
    ensures r.0.size >= 1
    decreases |offers|
  {
    if offers == [] then (NewPool(address, size), [])
    else
      var n := |offers| - 1;
      var (p, log) := Played(address, size, offers[..n]);
      var (q, c) := Take(p, offers[n]);
      (q, AsUsed(Seen(p, log, offers[n]), c))
  }

  /** The log once this get has opened its channel, if it does. */
  function Seen(p: Pool, log: seq<Channel>, offer: Option<Channel>): seq<Channel> {
    if |p.channels| < p.size && offer.Some? then log + [offer.value] else log
  }

  function AsUsed(log: seq<Channel>, c: Option<Channel>): seq<Channel> { if c.Some? then log + [c.value] else log }

  function LastUse(log: seq<Channel>, c: Channel): int {
    if log == [] then -1 else if log[|log| - 1] == c then |log| - 1 else LastUse(log[..|log| - 1], c)
  }

  lemma LastUseSnoc(log: seq<Channel>, x: Channel, c: Channel)
    ensures LastUse(log + [x], c) == if x == c then |log| else LastUse(log, c)
  {
    assert (log + [x])[..|log|] == log;
  }

  lemma {:induction false} LastUseIn(log: seq<Channel>, c: Channel)
    ensures LastUse(log, c) < |log| && (LastUse(log, c) >= 0 <==> c in log)
  {
    if log != [] {
      LastUseIn(log[..|log| - 1], c);
      assert log == log[..|log| - 1] + [log[|log| - 1]];
    }
  }

  /** The channels stand in the order of their last use. */
  ghost predicate ByUse(channels: seq<Channel>, log: seq<Channel>) {
    && (forall i :: 0 <= i < |channels| ==> channels[i] in log)
    && (forall i, j :: 0 <= i < j < |channels| ==> LastUse(log, channels[i]) < LastUse(log, channels[j]))
  }

  lemma PushByUse(channels: seq<Channel>, log: seq<Channel>, c: Channel)
    requires ByUse(channels, log) && c !in channels
    ensures ByUse(channels + [c], log + [c])
  {
    var all, more := channels + [c], log + [c];
    forall i | 0 <= i < |channels|
      ensures all[i] in more && LastUse(more, all[i]) == LastUse(log, channels[i]) < |log|
    {
      LastUseSnoc(log, c, channels[i]);
      LastUseIn(log, channels[i]);
    }
    LastUseSnoc(log, c, c);
  }

  lemma RotateByUse(channels: seq<Channel>, log: seq<Channel>)
    requires channels != [] && NoDup(channels) && ByUse(channels, log)
    ensures ByUse(Rotated(channels), log + [channels[0]])
  {
    PushByUse(channels[1..], log, channels[0]);
  }

  /** Each connection that is offered is a new one. */
  ghost predicate AllNew(offers: seq<Option<Channel>>) {
    forall i, j :: 0 <= i < j < |offers| && offers[i].Some? ==> offers[i] != offers[j]
  }

  lemma {:induction false} PoolByUse(address: string, size: nat, offers: seq<Option<Channel>>)
    requires AllNew(offers)
    ensures var (p, log) := Played(address, size, offers);
            && |p.channels| <= p.size && NoDup(p.channels) && ByUse(p.channels, log)
            && forall c :: c in p.channels ==> Some(c) in offers
    decreases |offers|
  {
    if offers != [] {
      var n := |offers| - 1;
      assert offers == offers[..n] + [offers[n]];
      PoolByUse(address, size, offers[..n]);
      var (p, log) := Played(address, size, offers[..n]);
      TakeByUse(p, log, offers[n]);
    }
  }

  lemma TakeByUse(p: Pool, log: seq<Channel>, offer: Option<Channel>)
    requires p.size >= 1 && |p.channels| <= p.size && NoDup(p.channels) && ByUse(p.channels, log)
    requires offer.Some? ==> offer.value !in p.channels
    ensures var (q, c) := Take(p, offer);
            && |q.channels| <= q.size && NoDup(q.channels) && ByUse(q.channels, AsUsed(Seen(p, log, offer), c))
            && forall d :: d in q.channels ==> d in p.channels || offer == Some(d)
  {
    if |p.channels| < p.size {
      if offer.Some? {
        var grown := p.channels + [offer.value];
        PushByUse(p.channels, log, offer.value);
        RotatedSame(grown);
        RotateByUse(grown, log + [offer.value]);
      }
    } else {
      RotatedSame(p.channels);
      RotateByUse(p.channels, log);
    }
  }

  /**
    Full or still growing, whatever was refused before: a get hands out, of all the channels then in the pool, the one
    that was opened or handed out longest ago.
   */
  lemma LeastRecentlyUsed(address: string, size: nat, offers: seq<Option<Channel>>, offer: Option<Channel>)
    requires AllNew(offers + [offer])
    ensures var (p, log) := Played(address, size, offers);
            var (q, c) := Take(p, offer);
            c.Some? ==>
              && c.value in q.channels && c.value in Seen(p, log, offer)
              && forall d :: d in q.channels && d != c.value ==>
                LastUse(Seen(p, log, offer), c.value) < LastUse(Seen(p, log, offer), d)
  {
    assert forall i :: 0 <= i < |offers| ==> (offers + [offer])[i] == offers[i];
    assert (offers + [offer])[|offers|] == offer;
    PoolByUse(address, size, offers);
    var (p, log) := Played(address, size, offers);
    var (q, c) := Take(p, offer);
    if c.Some? {
      var pool := if |p.channels| < p.size then p.channels + [offer.value] else p.channels;
      if |p.channels| < p.size { PushByUse(p.channels, log, offer.value); }
      RotatedSame(pool);
      assert ByUse(pool, Seen(p, log, offer)) && c.value == pool[0];
    }
  }

  // ---- connections ever opened ---------------------------------------------------------------------------------

  /** How many channels a request throws away: those of a pool it replaces because the address changed. */
  function Discarded(m: Manager, req: Request): nat {
    if req.key in m.pools && m.pools[req.key].address != req.address then |m.pools[req.key].channels| else 0
  }

  ghost function DiscardedOver(m: Manager, reqs: seq<Request>): nat
    requires Valid(m)
    decreases |reqs|
  {
    if reqs == [] then 0
    else ConnectKeepsValid(m, reqs[0]); Discarded(m, reqs[0]) + DiscardedOver(Connect(m, reqs[0]).0, reqs[1..])
  }

  /** No request of the run replaces a pool that holds a channel. */
  ghost predicate NeverDiscards(m: Manager, reqs: seq<Request>)
    requires Valid(m)
  {
    forall i :: 0 <= i < |reqs| ==> Discarded(After(m, reqs[..i]), reqs[i]) == 0
  }

  lemma ConnectTotal(m: Manager, req: Request)
    requires Valid(m)
    ensures var n := Connect(m, req).0; Total(n.pools) - Total(m.pools) == n.dialled - m.dialled - Discarded(m, req)
  {
    ConnectIsLocal(m, req);
    var n, k := Connect(m, req).0, req.key;
    TotalSplit(n.pools, k);
    assert n.pools - {k} == m.pools - {k};
    if k in m.pools {
      TotalSplit(m.pools, k);
    } else {
      assert m.pools - {k} == m.pools;
    }
  }

  /** Conservation over any run: every channel opened is still pooled or was thrown away with its pool. */
  lemma {:induction false} OpenedBalance(m: Manager, reqs: seq<Request>)
    requires Valid(m)
    ensures After(m, reqs).dialled - m.dialled == Total(After(m, reqs).pools) - Total(m.pools) + DiscardedOver(m, reqs)
    decreases |reqs|
  {
    if reqs != [] {
      ConnectKeepsValid(m, reqs[0]);
      ConnectTotal(m, reqs[0]);
      OpenedBalance(Connect(m, reqs[0]).0, reqs[1..]);
    }
  }

  lemma {:induction false} DiscardsNothingIff(m: Manager, reqs: seq<Request>)
    requires Valid(m)
    ensures DiscardedOver(m, reqs) == 0 <==> NeverDiscards(m, reqs)
    decreases |reqs|
  {
    if reqs != [] {
      ConnectKeepsValid(m, reqs[0]);
      var n, rest := Connect(m, reqs[0]).0, reqs[1..];
      DiscardsNothingIff(n, rest);
      assert reqs[..0] == [];
      forall i | 0 <= i < |rest| ensures After(m, reqs[..i + 1]) == After(n, rest[..i]) {
        assert reqs[..i + 1][1..] == rest[..i];
      }
      if NeverDiscards(m, reqs) {
        forall i | 0 <= i < |rest| ensures Discarded(After(n, rest[..i]), rest[i]) == 0 {
          assert Discarded(After(m, reqs[..i + 1]), reqs[i + 1]) == 0;
        }
      }
      if Discarded(m, reqs[0]) == 0 && NeverDiscards(n, rest) {
        forall i | 0 <= i < |reqs| ensures Discarded(After(m, reqs[..i]), reqs[i]) == 0 {
          if i > 0 {
            assert Discarded(After(n, rest[..i - 1]), rest[i - 1]) == 0;
            assert After(m, reqs[..i - 1 + 1]) == After(n, rest[..i - 1]);
          }
        }
      }
    }
  }

  /** Every channel ever opened is still pooled if and only if no request replaced a pool that held one. */
  lemma AllStillPooledIff(size: nat, reqs: seq<Request>)
    requires size >= 1
    ensures var m := Manager(map[], size, 0);
            After(m, reqs).dialled == Total(After(m, reqs).pools) <==> NeverDiscards(m, reqs)
  {
    OpenedBalance(Manager(map[], size, 0), reqs);
    DiscardsNothingIff(Manager(map[], size, 0), reqs);
  }

  /** The bound holds for all channels ever opened iff those thrown away would still fit beside the pooled ones. */
  lemma OpenedIsBoundedIff(size: nat, reqs: seq<Request>)
    requires size >= 1
    ensures var m := Manager(map[], size, 0);
            var n := After(m, reqs);
            && (n.dialled <= size * |n.pools| <==> DiscardedOver(m, reqs) <= size * |n.pools| - Total(n.pools))
            && (NeverDiscards(m, reqs) ==> n.dialled <= size * |n.pools|)
  {
    var m := Manager(map[], size, 0);
    OpenedBalance(m, reqs);
    DiscardsNothingIff(m, reqs);
    RunIsBounded(m, reqs);
  }

  /** A node whose address flips: every request opens a connection although one pool of one channel is all there is. */
  ghost function Flips(key: Key, n: nat, a: string, b: string): seq<Request> {
    if n == 0 then [] else [Request(key, a, true)] + Flips(key, n - 1, b, a)
  }

  lemma {:induction false} FlippingOpensEachTime(m: Manager, key: Key, n: nat, a: string, b: string)
    requires Valid(m) && a != b && (key in m.pools ==> m.pools[key].address != a)
    ensures After(m, Flips(key, n, a, b)).dialled == m.dialled + n
    decreases n
  {
    if n > 0 {
      var reqs := Flips(key, n, a, b);
      ConnectKeepsValid(m, reqs[0]);
      ConnectIsLocal(m, reqs[0]);
      assert reqs[1..] == Flips(key, n - 1, b, a);
      FlippingOpensEachTime(Connect(m, reqs[0]).0, key, n - 1, b, a);
    }
  }
}

module ConnectionPool {
  import opened Common
  import opened RoundRobin

  class ServiceConnectionPool {
    var channels: seq<Channel>
    const poolSize: nat
    const address: string

    function Value(): Pool
      reads this
    {
      Pool(channels, poolSize, address)
    }

    constructor (address: string, size: nat)
      ensures Value() == NewPool(address, size)
    {
      this.channels := [];
      this.poolSize := if size < 1 then 1 else size;
      this.address := address;
    }

    /** `get_with_tls`; `offer` is the connection the endpoint would yield, if its address is acceptable. */
    method GetWithTls(offer: Option<Channel>) returns (r: Option<Channel>)
      requires poolSize >= 1
      modifies this
      ensures (Value(), r) == Take(old(Value()), offer)
    {
      if |channels| < poolSize {
        if offer.None? {
          return None;
        }
        channels := channels + [offer.value];
      }
      channels := channels[1..] + [channels[0]];
      r := Some(channels[|channels| - 1]);
    }
  }

  class GrpcConnectionManager {
    var pools: map<Key, ServiceConnectionPool>
    var dialled: nat
    const poolSize: nat

    /** Every key owns its pool. */
    ghost predicate Separate()
      reads this
    {
      forall j, k :: j in pools && k in pools && j != k ==> pools[j] != pools[k]
    }

    ghost function Contents(): map<Key, Pool>
      reads this, pools.Values
    {
      map k | k in pools :: pools[k].Value()
    }

    ghost function State(): Manager
      reads this, pools.Values
    {
      Manager(Contents(), poolSize, dialled)
    }

    constructor (size: Option<nat>)
      ensures Separate() && Valid(State())
      ensures State() == Manager(map[], match size case None => 2 case Some(n) => if n < 1 then 1 else n, 0)
    {
      pools, dialled := map[], 0;
      poolSize := match size case None => 2 case Some(n) => if n < 1 then 1 else n;
    }

    /** The entry of `key`, made if it is missing and replaced if it is for another address. */
    method Entry(key: Key, address: string) returns (pool: ServiceConnectionPool)
      requires Separate()
      modifies this`pools
      ensures pool in old(pools).Values || fresh(pool)
      ensures Separate() && pools == old(pools)[key := pool]
      ensures pool.Value() == if key in old(pools) && old(pools)[key].address == address
                              then old(pools[key].Value()) else NewPool(address, poolSize)
    {
      if key in pools && pools[key].address == address {
        pool := pools[key];
        assert pools == pools[key := pool];
      } else {
        pool := new ServiceConnectionPool(address, poolSize);
        pools := pools[key := pool];
      }
    }

    /** Take from the entry of `key`; `grew` is whether a connection was opened for it. */
    method Serve(key: Key, address: string, offer: Option<Channel>)
      returns (r: Option<Channel>, grew: bool, ghost p: Pool)
      requires Separate() && poolSize >= 1 && (key in pools ==> pools[key].poolSize >= 1)
      modifies this`pools, pools.Values
      ensures Separate() && Contents() == old(Contents())[key := p]
      ensures var found := Located(old(Contents()), key, address, poolSize);
              (p, r) == Take(found, offer) && grew == (offer.Some? && |found.channels| < found.size)
    {
      ghost var before := Contents();
      var pool := Entry(key, address);
      ghost var found := pool.Value();
      assert found == Located(before, key, address, poolSize);
      grew := offer.Some? && |pool.channels| < pool.poolSize;
      r := pool.GetWithTls(offer);
      p := pool.Value();
      OthersKept(before, key, p);
    }

    /** `get_connection`: a pool for another address is replaced before it is used. */
    method GetConnection(key: Key, address: string, connectable: bool) returns (r: Option<Channel>)
      requires Separate() && Valid(State())
      modifies this, pools.Values
      ensures Separate() && Valid(State())
      ensures (State(), r) == Connect(old(State()), Request(key, address, connectable))
    {
      ghost var before, req := State(), Request(key, address, connectable);
      SizeOk(before, key);
      var grew: bool;
      ghost var p: Pool;
      r, grew, p := Serve(key, address, if connectable then Some(Channel(dialled, address)) else None);
      assert grew == Opens(before, req);
      dialled := if grew then dialled + 1 else dialled;
      assert Contents() == before.pools[key := p];
      Served(before, req, p, r, State());
    }

    lemma OthersKept(before: map<Key, Pool>, key: Key, p: Pool)
      requires key in pools && pools[key].Value() == p && pools.Keys == before.Keys + {key}
      requires forall k :: k in before && k != key ==> pools[k].Value() == before[k]
      ensures Contents() == before[key := p]
    {
    }
  }

  lemma SizeOk(m: Manager, key: Key)
    requires Valid(m)
    ensures m.size >= 1 && (key in m.pools ==> m.pools[key].size >= 1)
  {
  }

  lemma Served(m: Manager, req: Request, p: Pool, c: Option<Channel>, n: Manager)
    requires Valid(m) && (p, c) == Take(PoolFor(m, req), Offer(m, req))
    requires n == Manager(m.pools[req.key := p], m.size, if Opens(m, req) then m.dialled + 1 else m.dialled)
    ensures (n, c) == Connect(m, req) && Valid(n)
  {
    ConnectKeepsValid(m, req);
  }
}
