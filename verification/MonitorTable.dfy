/** The one-way monitor table of one node, as values, and what a terminating actor sends to its watchers. */
module MonitorTable {
  import opened Common
  import opened ActorIds

  /** Scope of the call that set up the monitor; replayed when its notification is delivered. */
  datatype Scope = Scope(tenant: string, namespace: string)

  datatype MonitorLink = MonitorLink(ref: string, watcher: ActorId, scope: Scope)

  type Monitors = map<ActorId, seq<MonitorLink>>

  datatype Down = Down(ref: string, watcher: ActorId, target: ActorId, scope: Scope, reasonText: string)

  function Watchers(m: Monitors, target: ActorId): seq<MonitorLink> { if target in m then m[target] else [] }

  function WithoutRef(s: seq<MonitorLink>, ref: string): (r: seq<MonitorLink>)
    ensures forall l :: l in r <==> l in s && l.ref != ref
  {
    if s == [] then []
    else
      assert s == [s[0]] + s[1..];
      (if s[0].ref == ref then [] else [s[0]]) + WithoutRef(s[1..], ref)
  }

  function WithoutWatcher(s: seq<MonitorLink>, a: ActorId): (r: seq<MonitorLink>)
    ensures forall l :: l in r <==> l in s && l.watcher != a
  {
    if s == [] then []
    else
      assert s == [s[0]] + s[1..];
      (if s[0].watcher == a then [] else [s[0]]) + WithoutWatcher(s[1..], a)
  }

  function AddMonitor(m: Monitors, target: ActorId, link: MonitorLink): Monitors {
    m[target := Watchers(m, target) + [link]]
  }

  function RemoveMonitor(m: Monitors, target: ActorId, ref: string): Monitors {
    if target !in m then m
    else if WithoutRef(m[target], ref) == [] then m - {target}
    else m[target := WithoutRef(m[target], ref)]
  }

  /** `cleanup_monitors_for_actor`: gone as a target, gone as a watcher, empty lists pruned. */
  function CleanupMonitors(m: Monitors, a: ActorId): Monitors {
    map t | t in m && t != a && WithoutWatcher(m[t], a) != [] :: WithoutWatcher(m[t], a)
  }

  /** `remove_monitors_for_actors`, used by the collector of stale remote targets. */
  function RemoveTargets(m: Monitors, stale: set<ActorId>): Monitors { m - stale }

  /** One notification per watcher, in registration order. */
  function Downs(s: seq<MonitorLink>, target: ActorId, text: string): seq<Down> {
    seq(|s|, i requires 0 <= i < |s| => Down(s[i].ref, s[i].watcher, target, s[i].scope, text))
  }

  /** The first of a list comes before whatever is retained of the others. */
  lemma FirstComesFirst(s: seq<MonitorLink>, rest: seq<MonitorLink>, when: MonitorLink -> int)
    requires s != [] && InOrder(s, when) && InOrder(rest, when) && forall l :: l in rest ==> l in s[1..]
    ensures InOrder([s[0]] + rest, when)
  {
    forall i | 0 <= i < |rest| ensures when(s[0]) < when(rest[i]) {
      assert rest[i] in s[1..];
      var k :| 0 <= k < |s[1..]| && s[1..][k] == rest[i];
      assert s[k + 1] == rest[i];
    }
  }

  lemma {:induction false} WithoutRefInOrder(s: seq<MonitorLink>, ref: string, when: MonitorLink -> int)
    requires InOrder(s, when)
    ensures InOrder(WithoutRef(s, ref), when)
  {
    if s != [] {
      WithoutRefInOrder(s[1..], ref, when);
      FirstComesFirst(s, WithoutRef(s[1..], ref), when);
      assert [] + WithoutRef(s[1..], ref) == WithoutRef(s[1..], ref);
    }
  }

  lemma {:induction false} WithoutWatcherInOrder(s: seq<MonitorLink>, a: ActorId, when: MonitorLink -> int)
    requires InOrder(s, when)
    ensures InOrder(WithoutWatcher(s, a), when)
  {
    if s != [] {
      WithoutWatcherInOrder(s[1..], a, when);
      FirstComesFirst(s, WithoutWatcher(s[1..], a), when);
      assert [] + WithoutWatcher(s[1..], a) == WithoutWatcher(s[1..], a);
    }
  }

  lemma {:induction false} KeepAll(s: seq<MonitorLink>, a: ActorId)
    requires forall l :: l in s ==> l.watcher != a
    ensures WithoutWatcher(s, a) == s
  {
    if s != [] {
      assert s[0] in s;
      KeepAll(s[1..], a);
    }
  }

  lemma CleanupTwice(m: Monitors, a: ActorId)
    ensures var once := CleanupMonitors(m, a); CleanupMonitors(once, a) == once && Watchers(once, a) == []
  {
    var once := CleanupMonitors(m, a);
    forall t | t in once ensures WithoutWatcher(once[t], a) == once[t] { KeepAll(once[t], a); }
  }
}
