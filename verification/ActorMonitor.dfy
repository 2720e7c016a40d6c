/** The mutable monitor and link tables of a node, and the handler that runs when an actor ends. */
module ActorMonitors {
  import opened Common
  import opened ActorIds
  import opened ExitReasons
  import opened LinkTable
  import opened MonitorTable

  /** An `__EXIT__` message with its `exit_from` and `exit_reason` headers. */
  datatype Exit = Exit(to: ActorId, from: ActorId, reasonText: string)

  function Exits(peers: seq<ActorId>, from: ActorId, reason: ExitReason): seq<Exit> {
    seq(|peers|, i requires 0 <= i < |peers| => Exit(peers[i], from, ReasonText(reason)))
  }

  class ActorMonitor {
    var monitors: Monitors
    var links: Links

    constructor ()
      ensures monitors == map[] && links == map[]
    {
      monitors, links := map[], map[];
    }

    method AddMonitor(target: ActorId, watcher: ActorId, ref: string, scope: Scope)
      modifies this`monitors
      ensures monitors == MonitorTable.AddMonitor(old(monitors), target, MonitorLink(ref, watcher, scope))
    {
      if target !in monitors {
        monitors := monitors[target := []];
      }
      monitors := monitors[target := monitors[target] + [MonitorLink(ref, watcher, scope)]];
    }

    method RemoveMonitor(target: ActorId, ref: string)
      modifies this`monitors
      ensures monitors == MonitorTable.RemoveMonitor(old(monitors), target, ref)
    {
      if target in monitors {
        monitors := monitors[target := WithoutRef(monitors[target], ref)];
        if monitors[target] == [] {
          monitors := monitors - {target};
        }
      }
    }

    method GetMonitors(target: ActorId) returns (r: seq<MonitorLink>)
      ensures r == Watchers(monitors, target)
    {
      r := if target in monitors then monitors[target] else [];
    }

    method RemoveMonitorsForActors(stale: set<ActorId>)
      modifies this`monitors
      ensures monitors == RemoveTargets(old(monitors), stale)
    {
      monitors := monitors - stale;
    }

    method CleanupMonitorsForActor(a: ActorId)
      modifies this`monitors
      ensures monitors == CleanupMonitors(old(monitors), a)
    {
      monitors := RetainOthers(monitors - {a}, a);
    }

    /** `retain` over all lists, each retaining the other watchers and going if it became empty. */
    static method RetainOthers(start: Monitors, a: ActorId) returns (kept: Monitors)
      ensures kept == map t | t in start && WithoutWatcher(start[t], a) != [] :: WithoutWatcher(start[t], a)
    {
      kept := map[];
      var todo := start.Keys;
      while todo != {}
        invariant todo <= start.Keys
        invariant kept == map t | t in start && t !in todo && WithoutWatcher(start[t], a) != [] ::
          WithoutWatcher(start[t], a)
        decreases |todo|
      {
        var t :| t in todo;
        todo := todo - {t};
        var left := WithoutWatcher(start[t], a);
        if left != [] {
          kept := kept[t := left];
        }
      }
    }

    method AddLink(a: ActorId, b: ActorId) returns (ok: bool)
      modifies this`links
      ensures ok <==> a != b
      ensures links == LinkTable.AddLink(old(links), a, b)
    {
      if a == b {
        return false;
      }
      if a !in links {
        links := links[a := []];
      }
      if b !in links[a] {
        links := links[a := links[a] + [b]];
      }
      if b !in links {
        links := links[b := []];
      }
      if a !in links[b] {
        links := links[b := links[b] + [a]];
      }
      ok := true;
    }

    method RemoveLink(a: ActorId, b: ActorId)
      modifies this`links
      ensures links == LinkTable.RemoveLink(old(links), a, b)
    {
      if a in links {
        links := links[a := Without(links[a], b)];
        if links[a] == [] {
          links := links - {a};
        }
      }
      if b in links {
        links := links[b := Without(links[b], a)];
        if links[b] == [] {
          links := links - {b};
        }
      }
    }

    method GetLinks(a: ActorId) returns (r: seq<ActorId>)
      ensures r == Peers(links, a)
    {
      r := if a in links then links[a] else [];
    }

    method CleanupLinksForActor(a: ActorId)
      modifies this`links
      ensures links == CleanupLinks(old(links), a)
    {
      var l, todo := links, links.Keys;
      while todo != {}
        invariant todo <= l.Keys == links.Keys
        invariant forall k :: k in l ==> l[k] == if k in todo || k == a then links[k] else Without(links[k], a)
        decreases |todo|
      {
        var other :| other in todo;
        todo := todo - {other};
        if other != a {
          l := l[other := Without(l[other], a)];
        }
      }
      links := l - {a};
    }
  }

  /**
    `handle_actor_termination`: one notification to every watcher, whatever the reason; an exit message to every
    linked peer if the reason is an error; then the actor leaves both tables.
   */
  method HandleActorTermination(tables: ActorMonitor, a: ActorId, reason: ExitReason)
    returns (downs: seq<Down>, exits: seq<Exit>)
    modifies tables
    ensures downs == Downs(Watchers(old(tables.monitors), a), a, ReasonText(reason))
    ensures exits == if reason.Error? || reason.Linked? then Exits(Peers(old(tables.links), a), a, reason) else []
    ensures |downs| == |Watchers(old(tables.monitors), a)|
    ensures forall i :: 0 <= i < |downs| ==>
      var w := Watchers(old(tables.monitors), a)[i];
      && downs[i].watcher == w.watcher && downs[i].ref == w.ref && downs[i].scope == w.scope
      && downs[i].target == a && downs[i].reasonText == ReasonText(reason)
    ensures forall i :: 0 <= i < |exits| ==>
      && exits[i].to == Peers(old(tables.links), a)[i] && exits[i].from == a
      && exits[i].reasonText == ReasonText(reason)
    ensures tables.monitors == CleanupMonitors(old(tables.monitors), a)
    ensures tables.links == CleanupLinks(old(tables.links), a)
  {
    downs, exits := [], [];
    var watchers := tables.GetMonitors(a);
    var text := ReasonText(reason);
    for i := 0 to |watchers|
      invariant downs == Downs(watchers, a, text)[..i]
    {
      downs := downs + [Down(watchers[i].ref, watchers[i].watcher, a, watchers[i].scope, text)];
    }
    if IsError(reason) {
      var peers := tables.GetLinks(a);
      for i := 0 to |peers|
        invariant exits == Exits(peers, a, reason)[..i]
      {
        exits := exits + [Exit(peers[i], a, text)];
      }
    }
    tables.CleanupMonitorsForActor(a);
    tables.CleanupLinksForActor(a);
  }

  /**
    Handling the same end again, for whatever reason, finds nobody to tell and nobody to pull down, and leaves both
    tables as they are.
   */
  lemma TerminationIsIdempotent(monitors: Monitors, links: Links, a: ActorId, again: ExitReason)
    ensures var m, l := CleanupMonitors(monitors, a), CleanupLinks(links, a);
            && Downs(Watchers(m, a), a, ReasonText(again)) == [] && Exits(Peers(l, a), a, again) == []
            && CleanupMonitors(m, a) == m && CleanupLinks(l, a) == l
  {
    CleanupTwice(monitors, a);
  }
}
