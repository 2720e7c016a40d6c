/** The node-local tables of `ActorRegistry` that its methods update in place. */
module ActorRegistries {
  import opened Common
  import opened ActorIds
  import S = Supervision
  import opened RegistryIndex

  class ActorRegistry {
    var actors: map<ScopedKey, Sender>
    var registered: set<ScopedKey>
    var typeIndex: map<TypeKey, seq<ActorId>>
    var parentToChildren: S.Children
    var childToParent: S.Parents

    ghost function Registration(): Tables
      reads this
    {
      Tables(actors, registered, typeIndex)
    }

    ghost function Forest(): S.Forest
      reads this
    {
      S.Forest(parentToChildren, childToParent)
    }

    constructor ()
      ensures Registration() == RunOps([]) && Forest() == S.RunOps([])
    {
      actors, registered, typeIndex := map[], {}, map[];
      parentToChildren, childToParent := map[], map[];
    }

    method RegisterActor(key: ScopedKey, actorType: string, sender: Sender)
      modifies this
      ensures Registration() == Apply(old(Registration()), Register(key, actorType, sender))
      ensures Forest() == old(Forest())
    {
      var wasNew := key !in actors;
      actors := actors[key := sender];
      if wasNew {
        registered := registered + {key};
      }
      AddToIndex(TypeKeyOf(key, actorType), key.id);
    }

    method RegisterVirtualActorIndex(key: ScopedKey, actorType: string)
      modifies this
      ensures Registration() == Apply(old(Registration()), RegisterVirtual(key, actorType))
      ensures Forest() == old(Forest())
    {
      registered := registered + {key};
      AddToIndex(TypeKeyOf(key, actorType), key.id);
    }

    method AddToIndex(k: TypeKey, id: ActorId)
      modifies this`typeIndex
      ensures typeIndex == IndexAdd(old(typeIndex), k, id)
    {
      if k !in typeIndex {
        typeIndex := typeIndex[k := []];
      }
      if id !in typeIndex[k] {
        typeIndex := typeIndex[k := typeIndex[k] + [id]];
      }
    }

    method RemoveLiveActorRuntime(id: ActorId)
      modifies this
      ensures Registration() == Apply(old(Registration()), Passivate(id))
      ensures Forest() == old(Forest())
    {
      actors := map k | k in actors && k.id != id :: actors[k];
    }

    method EraseFromIndex(id: ActorId)
      modifies this`typeIndex
      ensures typeIndex == IndexErase(old(typeIndex), id)
    {
      var index, todo := typeIndex, typeIndex.Keys;
      while todo != {}
        invariant todo <= index.Keys == typeIndex.Keys
        invariant forall k :: k in index ==> index[k] == if k in todo then typeIndex[k] else Without(typeIndex[k], id)
        decreases |todo|
      {
        var k :| k in todo;
        todo := todo - {k};
        index := index[k := Without(index[k], id)];
      }
      typeIndex := map k | k in index && index[k] != [] :: index[k];
    }

    method Unregister(id: ActorId)
      modifies this
      ensures Registration() == Apply(old(Registration()), RegistryIndex.Unregister(id))
      ensures Forest() == old(Forest())
    {
      actors := map k | k in actors && k.id != id :: actors[k];
      EraseFromIndex(id);
      registered := set k | k in registered && k.id != id;
    }

    method EraseFromParents(id: ActorId)
      modifies this`parentToChildren
      ensures parentToChildren == S.Forget(old(Forest()), id).children
    {
      var lists, todo := parentToChildren, parentToChildren.Keys;
      while todo != {}
        invariant todo <= lists.Keys == parentToChildren.Keys
        invariant forall p :: p in lists ==>
                    lists[p] == if p in todo then parentToChildren[p] else Without(parentToChildren[p], id)
        decreases |todo|
      {
        var p :| p in todo;
        todo := todo - {p};
        lists := lists[p := Without(lists[p], id)];
      }
      parentToChildren := map p | p in lists && lists[p] != [] :: lists[p];
    }

    method UnregisterWithCleanup(id: ActorId)
      modifies this
      ensures Registration() == Apply(old(Registration()), RegistryIndex.Unregister(id))
      ensures Forest() == S.Forget(old(Forest()), id)
    {
      actors := map k | k in actors && k.id != id :: actors[k];
      EraseFromIndex(id);
      EraseFromParents(id);
      childToParent := childToParent - {id};
      registered := set k | k in registered && k.id != id;
    }

    /** Unscoped lookup fails closed: it answers only if exactly one scope has a live actor with this identity. */
    method LookupActor(id: ActorId) returns (r: Option<Sender>)
      ensures r.Some? <==> exists k :: k in actors && k.id == id && forall o :: o in actors && o.id == id ==> o == k
      ensures r.Some? ==> exists k :: k in actors && k.id == id && r.value == actors[k]
    {
      var found: Option<ScopedKey> := None;
      var todo := actors.Keys;
      while todo != {}
        invariant todo <= actors.Keys
        invariant found.Some? ==> found.value in actors && found.value.id == id && found.value !in todo
        invariant forall k :: k in actors && k.id == id && k !in todo ==> found == Some(k)
        decreases |todo|
      {
        var k :| k in todo;
        todo := todo - {k};
        if k.id == id {
          if found.Some? {
            assert found.value != k;
            return None;
          }
          found := Some(k);
        }
      }
      r := if found.Some? then Some(actors[found.value]) else None;
    }

    method RegisterParentChild(p: ActorId, c: ActorId)
      modifies this`parentToChildren, this`childToParent
      ensures Forest() == S.Adopt(old(Forest()), p, c)
    {
      if c in childToParent {
        var oldParent := childToParent[c];
        if oldParent in parentToChildren {
          parentToChildren := parentToChildren[oldParent := Without(parentToChildren[oldParent], c)];
          if parentToChildren[oldParent] == [] {
            parentToChildren := parentToChildren - {oldParent};
          }
        }
      }
      if p !in parentToChildren {
        parentToChildren := parentToChildren[p := []];
      }
      parentToChildren := parentToChildren[p := parentToChildren[p] + [c]];
      childToParent := childToParent[c := p];
    }

    method UnregisterParentChild(p: ActorId, c: ActorId)
      modifies this`parentToChildren, this`childToParent
      ensures Forest() == S.Disown(old(Forest()), p, c)
    {
      if p in parentToChildren {
        parentToChildren := parentToChildren[p := Without(parentToChildren[p], c)];
        if parentToChildren[p] == [] {
          parentToChildren := parentToChildren - {p};
        }
      }
      childToParent := childToParent - {c};
    }

    method GetChildren(p: ActorId) returns (r: seq<ActorId>)
      ensures r == S.ChildrenOf(parentToChildren, p)
    {
      r := if p in parentToChildren then parentToChildren[p] else [];
    }

    /**
      The walk meets exactly what is below the root, and under the one-parent invariant each actor once, in
      nondecreasing depth. It is only called where it returns (`Supervision.WalkEndsIffNoLoop` says when that is).
     */
    method GetSubtree(root: ActorId) returns (result: seq<ActorId>)
      requires S.WalkEnds(parentToChildren, root)
      ensures forall x :: x in result <==> S.Down(parentToChildren, root, x)
      ensures S.Inverse(Forest()) ==> S.IsSubtree(Forest(), root, result)
    {
      ghost var f, done: seq<ActorId>, left: nat := Forest(), [], 0;
      left :| S.QueueAfter(f.children, [root], left) == [];
      result := [];
      var queue := [root];
      ghost var single := S.Inverse(f);
      if single { S.WalkEndsIff(f, root); S.WalkStart(f, root); }
      S.SpansStart(f.children, root);
      while queue != []
        invariant single ==> S.WalkInv(f, root, done, queue)
        invariant S.Spans(f.children, root, done, queue, result)
        invariant [root] + result == done + queue
        invariant S.QueueAfter(f.children, queue, left) == []
        decreases left
      {
        if single { S.WalkStep(f, root, done, queue); }
        S.SpansStep(f.children, root, done, queue, result);
        var children := GetChildren(queue[0]);
        S.TurnKeepsMet(root, result, done, queue, children);
        done, left := done + [queue[0]], left - 1;
        result, queue := EnqueueAll(children, result, queue[1..]);
      }
      S.TurnKeepsMet(root, result, done, queue, []);
      S.SpansDone(f.children, root, done, result);
      if single { S.WalkDone(f, root, done); }
    }

    /** The inner loop: every child goes to the result and to the back of the queue. */
    static method EnqueueAll(children: seq<ActorId>, result0: seq<ActorId>, queue0: seq<ActorId>)
      returns (result: seq<ActorId>, queue: seq<ActorId>)
      ensures result == result0 + children && queue == queue0 + children
    {
      result, queue := result0, queue0;
      for i := 0 to |children|
        invariant result == result0 + children[..i] && queue == queue0 + children[..i]
      {
        result := result + [children[i]];
        queue := queue + [children[i]];
      }
    }
  }
}
