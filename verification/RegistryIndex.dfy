/** The three registration tables of `ActorRegistry`, as values: live senders, registered entries, type index. */
module RegistryIndex {
  import opened Common
  import opened ActorIds

  datatype ScopedKey = ScopedKey(tenant: string, namespace: string, id: ActorId)

  datatype TypeKey = TypeKey(tenant: string, namespace: string, actorType: string)

  /** A handle of a registered message sender. */
  type Sender = nat

  datatype Tables = Tables(live: map<ScopedKey, Sender>, registered: set<ScopedKey>, index: map<TypeKey, seq<ActorId>>)

  function Members(index: map<TypeKey, seq<ActorId>>, k: TypeKey): seq<ActorId> { if k in index then index[k] else [] }

  function IndexAdd(index: map<TypeKey, seq<ActorId>>, k: TypeKey, id: ActorId): map<TypeKey, seq<ActorId>> {
    if id in Members(index, k) then index else index[k := Members(index, k) + [id]]
  }

  function IndexErase(index: map<TypeKey, seq<ActorId>>, id: ActorId): map<TypeKey, seq<ActorId>> {
    map k | k in index && Without(index[k], id) != [] :: Without(index[k], id)
  }

  function LiveErase(live: map<ScopedKey, Sender>, id: ActorId): map<ScopedKey, Sender> {
    map k | k in live && k.id != id :: live[k]
  }

  datatype Op =
    | Register(key: ScopedKey, actorType: string, sender: Sender)
    | RegisterVirtual(key: ScopedKey, actorType: string)
    | Passivate(id: ActorId)
    | Unregister(id: ActorId)

  function TypeKeyOf(key: ScopedKey, actorType: string): TypeKey { TypeKey(key.tenant, key.namespace, actorType) }

  /** `register_actor` adds a registered entry only when the live entry is new. */
  function Apply(t: Tables, op: Op): Tables {
    match op
    case Register(key, ty, sender) =>
      Tables(t.live[key := sender], if key in t.live then t.registered else t.registered + {key},
             IndexAdd(t.index, TypeKeyOf(key, ty), key.id))
    case RegisterVirtual(key, ty) =>
      Tables(t.live, t.registered + {key}, IndexAdd(t.index, TypeKeyOf(key, ty), key.id))
    case Passivate(id) => t.(live := LiveErase(t.live, id))
    case Unregister(id) =>
      Tables(LiveErase(t.live, id), (set k | k in t.registered && k.id != id), IndexErase(t.index, id))
  }

  ghost predicate Indexed(index: map<TypeKey, seq<ActorId>>, key: ScopedKey) {
    exists ty :: key.id in Members(index, TypeKeyOf(key, ty))
  }

  /**
    Live senders are registered; registered entries and index members cover each other scope by scope; index lists
    are non-empty and without duplicates.
   */
  ghost predicate Coherent(t: Tables) {
    && t.live.Keys <= t.registered
    && (forall key :: key in t.registered <==> Indexed(t.index, key))
    && (forall k :: k in t.index ==> t.index[k] != [] && NoDup(t.index[k]))
  }

  lemma IndexAddMembers(index: map<TypeKey, seq<ActorId>>, k: TypeKey, id: ActorId, key: ScopedKey)
    ensures Indexed(IndexAdd(index, k, id), key) <==>
            Indexed(index, key) || (key.id == id && key.tenant == k.tenant && key.namespace == k.namespace)
  {
    var index' := IndexAdd(index, k, id);
    forall ty ensures key.id in Members(index', TypeKeyOf(key, ty)) <==>
                      key.id in Members(index, TypeKeyOf(key, ty)) || (key.id == id && TypeKeyOf(key, ty) == k) {}
    if key.id == id && key.tenant == k.tenant && key.namespace == k.namespace {
      assert TypeKeyOf(key, k.actorType) == k;
    }
  }

  lemma IndexEraseMembers(index: map<TypeKey, seq<ActorId>>, id: ActorId, key: ScopedKey)
    ensures Indexed(IndexErase(index, id), key) <==> Indexed(index, key) && key.id != id
  {
    forall ty ensures key.id in Members(IndexErase(index, id), TypeKeyOf(key, ty)) <==>
                      key.id in Members(index, TypeKeyOf(key, ty)) && key.id != id {}
  }

  lemma StepKeepsCoherent(t: Tables, op: Op)
    requires Coherent(t)
    ensures Coherent(Apply(t, op))
  {
    match op
    case Register(key, ty, _) => AddKeepsCoherent(t, op, key, ty);
    case RegisterVirtual(key, ty) => AddKeepsCoherent(t, op, key, ty);
    case Passivate(_) =>
    case Unregister(id) => EraseKeepsCoherent(t, id);
  }

  lemma AddKeepsCoherent(t: Tables, op: Op, key: ScopedKey, ty: string)
    requires Coherent(t) && ((op.Register? && op.key == key && op.actorType == ty) || op == RegisterVirtual(key, ty))
    ensures Coherent(Apply(t, op))
  {
    var t', tk := Apply(t, op), TypeKeyOf(key, ty);
    IndexAddTidy(t.index, tk, key.id);
    forall k ensures k in t'.registered <==> Indexed(t'.index, k) { IndexAddMembers(t.index, tk, key.id, k); }
  }

  lemma IndexAddTidy(index: map<TypeKey, seq<ActorId>>, k: TypeKey, id: ActorId)
    requires forall j :: j in index ==> index[j] != [] && NoDup(index[j])
    ensures var index' := IndexAdd(index, k, id); forall j :: j in index' ==> index'[j] != [] && NoDup(index'[j])
  {
  }

  lemma EraseKeepsCoherent(t: Tables, id: ActorId)
    requires Coherent(t)
    ensures Coherent(Apply(t, Unregister(id)))
  {
    var t' := Apply(t, Unregister(id));
    forall k ensures k in t'.registered <==> Indexed(t'.index, k) { IndexEraseMembers(t.index, id, k); }
    forall k | k in t'.index ensures NoDup(t'.index[k]) { WithoutNoDup(t.index[k], id); }
  }

  function RunOps(ops: seq<Op>): Tables {
    if ops == [] then Tables(map[], {}, map[]) else Apply(RunOps(ops[..|ops| - 1]), ops[|ops| - 1])
  }

  /** Every run of register, index, passivate and unregister leaves the three tables coherent. */
  lemma {:induction false} RunKeepsCoherent(ops: seq<Op>)
    ensures Coherent(RunOps(ops))
  {
    if ops == [] {
      forall key ensures !Indexed(RunOps([]).index, key) {}
    } else {
      RunKeepsCoherent(ops[..|ops| - 1]);
      StepKeepsCoherent(RunOps(ops[..|ops| - 1]), ops[|ops| - 1]);
    }
  }

  ghost predicate Mentions(t: Tables, id: ActorId) {
    || (exists k :: k in t.live && k.id == id)
    || (exists k :: k in t.registered && k.id == id)
    || (exists k :: id in Members(t.index, k))
  }

  /** Unregistering erases the identity from all three tables, in every scope, and touches no other identity. */
  lemma UnregisterErases(t: Tables, id: ActorId)
    ensures !Mentions(Apply(t, Unregister(id)), id)
    ensures forall k: ScopedKey :: k.id != id ==>
              var t' := Apply(t, Unregister(id));
              && (k in t'.live <==> k in t.live) && (k in t.live ==> t'.live[k] == t.live[k])
              && (k in t'.registered <==> k in t.registered)
              && (Indexed(t'.index, k) <==> Indexed(t.index, k))
  {
    forall k: ScopedKey | k.id != id ensures Indexed(Apply(t, Unregister(id)).index, k) <==> Indexed(t.index, k) {
      IndexEraseMembers(t.index, id, k);
    }
  }

  // ---- the tables as history ----------------------------------------------------------------------------

  /** The last call that decides the matter, made or ended, made it. */
  ghost predicate Stands(ops: seq<Op>, makes: Op -> bool, ends: Op -> bool) {
    exists i :: 0 <= i < |ops| && makes(ops[i]) && forall j :: i < j < |ops| ==> !ends(ops[j])
  }

  lemma StandsSnoc(ops: seq<Op>, op: Op, makes: Op -> bool, ends: Op -> bool)
    ensures Stands(ops + [op], makes, ends) <==> makes(op) || (Stands(ops, makes, ends) && !ends(op))
  {
    var all := ops + [op];
    assert all[|ops|] == op && forall j :: 0 <= j < |ops| ==> all[j] == ops[j];
    if Stands(ops, makes, ends) && !ends(op) {
      var i :| 0 <= i < |ops| && makes(ops[i]) && forall j :: i < j < |ops| ==> !ends(ops[j]);
      assert makes(all[i]);
    }
    if Stands(all, makes, ends) && !makes(op) {
      var i :| 0 <= i < |all| && makes(all[i]) && forall j :: i < j < |all| ==> !ends(all[j]);
      assert makes(ops[i]) && forall j :: i < j < |ops| ==> !ends(ops[j]);
    }
  }

  predicate Sets(op: Op, key: ScopedKey, sender: Sender) { op.Register? && op.key == key && op.sender == sender }

  predicate EndsLive(op: Op, key: ScopedKey) {
    (op.Register? && op.key == key) || ((op.Passivate? || op.Unregister?) && op.id == key.id)
  }

  predicate Enters(op: Op, key: ScopedKey) { (op.Register? || op.RegisterVirtual?) && op.key == key }

  predicate EntersAs(op: Op, key: ScopedKey, ty: string) { Enters(op, key) && op.actorType == ty }

  predicate Erases(op: Op, key: ScopedKey) { op.Unregister? && op.id == key.id }

  lemma IndexOne(t: Tables, op: Op, key: ScopedKey, ty: string)
    ensures key.id in Members(Apply(t, op).index, TypeKeyOf(key, ty)) <==>
            EntersAs(op, key, ty) || (key.id in Members(t.index, TypeKeyOf(key, ty)) && !Erases(op, key))
  {
    if op.Register? || op.RegisterVirtual? {
      assert op.key.id == key.id && TypeKeyOf(op.key, op.actorType) == TypeKeyOf(key, ty) <==> EntersAs(op, key, ty);
    }
  }

  lemma RegisteredOne(t: Tables, op: Op, key: ScopedKey)
    requires t.live.Keys <= t.registered
    ensures key in Apply(t, op).registered <==> Enters(op, key) || (key in t.registered && !Erases(op, key))
  {
  }

  lemma LiveOne(t: Tables, op: Op, key: ScopedKey, sender: Sender)
    ensures key in Apply(t, op).live && Apply(t, op).live[key] == sender <==>
            Sets(op, key, sender) || (key in t.live && t.live[key] == sender && !EndsLive(op, key))
  {
  }

  /**
    The three tables, entry by entry, as the calls left them. A sender is live if its registration is the last call that
    registers the key or ends the actor; an entry is registered, and listed under a type, if it entered there and the
    identity was not unregistered since.
   */
  lemma {:induction false} TablesAreHistory(ops: seq<Op>, key: ScopedKey, sender: Sender, ty: string)
    ensures key in RunOps(ops).live && RunOps(ops).live[key] == sender <==>
            Stands(ops, op => Sets(op, key, sender), op => EndsLive(op, key))
    ensures key in RunOps(ops).registered <==> Stands(ops, op => Enters(op, key), op => Erases(op, key))
    ensures key.id in Members(RunOps(ops).index, TypeKeyOf(key, ty)) <==>
            Stands(ops, op => EntersAs(op, key, ty), op => Erases(op, key))
  {
    if ops != [] {
      var n := |ops| - 1;
      var t, op := RunOps(ops[..n]), ops[n];
      assert ops == ops[..n] + [op];
      RunKeepsCoherent(ops[..n]);
      TablesAreHistory(ops[..n], key, sender, ty);
      StandsSnoc(ops[..n], op, op => Sets(op, key, sender), op => EndsLive(op, key));
      StandsSnoc(ops[..n], op, op => Enters(op, key), op => Erases(op, key));
      StandsSnoc(ops[..n], op, op => EntersAs(op, key, ty), op => Erases(op, key));
      LiveOne(t, op, key, sender);
      RegisteredOne(t, op, key);
      IndexOne(t, op, key, ty);
    }
  }

  /** When the identity was last listed under the type: registering it again while it is listed does not count. */
  ghost function ListedSince(ops: seq<Op>, key: ScopedKey, ty: string): (r: int)
    ensures r < |ops|
  {
    if ops == [] then -1
    else
      var n := |ops| - 1;
      if EntersAs(ops[n], key, ty) && !Stands(ops[..n], op => EntersAs(op, key, ty), op => Erases(op, key)) then n
      else ListedSince(ops[..n], key, ty)
  }

  /** The identities of a type are listed in the order in which they were listed. */
  lemma {:induction false} MembersInOrder(ops: seq<Op>, k: TypeKey)
    ensures InOrder(Members(RunOps(ops).index, k), id => Since(ops, k, id))
  {
    if ops != [] {
      var n := |ops| - 1;
      var before, op := ops[..n], ops[n];
      MembersInOrder(before, k);
      forall id ensures id in Members(RunOps(before).index, k) ==> Since(ops, k, id) == Since(before, k, id) {
        SinceKept(before, op, k, id);
        assert ops == before + [op];
      }
      forall id | EntersAs(op, KeyIn(k, id), k.actorType) && id !in Members(RunOps(before).index, k)
        ensures Since(ops, k, id) == n
      {
        TablesAreHistory(before, KeyIn(k, id), 0, k.actorType);
      }
      OneMoreMember(RunOps(before), op, k, n, id => Since(before, k, id), id => Since(ops, k, id));
    }
  }

  function KeyIn(k: TypeKey, id: ActorId): ScopedKey { ScopedKey(k.tenant, k.namespace, id) }

  ghost function Since(ops: seq<Op>, k: TypeKey, id: ActorId): (r: int)
    ensures r < |ops| || r == -1
  {
    ListedSince(ops, KeyIn(k, id), k.actorType)
  }

  lemma SinceKept(ops: seq<Op>, op: Op, k: TypeKey, id: ActorId)
    ensures id in Members(RunOps(ops).index, k) ==> Since(ops + [op], k, id) == Since(ops, k, id)
  {
    TablesAreHistory(ops, KeyIn(k, id), 0, k.actorType);
    assert TypeKeyOf(KeyIn(k, id), k.actorType) == k;
    assert (ops + [op])[..|ops|] == ops;
  }

  lemma OneMoreMember(t: Tables, op: Op, k: TypeKey, n: nat, was: ActorId -> int, now: ActorId -> int)
    requires InOrder(Members(t.index, k), was)
    requires forall id :: id in Members(t.index, k) ==> now(id) == was(id)
    requires forall id :: was(id) < n
    requires forall id :: EntersAs(op, KeyIn(k, id), k.actorType) && id !in Members(t.index, k) ==> now(id) == n
    ensures InOrder(Members(Apply(t, op).index, k), now)
  {
    var list := Members(t.index, k);
    StillInOrder(list, was, now);
    if op.Register? || op.RegisterVirtual? {
      if TypeKeyOf(op.key, op.actorType) == k && op.key.id !in list {
        assert KeyIn(k, op.key.id) == op.key && EntersAs(op, op.key, k.actorType);
        PushInOrder(list, op.key.id, was, now);
      }
    } else if op.Unregister? {
      WithoutInOrder(list, op.id, now);
    }
  }
}
