/**
  Registration with its locks taken one after another: an operation does its first step when it begins and the others
  later, and operations of other callers may come in between.
 */
module RegistryRaces {
  import opened Common
  import opened ActorIds
  import opened RegistryIndex

  /** What one lock section does. */
  datatype Micro =
    | PutRegistered(key: ScopedKey)
    | PutIndex(key: ScopedKey, actorType: string)
    | DropIndex(id: ActorId)
    | DropRegistered(id: ActorId)

  function Do(t: Tables, m: Micro): Tables {
    match m
    case PutRegistered(key) => t.(registered := t.registered + {key})
    case PutIndex(key, ty) => t.(index := IndexAdd(t.index, TypeKeyOf(key, ty), key.id))
    case DropIndex(id) => t.(index := IndexErase(t.index, id))
    case DropRegistered(id) => t.(registered := set k | k in t.registered && k.id != id)
  }

  function DoAll(t: Tables, ms: seq<Micro>): Tables
    decreases |ms|
  {
    if ms == [] then t else DoAll(Do(t, ms[0]), ms[1..])
  }

  function IdOf(op: Op): ActorId { if op.Register? || op.RegisterVirtual? then op.key.id else op.id }

  function MicroId(m: Micro): ActorId { if m.PutRegistered? || m.PutIndex? then m.key.id else m.id }

  /** The first lock section, and what is left to do after it. */
  function First(t: Tables, op: Op): Tables {
    match op
    case Register(key, _, sender) => t.(live := t.live[key := sender])
    case RegisterVirtual(key, _) => t.(registered := t.registered + {key})
    case Passivate(id) => t.(live := LiveErase(t.live, id))
    case Unregister(id) => t.(live := LiveErase(t.live, id))
  }

  function Rest(t: Tables, op: Op): seq<Micro> {
    match op
    case Register(key, ty, _) => (if key in t.live then [] else [PutRegistered(key)]) + [PutIndex(key, ty)]
    case RegisterVirtual(key, ty) => [PutIndex(key, ty)]
    case Passivate(_) => []
    case Unregister(id) => [DropIndex(id), DropRegistered(id)]
  }

  /** Done without interruption, the sections are the operation. */
  lemma SectionsAreOp(t: Tables, op: Op)
    ensures DoAll(First(t, op), Rest(t, op)) == Apply(t, op)
  {
    var s := First(t, op);
    match op
    case Register(key, ty, _) =>
      if key in t.live {
        assert Rest(t, op) == [PutIndex(key, ty)];
        DoOne(s, PutIndex(key, ty));
      } else {
        assert Rest(t, op) == [PutRegistered(key), PutIndex(key, ty)];
        DoTwo(s, PutRegistered(key), PutIndex(key, ty));
      }
    case RegisterVirtual(key, ty) => DoOne(s, PutIndex(key, ty));
    case Passivate(_) =>
    case Unregister(id) => DoTwo(s, DropIndex(id), DropRegistered(id));
  }

  lemma DoOne(t: Tables, m: Micro)
    ensures DoAll(t, [m]) == Do(t, m)
  {
    assert [m][1..] == [];
  }

  lemma DoTwo(t: Tables, m: Micro, n: Micro)
    ensures DoAll(t, [m, n]) == Do(Do(t, m), n)
  {
    assert [m, n][1..] == [n];
    DoOne(Do(t, m), n);
  }

  datatype Job = Job(id: ActorId, todo: seq<Micro>)

  datatype System = System(tables: Tables, jobs: seq<Job>)

  datatype Event = Begin(op: Op) | Continue(i: nat)

  const INIT := System(Tables(map[], {}, map[]), [])

  predicate Enabled(s: System, e: Event) { e.Continue? ==> e.i < |s.jobs| && s.jobs[e.i].todo != [] }

  function Next(s: System, e: Event): System
    requires Enabled(s, e)
  {
    match e
    case Begin(op) => System(First(s.tables, op), s.jobs + [Job(IdOf(op), Rest(s.tables, op))])
    case Continue(i) =>
      var j := s.jobs[i];
      System(Do(s.tables, j.todo[0]), s.jobs[i := j.(todo := j.todo[1..])])
  }

  ghost predicate Run(s: System, es: seq<Event>, t: System)
    decreases |es|
  {
    if es == [] then s == t else Enabled(s, es[0]) && Run(Next(s, es[0]), es[1..], t)
  }

  /** No operation on the identity is half done. */
  ghost predicate Free(s: System, id: ActorId) {
    forall i :: 0 <= i < |s.jobs| && s.jobs[i].id == id ==> s.jobs[i].todo == []
  }

  /** No operation begins while another on the same identity is half done. */
  ghost predicate SerialRun(s: System, es: seq<Event>, t: System)
    decreases |es|
  {
    if es == [] then s == t
    else Enabled(s, es[0]) && (es[0].Begin? ==> Free(s, IdOf(es[0].op))) && SerialRun(Next(s, es[0]), es[1..], t)
  }

  // ---- one identity at a time -------------------------------------------------------------------------------------

  ghost predicate CoherentKey(t: Tables, key: ScopedKey) {
    (key in t.live ==> key in t.registered) && (key in t.registered <==> Indexed(t.index, key))
  }

  ghost predicate CoherentFor(t: Tables, id: ActorId) { forall key: ScopedKey :: key.id == id ==> CoherentKey(t, key) }

  ghost predicate TidyIndex(t: Tables) { forall k :: k in t.index ==> t.index[k] != [] && NoDup(t.index[k]) }

  ghost predicate SameKey(t: Tables, u: Tables, key: ScopedKey) {
    (key in t.live <==> key in u.live) && (key in t.registered <==> key in u.registered)
      && (Indexed(t.index, key) <==> Indexed(u.index, key))
  }

  ghost predicate SameFor(t: Tables, u: Tables, id: ActorId) {
    forall key: ScopedKey :: key.id == id ==> SameKey(t, u, key)
  }

  lemma CoherentIsPerId(t: Tables)
    ensures Coherent(t) <==> TidyIndex(t) && forall id :: CoherentFor(t, id)
  {
    if TidyIndex(t) && forall id :: CoherentFor(t, id) {
      forall key: ScopedKey ensures CoherentKey(t, key) { assert CoherentFor(t, key.id); }
      forall key | key in t.live.Keys ensures key in t.registered { assert CoherentKey(t, key); }
      forall key ensures key in t.registered <==> Indexed(t.index, key) { assert CoherentKey(t, key); }
    }
    if Coherent(t) {
      forall id ensures CoherentFor(t, id) {
        forall key: ScopedKey | key.id == id ensures CoherentKey(t, key) {}
      }
    }
  }

  lemma SameCoherent(t: Tables, u: Tables, id: ActorId)
    requires SameFor(t, u, id) && CoherentFor(t, id)
    ensures CoherentFor(u, id)
  {
    forall key: ScopedKey | key.id == id
      ensures CoherentKey(u, key)
    {
      assert SameKey(t, u, key) && CoherentKey(t, key);
    }
  }

  /** What a lock section does to one key depends on that key only. */
  lemma DoKey(t: Tables, m: Micro, key: ScopedKey)
    ensures key in Do(t, m).live <==> key in t.live
    ensures key in Do(t, m).registered <==>
            (key in t.registered && m != DropRegistered(key.id)) || m == PutRegistered(key)
    ensures Indexed(Do(t, m).index, key) <==>
            (Indexed(t.index, key) && m != DropIndex(key.id)) || (m.PutIndex? && m.key == key)
  {
    match m
    case PutIndex(k, ty) => IndexAddMembers(t.index, TypeKeyOf(k, ty), k.id, key);
    case DropIndex(id) => IndexEraseMembers(t.index, id, key);
    case _ =>
  }

  lemma DoSame(t: Tables, u: Tables, m: Micro, id: ActorId)
    requires SameFor(t, u, id)
    ensures SameFor(Do(t, m), Do(u, m), id)
  {
    forall key: ScopedKey | key.id == id ensures SameKey(Do(t, m), Do(u, m), key) {
      assert SameKey(t, u, key);
      DoKey(t, m, key);
      DoKey(u, m, key);
    }
  }

  lemma {:induction false} DoAllSame(t: Tables, u: Tables, ms: seq<Micro>, id: ActorId)
    requires SameFor(t, u, id)
    ensures SameFor(DoAll(t, ms), DoAll(u, ms), id)
    decreases |ms|
  {
    if ms != [] {
      DoSame(t, u, ms[0], id);
      DoAllSame(Do(t, ms[0]), Do(u, ms[0]), ms[1..], id);
    }
  }

  lemma DoOther(t: Tables, m: Micro, id: ActorId)
    requires MicroId(m) != id
    ensures SameFor(t, Do(t, m), id)
  {
    forall key: ScopedKey | key.id == id ensures SameKey(t, Do(t, m), key) { DoKey(t, m, key); }
  }

  lemma FirstOther(t: Tables, op: Op, id: ActorId)
    requires IdOf(op) != id
    ensures SameFor(t, First(t, op), id)
  {
  }

  lemma DoTidy(t: Tables, m: Micro)
    requires TidyIndex(t)
    ensures TidyIndex(Do(t, m))
  {
    match m
    case PutIndex(key, ty) => IndexAddTidy(t.index, TypeKeyOf(key, ty), key.id);
    case DropIndex(id) =>
      forall k | k in Do(t, m).index
        ensures NoDup(Do(t, m).index[k])
      {
        WithoutNoDup(t.index[k], id);
      }
    case _ =>
  }

  // ---- serial on each identity ------------------------------------------------------------------------------------

  ghost predicate JobOk(s: System, j: Job) {
    && (forall k :: 0 <= k < |j.todo| ==> MicroId(j.todo[k]) == j.id)
    && (j.todo != [] ==> CoherentFor(DoAll(s.tables, j.todo), j.id))
  }

  /** Half-done operations would, if finished, leave their identity coherent; at most one per identity is half done. */
  ghost predicate Ok(s: System) {
    && TidyIndex(s.tables)
    && (forall i :: 0 <= i < |s.jobs| ==> JobOk(s, s.jobs[i]))
    && (forall i, j :: 0 <= i < j < |s.jobs| && s.jobs[i].id == s.jobs[j].id ==>
      s.jobs[i].todo == [] || s.jobs[j].todo == [])
    && (forall id :: Free(s, id) ==> CoherentFor(s.tables, id))
  }

  lemma OtherJob(s: System, t: System, j: Job)
    requires JobOk(s, j) && SameFor(s.tables, t.tables, j.id)
    ensures JobOk(t, j)
  {
    if j.todo != [] {
      DoAllSame(s.tables, t.tables, j.todo, j.id);
      SameCoherent(DoAll(s.tables, j.todo), DoAll(t.tables, j.todo), j.id);
    }
  }

  lemma ApplyCoherentFor(t: Tables, op: Op)
    requires CoherentFor(t, IdOf(op))
    ensures CoherentFor(Apply(t, op), IdOf(op))
  {
    var u, id := Apply(t, op), IdOf(op);
    forall key: ScopedKey | key.id == id ensures CoherentKey(u, key) {
      assert CoherentKey(t, key);
      match op
      case Register(k, ty, _) => IndexAddMembers(t.index, TypeKeyOf(k, ty), k.id, key);
      case RegisterVirtual(k, ty) => IndexAddMembers(t.index, TypeKeyOf(k, ty), k.id, key);
      case Passivate(_) =>
      case Unregister(i) => IndexEraseMembers(t.index, i, key);
    }
  }

  lemma BeginKeepsOk(s: System, op: Op)
    requires Ok(s) && Free(s, IdOf(op))
    ensures Ok(Next(s, Begin(op)))
  {
    var t, n := Next(s, Begin(op)), |s.jobs|;
    SectionsAreOp(s.tables, op);
    ApplyCoherentFor(s.tables, op);
    forall i | 0 <= i < |t.jobs| ensures JobOk(t, t.jobs[i]) {
      if i < n {
        assert JobOk(s, s.jobs[i]);
        if s.jobs[i].id != IdOf(op) {
          FirstOther(s.tables, op, s.jobs[i].id);
          OtherJob(s, t, s.jobs[i]);
        }
      }
    }
    forall id | Free(t, id) ensures CoherentFor(t.tables, id) {
      BeginFree(s, op, id);
    }
  }

  lemma BeginFree(s: System, op: Op, id: ActorId)
    requires Ok(s) && Free(s, IdOf(op)) && Free(Next(s, Begin(op)), id)
    ensures CoherentFor(Next(s, Begin(op)).tables, id)
  {
    var t, n := Next(s, Begin(op)), |s.jobs|;
    assert forall i :: 0 <= i < n ==> t.jobs[i] == s.jobs[i];
    assert Free(s, id);
    if id == IdOf(op) {
      assert t.jobs[n].todo == [];
      SectionsAreOp(s.tables, op);
      ApplyCoherentFor(s.tables, op);
    } else {
      FirstOther(s.tables, op, id);
      SameCoherent(s.tables, t.tables, id);
    }
  }

  lemma ContinueKeepsJob(s: System, i: nat, k: nat)
    requires Ok(s) && Enabled(s, Continue(i)) && k < |s.jobs|
    ensures JobOk(Next(s, Continue(i)), Next(s, Continue(i)).jobs[k])
  {
    var t, m, id := Next(s, Continue(i)), s.jobs[i].todo[0], s.jobs[i].id;
    assert JobOk(s, s.jobs[k]) && JobOk(s, s.jobs[i]);
    assert MicroId(m) == id;
    if k != i {
      if s.jobs[k].id == id {
        assert s.jobs[k].todo == [];
      } else {
        DoOther(s.tables, m, s.jobs[k].id);
        OtherJob(s, t, s.jobs[k]);
      }
    }
  }

  lemma ContinueFree(s: System, i: nat, id: ActorId)
    requires Ok(s) && Enabled(s, Continue(i)) && Free(Next(s, Continue(i)), id)
    ensures CoherentFor(Next(s, Continue(i)).tables, id)
  {
    var t, j := Next(s, Continue(i)), s.jobs[i];
    assert JobOk(s, j) && MicroId(j.todo[0]) == j.id;
    if id == j.id {
      assert t.jobs[i].todo == [];
      assert DoAll(s.tables, j.todo) == DoAll(Do(s.tables, j.todo[0]), j.todo[1..]) == t.tables;
    } else {
      assert forall k :: 0 <= k < |s.jobs| && k != i ==> t.jobs[k] == s.jobs[k];
      assert Free(s, id);
      DoOther(s.tables, j.todo[0], id);
      SameCoherent(s.tables, t.tables, id);
    }
  }

  lemma ContinueKeepsOk(s: System, i: nat)
    requires Ok(s) && Enabled(s, Continue(i))
    ensures Ok(Next(s, Continue(i)))
  {
    var t := Next(s, Continue(i));
    DoTidy(s.tables, s.jobs[i].todo[0]);
    forall k: nat | k < |t.jobs| ensures JobOk(t, t.jobs[k]) { ContinueKeepsJob(s, i, k); }
    forall id | Free(t, id) ensures CoherentFor(t.tables, id) { ContinueFree(s, i, id); }
  }

  lemma {:induction false} SerialKeepsOk(s: System, es: seq<Event>, t: System)
    requires Ok(s) && SerialRun(s, es, t)
    ensures Ok(t)
    decreases |es|
  {
    if es != [] {
      if es[0].Begin? { BeginKeepsOk(s, es[0].op); } else { ContinueKeepsOk(s, es[0].i); }
      SerialKeepsOk(Next(s, es[0]), es[1..], t);
    }
  }

  lemma InitOk()
    ensures Ok(INIT)
  {
    forall id ensures CoherentFor(INIT.tables, id) {
      forall key: ScopedKey | key.id == id ensures CoherentKey(INIT.tables, key) {}
    }
  }

  /**
    If operations on the same identity do not overlap, whatever those on other identities do, every identity that is
    not being worked on is coherent at every moment, and once nothing is half done the tables are.
   */
  lemma SerialIsCoherent(es: seq<Event>, t: System)
    requires SerialRun(INIT, es, t)
    ensures forall id :: Free(t, id) ==> CoherentFor(t.tables, id)
    ensures (forall i :: 0 <= i < |t.jobs| ==> t.jobs[i].todo == []) ==> Coherent(t.tables)
  {
    InitOk();
    SerialKeepsOk(INIT, es, t);
    CoherentIsPerId(t.tables);
    if forall i :: 0 <= i < |t.jobs| ==> t.jobs[i].todo == [] {
      forall id ensures CoherentFor(t.tables, id) { assert Free(t, id); }
    }
  }

  /** Otherwise not: an unregister that runs between the live insert and the index push of a register. */
  lemma OverlapBreaks(key: ScopedKey, ty: string, sender: Sender) returns (t: System)
    ensures exists es :: Run(INIT, es, t)
    ensures (forall i :: 0 <= i < |t.jobs| ==> t.jobs[i].todo == []) && !Coherent(t.tables)
    ensures key !in t.tables.live && key !in t.tables.registered && Indexed(t.tables.index, key)
  {
    var id, put := key.id, PutIndex(key, ty);
    var tk := TypeKeyOf(key, ty);
    var s1 := System(Tables(map[key := sender], {}, map[]), [Job(id, [PutRegistered(key), put])]);
    var s2 := System(Tables(map[key := sender], {key}, map[]), [Job(id, [put])]);
    var s3 := System(Tables(map[], {key}, map[]), [Job(id, [put]), Job(id, [DropIndex(id), DropRegistered(id)])]);
    var s4 := System(Tables(map[], {key}, map[]), [Job(id, [put]), Job(id, [DropRegistered(id)])]);
    var s5 := System(Tables(map[], {}, map[]), [Job(id, [put]), Job(id, [])]);
    t := System(Tables(map[], {}, map[tk := [id]]), [Job(id, []), Job(id, [])]);
    assert [PutRegistered(key)] + [put] == [PutRegistered(key), put];
    assert Next(INIT, Begin(Register(key, ty, sender))) == s1;
    assert Next(s1, Continue(0)) == s2;
    assert Next(s2, Begin(Unregister(id))) == s3;
    assert Next(s3, Continue(1)) == s4;
    assert Do(s4.tables, DropRegistered(id)) == s5.tables;
    assert [DropRegistered(id)][1..] == [] && [put][1..] == [];
    assert Next(s4, Continue(1)) == s5;
    assert IndexAdd(map[], tk, id) == map[tk := [id]] by { assert [] + [id] == [id]; }
    assert Next(s5, Continue(0)) == t;
    Chain(s1, s2, s3, s4, s5, t, key, ty, sender);
    assert key.id in Members(t.tables.index, TypeKeyOf(key, ty));
  }

  lemma Chain(s1: System, s2: System, s3: System, s4: System, s5: System, t: System, key: ScopedKey, ty: string,
    sender: Sender)
    requires Next(INIT, Begin(Register(key, ty, sender))) == s1
    requires Enabled(s1, Continue(0)) && Next(s1, Continue(0)) == s2 && Next(s2, Begin(Unregister(key.id))) == s3
    requires Enabled(s3, Continue(1)) && Next(s3, Continue(1)) == s4
    requires Enabled(s4, Continue(1)) && Next(s4, Continue(1)) == s5
    requires Enabled(s5, Continue(0)) && Next(s5, Continue(0)) == t
    ensures exists es :: Run(INIT, es, t)
  {
    var e6 := [Continue(0)];
    assert Run(t, [], t) && e6[1..] == [] && Run(s5, e6, t);
    var e5 := [Continue(1)] + e6;
    assert e5[1..] == e6 && Run(s4, e5, t);
    var e4 := [Continue(1)] + e5;
    assert e4[1..] == e5 && Run(s3, e4, t);
    var e3 := [Begin(Unregister(key.id))] + e4;
    assert e3[1..] == e4 && Run(s2, e3, t);
    var e2 := [Continue(0)] + e3;
    assert e2[1..] == e3 && Run(s1, e2, t);
    var e1 := [Begin(Register(key, ty, sender))] + e2;
    assert e1[1..] == e2 && Run(INIT, e1, t);
  }
}
