/** The supervision maps with their locks taken one after another, child by child. */
module SupervisionRaces {
  import opened Common
  import opened ActorIds
  import opened Supervision

  /** What a later lock section does. */
  datatype Micro = Push(p: ActorId, c: ActorId) | SetParent(p: ActorId, c: ActorId) | DropParent(c: ActorId)

  function Do(f: Forest, m: Micro): Forest {
    match m
    case Push(p, c) => f.(children := f.children[p := ChildrenOf(f.children, p) + [c]])
    case SetParent(p, c) => f.(parent := f.parent[c := p])
    case DropParent(c) => f.(parent := f.parent - {c})
  }

  function DoAll(f: Forest, ms: seq<Micro>): Forest
    decreases |ms|
  {
    if ms == [] then f else DoAll(Do(f, ms[0]), ms[1..])
  }

  function ChildOf(op: Op): ActorId { if op.Remove? then op.a else op.c }

  /** The first lock section: the child leaves lists. */
  function First(f: Forest, op: Op): Forest {
    match op
    case Register(p, c) => if c in f.parent then f.(children := Detach(f.children, f.parent[c], c)) else f
    case Unregister(p, c) => f.(children := Detach(f.children, p, c))
    case Remove(a) => f.(children := Forget(f, a).children)
  }

  function Rest(op: Op): seq<Micro> {
    match op
    case Register(p, c) => [Push(p, c), SetParent(p, c)]
    case Unregister(p, c) => [DropParent(c)]
    case Remove(a) => [DropParent(a)]
  }

  lemma SectionsAreOp(f: Forest, op: Op)
    ensures DoAll(First(f, op), Rest(op)) == Apply(f, op)
  {
    var s, ms := First(f, op), Rest(op);
    if op.Register? {
      assert ms[1..] == [ms[1]] && [ms[1]][1..] == [];
      assert DoAll(Do(s, ms[0]), [ms[1]]) == Do(Do(s, ms[0]), ms[1]);
    } else {
      assert ms[1..] == [];
    }
  }

  datatype Job = Job(c: ActorId, todo: seq<Micro>)

  datatype System = System(forest: Forest, jobs: seq<Job>)

  datatype Event = Begin(op: Op) | Continue(i: nat)

  const INIT := System(Forest(map[], map[]), [])

  predicate Enabled(s: System, e: Event) { e.Continue? ==> e.i < |s.jobs| && s.jobs[e.i].todo != [] }

  function Next(s: System, e: Event): System
    requires Enabled(s, e)
  {
    match e
    case Begin(op) => System(First(s.forest, op), s.jobs + [Job(ChildOf(op), Rest(op))])
    case Continue(i) => System(Do(s.forest, s.jobs[i].todo[0]), s.jobs[i := s.jobs[i].(todo := s.jobs[i].todo[1..])])
  }

  ghost predicate Run(s: System, es: seq<Event>, t: System)
    decreases |es|
  {
    if es == [] then s == t else Enabled(s, es[0]) && Run(Next(s, es[0]), es[1..], t)
  }

  /** No operation on the child is half done. */
  ghost predicate Free(s: System, c: ActorId) {
    forall i :: 0 <= i < |s.jobs| && s.jobs[i].c == c ==> s.jobs[i].todo == []
  }

  predicate NamesParent(f: Forest, op: Op) { op.Unregister? && op.c in f.parent ==> f.parent[op.c] == op.p }

  /** No operation begins while another on the same child is half done, and unregistrations name the current parent. */
  ghost predicate SerialRun(s: System, es: seq<Event>, t: System)
    decreases |es|
  {
    if es == [] then s == t
    else
      && Enabled(s, es[0]) && (es[0].Begin? ==> Free(s, ChildOf(es[0].op)) && NamesParent(s.forest, es[0].op))
      && SerialRun(Next(s, es[0]), es[1..], t)
  }

  // ---- one child at a time --------------------------------------------------------------------------------------

  ghost function Count(f: Forest, p: ActorId, c: ActorId): nat { multiset(ChildrenOf(f.children, p))[c] }

  ghost predicate MirrorsAt(f: Forest, p: ActorId, c: ActorId) {
    Count(f, p, c) == if IsParent(f.parent, p, c) then 1 else 0
  }

  /** The child is on its parent's list, once, and on no other. */
  ghost predicate MirrorsFor(f: Forest, c: ActorId) { forall p :: MirrorsAt(f, p, c) }

  ghost predicate NoEmptyList(f: Forest) { forall p :: p in f.children ==> f.children[p] != [] }

  ghost predicate SameAt(f: Forest, g: Forest, p: ActorId, c: ActorId) {
    Count(f, p, c) == Count(g, p, c) && (IsParent(f.parent, p, c) <==> IsParent(g.parent, p, c))
  }

  ghost predicate SameFor(f: Forest, g: Forest, c: ActorId) { forall p :: SameAt(f, g, p, c) }

  lemma {:induction false} CountNoDup(s: seq<ActorId>)
    ensures NoDup(s) <==> forall c :: multiset(s)[c] <= 1
  {
    if s != [] {
      var n := |s| - 1;
      var rest := s[..n];
      assert s == rest + [s[n]];
      CountNoDup(rest);
      assert forall c :: multiset(s)[c] == multiset(rest)[c] + if c == s[n] then 1 else 0;
      assert multiset(rest)[s[n]] > 0 <==> s[n] in rest;
      if NoDup(s) { assert NoDup(rest) && s[n] !in rest; }
      if NoDup(rest) && s[n] !in rest { assert NoDup(s); }
    }
  }

  lemma {:induction false} CountWithout(s: seq<ActorId>, x: ActorId, c: ActorId)
    ensures multiset(Without(s, x))[c] == if c == x then 0 else multiset(s)[c]
  {
    if s != [] {
      assert s == [s[0]] + s[1..];
      CountWithout(s[1..], x, c);
    }
  }

  lemma InverseIsPerChild(f: Forest)
    ensures Inverse(f) <==> NoEmptyList(f) && forall c :: MirrorsFor(f, c)
  {
    if Inverse(f) {
      forall c ensures MirrorsFor(f, c) {
        forall p ensures MirrorsAt(f, p, c) { CountNoDup(ChildrenOf(f.children, p)); }
      }
    }
    if NoEmptyList(f) && forall c :: MirrorsFor(f, c) {
      forall p, c
        ensures c in ChildrenOf(f.children, p) <==> IsParent(f.parent, p, c)
      {
        assert MirrorsFor(f, c) && MirrorsAt(f, p, c);
      }
      forall p | p in f.children ensures NoDup(f.children[p]) {
        forall c ensures multiset(f.children[p])[c] <= 1 { assert MirrorsFor(f, c) && MirrorsAt(f, p, c); }
        CountNoDup(f.children[p]);
      }
    }
  }

  lemma SameMirrors(f: Forest, g: Forest, c: ActorId)
    requires SameFor(f, g, c) && MirrorsFor(f, c)
    ensures MirrorsFor(g, c)
  {
    forall p ensures MirrorsAt(g, p, c) { assert SameAt(f, g, p, c) && MirrorsAt(f, p, c); }
  }

  lemma DoAt(f: Forest, m: Micro, p: ActorId, c: ActorId)
    ensures Count(Do(f, m), p, c) == Count(f, p, c) + if m == Push(p, c) then 1 else 0
    ensures IsParent(Do(f, m).parent, p, c) <==>
            if m.SetParent? && m.c == c then m.p == p else IsParent(f.parent, p, c) && m != DropParent(c)
  {
  }

  lemma DoSame(f: Forest, g: Forest, m: Micro, c: ActorId)
    requires SameFor(f, g, c)
    ensures SameFor(Do(f, m), Do(g, m), c)
  {
    forall p ensures SameAt(Do(f, m), Do(g, m), p, c) {
      assert SameAt(f, g, p, c);
      DoAt(f, m, p, c);
      DoAt(g, m, p, c);
    }
  }

  lemma {:induction false} DoAllSame(f: Forest, g: Forest, ms: seq<Micro>, c: ActorId)
    requires SameFor(f, g, c)
    ensures SameFor(DoAll(f, ms), DoAll(g, ms), c)
    decreases |ms|
  {
    if ms != [] {
      DoSame(f, g, ms[0], c);
      DoAllSame(Do(f, ms[0]), Do(g, ms[0]), ms[1..], c);
    }
  }

  lemma DoOther(f: Forest, m: Micro, c: ActorId)
    requires m.c != c
    ensures SameFor(f, Do(f, m), c)
  {
    forall p ensures SameAt(f, Do(f, m), p, c) { DoAt(f, m, p, c); }
  }

  lemma DetachCount(f: Forest, q: ActorId, x: ActorId, p: ActorId, c: ActorId)
    ensures multiset(ChildrenOf(Detach(f.children, q, x), p))[c] == if (p, c) == (q, x) then 0 else Count(f, p, c)
  {
    CountWithout(ChildrenOf(f.children, q), x, c);
  }

  lemma FirstAt(f: Forest, op: Op, p: ActorId, c: ActorId)
    ensures IsParent(First(f, op).parent, p, c) <==> IsParent(f.parent, p, c)
    ensures Count(First(f, op), p, c) ==
            match op
            case Register(_, x) => if c == x && IsParent(f.parent, p, x) then 0 else Count(f, p, c)
            case Unregister(q, x) => if (p, c) == (q, x) then 0 else Count(f, p, c)
            case Remove(a) => if c == a then 0 else Count(f, p, c)
  {
    match op
    case Register(_, x) => if x in f.parent { DetachCount(f, f.parent[x], x, p, c); }
    case Unregister(q, x) => DetachCount(f, q, x, p, c);
    case Remove(a) => CountWithout(ChildrenOf(f.children, p), a, c);
  }

  lemma FirstOther(f: Forest, op: Op, c: ActorId)
    requires ChildOf(op) != c
    ensures SameFor(f, First(f, op), c)
  {
    forall p ensures SameAt(f, First(f, op), p, c) { FirstAt(f, op, p, c); }
  }

  lemma FirstNonEmpty(f: Forest, op: Op)
    requires NoEmptyList(f)
    ensures NoEmptyList(First(f, op))
  {
  }

  lemma ApplyMirrors(f: Forest, op: Op)
    requires MirrorsFor(f, ChildOf(op)) && NamesParent(f, op)
    ensures MirrorsFor(Apply(f, op), ChildOf(op))
  {
    var c, s := ChildOf(op), First(f, op);
    SectionsAreOp(f, op);
    forall p ensures MirrorsAt(Apply(f, op), p, c) {
      assert MirrorsAt(f, p, c);
      FirstAt(f, op, p, c);
      match op
      case Register(q, x) =>
        DoAt(s, Push(q, x), p, c);
        DoAt(Do(s, Push(q, x)), SetParent(q, x), p, c);
        assert Apply(f, op) == Do(Do(s, Push(q, x)), SetParent(q, x));
      case Unregister(q, x) =>
        DoAt(s, DropParent(x), p, c);
        assert Apply(f, op) == Do(s, DropParent(x));
      case Remove(a) =>
        DoAt(s, DropParent(a), p, c);
        assert Apply(f, op) == Do(s, DropParent(a));
    }
  }

  // ---- serial on each child ---------------------------------------------------------------------------------------

  ghost predicate JobOk(s: System, j: Job) {
    && (forall k :: 0 <= k < |j.todo| ==> j.todo[k].c == j.c)
    && (j.todo != [] ==> MirrorsFor(DoAll(s.forest, j.todo), j.c))
  }

  ghost predicate Ok(s: System) {
    && NoEmptyList(s.forest)
    && (forall i :: 0 <= i < |s.jobs| ==> JobOk(s, s.jobs[i]))
    && (forall i, j :: 0 <= i < j < |s.jobs| && s.jobs[i].c == s.jobs[j].c ==>
      s.jobs[i].todo == [] || s.jobs[j].todo == [])
    && (forall c :: Free(s, c) ==> MirrorsFor(s.forest, c))
  }

  lemma OtherJob(s: System, t: System, j: Job)
    requires JobOk(s, j) && SameFor(s.forest, t.forest, j.c)
    ensures JobOk(t, j)
  {
    if j.todo != [] {
      DoAllSame(s.forest, t.forest, j.todo, j.c);
      SameMirrors(DoAll(s.forest, j.todo), DoAll(t.forest, j.todo), j.c);
    }
  }

  lemma BeginJob(s: System, op: Op)
    requires Ok(s) && Free(s, ChildOf(op)) && NamesParent(s.forest, op)
    ensures var t := Next(s, Begin(op)); JobOk(t, t.jobs[|s.jobs|])
  {
    SectionsAreOp(s.forest, op);
    ApplyMirrors(s.forest, op);
  }

  lemma BeginKeepsOk(s: System, op: Op)
    requires Ok(s) && Free(s, ChildOf(op)) && NamesParent(s.forest, op)
    ensures Ok(Next(s, Begin(op)))
  {
    var t, n := Next(s, Begin(op)), |s.jobs|;
    FirstNonEmpty(s.forest, op);
    forall i | 0 <= i < |t.jobs| ensures JobOk(t, t.jobs[i]) {
      if i == n {
        BeginJob(s, op);
      } else if s.jobs[i].c != ChildOf(op) {
        FirstOther(s.forest, op, s.jobs[i].c);
        OtherJob(s, t, s.jobs[i]);
      } else {
        assert JobOk(s, s.jobs[i]) && s.jobs[i].todo == [];
      }
    }
    forall c | Free(t, c) ensures MirrorsFor(t.forest, c) { BeginFree(s, op, c); }
  }

  lemma BeginFree(s: System, op: Op, c: ActorId)
    requires Ok(s) && Free(s, ChildOf(op)) && NamesParent(s.forest, op) && Free(Next(s, Begin(op)), c)
    ensures MirrorsFor(Next(s, Begin(op)).forest, c)
  {
    var t, n := Next(s, Begin(op)), |s.jobs|;
    assert t.jobs[n] == Job(ChildOf(op), Rest(op)) && Rest(op) != [];
    assert forall i :: 0 <= i < n ==> t.jobs[i] == s.jobs[i];
    assert Free(s, c) && c != ChildOf(op);
    FirstOther(s.forest, op, c);
    SameMirrors(s.forest, t.forest, c);
  }

  lemma ContinueKeepsJob(s: System, i: nat, k: nat)
    requires Ok(s) && Enabled(s, Continue(i)) && k < |s.jobs|
    ensures JobOk(Next(s, Continue(i)), Next(s, Continue(i)).jobs[k])
  {
    var t, m, c := Next(s, Continue(i)), s.jobs[i].todo[0], s.jobs[i].c;
    assert JobOk(s, s.jobs[k]) && JobOk(s, s.jobs[i]);
    assert m.c == c;
    if k != i {
      if s.jobs[k].c == c {
        assert s.jobs[k].todo == [];
      } else {
        DoOther(s.forest, m, s.jobs[k].c);
        OtherJob(s, t, s.jobs[k]);
      }
    }
  }

  lemma ContinueFree(s: System, i: nat, c: ActorId)
    requires Ok(s) && Enabled(s, Continue(i)) && Free(Next(s, Continue(i)), c)
    ensures MirrorsFor(Next(s, Continue(i)).forest, c)
  {
    var t, j := Next(s, Continue(i)), s.jobs[i];
    assert JobOk(s, j) && j.todo[0].c == j.c;
    if c == j.c {
      assert t.jobs[i].todo == [];
      assert DoAll(s.forest, j.todo) == DoAll(Do(s.forest, j.todo[0]), j.todo[1..]) == t.forest;
    } else {
      assert forall k :: 0 <= k < |s.jobs| && k != i ==> t.jobs[k] == s.jobs[k];
      assert Free(s, c);
      DoOther(s.forest, j.todo[0], c);
      SameMirrors(s.forest, t.forest, c);
    }
  }

  lemma ContinueKeepsOk(s: System, i: nat)
    requires Ok(s) && Enabled(s, Continue(i))
    ensures Ok(Next(s, Continue(i)))
  {
    var t := Next(s, Continue(i));
    forall k: nat | k < |t.jobs| ensures JobOk(t, t.jobs[k]) { ContinueKeepsJob(s, i, k); }
    forall c | Free(t, c) ensures MirrorsFor(t.forest, c) { ContinueFree(s, i, c); }
  }

  lemma {:induction false} SerialKeepsOk(s: System, es: seq<Event>, t: System)
    requires Ok(s) && SerialRun(s, es, t)
    ensures Ok(t)
    decreases |es|
  {
    if es != [] {
      if es[0].Begin? { BeginKeepsOk(s, es[0].op); } else { ContinueKeepsOk(s, es[0].i); }
      SerialKeepsOk(Next(s, es[0]), es[1..], t);
    }
  }

  /**
    If operations on the same child do not overlap, whatever those on other children do, every child that is not being
    worked on is on its parent's list exactly once and on no other, and once nothing is half done the maps are inverse.
   */
  lemma SerialIsInverse(es: seq<Event>, t: System)
    requires SerialRun(INIT, es, t)
    ensures forall c :: Free(t, c) ==> MirrorsFor(t.forest, c)
    ensures (forall i :: 0 <= i < |t.jobs| ==> t.jobs[i].todo == []) ==> Inverse(t.forest)
  {
    SerialKeepsOk(INIT, es, t);
    InverseIsPerChild(t.forest);
    if forall i :: 0 <= i < |t.jobs| ==> t.jobs[i].todo == [] {
      forall c ensures MirrorsFor(t.forest, c) { assert Free(t, c); }
    }
  }

  /** Otherwise not: two registrations of one child under two parents, both detached before either pushes. */
  lemma OverlapBreaks(p: ActorId, q: ActorId, c: ActorId) returns (t: System)
    requires p != q
    ensures exists es :: Run(INIT, es, t)
    ensures (forall i :: 0 <= i < |t.jobs| ==> t.jobs[i].todo == []) && !Inverse(t.forest)
    ensures c in ChildrenOf(t.forest.children, p) && c in ChildrenOf(t.forest.children, q)
    ensures IsParent(t.forest.parent, q, c)
  {
    var one, two := [Push(p, c), SetParent(p, c)], [Push(q, c), SetParent(q, c)];
    var s2 := System(Forest(map[], map[]), [Job(c, one), Job(c, two)]);
    var s4 := System(Forest(map[p := [c]], map[c := p]), [Job(c, []), Job(c, two)]);
    t := System(Forest(map[p := [c], q := [c]], map[c := q]), [Job(c, []), Job(c, [])]);
    TwoBegin(p, q, c, s2);
    FirstPushes(p, q, c, s2, s4);
    SecondPushes(p, q, c, s4, t);
    var es, fs, gs :| Run(INIT, es, s2) && Run(s2, fs, s4) && Run(s4, gs, t);
    RunConcat(INIT, es, s2, fs, s4);
    RunConcat(INIT, es + fs, s4, gs, t);
    assert t.forest.children[p][0] == c && t.forest.children[q][0] == c;
    assert c in ChildrenOf(t.forest.children, p) && !IsParent(t.forest.parent, p, c);
  }

  lemma {:induction false} RunConcat(s: System, es: seq<Event>, m: System, fs: seq<Event>, t: System)
    requires Run(s, es, m) && Run(m, fs, t)
    ensures Run(s, es + fs, t)
    decreases |es|
  {
    if es == [] {
      assert es + fs == fs;
    } else {
      assert (es + fs)[1..] == es[1..] + fs;
      RunConcat(Next(s, es[0]), es[1..], m, fs, t);
    }
  }

  lemma TwoSteps(s: System, e: Event, m: System, f: Event, t: System)
    requires Enabled(s, e) && m == Next(s, e) && Enabled(m, f) && t == Next(m, f)
    ensures Run(s, [e, f], t)
  {
    assert [e, f][1..] == [f] && [f][1..] == [];
    assert Run(t, [], t) && Run(m, [f], t);
  }

  lemma TwoBegin(p: ActorId, q: ActorId, c: ActorId, s2: System)
    requires s2 == System(Forest(map[], map[]),
            [Job(c, [Push(p, c), SetParent(p, c)]), Job(c, [Push(q, c), SetParent(q, c)])])
    ensures exists es :: Run(INIT, es, s2)
  {
    var s1 := System(Forest(map[], map[]), [Job(c, [Push(p, c), SetParent(p, c)])]);
    TwoSteps(INIT, Begin(Register(p, c)), s1, Begin(Register(q, c)), s2);
  }

  lemma FirstPushes(p: ActorId, q: ActorId, c: ActorId, s2: System, s4: System)
    requires s2 == System(Forest(map[], map[]),
            [Job(c, [Push(p, c), SetParent(p, c)]), Job(c, [Push(q, c), SetParent(q, c)])])
    requires s4 == System(Forest(map[p := [c]], map[c := p]), [Job(c, []), Job(c, [Push(q, c), SetParent(q, c)])])
    ensures exists es :: Run(s2, es, s4)
  {
    var two := [Push(q, c), SetParent(q, c)];
    var s3 := System(Forest(map[p := [c]], map[]), [Job(c, [SetParent(p, c)]), Job(c, two)]);
    assert [Push(p, c), SetParent(p, c)][1..] == [SetParent(p, c)] && [SetParent(p, c)][1..] == [] && [] + [c] == [c];
    assert Next(s2, Continue(0)) == s3 && Next(s3, Continue(0)) == s4;
    TwoSteps(s2, Continue(0), s3, Continue(0), s4);
  }

  lemma SecondPushes(p: ActorId, q: ActorId, c: ActorId, s4: System, t: System)
    requires p != q
    requires s4 == System(Forest(map[p := [c]], map[c := p]), [Job(c, []), Job(c, [Push(q, c), SetParent(q, c)])])
    requires t == System(Forest(map[p := [c], q := [c]], map[c := q]), [Job(c, []), Job(c, [])])
    ensures exists es :: Run(s4, es, t)
  {
    var s5 := System(Forest(map[p := [c], q := [c]], map[c := p]), [Job(c, []), Job(c, [SetParent(q, c)])]);
    assert [Push(q, c), SetParent(q, c)][1..] == [SetParent(q, c)] && [SetParent(q, c)][1..] == [] && [] + [c] == [c];
    assert Next(s4, Continue(1)) == s5 && Next(s5, Continue(1)) == t;
    TwoSteps(s4, Continue(1), s5, Continue(1), t);
  }
}
