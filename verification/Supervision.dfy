/** The supervision forest: two maps that must stay inverse, and the breadth-first walk over them. */
module Supervision {
  import opened Common
  import opened ActorIds

  type Children = map<ActorId, seq<ActorId>>

  type Parents = map<ActorId, ActorId>

  datatype Forest = Forest(children: Children, parent: Parents)

  function ChildrenOf(ch: Children, p: ActorId): seq<ActorId> { if p in ch then ch[p] else [] }

  /** Remove `c` from `p`'s list and drop the list if it became empty. */
  function Detach(ch: Children, p: ActorId, c: ActorId): Children {
    if p !in ch then ch
    else if Without(ch[p], c) == [] then ch - {p}
    else ch[p := Without(ch[p], c)]
  }

  /** `register_parent_child`: leave the old parent's list, join the new parent's, record the new parent. */
  function Adopt(f: Forest, p: ActorId, c: ActorId): Forest {
    var ch := if c in f.parent then Detach(f.children, f.parent[c], c) else f.children;
    Forest(ch[p := ChildrenOf(ch, p) + [c]], f.parent[c := p])
  }

  /** `unregister_parent_child`. */
  function Disown(f: Forest, p: ActorId, c: ActorId): Forest {
    Forest(Detach(f.children, p, c), f.parent - {c})
  }

  /** The part of `unregister_with_cleanup` that forgets `a` as a child. */
  function Forget(f: Forest, a: ActorId): Forest {
    Forest(map p | p in f.children && Without(f.children[p], a) != [] :: Without(f.children[p], a), f.parent - {a})
  }

  predicate IsParent(par: Parents, p: ActorId, c: ActorId) { c in par && par[c] == p }

  ghost predicate Mirrors(f: Forest) {
    forall p, c :: c in ChildrenOf(f.children, p) <==> IsParent(f.parent, p, c)
  }

  ghost predicate TidyLists(ch: Children) { forall p :: p in ch ==> ch[p] != [] && NoDup(ch[p]) }

  /** `c` is on `p`'s list exactly when `p` is `c`'s parent; lists are non-empty and without duplicates. */
  ghost predicate Inverse(f: Forest) { Mirrors(f) && TidyLists(f.children) }

  lemma DetachLists(ch: Children, p: ActorId, c: ActorId)
    ensures forall q, x :: x in ChildrenOf(Detach(ch, p, c), q) <==> x in ChildrenOf(ch, q) && !(q == p && x == c)
    ensures TidyLists(ch) ==> TidyLists(Detach(ch, p, c))
  {
    if TidyLists(ch) && p in ch { WithoutNoDup(ch[p], c); }
  }

  lemma AdoptKeepsInverse(f: Forest, p: ActorId, c: ActorId)
    requires Inverse(f)
    ensures Inverse(Adopt(f, p, c))
  {
    var ch := if c in f.parent then Detach(f.children, f.parent[c], c) else f.children;
    if c in f.parent { DetachLists(f.children, f.parent[c], c); }
    assert forall q, x :: x in ChildrenOf(ch, q) <==> IsParent(f.parent, q, x) && x != c;
    assert c !in ChildrenOf(ch, p);
    var g := Adopt(f, p, c);
    forall q, x ensures x in ChildrenOf(g.children, q) <==> IsParent(g.parent, q, x) {
      assert ChildrenOf(g.children, q) == if q == p then ChildrenOf(ch, p) + [c] else ChildrenOf(ch, q);
    }
  }

  /** Unregistering keeps the maps inverse exactly when it names the child's current parent (or the child has none). */
  lemma DisownKeepsInverseIff(f: Forest, p: ActorId, c: ActorId)
    requires Inverse(f)
    ensures Inverse(Disown(f, p, c)) <==> (c in f.parent ==> f.parent[c] == p)
  {
    DetachLists(f.children, p, c);
    var g := Disown(f, p, c);
    if c in f.parent && f.parent[c] != p {
      assert c in ChildrenOf(f.children, f.parent[c]);
      assert c in ChildrenOf(g.children, f.parent[c]) && !IsParent(g.parent, f.parent[c], c);
    } else {
      forall q, x ensures x in ChildrenOf(g.children, q) <==> IsParent(g.parent, q, x) {
        assert x in ChildrenOf(f.children, q) <==> IsParent(f.parent, q, x);
      }
    }
  }

  lemma ForgetKeepsInverse(f: Forest, a: ActorId)
    requires Inverse(f)
    ensures Inverse(Forget(f, a))
  {
    var g := Forget(f, a);
    forall p | p in g.children ensures NoDup(g.children[p]) { WithoutNoDup(f.children[p], a); }
    assert forall p, x :: x in ChildrenOf(g.children, p) <==> x in ChildrenOf(f.children, p) && x != a;
  }

  // ---- ancestors ------------------------------------------------------------------------------------

  /** The ancestor `k` levels up, if there is one. */
  ghost function Up(par: Parents, x: ActorId, k: nat): Option<ActorId>
    decreases k
  {
    if k == 0 then Some(x) else if x in par then Up(par, par[x], k - 1) else None
  }

  lemma {:induction false} UpAdd(par: Parents, x: ActorId, j: nat, k: nat)
    ensures Up(par, x, j + k) == match Up(par, x, j) case Some(y) => Up(par, y, k) case None => None
    decreases j
  {
    if j > 0 && x in par { UpAdd(par, par[x], j - 1, k); }
  }

  ghost predicate Acyclic(par: Parents) { forall x, k: nat :: k > 0 ==> Up(par, x, k) != Some(x) }

  /** `x` is `root` itself or below it. */
  ghost predicate Within(par: Parents, root: ActorId, x: ActorId) { exists k: nat :: Up(par, x, k) == Some(root) }

  /** `x` is strictly below `root`. */
  ghost predicate Below(par: Parents, root: ActorId, x: ActorId) {
    exists k: nat :: k > 0 && Up(par, x, k) == Some(root)
  }

  /** Two parent maps that differ at most at `c` lead upwards alike until a path meets `c`. */
  lemma {:induction false} SameUntil(par: Parents, par': Parents, c: ActorId, x: ActorId, k: nat) returns (j: nat)
    requires forall y :: y != c ==> ((y in par <==> y in par') && (y in par ==> par[y] == par'[y]))
    ensures j <= k && Up(par', x, j) == Up(par, x, j)
    ensures j < k ==> Up(par, x, j) == Some(c)
    decreases k
  {
    if k == 0 || x == c {
      j := 0;
    } else if x !in par {
      j := k;
    } else {
      var i := SameUntil(par, par', c, par[x], k - 1);
      j := i + 1;
    }
  }

  /** Adopting keeps the forest free of cycles exactly when the new parent is not the child or below it. */
  lemma AdoptKeepsAcyclicIff(f: Forest, p: ActorId, c: ActorId)
    requires Acyclic(f.parent)
    ensures Acyclic(Adopt(f, p, c).parent) <==> !Within(f.parent, c, p)
  {
    var par, par' := f.parent, Adopt(f, p, c).parent;
    if Within(par, c, p) {
      var k: nat :| Up(par, p, k) == Some(c);
      var j := SameUntil(par, par', c, p, k);
      assert Up(par', p, j) == Some(c);
      assert Up(par', c, j + 1) == Some(c);
    } else {
      forall x, k: nat | k > 0 ensures Up(par', x, k) != Some(x) {
        var j := SameUntil(par, par', c, x, k);
        if j < k {
          UpAdd(par', x, j, k - j);
          UpAdd(par', c, k - j, j);
          var i := SameUntil(par, par', c, p, k - 1);
          assert Up(par, p, i) != Some(c);
        }
      }
    }
  }

  // ---- every run --------------------------------------------------------------------------------------

  datatype Op = Register(p: ActorId, c: ActorId) | Unregister(p: ActorId, c: ActorId) | Remove(a: ActorId)

  function Apply(f: Forest, op: Op): Forest {
    match op
    case Register(p, c) => Adopt(f, p, c)
    case Unregister(p, c) => Disown(f, p, c)
    case Remove(a) => Forget(f, a)
  }

  function RunOps(ops: seq<Op>): Forest {
    if ops == [] then Forest(map[], map[]) else Apply(RunOps(ops[..|ops| - 1]), ops[|ops| - 1])
  }

  /** Each unregister names the child's parent of that moment. */
  ghost predicate NamesParents(ops: seq<Op>) {
    forall i :: 0 <= i < |ops| && ops[i].Unregister? ==>
      var f := RunOps(ops[..i]); ops[i].c in f.parent ==> f.parent[ops[i].c] == ops[i].p
  }

  /** Each register puts the child under someone who is not within its own subtree. */
  ghost predicate NoLoops(ops: seq<Op>) {
    forall i :: 0 <= i < |ops| && ops[i].Register? ==> !Within(RunOps(ops[..i]).parent, ops[i].c, ops[i].p)
  }

  lemma {:induction false} RunKeepsInverse(ops: seq<Op>)
    requires NamesParents(ops)
    ensures Inverse(RunOps(ops))
  {
    if ops != [] {
      var n := |ops| - 1;
      var f := RunOps(ops[..n]);
      assert forall i :: 0 <= i < n ==> ops[..n][..i] == ops[..i];
      RunKeepsInverse(ops[..n]);
      match ops[n]
      case Register(p, c) => AdoptKeepsInverse(f, p, c);
      case Unregister(p, c) => DisownKeepsInverseIff(f, p, c);
      case Remove(a) => ForgetKeepsInverse(f, a);
    }
  }

  /** The call settles whose child `c` is. */
  predicate Settles(op: Op, c: ActorId) { if op.Remove? then op.a == c else op.c == c }

  /** The last call about `c` put it under `p`. */
  ghost predicate AdoptedLast(ops: seq<Op>, p: ActorId, c: ActorId) {
    exists i :: 0 <= i < |ops| && ops[i] == Register(p, c) && forall j :: i < j < |ops| ==> !Settles(ops[j], c)
  }

  lemma AdoptedSnoc(ops: seq<Op>, op: Op, p: ActorId, c: ActorId)
    ensures AdoptedLast(ops + [op], p, c) <==> op == Register(p, c) || (AdoptedLast(ops, p, c) && !Settles(op, c))
  {
    var all := ops + [op];
    assert all[|ops|] == op && forall j :: 0 <= j < |ops| ==> all[j] == ops[j];
    if AdoptedLast(ops, p, c) && !Settles(op, c) {
      var i :| 0 <= i < |ops| && ops[i] == Register(p, c) && forall j :: i < j < |ops| ==> !Settles(ops[j], c);
      assert all[i] == Register(p, c);
    }
    if AdoptedLast(all, p, c) && op != Register(p, c) {
      var i :| 0 <= i < |all| && all[i] == Register(p, c) && forall j :: i < j < |all| ==> !Settles(all[j], c);
      assert ops[i] == Register(p, c) && forall j :: i < j < |ops| ==> !Settles(ops[j], c);
    }
  }

  /** After any run the recorded parent is the one the last call about the child put it under, if it did. */
  lemma {:induction false} ParentIsHistory(ops: seq<Op>, p: ActorId, c: ActorId)
    ensures IsParent(RunOps(ops).parent, p, c) <==> AdoptedLast(ops, p, c)
  {
    if ops != [] {
      var n := |ops| - 1;
      ParentIsHistory(ops[..n], p, c);
      AdoptedSnoc(ops[..n], ops[n], p, c);
      assert ops == ops[..n] + [ops[n]];
    }
  }

  /** When the child was last put under a parent. */
  function AdoptedAt(ops: seq<Op>, c: ActorId): int {
    if ops == [] then -1
    else if ops[|ops| - 1].Register? && ops[|ops| - 1].c == c then |ops| - 1
    else AdoptedAt(ops[..|ops| - 1], c)
  }

  lemma {:induction false} AdoptedAtBound(ops: seq<Op>, c: ActorId)
    ensures AdoptedAt(ops, c) < |ops|
  {
    if ops != [] { AdoptedAtBound(ops[..|ops| - 1], c); }
  }

  lemma AdoptedAtSnoc(ops: seq<Op>, op: Op, c: ActorId)
    ensures AdoptedAt(ops + [op], c) == if op.Register? && op.c == c then |ops| else AdoptedAt(ops, c)
    ensures AdoptedAt(ops, c) < |ops|
  {
    assert (ops + [op])[..|ops|] == ops;
    AdoptedAtBound(ops, c);
  }

  /** The list `c` is put on, or taken off, or neither. */
  lemma ListAfter(f: Forest, op: Op, q: ActorId)
    requires Inverse(f)
    ensures var now := ChildrenOf(Apply(f, op).children, q);
            var was := ChildrenOf(f.children, q);
            match op
            case Register(p, c) => now == Without(was, c) + (if q == p then [c] else [])
            case Unregister(p, c) => now == if q == p then Without(was, c) else was
            case Remove(a) => now == Without(was, a)
  {
  }

  /** Children are listed in the order they were last put under their parent. */
  lemma {:induction false} ChildrenInOrder(ops: seq<Op>, q: ActorId)
    requires NamesParents(ops)
    ensures InOrder(ChildrenOf(RunOps(ops).children, q), c => AdoptedAt(ops, c))
  {
    if ops != [] {
      var n := |ops| - 1;
      var before, op := ops[..n], ops[n];
      assert forall i :: 0 <= i < n ==> before[..i] == ops[..i];
      assert ops == before + [op];
      RunKeepsInverse(before);
      ChildrenInOrder(before, q);
      forall c { AdoptedAtSnoc(before, op, c); }
      OneMoreInOrder(RunOps(before), op, q, n, c => AdoptedAt(before, c), c => AdoptedAt(ops, c));
    }
  }

  lemma OneMoreInOrder(f: Forest, op: Op, q: ActorId, n: nat, was: ActorId -> int, now: ActorId -> int)
    requires Inverse(f) && InOrder(ChildrenOf(f.children, q), was)
    requires forall c :: now(c) == (if op.Register? && op.c == c then n else was(c)) && was(c) < n
    ensures InOrder(ChildrenOf(Apply(f, op).children, q), now)
  {
    var list, c := ChildrenOf(f.children, q), if op.Remove? then op.a else op.c;
    ListAfter(f, op, q);
    WithoutInOrder(list, c, was);
    if op == Register(q, c) {
      PushInOrder(Without(list, c), c, was, now);
    } else if op.Unregister? && q != op.p {
      StillInOrder(list, was, now);
    } else {
      assert Without(list, c) + [] == Without(list, c);
      StillInOrder(Without(list, c), was, now);
    }
  }

  lemma {:induction false} FewerParents(par: Parents, gone: ActorId, x: ActorId, k: nat)
    ensures Up(par - {gone}, x, k).Some? ==> Up(par - {gone}, x, k) == Up(par, x, k)
    decreases k
  {
    if k > 0 && x in par && x != gone { FewerParents(par, gone, par[x], k - 1); }
  }

  lemma {:induction false} RunKeepsAcyclic(ops: seq<Op>)
    requires NoLoops(ops)
    ensures Acyclic(RunOps(ops).parent)
  {
    if ops == [] {
      forall x, k: nat | k > 0 ensures Up(RunOps(ops).parent, x, k) != Some(x) {}
    } else {
      var n := |ops| - 1;
      var f := RunOps(ops[..n]);
      assert forall i :: 0 <= i < n ==> ops[..n][..i] == ops[..i];
      RunKeepsAcyclic(ops[..n]);
      match ops[n]
      case Register(p, c) => AdoptKeepsAcyclicIff(f, p, c);
      case Unregister(_, c) =>
        forall x, k: nat
          ensures k > 0 ==> Up(f.parent - {c}, x, k) != Some(x)
        {
          FewerParents(f.parent, c, x, k);
        }
      case Remove(c) =>
        forall x, k: nat
          ensures k > 0 ==> Up(f.parent - {c}, x, k) != Some(x)
        {
          FewerParents(f.parent, c, x, k);
        }
    }
  }

  // ---- the walk -----------------------------------------------------------------------------------------

  /** Levels between `root` and `x`. */
  ghost function Depth(par: Parents, root: ActorId, x: ActorId): (k: nat)
    ensures Within(par, root, x) ==> Up(par, x, k) == Some(root)
  {
    if Within(par, root, x) then
      var k: nat :| Up(par, x, k) == Some(root);
      k
    else 0
  }

  lemma DepthIs(par: Parents, root: ActorId, x: ActorId, k: nat)
    requires !Below(par, root, root) && Up(par, x, k) == Some(root)
    ensures Within(par, root, x) && Depth(par, root, x) == k
  {
    var d := Depth(par, root, x);
    if d < k {
      UpAdd(par, x, d, k - d);
    } else if k < d {
      UpAdd(par, x, k, d - k);
    }
  }

  /** The part of the walk that does not depend on order. */
  ghost predicate WalkSet(f: Forest, root: ActorId, done: seq<ActorId>, queue: seq<ActorId>) {
    var all := done + queue;
    && all != [] && all[0] == root && NoDup(all)
    && (forall i :: 0 <= i < |all| ==> Within(f.parent, root, all[i]))
    && (forall i :: 0 < i < |all| ==> all[i] in f.parent && f.parent[all[i]] in done)
    && (forall d, c :: d in done && IsParent(f.parent, d, c) ==> c in all)
  }

  /** Depth never falls along the walk, and nothing lies more than one level below the actor whose turn it is. */
  ghost predicate WalkOrder(f: Forest, root: ActorId, done: seq<ActorId>, queue: seq<ActorId>) {
    var all := done + queue;
    && (forall i, j :: 0 <= i <= j < |all| ==> Depth(f.parent, root, all[i]) <= Depth(f.parent, root, all[j]))
    && (queue != [] ==> forall i :: 0 <= i < |all| ==>
      Depth(f.parent, root, all[i]) <= Depth(f.parent, root, queue[0]) + 1)
  }

  ghost predicate WalkInv(f: Forest, root: ActorId, done: seq<ActorId>, queue: seq<ActorId>) {
    WalkSet(f, root, done, queue) && WalkOrder(f, root, done, queue)
  }

  lemma WalkStart(f: Forest, root: ActorId)
    requires !Below(f.parent, root, root)
    ensures WalkInv(f, root, [], [root])
  {
    DepthIs(f.parent, root, root, 0);
    assert [] + [root] == [root];
  }

  /** A child of the actor whose turn it is has not been met yet, and lies one level deeper. */
  lemma FreshChild(f: Forest, root: ActorId, done: seq<ActorId>, queue: seq<ActorId>, c: ActorId)
    requires Inverse(f) && !Below(f.parent, root, root) && WalkSet(f, root, done, queue) && queue != []
    requires c in ChildrenOf(f.children, queue[0])
    ensures c !in done + queue && IsParent(f.parent, queue[0], c)
    ensures Within(f.parent, root, c) && Depth(f.parent, root, c) == Depth(f.parent, root, queue[0]) + 1
  {
    var all := done + queue;
    assert all[|done|] == queue[0];
    var d := Depth(f.parent, root, queue[0]);
    assert Up(f.parent, c, d + 1) == Some(root);
    DepthIs(f.parent, root, c, d + 1);
    assert c != root;
    assert queue[0] !in done by {
      forall k | 0 <= k < |done| ensures done[k] != queue[0] { assert done[k] == all[k]; }
    }
    forall i | 0 <= i < |all| ensures all[i] != c {
      assert i > 0 ==> f.parent[all[i]] != queue[0];
    }
  }

  lemma WalkStepSet(f: Forest, root: ActorId, done: seq<ActorId>, queue: seq<ActorId>)
    requires Inverse(f) && !Below(f.parent, root, root) && WalkSet(f, root, done, queue) && queue != []
    ensures WalkSet(f, root, done + [queue[0]], queue[1..] + ChildrenOf(f.children, queue[0]))
  {
    var cur, kids := queue[0], ChildrenOf(f.children, queue[0]);
    var all, all' := done + queue, (done + [cur]) + (queue[1..] + kids);
    assert all' == all + kids;
    forall c | c in kids ensures c !in all && IsParent(f.parent, cur, c) && Within(f.parent, root, c) {
      FreshChild(f, root, done, queue, c);
    }
    assert NoDup(kids);
    assert forall c :: IsParent(f.parent, cur, c) ==> c in kids;
    forall d, c | d in done + [cur] && IsParent(f.parent, d, c) ensures c in all' {
      if d in done { assert c in all; }
    }
    forall i | 0 < i < |all'| ensures all'[i] in f.parent && f.parent[all'[i]] in done + [cur] {
      if i < |all| { assert all'[i] == all[i]; } else { assert all'[i] in kids; }
    }
    forall i | 0 <= i < |all'| ensures Within(f.parent, root, all'[i]) {
      if i < |all| { assert all'[i] == all[i]; } else { assert all'[i] in kids; }
    }
  }

  lemma WalkStepOrder(f: Forest, root: ActorId, done: seq<ActorId>, queue: seq<ActorId>)
    requires Inverse(f) && !Below(f.parent, root, root) && WalkInv(f, root, done, queue) && queue != []
    requires WalkSet(f, root, done + [queue[0]], queue[1..] + ChildrenOf(f.children, queue[0]))
    ensures WalkOrder(f, root, done + [queue[0]], queue[1..] + ChildrenOf(f.children, queue[0]))
  {
    var cur, kids := queue[0], ChildrenOf(f.children, queue[0]);
    var queue' := queue[1..] + kids;
    var all, all' := done + queue, (done + [cur]) + queue';
    var d := Depth(f.parent, root, cur);
    assert all' == all + kids && all[|done|] == cur;
    forall i | 0 <= i < |all'|
      ensures if i < |all| then all'[i] == all[i] && Depth(f.parent, root, all'[i]) <= d + 1
              else Depth(f.parent, root, all'[i]) == d + 1
    {
      if i >= |all| { FreshChild(f, root, done, queue, all'[i]); }
    }
    if queue' != [] {
      assert queue'[0] == all'[|done| + 1];
      assert Depth(f.parent, root, queue'[0]) >= d by {
        if |done| + 1 < |all| { assert Depth(f.parent, root, all[|done|]) <= Depth(f.parent, root, all[|done| + 1]); }
      }
    }
  }

  lemma WalkStep(f: Forest, root: ActorId, done: seq<ActorId>, queue: seq<ActorId>)
    requires Inverse(f) && !Below(f.parent, root, root) && WalkInv(f, root, done, queue) && queue != []
    ensures WalkInv(f, root, done + [queue[0]], queue[1..] + ChildrenOf(f.children, queue[0]))
  {
    WalkStepSet(f, root, done, queue);
    WalkStepOrder(f, root, done, queue);
  }

  /** Everyone met has a parent, except the root, so the walk is no longer than the number of children plus one. */
  lemma WalkBound(f: Forest, root: ActorId, done: seq<ActorId>, queue: seq<ActorId>)
    requires WalkSet(f, root, done, queue)
    ensures |done + queue| <= |f.parent| + 1
  {
    NoDupBound((done + queue)[1..], f.parent.Keys);
  }

  /** When the queue is empty the walk has met exactly the subtree. */
  lemma WalkComplete(f: Forest, root: ActorId, done: seq<ActorId>, x: ActorId)
    requires WalkSet(f, root, done, []) && !Below(f.parent, root, root)
    ensures x in done[1..] <==> Below(f.parent, root, x)
  {
    assert done + [] == done;
    if Below(f.parent, root, x) {
      var k: nat :| k > 0 && Up(f.parent, x, k) == Some(root);
      WalkMeets(f, root, done, x, k);
      var i :| 0 <= i < |done| && done[i] == x;
      assert done[1..][i - 1] == x;
    }
    if x in done[1..] {
      var i :| 0 <= i < |done[1..]| && done[1..][i] == x;
      assert done[i + 1] == x && Within(f.parent, root, done[i + 1]);
      var k := Depth(f.parent, root, x);
      assert k > 0;
    }
  }

  lemma {:induction false} WalkMeets(f: Forest, root: ActorId, done: seq<ActorId>, x: ActorId, k: nat)
    requires WalkSet(f, root, done, []) && Up(f.parent, x, k) == Some(root)
    ensures x in done
    decreases k
  {
    assert done + [] == done;
    if k > 0 {
      WalkMeets(f, root, done, f.parent[x], k - 1);
      assert IsParent(f.parent, f.parent[x], x);
    }
  }

  /** Every proper descendant of the root, each once, in nondecreasing depth. */
  ghost predicate IsSubtree(f: Forest, root: ActorId, result: seq<ActorId>) {
    && NoDup(result)
    && (forall x :: x in result <==> Below(f.parent, root, x))
    && (forall i, j :: 0 <= i <= j < |result| ==> Depth(f.parent, root, result[i]) <= Depth(f.parent, root, result[j]))
  }

  lemma WalkDone(f: Forest, root: ActorId, done: seq<ActorId>)
    requires WalkInv(f, root, done, []) && !Below(f.parent, root, root)
    ensures done != [] && IsSubtree(f, root, done[1..])
  {
    assert done + [] == done;
    forall x ensures x in done[1..] <==> Below(f.parent, root, x) { WalkComplete(f, root, done, x); }
  }

  /** What has been met is what is done followed by what waits; a turn of the loop keeps that, the end resolves it. */
  lemma TurnKeepsMet(root: ActorId, result: seq<ActorId>, done: seq<ActorId>, queue: seq<ActorId>, kids: seq<ActorId>)
    requires [root] + result == done + queue
    ensures queue != [] ==> [root] + (result + kids) == (done + [queue[0]]) + (queue[1..] + kids)
    ensures queue == [] ==> done == [root] + result && result == done[1..]
  {
    assert [root] + (result + kids) == ([root] + result) + kids;
    if queue != [] {
      assert queue == [queue[0]] + queue[1..];
      assert (done + queue) + kids == (done + [queue[0]]) + (queue[1..] + kids);
    } else {
      assert done + [] == done;
    }
  }

  // ---- when does it end? ----------------------------------------------------------------------------------

  /** The queue after `n` turns of the loop. */
  ghost function QueueAfter(ch: Children, queue: seq<ActorId>, n: nat): seq<ActorId>
    decreases n
  {
    if n == 0 || queue == [] then queue else QueueAfter(ch, queue[1..] + ChildrenOf(ch, queue[0]), n - 1)
  }

  /** `x` is `k` child links below `root`, in any child lists. */
  ghost predicate DownBy(ch: Children, root: ActorId, x: ActorId, k: nat)
    decreases k
  {
    if k == 0 then x == root else exists y :: DownBy(ch, root, y, k - 1) && x in ChildrenOf(ch, y)
  }

  ghost predicate Down(ch: Children, root: ActorId, x: ActorId) { exists k: nat :: k > 0 && DownBy(ch, root, x, k) }

  /** What holds of the walk over any child lists: all met are from `root`, and the children of the done are met. */
  ghost predicate Spans(ch: Children, root: ActorId, done: seq<ActorId>, queue: seq<ActorId>, result: seq<ActorId>) {
    && (forall x :: x in done + queue ==> exists k: nat :: DownBy(ch, root, x, k))
    && (forall x :: x in result ==> Down(ch, root, x))
    && (forall y, x :: y in done && x in ChildrenOf(ch, y) ==> x in result)
  }

  lemma SpansStep(ch: Children, root: ActorId, done: seq<ActorId>, queue: seq<ActorId>, result: seq<ActorId>)
    requires Spans(ch, root, done, queue, result) && queue != []
    ensures var kids := ChildrenOf(ch, queue[0]); Spans(ch, root, done + [queue[0]], queue[1..] + kids, result + kids)
  {
    var y, kids := queue[0], ChildrenOf(ch, queue[0]);
    assert y in done + queue;
    var k: nat :| DownBy(ch, root, y, k);
    forall x | x in kids ensures DownBy(ch, root, x, k + 1) && Down(ch, root, x) {
      assert DownBy(ch, root, x, k + 1);
    }
    forall x | x in (done + [y]) + (queue[1..] + kids) ensures exists k: nat :: DownBy(ch, root, x, k) {
      if x in kids {
        assert DownBy(ch, root, x, k + 1);
      } else {
        assert x in done + queue;
      }
    }
  }

  lemma {:induction false} SpansAll(
    ch: Children, root: ActorId, done: seq<ActorId>, result: seq<ActorId>, x: ActorId, k: nat)
    requires Spans(ch, root, done, [], result) && done == [root] + result && k > 0 && DownBy(ch, root, x, k)
    ensures x in result
    decreases k
  {
    var y :| DownBy(ch, root, y, k - 1) && x in ChildrenOf(ch, y);
    if k > 1 { SpansAll(ch, root, done, result, y, k - 1); }
    assert y in done;
  }

  lemma SpansDone(ch: Children, root: ActorId, done: seq<ActorId>, result: seq<ActorId>)
    requires Spans(ch, root, done, [], result) && done == [root] + result
    ensures forall x :: x in result <==> Down(ch, root, x)
  {
    forall x | Down(ch, root, x) ensures x in result {
      var k: nat :| k > 0 && DownBy(ch, root, x, k);
      SpansAll(ch, root, done, result, x, k);
    }
  }

  lemma SpansStart(ch: Children, root: ActorId)
    ensures Spans(ch, root, [], [root], [])
  {
    assert DownBy(ch, root, root, 0);
  }

  ghost predicate WalkEnds(ch: Children, root: ActorId) { exists n: nat :: QueueAfter(ch, [root], n) == [] }

  lemma {:induction false} WalkRunsOut(f: Forest, root: ActorId, done: seq<ActorId>, queue: seq<ActorId>)
    returns (n: nat)
    requires Inverse(f) && !Below(f.parent, root, root) && WalkSet(f, root, done, queue)
    ensures QueueAfter(f.children, queue, n) == []
    decreases |f.parent| + 1 - |done|
  {
    WalkBound(f, root, done, queue);
    if queue == [] {
      n := 0;
    } else {
      WalkStepSet(f, root, done, queue);
      var rest := WalkRunsOut(f, root, done + [queue[0]], queue[1..] + ChildrenOf(f.children, queue[0]));
      n := rest + 1;
    }
  }

  /** An ancestor-or-self of `root`. */
  ghost predicate Above(par: Parents, root: ActorId, x: ActorId) { exists i: nat :: Up(par, root, i) == Some(x) }

  lemma {:induction false} LoopNeverDrains(f: Forest, root: ActorId, queue: seq<ActorId>, n: nat)
    requires Inverse(f) && Below(f.parent, root, root)
    requires exists q :: q in queue && Above(f.parent, root, q)
    ensures QueueAfter(f.children, queue, n) != []
    decreases n
  {
    if n > 0 {
      var q :| q in queue && Above(f.parent, root, q);
      var queue' := queue[1..] + ChildrenOf(f.children, queue[0]);
      if q == queue[0] {
        var y := ChildAbove(f, root, q);
        assert y in queue';
      } else {
        assert q in queue';
      }
      LoopNeverDrains(f, root, queue', n - 1);
    }
  }

  /** On a cycle through `root`, every ancestor of `root` has a child that is an ancestor of `root`. */
  lemma ChildAbove(f: Forest, root: ActorId, x: ActorId) returns (y: ActorId)
    requires Inverse(f) && Below(f.parent, root, root) && Above(f.parent, root, x)
    ensures y in ChildrenOf(f.children, x) && Above(f.parent, root, y)
  {
    var i: nat :| Up(f.parent, root, i) == Some(x);
    var m: nat :| m > 0 && Up(f.parent, root, m) == Some(root);
    var k := if i > 0 then i else m;
    UpAdd(f.parent, root, k - 1, 1);
    y := Up(f.parent, root, k - 1).value;
    assert IsParent(f.parent, x, y);
  }

  /** The walk ends exactly when the root is not below itself, whatever cycles exist elsewhere. */
  lemma WalkEndsIff(f: Forest, root: ActorId)
    requires Inverse(f)
    ensures WalkEnds(f.children, root) <==> !Below(f.parent, root, root)
  {
    if Below(f.parent, root, root) {
      assert Up(f.parent, root, 0) == Some(root);
      assert Above(f.parent, root, root);
      forall n: nat ensures QueueAfter(f.children, [root], n) != [] { LoopNeverDrains(f, root, [root], n); }
    } else {
      WalkStart(f, root);
      var n := WalkRunsOut(f, root, [], [root]);
    }
  }

  // ---- when does it end, over any child lists? ----------------------------------------------------------------

  /** Somebody at or below `q` is below itself. */
  ghost predicate Loops(ch: Children, q: ActorId) { exists x, k: nat :: DownBy(ch, q, x, k) && Down(ch, x, x) }

  lemma {:induction false} FirstStep(ch: Children, q: ActorId, x: ActorId, k: nat) returns (y: ActorId)
    requires k > 0 && DownBy(ch, q, x, k)
    ensures y in ChildrenOf(ch, q) && DownBy(ch, y, x, k - 1)
    decreases k
  {
    var z :| DownBy(ch, q, z, k - 1) && x in ChildrenOf(ch, z);
    if k == 1 {
      y := x;
    } else {
      y := FirstStep(ch, q, z, k - 1);
    }
  }

  lemma LoopGoesOn(ch: Children, q: ActorId) returns (y: ActorId)
    requires Loops(ch, q)
    ensures y in ChildrenOf(ch, q) && Loops(ch, y)
  {
    var x, k: nat :| DownBy(ch, q, x, k) && Down(ch, x, x);
    if k > 0 {
      y := FirstStep(ch, q, x, k);
    } else {
      var m: nat :| m > 0 && DownBy(ch, x, x, m);
      y := FirstStep(ch, x, x, m);
    }
  }

  lemma {:induction false} LoopingNeverDrains(ch: Children, queue: seq<ActorId>, n: nat)
    requires exists q :: q in queue && Loops(ch, q)
    ensures QueueAfter(ch, queue, n) != []
    decreases n
  {
    if n > 0 {
      var q :| q in queue && Loops(ch, q);
      var queue' := queue[1..] + ChildrenOf(ch, queue[0]);
      if q == queue[0] {
        var y := LoopGoesOn(ch, q);
        assert y in queue';
      } else {
        assert q in queue';
      }
      LoopingNeverDrains(ch, queue', n - 1);
    }
  }

  ghost predicate Path(ch: Children, p: seq<ActorId>) {
    p != [] && (|p| == 1 || (Path(ch, p[..|p| - 1]) && p[|p| - 1] in ChildrenOf(ch, p[|p| - 2])))
  }

  lemma {:induction false} DownPath(ch: Children, q: ActorId, x: ActorId, k: nat) returns (p: seq<ActorId>)
    requires DownBy(ch, q, x, k)
    ensures |p| == k + 1 && Path(ch, p) && p[0] == q && p[k] == x
    decreases k
  {
    if k == 0 {
      p := [q];
    } else {
      var y :| DownBy(ch, q, y, k - 1) && x in ChildrenOf(ch, y);
      var before := DownPath(ch, q, y, k - 1);
      p := before + [x];
      assert p[..k] == before && p[k - 1] == y;
    }
  }

  lemma {:induction false} AlongPath(ch: Children, p: seq<ActorId>, i: nat, j: nat)
    requires Path(ch, p) && i <= j < |p|
    ensures DownBy(ch, p[i], p[j], j - i)
    ensures j + 1 < |p| ==> p[j] in ch
    decreases |p|
  {
    var n := |p| - 1;
    if j < n {
      AlongPath(ch, p[..n], i, j);
      if j + 1 == n { assert p[n] in ChildrenOf(ch, p[j]); } else { assert p[..n][j] == p[j]; }
    } else if i < n {
      AlongPath(ch, p[..n], i, n - 1);
      assert DownBy(ch, p[i], p[n - 1], n - 1 - i) && p[n] in ChildrenOf(ch, p[n - 1]);
    }
  }

  /** Where nothing loops no path has more turns than there are child lists. */
  lemma ShortPaths(ch: Children, q: ActorId, x: ActorId, k: nat)
    requires !Loops(ch, q) && DownBy(ch, q, x, k)
    ensures k <= |ch|
  {
    var p := DownPath(ch, q, x, k);
    forall i, j | 0 <= i < j < k ensures p[i] != p[j] {
      AlongPath(ch, p, 0, i);
      AlongPath(ch, p, i, j);
      if p[i] == p[j] {
        assert Down(ch, p[i], p[i]);
      }
    }
    forall y | y in p[..k] ensures y in ch.Keys {
      var i :| 0 <= i < k && p[i] == y;
      AlongPath(ch, p, i, i);
    }
    NoDupBound(p[..k], ch.Keys);
  }

  ghost predicate Shallow(ch: Children, q: ActorId, h: nat) { forall x, k: nat :: DownBy(ch, q, x, k) ==> k <= h }

  lemma {:induction false} Onward(ch: Children, q: ActorId, y: ActorId, x: ActorId, k: nat)
    requires y in ChildrenOf(ch, q) && DownBy(ch, y, x, k)
    ensures DownBy(ch, q, x, k + 1)
    decreases k
  {
    if k == 0 {
      assert DownBy(ch, q, q, 0);
    } else {
      var z :| DownBy(ch, y, z, k - 1) && x in ChildrenOf(ch, z);
      Onward(ch, q, y, z, k - 1);
    }
  }

  lemma ChildIsShallower(ch: Children, q: ActorId, y: ActorId, h: nat)
    requires Shallow(ch, q, h) && y in ChildrenOf(ch, q)
    ensures h > 0 && Shallow(ch, y, h - 1)
  {
    assert DownBy(ch, y, y, 0);
    Onward(ch, q, y, y, 0);
    forall x, k: nat | DownBy(ch, y, x, k) ensures k <= h - 1 { Onward(ch, q, y, x, k); }
  }

  ghost function Kids(ch: Children, queue: seq<ActorId>): seq<ActorId> {
    if queue == [] then [] else ChildrenOf(ch, queue[0]) + Kids(ch, queue[1..])
  }

  lemma {:induction false} KidsMember(ch: Children, queue: seq<ActorId>, y: ActorId) returns (q: ActorId)
    requires y in Kids(ch, queue)
    ensures q in queue && y in ChildrenOf(ch, q)
  {
    if y in ChildrenOf(ch, queue[0]) {
      q := queue[0];
    } else {
      q := KidsMember(ch, queue[1..], y);
    }
  }

  /** One level of the walk: everyone waiting is replaced by the children of all of them. */
  lemma {:induction false} OneLevel(ch: Children, queue: seq<ActorId>, later: seq<ActorId>)
    ensures QueueAfter(ch, queue + later, |queue|) == later + Kids(ch, queue)
    decreases |queue|
  {
    if queue == [] {
      assert queue + later == later && later + [] == later;
    } else {
      var kids := ChildrenOf(ch, queue[0]);
      assert (queue + later)[1..] + kids == queue[1..] + (later + kids);
      OneLevel(ch, queue[1..], later + kids);
      assert (later + kids) + Kids(ch, queue[1..]) == later + Kids(ch, queue);
    }
  }

  lemma {:induction false} QueueAdd(ch: Children, queue: seq<ActorId>, n: nat, m: nat)
    ensures QueueAfter(ch, QueueAfter(ch, queue, n), m) == QueueAfter(ch, queue, n + m)
    decreases n
  {
    if n > 0 && queue != [] { QueueAdd(ch, queue[1..] + ChildrenOf(ch, queue[0]), n - 1, m); }
  }

  lemma {:induction false} ShallowDrains(ch: Children, queue: seq<ActorId>, h: nat) returns (n: nat)
    requires forall q :: q in queue ==> Shallow(ch, q, h)
    ensures QueueAfter(ch, queue, n) == []
    decreases h, |queue|
  {
    n := 0;
    if queue != [] {
      OneLevel(ch, queue, []);
      assert queue + [] == queue && [] + Kids(ch, queue) == Kids(ch, queue);
      forall y | y in Kids(ch, queue) ensures h > 0 && Shallow(ch, y, h - 1) {
        var q := KidsMember(ch, queue, y);
        ChildIsShallower(ch, q, y, h);
      }
      if Kids(ch, queue) == [] {
        n := |queue|;
      } else {
        assert Kids(ch, queue)[0] in Kids(ch, queue);
        var m := ShallowDrains(ch, Kids(ch, queue), h - 1);
        QueueAdd(ch, queue, |queue|, m);
        n := |queue| + m;
      }
    }
  }

  /** Over any child lists, one parent each or not, the walk ends iff nobody at or below the root is below itself. */
  lemma WalkEndsIffNoLoop(ch: Children, root: ActorId)
    ensures WalkEnds(ch, root) <==> !Loops(ch, root)
  {
    if Loops(ch, root) {
      assert root in [root];
      forall n: nat ensures QueueAfter(ch, [root], n) != [] { LoopingNeverDrains(ch, [root], n); }
    } else {
      forall x, k: nat | DownBy(ch, root, x, k) ensures k <= |ch| { ShortPaths(ch, root, x, k); }
      var n := ShallowDrains(ch, [root], |ch|);
    }
  }
}
