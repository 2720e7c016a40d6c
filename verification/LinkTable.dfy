/** The bidirectional link table of one node, as values. */
module LinkTable {
  import opened Common
  import opened ActorIds

  type Links = map<ActorId, seq<ActorId>>

  function Peers(l: Links, a: ActorId): seq<ActorId> { if a in l then l[a] else [] }

  predicate IsLinked(l: Links, a: ActorId, b: ActorId) { b in Peers(l, a) }

  /** One half of `add_link`: create the list if needed, push unless already there. */
  function PushPeer(l: Links, a: ActorId, b: ActorId): Links {
    if b in Peers(l, a) then l else l[a := Peers(l, a) + [b]]
  }

  function AddLink(l: Links, a: ActorId, b: ActorId): Links {
    if a == b then l else PushPeer(PushPeer(l, a, b), b, a)
  }

  /** One half of `remove_link`: retain the others, drop a list that became empty. */
  function DropPeer(l: Links, a: ActorId, b: ActorId): Links {
    if a !in l then l
    else if Without(l[a], b) == [] then l - {a}
    else l[a := Without(l[a], b)]
  }

  function RemoveLink(l: Links, a: ActorId, b: ActorId): Links { DropPeer(DropPeer(l, a, b), b, a) }

  /** `cleanup_links_for_actor`: peers keep their (possibly empty) lists. */
  function CleanupLinks(l: Links, a: ActorId): Links {
    map k | k in l && k != a :: Without(l[k], a)
  }

  ghost predicate Symmetric(l: Links) {
    forall x, y :: IsLinked(l, x, y) ==> IsLinked(l, y, x)
  }

  ghost predicate Irreflexive(l: Links) { forall x :: !IsLinked(l, x, x) }

  ghost predicate DuplicateFree(l: Links) { forall x :: x in l ==> NoDup(l[x]) }

  ghost predicate Coherent(l: Links) { Symmetric(l) && Irreflexive(l) && DuplicateFree(l) }

  predicate SamePair(a: ActorId, b: ActorId, x: ActorId, y: ActorId) { (a == x && b == y) || (a == y && b == x) }

  // ---- what the operations do to the relation -----------------------------------------------------

  lemma AddLinkRelation(l: Links, a: ActorId, b: ActorId)
    ensures forall x, y :: IsLinked(AddLink(l, a, b), x, y) <==> IsLinked(l, x, y) || (a != b && SamePair(a, b, x, y))
  {
  }

  lemma RemoveLinkRelation(l: Links, a: ActorId, b: ActorId)
    ensures forall x, y :: IsLinked(RemoveLink(l, a, b), x, y) <==> IsLinked(l, x, y) && !SamePair(a, b, x, y)
  {
    var m := DropPeer(l, a, b);
    assert forall x, y :: IsLinked(m, x, y) <==> IsLinked(l, x, y) && !(x == a && y == b);
  }

  lemma CleanupLinksRelation(l: Links, a: ActorId)
    ensures forall x, y :: IsLinked(CleanupLinks(l, a), x, y) <==> IsLinked(l, x, y) && x != a && y != a
  {
  }

  // ---- every run ----------------------------------------------------------------------------------

  datatype LinkOp = Add(a: ActorId, b: ActorId) | Remove(a: ActorId, b: ActorId) | Cleanup(a: ActorId)

  function ApplyOp(l: Links, op: LinkOp): Links {
    match op
    case Add(a, b) => AddLink(l, a, b)
    case Remove(a, b) => RemoveLink(l, a, b)
    case Cleanup(a) => CleanupLinks(l, a)
  }

  function RunOps(ops: seq<LinkOp>): Links {
    if ops == [] then map[] else ApplyOp(RunOps(ops[..|ops| - 1]), ops[|ops| - 1])
  }

  lemma NoDupAfterOp(l: Links, op: LinkOp)
    requires DuplicateFree(l)
    ensures DuplicateFree(ApplyOp(l, op))
  {
    match op
    case Add(a, b) =>
      if a != b {
        PushKeepsNoDup(l, a, b);
        PushKeepsNoDup(PushPeer(l, a, b), b, a);
      }
    case Remove(a, b) =>
      DropKeepsNoDup(l, a, b);
      DropKeepsNoDup(DropPeer(l, a, b), b, a);
    case Cleanup(a) =>
      forall x | x in l ensures NoDup(Without(l[x], a)) { WithoutNoDup(l[x], a); }
  }

  lemma PushKeepsNoDup(l: Links, a: ActorId, b: ActorId)
    requires DuplicateFree(l)
    ensures DuplicateFree(PushPeer(l, a, b))
  {
  }

  lemma DropKeepsNoDup(l: Links, a: ActorId, b: ActorId)
    requires DuplicateFree(l)
    ensures DuplicateFree(DropPeer(l, a, b))
  {
    if a in l { WithoutNoDup(l[a], b); }
  }

  /** Every run of adds, removes and cleanups keeps the table symmetric, irreflexive and free of duplicates. */
  lemma {:induction false} RunKeepsCoherent(ops: seq<LinkOp>)
    ensures Coherent(RunOps(ops))
  {
    if ops != [] {
      var op, before := ops[|ops| - 1], RunOps(ops[..|ops| - 1]);
      RunKeepsCoherent(ops[..|ops| - 1]);
      NoDupAfterOp(before, op);
      match op
      case Add(a, b) => AddLinkRelation(before, a, b);
      case Remove(a, b) => RemoveLinkRelation(before, a, b);
      case Cleanup(a) => CleanupLinksRelation(before, a);
    }
  }

  predicate Joins(op: LinkOp, x: ActorId, y: ActorId) { op.Add? && op.a != op.b && SamePair(op.a, op.b, x, y) }

  predicate Parts(op: LinkOp, x: ActorId, y: ActorId) {
    match op
    case Add(_, _) => false
    case Remove(a, b) => SamePair(a, b, x, y)
    case Cleanup(a) => a == x || a == y
  }

  /** The history says the pair is linked: some add joined it and nothing later parted it. */
  ghost predicate JoinedLast(ops: seq<LinkOp>, x: ActorId, y: ActorId) {
    exists i :: 0 <= i < |ops| && Joins(ops[i], x, y) && forall j :: i < j < |ops| ==> !Parts(ops[j], x, y)
  }

  lemma OpRelation(l: Links, op: LinkOp, x: ActorId, y: ActorId)
    ensures IsLinked(ApplyOp(l, op), x, y) <==> Joins(op, x, y) || (IsLinked(l, x, y) && !Parts(op, x, y))
  {
    match op
    case Add(a, b) => AddLinkRelation(l, a, b);
    case Remove(a, b) => RemoveLinkRelation(l, a, b);
    case Cleanup(a) => CleanupLinksRelation(l, a);
  }

  lemma HistoryStep(ops: seq<LinkOp>, op: LinkOp, x: ActorId, y: ActorId)
    ensures JoinedLast(ops + [op], x, y) <==> Joins(op, x, y) || (JoinedLast(ops, x, y) && !Parts(op, x, y))
  {
    var all := ops + [op];
    assert all[|ops|] == op && forall j :: 0 <= j < |ops| ==> all[j] == ops[j];
    if JoinedLast(ops, x, y) && !Parts(op, x, y) {
      var i :| 0 <= i < |ops| && Joins(ops[i], x, y) && forall j :: i < j < |ops| ==> !Parts(ops[j], x, y);
      assert Joins(all[i], x, y);
    }
    if JoinedLast(all, x, y) && !Joins(op, x, y) {
      var i :| 0 <= i < |all| && Joins(all[i], x, y) && forall j :: i < j < |all| ==> !Parts(all[j], x, y);
      assert Joins(ops[i], x, y) && forall j :: i < j < |ops| ==> !Parts(ops[j], x, y);
    }
  }

  /** The table after a run is exactly what the history says, pair by pair. */
  lemma {:induction false} RunIsHistory(ops: seq<LinkOp>, x: ActorId, y: ActorId)
    ensures IsLinked(RunOps(ops), x, y) <==> JoinedLast(ops, x, y)
  {
    if ops != [] {
      var n := |ops| - 1;
      RunIsHistory(ops[..n], x, y);
      OpRelation(RunOps(ops[..n]), ops[n], x, y);
      HistoryStep(ops[..n], ops[n], x, y);
      assert ops == ops[..n] + [ops[n]];
    }
  }

  /** When the pair became linked for the last time: linking it again while it is linked does not count. */
  ghost function LinkedSince(ops: seq<LinkOp>, x: ActorId, y: ActorId): (r: int)
    ensures r < |ops|
  {
    if ops == [] then -1
    else
      var n := |ops| - 1;
      if Joins(ops[n], x, y) && !JoinedLast(ops[..n], x, y) then n else LinkedSince(ops[..n], x, y)
  }

  function Other(op: LinkOp, x: ActorId): ActorId { if op.Cleanup? || op.b == x then op.a else op.b }

  /** What one call does to one list: a new peer goes last, a parted one goes. */
  lemma PeersAfter(l: Links, op: LinkOp, x: ActorId)
    requires Irreflexive(l)
    ensures var y := Other(op, x);
            Peers(ApplyOp(l, op), x) ==
            if Joins(op, x, y) && !IsLinked(l, x, y) then Peers(l, x) + [y]
            else if Joins(op, x, y) then Peers(l, x)
            else if Parts(op, x, y) then (if op == Cleanup(x) then [] else Without(Peers(l, x), y))
            else Peers(l, x)
  {
  }

  /** Peers are listed in the order in which they became linked. */
  lemma {:induction false} PeersInOrder(ops: seq<LinkOp>, x: ActorId)
    ensures InOrder(Peers(RunOps(ops), x), y => LinkedSince(ops, x, y))
  {
    if ops != [] {
      var n := |ops| - 1;
      PeersInOrder(ops[..n], x);
      OneMorePeer(ops[..n], ops[n], x);
      assert ops == ops[..n] + [ops[n]];
    }
  }

  lemma OneMorePeer(ops: seq<LinkOp>, op: LinkOp, x: ActorId)
    requires InOrder(Peers(RunOps(ops), x), y => LinkedSince(ops, x, y))
    ensures InOrder(Peers(ApplyOp(RunOps(ops), op), x), y => LinkedSince(ops + [op], x, y))
  {
    var all, l, y := ops + [op], RunOps(ops), Other(op, x);
    var list, was, now := Peers(l, x), z => LinkedSince(ops, x, z), z => LinkedSince(all, x, z);
    assert all[..|ops|] == ops;
    RunKeepsCoherent(ops);
    PeersAfter(l, op, x);
    forall z ensures z in list ==> now(z) == was(z) {
      RunIsHistory(ops, x, z);
    }
    RunIsHistory(ops, x, y);
    WithoutInOrder(list, y, was);
    StillInOrder(list, was, now);
    StillInOrder(Without(list, y), was, now);
    if Joins(op, x, y) && y !in list {
      PushInOrder(list, y, was, now);
    }
  }

  /** Unlinking a pair just linked restores every list as it was, order included. */
  lemma RemoveUndoesAdd(l: Links, a: ActorId, b: ActorId)
    requires !IsLinked(l, a, b) && !IsLinked(l, b, a)
    ensures forall x :: Peers(RemoveLink(AddLink(l, a, b), a, b), x) == Peers(l, x)
  {
    if a != b {
      // The two halves touch different lists, so each is undone by itself.
      var pushed := PushPeer(l, a, b);
      var both := PushPeer(pushed, b, a);
      DropUndoesPush(l, a, b);
      DropUndoesPush(pushed, b, a);
      HalvesCommute(both, pushed, a, b);
    }
  }

  lemma HalvesCommute(l: Links, half: Links, a: ActorId, b: ActorId)
    requires a != b && forall x :: Peers(DropPeer(l, b, a), x) == Peers(half, x)
    ensures forall x :: Peers(DropPeer(DropPeer(l, a, b), b, a), x) == Peers(DropPeer(half, a, b), x)
  {
    forall x ensures Peers(DropPeer(DropPeer(l, a, b), b, a), x) == Peers(DropPeer(half, a, b), x) {
      PeersAfterDrop(DropPeer(l, a, b), b, a, x);
      PeersAfterDrop(half, a, b, x);
      PeersAfterDrop(l, a, b, x);
      PeersAfterDrop(l, a, b, b);
      PeersAfterDrop(l, b, a, x);
    }
  }

  lemma PeersAfterDrop(l: Links, a: ActorId, b: ActorId, x: ActorId)
    ensures Peers(DropPeer(l, a, b), x) == if x == a then Without(Peers(l, a), b) else Peers(l, x)
  {
  }

  lemma DropUndoesPush(l: Links, a: ActorId, b: ActorId)
    requires !IsLinked(l, a, b)
    ensures forall x :: Peers(DropPeer(PushPeer(l, a, b), a, b), x) == Peers(l, x)
  {
    WithoutPush(Peers(l, a), b);
  }
}
