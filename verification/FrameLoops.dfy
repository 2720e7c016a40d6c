/**
  The parser of the register reply as it runs on any bytes. A length is a signed 32-bit number, so a field can move
  the cursor backwards, even in front of the buffer; the loops may then go on for ever.
 */
module FrameLoops {
  import opened Common
  import opened Varints
  import opened Frames

  // ---- loops over a cursor ----------------------------------------------------------------------------------------

  /** Where the cursor is after `n` turns; `None` once the loop has ended. */
  ghost function Orbit(next: int -> Option<int>, start: int, n: nat): Option<int> {
    if n == 0 then Some(start)
    else
      match Orbit(next, start, n - 1)
      case None => None
      case Some(o) => next(o)
  }

  ghost predicate Ends(next: int -> Option<int>, start: int) { exists n: nat :: Orbit(next, start, n).None? }

  /** The cursor is never twice at the same place. */
  ghost predicate NeverRepeats(next: int -> Option<int>, start: int) {
    forall i: nat, j: nat :: i < j && Orbit(next, start, i).Some? ==> Orbit(next, start, i) != Orbit(next, start, j)
  }

  /** Behind the buffer the loop ends, and no jump goes further back than `lo`. */
  ghost predicate Fenced(next: int -> Option<int>, lo: int, hi: int) {
    && (forall o :: o >= hi ==> next(o).None?)
    && (forall o :: lo <= o < hi && next(o).Some? ==> lo <= next(o).value)
  }

  lemma {:induction false} OrbitAdd(next: int -> Option<int>, start: int, i: nat, j: nat, k: nat)
    requires Orbit(next, start, i) == Orbit(next, start, j)
    ensures Orbit(next, start, i + k) == Orbit(next, start, j + k)
    decreases k
  {
    if k > 0 { OrbitAdd(next, start, i, j, k - 1); }
  }

  lemma {:induction false} OrbitStaysEnded(next: int -> Option<int>, start: int, n: nat, m: nat)
    requires Orbit(next, start, n).None? && n <= m
    ensures Orbit(next, start, m).None?
    decreases m
  {
    if n < m { OrbitStaysEnded(next, start, n, m - 1); }
  }

  /** A cursor that comes back to where it was goes round for ever. */
  lemma {:induction false} RepeatNeverEnds(next: int -> Option<int>, start: int, i: nat, j: nat, n: nat)
    requires i < j && Orbit(next, start, i).Some? && Orbit(next, start, i) == Orbit(next, start, j)
    ensures Orbit(next, start, n).Some?
    decreases n
  {
    if n >= j {
      RepeatNeverEnds(next, start, i, j, n - (j - i));
      OrbitAdd(next, start, i, j, n - j);
      assert i + (n - j) == n - (j - i);
    } else if Orbit(next, start, n).None? {
      OrbitStaysEnded(next, start, n, j);
    }
  }

  lemma {:induction false} OrbitFenced(next: int -> Option<int>, start: int, lo: int, hi: int, n: nat)
    requires Fenced(next, lo, hi) && lo <= start && Orbit(next, start, n + 1).Some?
    ensures Orbit(next, start, n).Some? && lo <= Orbit(next, start, n).value < hi
    decreases n
  {
    if n > 0 { OrbitFenced(next, start, lo, hi, n - 1); }
  }

  /** The loop ends if and only if the cursor is never twice at the same place. */
  lemma EndsIff(next: int -> Option<int>, start: int, lo: int, hi: int)
    requires Fenced(next, lo, hi) && lo <= start
    ensures Ends(next, start) <==> NeverRepeats(next, start)
  {
    if !NeverRepeats(next, start) {
      var i: nat, j: nat :| i < j && Orbit(next, start, i).Some? && Orbit(next, start, i) == Orbit(next, start, j);
      forall n: nat ensures Orbit(next, start, n).Some? { RepeatNeverEnds(next, start, i, j, n); }
    } else if !Ends(next, start) {
      EndlessRepeats(next, start, lo, hi);
    }
  }

  ghost function Between(lo: int, hi: int): (r: set<int>)
    ensures forall o :: o in r <==> lo <= o < hi
    decreases hi - lo
  {
    if lo >= hi then {} else {lo} + Between(lo + 1, hi)
  }

  /** There are only so many places between the fences. */
  lemma EndlessRepeats(next: int -> Option<int>, start: int, lo: int, hi: int)
    requires Fenced(next, lo, hi) && lo <= start && !Ends(next, start)
    ensures !NeverRepeats(next, start)
  {
    var places := Between(lo, hi);
    var count := |places| + 1;
    forall n: nat ensures Orbit(next, start, n).Some? && Orbit(next, start, n).value in places {
      assert !Orbit(next, start, n + 1).None?;
      OrbitFenced(next, start, lo, hi, n);
    }
    var visited := seq(count, n requires 0 <= n < count => Orbit(next, start, n).value);
    assert !NoDup(visited) by {
      if NoDup(visited) { NoDupBound(visited, places); }
    }
    var i, j :| 0 <= i < j < |visited| && visited[i] == visited[j];
    assert Orbit(next, start, i) == Orbit(next, start, j);
  }

  // ---- reading at any cursor ---------------------------------------------------------------------------------------

  /** In front of the buffer there is `undefined`, which the bit operations take for a zero byte. */
  function ReadAt(bytes: seq<Byte>, at: int): (r: (nat, int))
    requires at <= |bytes|
    ensures at <= r.1 <= |bytes| && (at < 0 ==> r.0 == 0)
  {
    if at < 0 then (0, at + 1) else ReadFrom(bytes, at, 0, 0)
  }

  function SkipAt(bytes: seq<Byte>, at: int): (r: int)
    requires at <= |bytes|
    ensures at <= r <= |bytes|
  {
    if at < 0 then at + 1 else SkipFrom(bytes, at)
  }

  /** `slice(from, to)`: a negative end counts from the end of the buffer, an end before the start gives nothing. */
  function JsSlice(bytes: seq<Byte>, from: nat, to: int): seq<Byte>
    requires from <= |bytes|
  {
    var end := if to >= |bytes| then |bytes| else if to >= 0 then to else if to + |bytes| >= 0 then to + |bytes| else 0;
    if end <= from then [] else bytes[from..end]
  }

  /** A field at the cursor: a number, a run of bytes with its declared end, or something the parser stops at. */
  datatype Found = Number(next: int) | Bytes(num: nat, from: nat, end: int) | Other

  function FieldAt(bytes: seq<Byte>, at: int): (f: Found)
    requires at < |bytes|
    ensures f.Bytes? ==> at >= 0 && f.from <= |bytes| && f.end >= f.from - TWO_31
    ensures f.Number? ==> at <= f.next
  {
    var (tag, p) := ReadAt(bytes, at);
    if tag % 8 == 0 then Number(SkipAt(bytes, p))
    else if tag % 8 == 2 then
      var (len, q) := ReadAt(bytes, p);
      Bytes(tag / 8, q, q + ToInt32(len))
    else Other
  }

  // ---- the two loops -----------------------------------------------------------------------------------------------

  datatype Loop = Running(cursor: int, id: seq<Byte>) | Ended(id: seq<Byte>)

  function AckStep(ack: seq<Byte>, l: Loop): Loop {
    if l.Ended? then l
    else if l.cursor >= |ack| then Ended(l.id)
    else
      match FieldAt(ack, l.cursor)
      case Number(next) => Running(next, l.id)
      case Bytes(num, from, end) => Running(end, if num == 2 then JsSlice(ack, from, end) else l.id)
      case Other => Ended(l.id)
  }

  ghost function AckRun(ack: seq<Byte>, l: Loop, n: nat): Loop {
    if n == 0 then l else AckStep(ack, AckRun(ack, l, n - 1))
  }

  /** Where the inner loop goes from a cursor; the identifier plays no part in that. */
  function AckNext(ack: seq<Byte>, at: int): Option<int> {
    if at >= |ack| then None
    else
      match FieldAt(ack, at)
      case Number(next) => Some(next)
      case Bytes(_, _, end) => Some(end)
      case Other => None
  }

  function AckJumps(ack: seq<Byte>): int -> Option<int> { at => AckNext(ack, at) }

  ghost predicate AckEnds(ack: seq<Byte>) { Ends(AckJumps(ack), 0) }

  lemma AckFenced(ack: seq<Byte>)
    ensures Fenced(AckJumps(ack), -TWO_31, |ack|)
  {
  }

  lemma {:induction false} AckRunIsOrbit(ack: seq<Byte>, id: seq<Byte>, n: nat)
    ensures var l := AckRun(ack, Running(0, id), n);
            Orbit(AckJumps(ack), 0, n) == if l.Running? then Some(l.cursor) else None
    decreases n
  {
    if n > 0 { AckRunIsOrbit(ack, id, n - 1); }
  }

  /** The inner loop ends, on any bytes, if and only if its cursor is never twice at the same place. */
  lemma AckEndsIff(ack: seq<Byte>, id: seq<Byte>)
    ensures (exists n: nat :: AckRun(ack, Running(0, id), n).Ended?) <==> NeverRepeats(AckJumps(ack), 0)
  {
    AckFenced(ack);
    EndsIff(AckJumps(ack), 0, -TWO_31, |ack|);
    if n: nat :| AckRun(ack, Running(0, id), n).Ended? { AckRunIsOrbit(ack, id, n); }
    if n: nat :| Orbit(AckJumps(ack), 0, n).None? { AckRunIsOrbit(ack, id, n); }
  }

  /** What an inner loop that ends leaves as identifier. */
  ghost function AckResult(ack: seq<Byte>, id: seq<Byte>): seq<Byte> {
    if n: nat :| AckRun(ack, Running(0, id), n).Ended? then AckRun(ack, Running(0, id), n).id else id
  }

  ghost predicate InnerHangs(bytes: seq<Byte>, f: Found)
    requires f.Bytes? ==> f.from <= |bytes|
  {
    f.Bytes? && f.num == 21 && !AckEnds(JsSlice(bytes, f.from, f.end))
  }

  /** A register reply that never ends keeps the outer loop where it is. */
  ghost function FrameStep(bytes: seq<Byte>, l: Loop): Loop {
    if l.Ended? then l
    else if l.cursor >= |bytes| then Ended(l.id)
    else
      var f := FieldAt(bytes, l.cursor);
      if InnerHangs(bytes, f) then l
      else
        match f
        case Number(next) => Running(next, l.id)
        case Bytes(num, from, end) =>
          Running(end, if num == 21 then AckResult(JsSlice(bytes, from, end), l.id) else l.id)
        case Other => Ended(l.id)
  }

  ghost function FrameRun(bytes: seq<Byte>, l: Loop, n: nat): Loop {
    if n == 0 then l else FrameStep(bytes, FrameRun(bytes, l, n - 1))
  }

  ghost function FrameNext(bytes: seq<Byte>, at: int): Option<int> {
    if at >= |bytes| then None
    else if InnerHangs(bytes, FieldAt(bytes, at)) then Some(at)
    else
      match FieldAt(bytes, at)
      case Number(next) => Some(next)
      case Bytes(_, _, end) => Some(end)
      case Other => None
  }

  ghost function FrameJumps(bytes: seq<Byte>): int -> Option<int> { at => FrameNext(bytes, at) }

  ghost predicate ParserEnds(bytes: seq<Byte>, id: seq<Byte>) {
    exists n: nat :: FrameRun(bytes, Running(0, id), n).Ended?
  }

  lemma FrameFenced(bytes: seq<Byte>)
    ensures Fenced(FrameJumps(bytes), -TWO_31, |bytes|)
  {
  }

  lemma {:induction false} FrameRunIsOrbit(bytes: seq<Byte>, id: seq<Byte>, n: nat)
    ensures var l := FrameRun(bytes, Running(0, id), n);
            Orbit(FrameJumps(bytes), 0, n) == if l.Running? then Some(l.cursor) else None
    decreases n
  {
    if n > 0 { FrameRunIsOrbit(bytes, id, n - 1); }
  }

  /**
    When the parser ends: on any bytes, if and only if its cursor is never twice at the same place, where a register
    reply whose own cursor comes back to the same place counts as standing still.
   */
  lemma ParserEndsIff(bytes: seq<Byte>, id: seq<Byte>)
    ensures ParserEnds(bytes, id) <==> NeverRepeats(FrameJumps(bytes), 0)
  {
    FrameFenced(bytes);
    EndsIff(FrameJumps(bytes), 0, -TWO_31, |bytes|);
    if n: nat :| FrameRun(bytes, Running(0, id), n).Ended? { FrameRunIsOrbit(bytes, id, n); }
    if n: nat :| Orbit(FrameJumps(bytes), 0, n).None? { FrameRunIsOrbit(bytes, id, n); }
  }

  // ---- where no length is negative the parser is the one proved about ---------------------------------------------

  lemma {:induction false} AckRunSplit(ack: seq<Byte>, l: Loop, n: nat, m: nat)
    requires m == n + 1
    ensures AckRun(ack, l, m) == AckRun(ack, AckStep(ack, l), n)
    decreases n
  {
    if n > 0 { AckRunSplit(ack, l, n - 1, n); }
  }

  lemma {:induction false} FrameRunSplit(bytes: seq<Byte>, l: Loop, n: nat, m: nat)
    requires m == n + 1
    ensures FrameRun(bytes, l, m) == FrameRun(bytes, FrameStep(bytes, l), n)
    decreases n
  {
    if n > 0 { FrameRunSplit(bytes, l, n - 1, n); }
  }

  ghost predicate AckEndsWith(ack: seq<Byte>, l: Loop, id: seq<Byte>) {
    exists n: nat :: AckRun(ack, l, n) == Ended(id)
  }

  lemma AckEndsBefore(ack: seq<Byte>, l: Loop, id: seq<Byte>)
    requires AckEndsWith(ack, AckStep(ack, l), id)
    ensures AckEndsWith(ack, l, id)
  {
    var n: nat :| AckRun(ack, AckStep(ack, l), n) == Ended(id);
    AckRunSplit(ack, l, n, n + 1);
  }

  lemma AckPastEnd(ack: seq<Byte>, l: Loop)
    requires l.Ended? || l.cursor >= |ack|
    ensures AckEndsWith(ack, l, l.id)
  {
    assert AckRun(ack, l, 0) == l && AckRun(ack, l, 1) == Ended(l.id);
  }

  lemma SameSlice(bytes: seq<Byte>, from: nat, len: nat)
    requires from <= |bytes|
    ensures JsSlice(bytes, from, from + len) == Slice(bytes, from, from + len)
  {
  }

  /** The scan of a reply, in terms of the field at its cursor. */
  lemma ScanAckField(ack: seq<Byte>, at: nat, id: seq<Byte>)
    requires at < |ack| && ScanAck(ack, at, id).Got?
    ensures var f, r := FieldAt(ack, at), ScanAck(ack, at, id);
            && (f.Number? ==> at < f.next <= |ack| && r == ScanAck(ack, f.next, id))
            && (f.Bytes? ==> at < f.from <= f.end)
            && (f.Bytes? ==> r == ScanAck(ack, Clamp(ack, f.end), if f.num == 2 then Slice(ack, f.from, f.end) else id))
            && (f.Other? ==> r == Got(id))
  {
    var (tag, p) := ReadFrom(ack, at, 0, 0);
    if tag % 8 == 2 { SmallLength(ReadFrom(ack, p, 0, 0).0); }
  }

  /** One turn from a cursor inside the buffer, as the scan sees it. */
  lemma ScanAckTurn(ack: seq<Byte>, at: nat, id: seq<Byte>)
    requires at < |ack| && ScanAck(ack, at, id).Got?
    ensures var l := AckStep(ack, Running(at, id));
            if l.Ended? then ScanAck(ack, at, id) == Got(l.id)
            else l.cursor > at && ScanAck(ack, at, id) == ScanAck(ack, Clamp(ack, l.cursor), l.id)
  {
    ScanAckField(ack, at, id);
    var f := FieldAt(ack, at);
    if f.Bytes? { SameSlice(ack, f.from, f.end - f.from); }
  }

  lemma SmallLength(len: nat)
    ensures len < TWO_31 ==> ToInt32(len) == len
  {
  }

  lemma {:induction false} AckScanRuns(ack: seq<Byte>, at: nat, id: seq<Byte>)
    requires at <= |ack| && ScanAck(ack, at, id).Got?
    ensures AckEndsWith(ack, Running(at, id), ScanAck(ack, at, id).id)
    decreases |ack| - at
  {
    var l := AckStep(ack, Running(at, id));
    if at == |ack| {
      AckPastEnd(ack, Running(at, id));
    } else {
      ScanAckTurn(ack, at, id);
      if l.Ended? || l.cursor >= |ack| {
        AckPastEnd(ack, l);
      } else {
        AckScanRuns(ack, l.cursor, l.id);
      }
      AckEndsBefore(ack, Running(at, id), ScanAck(ack, at, id).id);
    }
  }

  lemma {:induction false} AckStaysEnded(ack: seq<Byte>, l: Loop, n: nat, m: nat)
    requires AckRun(ack, l, n).Ended? && n <= m
    ensures AckRun(ack, l, m) == AckRun(ack, l, n)
    decreases m
  {
    if n < m { AckStaysEnded(ack, l, n, m - 1); }
  }

  /** A reply that scans to an end runs to that end. */
  lemma AckScanResult(ack: seq<Byte>, id: seq<Byte>)
    requires ScanAck(ack, 0, id).Got?
    ensures AckEnds(ack) && AckResult(ack, id) == ScanAck(ack, 0, id).id
  {
    AckScanRuns(ack, 0, id);
    var n: nat :| AckRun(ack, Running(0, id), n) == Ended(ScanAck(ack, 0, id).id);
    AckRunIsOrbit(ack, id, n);
    forall m: nat | AckRun(ack, Running(0, id), m).Ended?
      ensures AckRun(ack, Running(0, id), m) == AckRun(ack, Running(0, id), n)
    {
      if n <= m { AckStaysEnded(ack, Running(0, id), n, m); } else { AckStaysEnded(ack, Running(0, id), m, n); }
    }
  }

  ghost predicate FrameEndsWith(bytes: seq<Byte>, l: Loop, id: seq<Byte>) {
    exists n: nat :: FrameRun(bytes, l, n) == Ended(id)
  }

  lemma FrameEndsBefore(bytes: seq<Byte>, l: Loop, id: seq<Byte>)
    requires FrameEndsWith(bytes, FrameStep(bytes, l), id)
    ensures FrameEndsWith(bytes, l, id)
  {
    var n: nat :| FrameRun(bytes, FrameStep(bytes, l), n) == Ended(id);
    FrameRunSplit(bytes, l, n, n + 1);
  }

  lemma FramePastEnd(bytes: seq<Byte>, l: Loop)
    requires l.Ended? || l.cursor >= |bytes|
    ensures FrameEndsWith(bytes, l, l.id)
  {
    assert FrameRun(bytes, l, 0) == l && FrameRun(bytes, l, 1) == Ended(l.id);
  }

  /** The scan, in terms of the field at its cursor. */
  lemma ScanFrameField(bytes: seq<Byte>, at: nat, id: seq<Byte>)
    requires at < |bytes| && ScanFrame(bytes, at, id).Got?
    ensures var f, r := FieldAt(bytes, at), ScanFrame(bytes, at, id);
            && (f.Number? ==> at < f.next <= |bytes| && r == ScanFrame(bytes, f.next, id))
            && (f.Bytes? ==> at < f.from <= f.end)
            && (f.Bytes? ==> r == AfterBytes(bytes, f.num, Slice(bytes, f.from, f.end), Clamp(bytes, f.end), id))
            && (f.Other? ==> r == Got(id))
  {
    var (tag, p) := ReadFrom(bytes, at, 0, 0);
    if tag % 8 == 2 { SmallLength(ReadFrom(bytes, p, 0, 0).0); }
  }

  lemma ScanFrameTurn(bytes: seq<Byte>, at: nat, id: seq<Byte>)
    requires at < |bytes| && ScanFrame(bytes, at, id).Got?
    ensures var l := FrameStep(bytes, Running(at, id));
            if l.Ended? then ScanFrame(bytes, at, id) == Got(l.id)
            else l.cursor > at && ScanFrame(bytes, at, id) == ScanFrame(bytes, Clamp(bytes, l.cursor), l.id)
  {
    ScanFrameField(bytes, at, id);
    var f := FieldAt(bytes, at);
    if f.Bytes? {
      SameSlice(bytes, f.from, f.end - f.from);
      if f.num == 21 { AckScanResult(Slice(bytes, f.from, f.end), id); }
    }
  }

  /** Wherever the scan meets no negative length, the parser ends, with the identifier the scan yields. */
  lemma {:induction false} ScanIsTheParser(bytes: seq<Byte>, at: nat, id: seq<Byte>)
    requires at <= |bytes| && ScanFrame(bytes, at, id).Got?
    ensures FrameEndsWith(bytes, Running(at, id), ScanFrame(bytes, at, id).id)
    decreases |bytes| - at
  {
    var l := FrameStep(bytes, Running(at, id));
    if at == |bytes| {
      FramePastEnd(bytes, Running(at, id));
    } else {
      ScanFrameTurn(bytes, at, id);
      if l.Ended? || l.cursor >= |bytes| {
        FramePastEnd(bytes, l);
      } else {
        ScanIsTheParser(bytes, l.cursor, l.id);
      }
      FrameEndsBefore(bytes, Running(at, id), ScanFrame(bytes, at, id).id);
    }
  }

  // ---- six bytes on which it does not end -------------------------------------------------------------------------

  /** A field 1 whose length reads as -6 and leads back to its own tag. */
  const BACK: seq<Byte> := [0x0A, 0xFA, 0xFF, 0xFF, 0xFF, 0x0F]

  lemma BackLength()
    ensures Varint(0xFFFF_FFFA) == [0xFA, 0xFF, 0xFF, 0xFF, 0x0F] && Varint(10) == [0x0A]
  {
    assert Varint(0xF) == [0x0F];
    assert Varint(0x7FF) == [0xFF, 0x0F];
    assert Varint(0x3_FFFF) == [0xFF, 0xFF, 0x0F];
    assert Varint(0x1FF_FFFF) == [0xFF, 0xFF, 0xFF, 0x0F];
  }

  lemma BytesAt(bytes: seq<Byte>, at: nat, tag: nat, p: nat, len: nat, q: nat)
    requires at < |bytes| && p <= |bytes| && tag % 8 == 2
    requires ReadFrom(bytes, at, 0, 0) == (tag, p) && ReadFrom(bytes, p, 0, 0) == (len, q)
    ensures FieldAt(bytes, at) == Bytes(tag / 8, q, q + ToInt32(len))
  {
  }

  lemma BackFound(bytes: seq<Byte>, tag: nat, len: nat)
    requires |bytes| == 6 && tag == 10 && len == 0xFFFF_FFFA && bytes[..1] == Varint(tag) && bytes[1..] == Varint(len)
    ensures FieldAt(bytes, 0) == Bytes(1, 6, 0)
  {
    assert At(bytes, 0, Varint(tag)) && At(bytes, 1, Varint(len));
    VarintRoundTrip(bytes, 0, tag);
    VarintRoundTrip(bytes, 1, len);
    BytesAt(bytes, 0, tag, 1, len, 6);
  }

  lemma BackNeverEnds(id: seq<Byte>)
    ensures !ParserEnds(BACK, id) && ScanFrame(BACK, 0, id) == Rewinds
  {
    BackLength();
    assert BACK[..1] == [0x0A] && BACK[1..] == [0xFA, 0xFF, 0xFF, 0xFF, 0x0F];
    BackFound(BACK, 10, 0xFFFF_FFFA);
    assert FrameNext(BACK, 0) == Some(0);
    assert Orbit(FrameJumps(BACK), 0, 0) == Some(0);
    assert Orbit(FrameJumps(BACK), 0, 1) == Some(0);
    ParserEndsIff(BACK, id);
    if ScanFrame(BACK, 0, id).Got? { ScanIsTheParser(BACK, 0, id); }
  }
}
