/**
  The hand-written protobuf frames of the WebSocket load test: varints, fields, and the parser of the register reply.
 */
module Varints {
  type Byte = x: int | 0 <= x < 256

  const TWO_31 := 0x8000_0000
  const TWO_32 := 0x1_0000_0000

  /** JavaScript's 32-bit views of a number. */
  function ToUint32(v: int): nat { v % TWO_32 }

  function ToInt32(u: nat): int { if u % TWO_32 < TWO_31 then u % TWO_32 else u % TWO_32 - TWO_32 }

  function Pow2(n: nat): (r: nat)
    ensures r > 0
  {
    if n == 0 then 1 else 2 * Pow2(n - 1)
  }

  /** Bitwise or of two non-negative numbers. */
  function BitOr(a: nat, b: nat): nat
    decreases a
  {
    if a == 0 then b else 2 * BitOr(a / 2, b / 2) + if a % 2 == 1 || b % 2 == 1 then 1 else 0
  }

  /** `x << shift`: the shift count wraps at 32 and the result is cut to 32 bits. */
  function Shl32(x: nat, shift: nat): nat { (x * Pow2(shift % 32)) % TWO_32 }

  /** Base-128 groups, least significant first, all but the last with the high bit set. */
  function Varint(u: nat): (r: seq<Byte>)
    ensures r != []
  {
    if u < 128 then [u] else [u % 128 + 128] + Varint(u / 128)
  }

  lemma LowBits(v: int)
    ensures ToUint32(v) % 128 == v % 128 && ToUint32(ToUint32(v) / 128) == ToUint32(v) / 128
  {
    var q, u := v / TWO_32, ToUint32(v);
    var k := u / 128;
    assert v == 128 * (q * 0x200_0000 + k) + u % 128;
    RestOf(v, q * 0x200_0000 + k, u % 128);
    assert k < TWO_32;
  }

  lemma RestOf(v: int, k: int, r: nat)
    requires v == 128 * k + r && r < 128
    ensures v % 128 == r
  {
  }

  /** Writing one group leaves the groups of the rest to be written. */
  lemma MoveGroup(bytes: seq<Byte>, u: nat)
    ensures u < 128 ==> bytes + [u % 128] == bytes + Varint(u)
    ensures u >= 128 ==> (bytes + [u % 128 + 128]) + Varint(u / 128) == bytes + Varint(u)
  {
  }

  /** `encodeVarint`: any number is first seen as an unsigned 32-bit value. */
  method EncodeVarint(v0: int) returns (bytes: seq<Byte>)
    ensures bytes == Varint(ToUint32(v0))
  {
    bytes := [];
    var v, more := v0, true;
    while more
      invariant more ==> bytes + Varint(ToUint32(v)) == Varint(ToUint32(v0))
      invariant !more ==> bytes == Varint(ToUint32(v0))
      decreases more, ToUint32(v)
    {
      var bits := v % 128;
      LowBits(v);
      MoveGroup(bytes, ToUint32(v));
      v := ToUint32(v) / 128;
      if v != 0 {
        bytes := bytes + [bits + 128];
      } else {
        bytes := bytes + [bits];
        more := false;
      }
    }
  }

  /** The reading loop: groups are or-ed in at rising shifts until a byte without the high bit, or the end. */
  function ReadFrom(bytes: seq<Byte>, offset: nat, acc: nat, shift: nat): (r: (nat, nat))
    requires offset <= |bytes|
    ensures offset <= r.1 <= |bytes| && (offset < |bytes| ==> offset < r.1)
    decreases |bytes| - offset
  {
    if offset == |bytes| then (acc, offset)
    else
      var b := bytes[offset];
      var acc' := BitOr(acc, Shl32(b % 128, shift));
      if b < 128 then (acc', offset + 1) else ReadFrom(bytes, offset + 1, acc', shift + 7)
  }

  function SkipFrom(bytes: seq<Byte>, offset: nat): (r: nat)
    requires offset <= |bytes|
    ensures offset <= r <= |bytes|
    decreases |bytes| - offset
  {
    if offset == |bytes| then offset
    else if bytes[offset] < 128 then offset + 1
    else SkipFrom(bytes, offset + 1)
  }

  method ReadVarint(bytes: seq<Byte>, from: nat) returns (value: nat, next: nat)
    requires from <= |bytes|
    ensures (value, next) == ReadFrom(bytes, from, 0, 0)
  {
    value, next := 0, from;
    var shift := 0;
    while next < |bytes|
      invariant from <= next <= |bytes| && ReadFrom(bytes, from, 0, 0) == ReadFrom(bytes, next, value, shift)
    {
      var b := bytes[next];
      next := next + 1;
      value := BitOr(value, Shl32(b % 128, shift));
      shift := shift + 7;
      if b < 128 {
        break;
      }
    }
  }

  method SkipVarint(bytes: seq<Byte>, from: nat) returns (next: nat)
    requires from <= |bytes|
    ensures next == SkipFrom(bytes, from)
  {
    next := from;
    while next < |bytes|
      invariant from <= next <= |bytes| && SkipFrom(bytes, from) == SkipFrom(bytes, next)
    {
      var b := bytes[next];
      next := next + 1;
      if b < 128 {
        break;
      }
    }
  }

  // ---- decoding undoes encoding --------------------------------------------------------------------------------

  /** Bits that do not overlap add up. */
  lemma {:induction false} OrDisjoint(a: nat, x: nat, k: nat)
    requires a < Pow2(k)
    ensures BitOr(a, x * Pow2(k)) == a + x * Pow2(k)
    decreases k
  {
    if k == 0 {
      assert a == 0;
    } else if a != 0 {
      var b := x * Pow2(k);
      assert b == 2 * (x * Pow2(k - 1)) by { MulAssoc(x, Pow2(k - 1)); }
      assert b / 2 == x * Pow2(k - 1) && b % 2 == 0;
      OrDisjoint(a / 2, x, k - 1);
    }
  }

  lemma MulAssoc(x: nat, p: nat)
    ensures x * (2 * p) == 2 * (x * p)
  {
  }

  lemma {:induction false} PowAdd(j: nat, k: nat)
    ensures Pow2(j + k) == Pow2(j) * Pow2(k)
    decreases j
  {
    if j > 0 {
      PowAdd(j - 1, k);
      calc {
        Pow2(j + k);
        2 * Pow2(j - 1 + k);
        2 * (Pow2(j - 1) * Pow2(k));
        Pow2(j) * Pow2(k);
      }
    }
  }

  lemma MulLess(a: nat, b: nat, p: nat)
    requires a < b && p > 0
    ensures a * p + p <= b * p
  {
    assert (a + 1) * p <= b * p;
  }

  lemma Powers()
    ensures Pow2(7) == 128 && Pow2(32) == TWO_32
  {
    assert Pow2(4) == 16;
    PowAdd(4, 4);
    PowAdd(8, 8);
    PowAdd(16, 16);
    assert Pow2(3) == 8;
    PowAdd(4, 3);
  }

  lemma {:induction false} PowMono(j: nat, k: nat)
    requires j <= k
    ensures Pow2(j) <= Pow2(k)
    decreases k
  {
    if j < k { PowMono(j, k - 1); }
  }

  lemma ShlFits(x: nat, shift: nat, p: nat)
    requires shift < 32 && p == Pow2(shift) && x * p < TWO_32
    ensures Shl32(x, shift) == x * p
  {
    assert shift % 32 == shift;
  }

  lemma PartFits(part: nat, shift: nat)
    requires shift < 32 && part < Pow2(32 - shift)
    ensures part * Pow2(shift) < TWO_32
  {
    Powers();
    PowAdd(32 - shift, shift);
    MulLess(part, Pow2(32 - shift), Pow2(shift));
  }

  /** Or-ing one group in at its shift adds it, as long as the whole fits in 32 bits. */
  lemma GroupAdds(acc: nat, part: nat, shift: nat)
    requires shift < 32 && acc < Pow2(shift) && part < Pow2(32 - shift)
    ensures BitOr(acc, Shl32(part, shift)) == acc + part * Pow2(shift)
  {
    PartFits(part, shift);
    ShlFits(part, shift, Pow2(shift));
    OrDisjoint(acc, part, shift);
  }

  lemma GroupBound(acc: nat, part: nat, shift: nat)
    requires acc < Pow2(shift) && part < 128
    ensures acc + part * Pow2(shift) < Pow2(shift + 7)
  {
    ShiftSeven(shift);
    MulLess(part, 128, Pow2(shift));
  }

  lemma RoomLeft(u: nat, shift: nat)
    requires shift < 32 && 128 <= u < Pow2(32 - shift)
    ensures shift + 7 < 32 && u / 128 < Pow2(32 - (shift + 7))
  {
    Powers();
    var n := 32 - shift;
    assert n > 7 by { if n <= 7 { PowMono(n, 7); } }
    PowAdd(n - 7, 7);
    assert u < Pow2(n - 7) * 128;
  }

  lemma Unroll(bytes: seq<Byte>, offset: nat, acc: nat, shift: nat)
    requires offset < |bytes|
    ensures ReadFrom(bytes, offset, acc, shift) ==
            var acc' := BitOr(acc, Shl32(bytes[offset] % 128, shift));
            if bytes[offset] < 128 then (acc', offset + 1) else ReadFrom(bytes, offset + 1, acc', shift + 7)
  {
  }

  lemma LastGroup(bytes: seq<Byte>, offset: nat, acc: nat, shift: nat, part: nat, acc': nat)
    requires offset < |bytes| && bytes[offset] == part < 128 && acc' == BitOr(acc, Shl32(part, shift))
    ensures ReadFrom(bytes, offset, acc, shift) == (acc', offset + 1)
  {
    Unroll(bytes, offset, acc, shift);
  }

  lemma MoreGroups(bytes: seq<Byte>, offset: nat, acc: nat, shift: nat, part: nat, acc': nat)
    requires offset < |bytes| && part < 128 && bytes[offset] == part + 128 && acc' == BitOr(acc, Shl32(part, shift))
    ensures ReadFrom(bytes, offset, acc, shift) == ReadFrom(bytes, offset + 1, acc', shift + 7)
  {
    LowSeven(bytes[offset], part);
    Unroll(bytes, offset, acc, shift);
  }

  lemma LowSeven(b: Byte, part: nat)
    requires part < 128 && b == part + 128
    ensures b % 128 == part
  {
  }

  /** `part` stands in `bytes` at `at`. */
  ghost predicate At(bytes: seq<Byte>, at: nat, part: seq<Byte>) {
    at + |part| <= |bytes| && bytes[at..at + |part|] == part
  }

  lemma AtConcat(bytes: seq<Byte>, at: nat, a: seq<Byte>, b: seq<Byte>)
    requires At(bytes, at, a + b)
    ensures At(bytes, at, a) && At(bytes, at + |a|, b)
  {
    var whole := bytes[at..at + |a + b|];
    assert bytes[at..at + |a|] == whole[..|a|];
    assert bytes[at + |a|..at + |a| + |b|] == whole[|a|..];
  }

  lemma AtFirst(bytes: seq<Byte>, at: nat, b: Byte)
    requires At(bytes, at, [b])
    ensures at < |bytes| && bytes[at] == b
  {
    assert bytes[at] == bytes[at..at + 1][0];
  }

  /** What one group leaves to be read, in numbers. */
  lemma GroupStep(acc: nat, shift: nat, u: nat, part: nat, acc': nat)
    requires shift < 32 && acc < Pow2(shift) && 128 <= u < Pow2(32 - shift)
    requires part == u % 128 && acc' == acc + part * Pow2(shift)
    ensures BitOr(acc, Shl32(part, shift)) == acc' < Pow2(shift + 7)
    ensures shift + 7 < 32 && u / 128 < Pow2(32 - (shift + 7))
    ensures acc' + (u / 128) * Pow2(shift + 7) == acc + u * Pow2(shift)
  {
    GroupAdds(acc, part, shift);
    GroupBound(acc, part, shift);
    RoomLeft(u, shift);
    ShiftSeven(shift);
    Regroup(u, Pow2(shift));
  }

  /** Reading at a varint that fits in what is left of 32 bits adds it above the bits read so far. */
  lemma {:induction false} ReadBack(bytes: seq<Byte>, offset: nat, acc: nat, shift: nat, u: nat)
    requires At(bytes, offset, Varint(u))
    requires shift < 32 && acc < Pow2(shift) && u < Pow2(32 - shift)
    ensures ReadFrom(bytes, offset, acc, shift) == (acc + u * Pow2(shift), offset + |Varint(u)|)
    decreases u
  {
    if u < 128 {
      VarintAt(bytes, offset, u);
      GroupAdds(acc, u, shift);
      LastGroup(bytes, offset, acc, shift, u, acc + u * Pow2(shift));
    } else {
      var part, acc' := ReadBackGroup(bytes, offset, acc, shift, u);
      ReadBack(bytes, offset + 1, acc', shift + 7, u / 128);
    }
  }

  /** The first byte of a varint in a buffer, and what follows it. */
  lemma VarintAt(bytes: seq<Byte>, offset: nat, u: nat)
    requires At(bytes, offset, Varint(u))
    ensures offset < |bytes| && bytes[offset] == if u < 128 then u else u % 128 + 128
    ensures u < 128 ==> |Varint(u)| == 1
    ensures u >= 128 ==> |Varint(u)| == 1 + |Varint(u / 128)| && At(bytes, offset + 1, Varint(u / 128))
  {
    if u < 128 {
      AtFirst(bytes, offset, u);
    } else {
      AtConcat(bytes, offset, [u % 128 + 128], Varint(u / 128));
      AtFirst(bytes, offset, u % 128 + 128);
    }
  }

  lemma ReadBackGroup(bytes: seq<Byte>, offset: nat, acc: nat, shift: nat, u: nat) returns (part: nat, acc': nat)
    requires u >= 128 && At(bytes, offset, Varint(u))
    requires shift < 32 && acc < Pow2(shift) && u < Pow2(32 - shift)
    ensures At(bytes, offset + 1, Varint(u / 128)) && |Varint(u)| == 1 + |Varint(u / 128)|
    ensures acc' < Pow2(shift + 7) && shift + 7 < 32 && u / 128 < Pow2(32 - (shift + 7))
    ensures acc' + (u / 128) * Pow2(shift + 7) == acc + u * Pow2(shift)
    ensures ReadFrom(bytes, offset, acc, shift) == ReadFrom(bytes, offset + 1, acc', shift + 7)
  {
    part := u % 128;
    acc' := acc + part * Pow2(shift);
    GroupStep(acc, shift, u, part, acc');
    VarintAt(bytes, offset, u);
    MoreGroups(bytes, offset, acc, shift, part, acc');
  }

  lemma ShiftSeven(shift: nat)
    ensures Pow2(shift + 7) == Pow2(shift) * 128
  {
    Powers();
    PowAdd(shift, 7);
  }

  lemma Regroup(u: nat, p: nat)
    ensures (u % 128) * p + (u / 128) * (p * 128) == u * p
  {
    var q, r := u / 128, u % 128;
    assert u == q * 128 + r;
    calc {
      u * p;
      (q * 128 + r) * p;
      (q * 128) * p + r * p;
      q * (128 * p) + r * p;
      r * p + q * (p * 128);
    }
  }

  lemma {:induction false} SkipBack(bytes: seq<Byte>, offset: nat, u: nat)
    requires At(bytes, offset, Varint(u))
    ensures SkipFrom(bytes, offset) == offset + |Varint(u)|
    decreases u
  {
    if u < 128 {
      AtFirst(bytes, offset, u);
    } else {
      AtConcat(bytes, offset, [u % 128 + 128], Varint(u / 128));
      AtFirst(bytes, offset, u % 128 + 128);
      SkipBack(bytes, offset + 1, u / 128);
    }
  }

  /** Inside any buffer, reading at an encoded number yields its unsigned 32-bit value and stops right behind it. */
  lemma VarintRoundTrip(bytes: seq<Byte>, at: nat, u: nat)
    requires u < TWO_32 && At(bytes, at, Varint(u))
    ensures ReadFrom(bytes, at, 0, 0) == (u, at + |Varint(u)|)
    ensures SkipFrom(bytes, at) == at + |Varint(u)|
  {
    Powers();
    ReadBack(bytes, at, 0, 0, u);
    SkipBack(bytes, at, u);
  }

  lemma SignedViewIff(v: int)
    ensures ToInt32(ToUint32(v)) == v <==> -TWO_31 <= v < TWO_31
  {
  }

  /** As JavaScript sees the decoded value, the round trip is the identity exactly on the signed 32-bit range. */
  lemma SignedRoundTripIff(v: int)
    ensures ToInt32(ReadFrom(Varint(ToUint32(v)), 0, 0, 0).0) == v <==> -TWO_31 <= v < TWO_31
  {
    var bytes := Varint(ToUint32(v));
    VarintRoundTrip(bytes, 0, ToUint32(v));
    SignedViewIff(v);
  }
}

module Frames {
  import opened Varints

  /** A JavaScript string: UTF-16 code units. */
  type Unit = x: int | 0 <= x < 65536

  function UnitBytes(c: Unit): seq<Byte> {
    if c < 0x80 then [c]
    else if c < 0x800 then [0xC0 + c / 64, 0x80 + c % 64]
    else [0xE0 + c / 4096, 0x80 + (c / 64) % 64, 0x80 + c % 64]
  }

  function TextBytes(s: seq<Unit>): seq<Byte> {
    if s == [] then [] else UnitBytes(s[0]) + TextBytes(s[1..])
  }

  lemma TextFrom(bytes: seq<Byte>, s: seq<Unit>, i: nat)
    requires i < |s|
    ensures (bytes + UnitBytes(s[i])) + TextBytes(s[i + 1..]) == bytes + TextBytes(s[i..])
  {
    assert s[i..][1..] == s[i + 1..];
  }

  /** The loop of `encodeStringField`. */
  method EncodeText(s: seq<Unit>) returns (bytes: seq<Byte>)
    ensures bytes == TextBytes(s)
  {
    bytes := [];
    for i := 0 to |s|
      invariant bytes + TextBytes(s[i..]) == TextBytes(s)
    {
      TextFrom(bytes, s, i);
      bytes := bytes + UnitBytes(s[i]);
    }
    assert s[|s|..] == [];
  }

  datatype Field = VarintField(num: nat, v: int) | BytesField(num: nat, body: seq<Byte>)

  function Tag(num: nat, wireType: nat): seq<Byte> { Varint(ToUint32(num * 8 + wireType)) }

  /** `encodeVarintField`, `encodeEmbeddedField` and, on the bytes of a text, `encodeStringField`. */
  function EncodeField(f: Field): seq<Byte> {
    match f
    case VarintField(num, v) => Tag(num, 0) + Varint(ToUint32(v))
    case BytesField(num, body) => Tag(num, 2) + (Varint(ToUint32(|body|)) + body)
  }

  function EncodeAll(fs: seq<Field>): seq<Byte> {
    if fs == [] then [] else EncodeField(fs[0]) + EncodeAll(fs[1..])
  }

  function RegisterFrame(requestId: seq<Unit>): seq<Byte> {
    EncodeAll([BytesField(1, TextBytes(requestId)), BytesField(20, EncodeAll([VarintField(10, 2)]))])
  }

  function HeartbeatFrame(requestId: seq<Unit>, nodeId: seq<Unit>): seq<Byte> {
    var hb := EncodeAll([BytesField(1, TextBytes(requestId)), BytesField(2, TextBytes(nodeId))]);
    EncodeAll([BytesField(1, TextBytes(requestId)), BytesField(24, hb)])
  }

  // ---- the parser -------------------------------------------------------------------------------------------------

  /** The identifier assigned so far, or a length that reads as negative and would move the cursor backwards. */
  datatype Scan = Got(id: seq<Byte>) | Rewinds

  function Slice(bytes: seq<Byte>, from: nat, to: nat): seq<Byte>
    requires from <= |bytes| && from <= to
  {
    if to <= |bytes| then bytes[from..to] else bytes[from..]
  }

  function Clamp(bytes: seq<Byte>, offset: nat): nat { if offset <= |bytes| then offset else |bytes| }

  /** The loop over the fields of a register reply: field 2 is remembered, the last one wins. */
  function ScanAck(ack: seq<Byte>, offset: nat, id: seq<Byte>): Scan
    requires offset <= |ack|
    decreases |ack| - offset
  {
    if offset == |ack| then Got(id)
    else
      var (tag, p) := ReadFrom(ack, offset, 0, 0);
      if tag % 8 == 0 then ScanAck(ack, SkipFrom(ack, p), id)
      else if tag % 8 == 2 then
        var (len, q) := ReadFrom(ack, p, 0, 0);
        if len >= TWO_31 then Rewinds
        else ScanAck(ack, Clamp(ack, q + len), if tag / 8 == 2 then Slice(ack, q, q + len) else id)
      else Got(id)
  }

  /** What one turn of the outer loop leads to: an end, or the next field with the identifier so far. */
  datatype Turn = Stop(scan: Scan) | Continue(offset: nat, id: seq<Byte>)

  /** Field 21 is a register reply, everything else is skipped. */
  function FrameTurn(bytes: seq<Byte>, offset: nat, id: seq<Byte>): (t: Turn)
    requires offset < |bytes|
    ensures t.Continue? ==> offset < t.offset <= |bytes|
  {
    var (tag, p) := ReadFrom(bytes, offset, 0, 0);
    if tag % 8 == 0 then Continue(SkipFrom(bytes, p), id)
    else if tag % 8 == 2 then
      var (len, q) := ReadFrom(bytes, p, 0, 0);
      if len >= TWO_31 then Stop(Rewinds)
      else if tag / 8 == 21 then
        match ScanAck(Slice(bytes, q, q + len), 0, id)
        case Rewinds => Stop(Rewinds)
        case Got(id') => Continue(Clamp(bytes, q + len), id')
      else Continue(Clamp(bytes, q + len), id)
    else Stop(Got(id))
  }

  /** The outer loop. */
  function ScanFrame(bytes: seq<Byte>, offset: nat, id: seq<Byte>): Scan
    requires offset <= |bytes|
    decreases |bytes| - offset
  {
    if offset == |bytes| then Got(id)
    else
      match FrameTurn(bytes, offset, id)
      case Stop(r) => r
      case Continue(next, id') => ScanFrame(bytes, next, id')
  }

  method ParseAck(ack: seq<Byte>, id0: seq<Byte>) returns (r: Scan)
    ensures r == ScanAck(ack, 0, id0)
  {
    var offset, id := 0, id0;
    while offset < |ack|
      invariant offset <= |ack| && ScanAck(ack, 0, id0) == ScanAck(ack, offset, id)
    {
      var tag, p := ReadVarint(ack, offset);
      if tag % 8 == 0 {
        offset := SkipVarint(ack, p);
      } else if tag % 8 == 2 {
        var len, q := ReadVarint(ack, p);
        if len >= TWO_31 {
          return Rewinds;
        }
        if tag / 8 == 2 {
          id := Slice(ack, q, q + len);
        }
        offset := Clamp(ack, q + len);
      } else {
        return Got(id);
      }
    }
    r := Got(id);
  }

  method TakeField(bytes: seq<Byte>, offset: nat, id: seq<Byte>) returns (t: Turn)
    requires offset < |bytes|
    ensures t == FrameTurn(bytes, offset, id)
  {
    var tag, p := ReadVarint(bytes, offset);
    if tag % 8 == 0 {
      var next := SkipVarint(bytes, p);
      t := Continue(next, id);
    } else if tag % 8 == 2 {
      var len, q := ReadVarint(bytes, p);
      if len >= TWO_31 {
        return Stop(Rewinds);
      }
      t := Continue(Clamp(bytes, q + len), id);
      if tag / 8 == 21 {
        var inner := ParseAck(Slice(bytes, q, q + len), id);
        t := if inner.Rewinds? then Stop(Rewinds) else Continue(Clamp(bytes, q + len), inner.id);
      }
    } else {
      t := Stop(Got(id));
    }
  }

  /** `parseAssignedNodeId`: no identifier, or an empty one, reads as absent. */
  method ParseAssignedNodeId(bytes: seq<Byte>) returns (r: Scan)
    ensures r == ScanFrame(bytes, 0, [])
  {
    var offset, id := 0, [];
    while offset < |bytes|
      invariant offset <= |bytes| && ScanFrame(bytes, 0, []) == ScanFrame(bytes, offset, id)
    {
      var turn := TakeField(bytes, offset, id);
      if turn.Stop? {
        return turn.scan;
      }
      offset, id := turn.offset, turn.id;
    }
    r := Got(id);
  }

  // ---- frames built from the encoders -------------------------------------------------------------------------------

  predicate FieldOk(f: Field) { f.num < 0x2000_0000 && (f.BytesField? ==> |f.body| < TWO_31) }

  ghost predicate FieldsOk(fs: seq<Field>) { forall i :: 0 <= i < |fs| ==> FieldOk(fs[i]) }

  /** A frame: register replies, and fields other than number 21. */
  datatype Part = Ack(fields: seq<Field>) | Plain(field: Field)

  function PartField(p: Part): Field { match p case Ack(fs) => BytesField(21, EncodeAll(fs)) case Plain(f) => f }

  ghost predicate PartOk(p: Part) {
    && FieldOk(PartField(p))
    && (p.Ack? ==> FieldsOk(p.fields))
    && (p.Plain? ==> !(p.field.BytesField? && p.field.num == 21))
  }

  function FieldsOf(parts: seq<Part>): seq<Field> {
    if parts == [] then [] else [PartField(parts[0])] + FieldsOf(parts[1..])
  }

  function FieldId(f: Field): seq<seq<Byte>> { if f.BytesField? && f.num == 2 then [f.body] else [] }

  /** Every field 2 of a register reply, in order. */
  function Ids(fs: seq<Field>): seq<seq<Byte>> {
    if fs == [] then [] else FieldId(fs[0]) + Ids(fs[1..])
  }

  function PartIds(p: Part): seq<seq<Byte>> { if p.Ack? then Ids(p.fields) else [] }

  function FrameIds(parts: seq<Part>): seq<seq<Byte>> {
    if parts == [] then [] else PartIds(parts[0]) + FrameIds(parts[1..])
  }

  function LastOr(ids: seq<seq<Byte>>, id: seq<Byte>): seq<Byte> { if ids == [] then id else ids[|ids| - 1] }

  lemma LastOrConcat(xs: seq<seq<Byte>>, ys: seq<seq<Byte>>, id: seq<Byte>)
    ensures LastOr(xs + ys, id) == LastOr(ys, LastOr(xs, id))
  {
    assert ys == [] ==> xs + ys == xs;
  }

  function TagNumber(f: Field): nat { f.num * 8 + if f.VarintField? then 0 else 2 }

  lemma TagFits(f: Field)
    requires FieldOk(f)
    ensures TagNumber(f) < TWO_32 && ToUint32(TagNumber(f)) == TagNumber(f)
    ensures TagNumber(f) % 8 == (if f.VarintField? then 0 else 2) && TagNumber(f) / 8 == f.num
  {
  }

  /** At an encoded number field the parser finds the tag and skips the number. */
  lemma ReadNumberField(bytes: seq<Byte>, at: nat, f: Field) returns (p: nat)
    requires FieldOk(f) && f.VarintField? && At(bytes, at, EncodeField(f))
    ensures at < p <= |bytes| && ReadFrom(bytes, at, 0, 0) == (TagNumber(f), p)
    ensures SkipFrom(bytes, p) == at + |EncodeField(f)|
  {
    TagFits(f);
    var tag, value := Varint(TagNumber(f)), Varint(ToUint32(f.v));
    AtConcat(bytes, at, tag, value);
    p := at + |tag|;
    VarintRoundTrip(bytes, at, TagNumber(f));
    VarintRoundTrip(bytes, p, ToUint32(f.v));
  }

  /** At an encoded bytes field it finds the tag, the length and the body. */
  lemma ReadBytesField(bytes: seq<Byte>, at: nat, f: Field) returns (p: nat, q: nat)
    requires FieldOk(f) && f.BytesField? && At(bytes, at, EncodeField(f))
    ensures at < p <= q && q + |f.body| == at + |EncodeField(f)| <= |bytes|
    ensures ReadFrom(bytes, at, 0, 0) == (TagNumber(f), p) && ReadFrom(bytes, p, 0, 0) == (|f.body|, q)
    ensures bytes[q..q + |f.body|] == f.body
  {
    p, q := BytesFieldParts(bytes, at, f);
    TagFits(f);
    VarintRoundTrip(bytes, at, TagNumber(f));
    VarintRoundTrip(bytes, p, |f.body|);
  }

  lemma BytesFieldParts(bytes: seq<Byte>, at: nat, f: Field) returns (p: nat, q: nat)
    requires FieldOk(f) && f.BytesField? && At(bytes, at, EncodeField(f))
    ensures p == at + |Varint(TagNumber(f))| && q == p + |Varint(|f.body|)| && q + |f.body| == at + |EncodeField(f)|
    ensures At(bytes, at, Varint(TagNumber(f))) && At(bytes, p, Varint(|f.body|)) && At(bytes, q, f.body)
  {
    TagFits(f);
    var tag, len := Varint(TagNumber(f)), Varint(|f.body|);
    AtConcat(bytes, at, tag, len + f.body);
    p := at + |tag|;
    AtConcat(bytes, p, len, f.body);
    q := p + |len|;
  }

  /** One turn of either loop at a tag that has been read, with the cursor positions given. */
  lemma AckNumberTurn(bytes: seq<Byte>, at: nat, tag: nat, p: nat, id: seq<Byte>)
    requires at < p <= |bytes| && ReadFrom(bytes, at, 0, 0) == (tag, p) && tag % 8 == 0
    ensures ScanAck(bytes, at, id) == ScanAck(bytes, SkipFrom(bytes, p), id)
  {
  }

  lemma AckBytesTurn(bytes: seq<Byte>, at: nat, tag: nat, p: nat, len: nat, q: nat, id: seq<Byte>)
    requires at < p <= q && q + len <= |bytes| && len < TWO_31 && tag % 8 == 2
    requires ReadFrom(bytes, at, 0, 0) == (tag, p) && ReadFrom(bytes, p, 0, 0) == (len, q)
    ensures ScanAck(bytes, at, id) == ScanAck(bytes, q + len, if tag / 8 == 2 then bytes[q..q + len] else id)
  {
  }

  lemma FrameNumberTurn(bytes: seq<Byte>, at: nat, tag: nat, p: nat, id: seq<Byte>)
    requires at < p <= |bytes| && ReadFrom(bytes, at, 0, 0) == (tag, p) && tag % 8 == 0
    ensures ScanFrame(bytes, at, id) == ScanFrame(bytes, SkipFrom(bytes, p), id)
  {
  }

  function AfterBytes(bytes: seq<Byte>, num: nat, body: seq<Byte>, next: nat, id: seq<Byte>): Scan
    requires next <= |bytes|
  {
    if num == 21 then
      match ScanAck(body, 0, id)
      case Rewinds => Rewinds
      case Got(id') => ScanFrame(bytes, next, id')
    else ScanFrame(bytes, next, id)
  }

  lemma FrameBytesTurn(bytes: seq<Byte>, at: nat, tag: nat, p: nat, len: nat, q: nat, id: seq<Byte>)
    requires at < p <= q && q + len <= |bytes| && len < TWO_31 && tag % 8 == 2
    requires ReadFrom(bytes, at, 0, 0) == (tag, p) && ReadFrom(bytes, p, 0, 0) == (len, q)
    ensures ScanFrame(bytes, at, id) == AfterBytes(bytes, tag / 8, bytes[q..q + len], q + len, id)
  {
  }

  /** `part` stands at `at` and ends the buffer. */
  ghost predicate Ends(bytes: seq<Byte>, at: nat, part: seq<Byte>) { At(bytes, at, part) && at + |part| == |bytes| }

  lemma EndsConcat(bytes: seq<Byte>, at: nat, a: seq<Byte>, b: seq<Byte>)
    requires Ends(bytes, at, a + b)
    ensures At(bytes, at, a) && Ends(bytes, at + |a|, b)
  {
    AtConcat(bytes, at, a, b);
  }

  /** A number field stands at `at` and ends at `next`, in terms of what is read there. */
  ghost predicate NumberAt(bytes: seq<Byte>, at: nat, next: nat) {
    && at < |bytes|
    && var (tag, p) := ReadFrom(bytes, at, 0, 0);
       tag % 8 == 0 && SkipFrom(bytes, p) == next
  }

  ghost predicate BytesAt(bytes: seq<Byte>, at: nat, num: nat, body: seq<Byte>, next: nat) {
    && at < |bytes|
    && var (tag, p) := ReadFrom(bytes, at, 0, 0);
       var (len, q) := ReadFrom(bytes, p, 0, 0);
       tag % 8 == 2 && tag / 8 == num && len == |body| && q + len == next <= |bytes| && bytes[q..next] == body
  }

  lemma NumberStands(bytes: seq<Byte>, at: nat, f: Field, next: nat)
    requires FieldOk(f) && f.VarintField? && At(bytes, at, EncodeField(f)) && next == at + |EncodeField(f)|
    ensures NumberAt(bytes, at, next)
  {
    TagFits(f);
    var p := ReadNumberField(bytes, at, f);
  }

  lemma BytesStand(bytes: seq<Byte>, at: nat, f: Field, next: nat)
    requires FieldOk(f) && f.BytesField? && At(bytes, at, EncodeField(f)) && next == at + |EncodeField(f)|
    ensures BytesAt(bytes, at, f.num, f.body, next)
  {
    TagFits(f);
    var p, q := ReadBytesField(bytes, at, f);
  }

  lemma AckNumber(bytes: seq<Byte>, at: nat, next: nat, id: seq<Byte>)
    requires NumberAt(bytes, at, next)
    ensures ScanAck(bytes, at, id) == ScanAck(bytes, next, id)
  {
    var (tag, p) := ReadFrom(bytes, at, 0, 0);
    AckNumberTurn(bytes, at, tag, p, id);
  }

  lemma AckBytes(bytes: seq<Byte>, at: nat, num: nat, body: seq<Byte>, next: nat, id: seq<Byte>)
    requires BytesAt(bytes, at, num, body, next) && |body| < TWO_31
    ensures ScanAck(bytes, at, id) == ScanAck(bytes, next, if num == 2 then body else id)
  {
    var (tag, p) := ReadFrom(bytes, at, 0, 0);
    var q := ReadFrom(bytes, p, 0, 0).1;
    AckBytesTurn(bytes, at, tag, p, |body|, q, id);
  }

  /** One turn of the outer loop consumes a number field, */
  lemma SkipNumber(bytes: seq<Byte>, at: nat, next: nat, id: seq<Byte>)
    requires NumberAt(bytes, at, next)
    ensures ScanFrame(bytes, at, id) == ScanFrame(bytes, next, id)
  {
    var (tag, p) := ReadFrom(bytes, at, 0, 0);
    FrameNumberTurn(bytes, at, tag, p, id);
  }

  /** ... or a bytes field, and looks into it if it is a register reply. */
  lemma EnterBytes(bytes: seq<Byte>, at: nat, num: nat, body: seq<Byte>, next: nat, id: seq<Byte>)
    requires BytesAt(bytes, at, num, body, next) && |body| < TWO_31
    ensures ScanFrame(bytes, at, id) == AfterBytes(bytes, num, body, next, id)
  {
    var (tag, p) := ReadFrom(bytes, at, 0, 0);
    var q := ReadFrom(bytes, p, 0, 0).1;
    FrameBytesTurn(bytes, at, tag, p, |body|, q, id);
  }

  /** The field `f` stands at `at` and ends at `next`. */
  ghost predicate FieldStands(bytes: seq<Byte>, at: nat, f: Field, next: nat) {
    match f
    case VarintField(_, _) => NumberAt(bytes, at, next)
    case BytesField(num, body) => |body| < TWO_31 && BytesAt(bytes, at, num, body, next)
  }

  lemma EncodedStands(bytes: seq<Byte>, at: nat, f: Field, rest: seq<Byte>) returns (next: nat)
    requires FieldOk(f) && Ends(bytes, at, EncodeField(f) + rest)
    ensures FieldStands(bytes, at, f, next) && Ends(bytes, next, rest)
  {
    var enc := EncodeField(f);
    EndsConcat(bytes, at, enc, rest);
    next := at + |enc|;
    if f.VarintField? { NumberStands(bytes, at, f, next); } else { BytesStand(bytes, at, f, next); }
  }

  /** One turn of the inner loop consumes one field. */
  lemma ScanAckStep(bytes: seq<Byte>, at: nat, f: Field, next: nat, id: seq<Byte>)
    requires FieldStands(bytes, at, f, next) && next <= |bytes|
    ensures at < |bytes| && ScanAck(bytes, at, id) == ScanAck(bytes, next, LastOr(FieldId(f), id))
  {
    if f.VarintField? { AckNumber(bytes, at, next, id); } else { AckBytes(bytes, at, f.num, f.body, next, id); }
  }

  lemma {:induction false} ScanAckFields(bytes: seq<Byte>, at: nat, fs: seq<Field>, id: seq<Byte>)
    requires FieldsOk(fs) && Ends(bytes, at, EncodeAll(fs))
    ensures ScanAck(bytes, at, id) == Got(LastOr(Ids(fs), id))
    decreases |fs|
  {
    if fs != [] {
      var next := EncodedStands(bytes, at, fs[0], EncodeAll(fs[1..]));
      ScanAckStep(bytes, at, fs[0], next, id);
      ScanAckFields(bytes, next, fs[1..], LastOr(FieldId(fs[0]), id));
      LastOrConcat(FieldId(fs[0]), Ids(fs[1..]), id);
    }
  }

  /** One turn of the outer loop consumes one part. */
  lemma ScanPart(bytes: seq<Byte>, at: nat, p: Part, next: nat, id: seq<Byte>)
    requires PartOk(p) && FieldStands(bytes, at, PartField(p), next) && next <= |bytes|
    ensures at < |bytes| && ScanFrame(bytes, at, id) == ScanFrame(bytes, next, LastOr(PartIds(p), id))
  {
    var f := PartField(p);
    if f.VarintField? { SkipNumber(bytes, at, next, id); } else { EnterBytes(bytes, at, f.num, f.body, next, id); }
    if p.Ack? { ScanReply(p.fields, id); }
  }

  lemma ScanReply(fs: seq<Field>, id: seq<Byte>)
    requires FieldsOk(fs)
    ensures ScanAck(EncodeAll(fs), 0, id) == Got(LastOr(Ids(fs), id))
  {
    var body := EncodeAll(fs);
    assert Ends(body, 0, body);
    ScanAckFields(body, 0, fs, id);
  }

  lemma {:induction false} ScanFrameParts(bytes: seq<Byte>, at: nat, parts: seq<Part>, id: seq<Byte>)
    requires forall i :: 0 <= i < |parts| ==> PartOk(parts[i])
    requires Ends(bytes, at, EncodeAll(FieldsOf(parts)))
    ensures ScanFrame(bytes, at, id) == Got(LastOr(FrameIds(parts), id))
    decreases |parts|
  {
    if parts != [] {
      assert FieldsOf(parts)[1..] == FieldsOf(parts[1..]);
      var next := EncodedStands(bytes, at, PartField(parts[0]), EncodeAll(FieldsOf(parts[1..])));
      ScanPart(bytes, at, parts[0], next, id);
      ScanFrameParts(bytes, next, parts[1..], LastOr(PartIds(parts[0]), id));
      LastOrConcat(PartIds(parts[0]), FrameIds(parts[1..]), id);
    }
  }

  /**
    Frame round trip. On every frame built from the encoders the parser skips all other fields and yields the last
    field 2 found inside any field 21; if that is empty, or there is none, the caller sees no identifier.
   */
  lemma FrameRoundTrip(parts: seq<Part>)
    requires forall i :: 0 <= i < |parts| ==> PartOk(parts[i])
    ensures ScanFrame(EncodeAll(FieldsOf(parts)), 0, []) == Got(LastOr(FrameIds(parts), []))
  {
    ScanFrameParts(EncodeAll(FieldsOf(parts)), 0, parts, []);
  }

  lemma {:induction false} TextShort(s: seq<Unit>)
    ensures |TextBytes(s)| <= 3 * |s|
  {
    if s != [] { TextShort(s[1..]); }
  }

  /** The frames the client itself sends hold no register reply, so reading one back yields no identifier. */
  lemma OwnFramesCarryNoId(requestId: seq<Unit>, nodeId: seq<Unit>)
    requires |requestId| < 0x1000_0000 && |nodeId| < 0x1000_0000
    ensures ScanFrame(RegisterFrame(requestId), 0, []) == Got([])
    ensures ScanFrame(HeartbeatFrame(requestId, nodeId), 0, []) == Got([])
  {
    var id, node := TextBytes(requestId), TextBytes(nodeId);
    TextShort(requestId);
    TextShort(nodeId);
    var role := EncodeAll([VarintField(10, 2)]);
    var beat := EncodeAll([BytesField(1, id), BytesField(2, node)]);
    RoleShort();
    TwoFieldsShort(1, id, 2, node);
    PlainFrame(BytesField(1, id), BytesField(20, role));
    PlainFrame(BytesField(1, id), BytesField(24, beat));
  }

  lemma RoleShort()
    ensures |EncodeAll([VarintField(10, 2)])| < 100
  {
    VarintShort(ToUint32(80));
    VarintShort(ToUint32(2));
    assert EncodeAll([VarintField(10, 2)][1..]) == [];
  }

  lemma TwoFieldsShort(m: nat, a: seq<Byte>, n: nat, b: seq<Byte>)
    ensures |EncodeAll([BytesField(m, a), BytesField(n, b)])| <= |a| + |b| + 20
  {
    var f, g := BytesField(m, a), BytesField(n, b);
    assert [f, g][1..] == [g] && EncodeAll([g][1..]) == [];
    VarintShort(ToUint32(m * 8 + 2));
    VarintShort(ToUint32(n * 8 + 2));
    VarintShort(ToUint32(|a|));
    VarintShort(ToUint32(|b|));
  }

  lemma PlainFrame(f: Field, g: Field)
    requires FieldOk(f) && FieldOk(g) && f.num != 21 && g.num != 21
    ensures ScanFrame(EncodeAll([f, g]), 0, []) == Got([])
  {
    var parts := [Plain(f), Plain(g)];
    PlainParts(f, g, parts);
    FrameRoundTrip(parts);
  }

  lemma PlainParts(f: Field, g: Field, parts: seq<Part>)
    requires parts == [Plain(f), Plain(g)]
    ensures FieldsOf(parts) == [f, g] && FrameIds(parts) == []
  {
    var last := [Plain(g)];
    assert parts[1..] == last;
    assert last[1..] == [] && FieldsOf([]) == [] && FrameIds([]) == [];
    assert FieldsOf(last) == [g] && FrameIds(last) == [];
  }

  /** An ASCII text is its own encoding, so an ASCII identifier comes back as it was written. */
  lemma {:induction false} AsciiText(s: seq<Unit>)
    requires forall i :: 0 <= i < |s| ==> s[i] < 0x80
    ensures |TextBytes(s)| == |s| && forall i :: 0 <= i < |s| ==> TextBytes(s)[i] == s[i]
  {
    if s != [] {
      AsciiText(s[1..]);
      assert forall i :: 0 < i < |s| ==> s[i] == s[1..][i - 1];
    }
  }

  /** The last identifier that is not empty; none if all are. */
  function LastNonEmpty(ids: seq<seq<Byte>>): (r: seq<Byte>)
    ensures r == [] <==> forall i :: 0 <= i < |ids| ==> ids[i] == []
  {
    if ids == [] then []
    else if ids[|ids| - 1] != [] then ids[|ids| - 1]
    else
      assert ids == ids[..|ids| - 1] + [ids[|ids| - 1]];
      LastNonEmpty(ids[..|ids| - 1])
  }

  /** The parser yields the last identifier that is not empty iff no empty one follows it. */
  lemma YieldsLastNonEmptyIff(parts: seq<Part>)
    requires forall i :: 0 <= i < |parts| ==> PartOk(parts[i])
    ensures var ids := FrameIds(parts);
            ScanFrame(EncodeAll(FieldsOf(parts)), 0, []) == Got(LastNonEmpty(ids)) <==>
            (ids != [] && ids[|ids| - 1] == [] ==> forall i :: 0 <= i < |ids| ==> ids[i] == [])
  {
    FrameRoundTrip(parts);
    LastIsNonEmptyIff(FrameIds(parts));
  }

  lemma LastIsNonEmptyIff(ids: seq<seq<Byte>>)
    ensures LastOr(ids, []) == LastNonEmpty(ids) <==>
            (ids != [] && ids[|ids| - 1] == [] ==> forall i :: 0 <= i < |ids| ==> ids[i] == [])
  {
  }

  /** The last field wins even when it is empty: an earlier identifier is then forgotten. */
  lemma EmptyIdForgets(id: seq<Byte>)
    requires |id| < TWO_31 - 20
    ensures ScanFrame(EncodeAll(FieldsOf([Ack([BytesField(2, id), BytesField(2, [])])])), 0, []) == Got([])
  {
    var fs := [BytesField(2, id), BytesField(2, [])];
    assert Ids(fs[1..]) == [[]] && Ids(fs) == [id] + Ids(fs[1..]);
    assert FrameIds([Ack(fs)]) == Ids(fs) + FrameIds([]);
    TwoFieldsShort(2, id, 2, []);
    FrameRoundTrip([Ack(fs)]);
  }

  lemma {:induction false} VarintShort(u: nat)
    requires u < TWO_32
    ensures |Varint(u)| <= 5
  {
    var a, b, c, d := u / 128, u / 128 / 128, u / 128 / 128 / 128, u / 128 / 128 / 128 / 128;
    assert d < 128;
    assert d < 128 ==> |Varint(d)| == 1;
    assert |Varint(c)| <= 2;
    assert |Varint(b)| <= 3;
    assert |Varint(a)| <= 4;
  }
}
