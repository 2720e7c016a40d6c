/** What the frames a client sends say to whoever reads them back field by field and character by character. */
module FrameContents {
  import opened Common
  import opened Varints
  import opened Frames

  // ---- text ---------------------------------------------------------------------------------------------

  /** The bits a continuation byte carries, if it is one. */
  function Tail(b: Byte): Option<nat> { if 0x80 <= b < 0xC0 then Some(b - 0x80) else None }

  /** The code unit in front of the bytes and how many bytes it takes, by the one- to three-byte forms of UTF-8. */
  function UnitIn(bytes: seq<Byte>): (r: Option<(Unit, nat)>)
    ensures r.Some? ==> 0 < r.value.1 <= |bytes|
  {
    if bytes == [] then None
    else if bytes[0] < 0x80 then Some((bytes[0], 1))
    else if 0xC0 <= bytes[0] < 0xE0 && |bytes| >= 2 && Tail(bytes[1]).Some? then
      Some(((bytes[0] - 0xC0) * 64 + Tail(bytes[1]).value, 2))
    else if 0xE0 <= bytes[0] < 0xF0 && |bytes| >= 3 && Tail(bytes[1]).Some? && Tail(bytes[2]).Some? then
      Some(((bytes[0] - 0xE0) * 4096 + Tail(bytes[1]).value * 64 + Tail(bytes[2]).value, 3))
    else None
  }

  function TextOf(bytes: seq<Byte>): Option<seq<Unit>>
    decreases |bytes|
  {
    if bytes == [] then Some([])
    else
      match UnitIn(bytes)
      case None => None
      case Some((c, n)) =>
        match TextOf(bytes[n..])
        case None => None
        case Some(rest) => Some([c] + rest)
  }

  lemma SixBits(c: Unit)
    ensures c / 4096 < 16 && (c / 4096) * 4096 + ((c / 64) % 64) * 64 + c % 64 == c
    ensures c < 0x800 ==> c / 64 < 32 && (c / 64) * 64 + c % 64 == c
  {
    assert c / 4096 == (c / 64) / 64;
  }

  lemma UnitBack(c: Unit, rest: seq<Byte>)
    ensures UnitIn(UnitBytes(c) + rest) == Some((c, |UnitBytes(c)|)) && (UnitBytes(c) + rest)[|UnitBytes(c)|..] == rest
  {
    SixBits(c);
  }

  /** No text loses anything: the encoding of any sequence of code units reads back as that sequence. */
  lemma {:induction false} TextRoundTrip(s: seq<Unit>)
    ensures TextOf(TextBytes(s)) == Some(s)
  {
    if s != [] {
      UnitBack(s[0], TextBytes(s[1..]));
      TextRoundTrip(s[1..]);
      assert [s[0]] + s[1..] == s;
    }
  }

  // ---- fields -------------------------------------------------------------------------------------------

  /** The field at `at` and where it ends, if a whole one stands there. */
  function FieldIn(bytes: seq<Byte>, at: nat): (r: Option<(Field, nat)>)
    requires at < |bytes|
    ensures r.Some? ==> at < r.value.1 <= |bytes|
  {
    var (tag, p) := ReadFrom(bytes, at, 0, 0);
    var (n, q) := ReadFrom(bytes, p, 0, 0);
    if tag % 8 == 0 && p < |bytes| then Some((VarintField(tag / 8, n), q))
    else if tag % 8 == 2 && q + n <= |bytes| then Some((BytesField(tag / 8, bytes[q..q + n]), q + n))
    else None
  }

  function FieldsIn(bytes: seq<Byte>, at: nat): Option<seq<Field>>
    requires at <= |bytes|
    decreases |bytes| - at
  {
    if at == |bytes| then Some([])
    else
      match FieldIn(bytes, at)
      case None => None
      case Some((f, next)) =>
        match FieldsIn(bytes, next)
        case None => None
        case Some(rest) => Some([f] + rest)
  }

  /** Numbers that fit, and bodies short enough for their length to. */
  predicate FitsIn(f: Field) { FieldOk(f) && (f.VarintField? ==> 0 <= f.v < TWO_32) }

  ghost predicate AllFit(fs: seq<Field>) { forall f :: f in fs ==> FitsIn(f) }

  lemma NumberFieldBack(bytes: seq<Byte>, at: nat, f: Field, next: nat)
    requires FieldOk(f) && f.VarintField? && 0 <= f.v < TWO_32
    requires At(bytes, at, EncodeField(f)) && next == at + |EncodeField(f)|
    ensures at < |bytes| && FieldIn(bytes, at) == Some((f, next))
  {
    NumberParts(f);
    var tag, value := Varint(TagNumber(f)), Varint(f.v);
    AtConcat(bytes, at, tag, value);
    VarintRoundTrip(bytes, at, TagNumber(f));
    VarintRoundTrip(bytes, at + |tag|, f.v);
    NumberIs(bytes, at, TagNumber(f), at + |tag|, f.v, next);
  }

  lemma NumberParts(f: Field)
    requires FieldOk(f) && f.VarintField? && 0 <= f.v < TWO_32
    ensures EncodeField(f) == Varint(TagNumber(f)) + Varint(f.v)
    ensures TagNumber(f) < TWO_32 && TagNumber(f) % 8 == 0 && TagNumber(f) / 8 == f.num
  {
    TagFits(f);
    assert ToUint32(f.v) == f.v;
  }

  lemma NumberIs(bytes: seq<Byte>, at: nat, tag: nat, p: nat, n: nat, q: nat)
    requires at < p < |bytes| && tag % 8 == 0
    requires ReadFrom(bytes, at, 0, 0) == (tag, p) && ReadFrom(bytes, p, 0, 0) == (n, q)
    ensures FieldIn(bytes, at) == Some((VarintField(tag / 8, n), q))
  {
  }

  lemma BytesFieldBack(bytes: seq<Byte>, at: nat, f: Field, next: nat)
    requires FieldOk(f) && f.BytesField? && At(bytes, at, EncodeField(f)) && next == at + |EncodeField(f)|
    ensures at < |bytes| && FieldIn(bytes, at) == Some((f, next))
  {
    TagFits(f);
    var p, q := ReadBytesField(bytes, at, f);
  }

  lemma FieldBack(bytes: seq<Byte>, at: nat, f: Field, rest: seq<Byte>) returns (next: nat)
    requires FitsIn(f) && Ends(bytes, at, EncodeField(f) + rest)
    ensures at < next && Ends(bytes, next, rest) && FieldIn(bytes, at) == Some((f, next))
  {
    EndsConcat(bytes, at, EncodeField(f), rest);
    next := at + |EncodeField(f)|;
    if f.VarintField? { NumberFieldBack(bytes, at, f, next); } else { BytesFieldBack(bytes, at, f, next); }
  }

  lemma OneThenRest(bytes: seq<Byte>, at: nat, f: Field, next: nat, rest: seq<Field>)
    requires at < |bytes| && next <= |bytes|
    requires FieldIn(bytes, at) == Some((f, next)) && FieldsIn(bytes, next) == Some(rest)
    ensures FieldsIn(bytes, at) == Some([f] + rest)
  {
  }

  lemma Split(fs: seq<Field>, f: Field, rest: seq<Field>)
    requires fs != [] && fs[0] == f && fs[1..] == rest
    ensures EncodeAll(fs) == EncodeField(f) + EncodeAll(rest) && [f] + rest == fs
    ensures AllFit(fs) ==> FitsIn(f) && AllFit(rest)
  {
    assert forall g :: g in rest ==> g in fs;
  }

  lemma {:induction false} FieldsBack(bytes: seq<Byte>, at: nat, fs: seq<Field>)
    requires AllFit(fs) && Ends(bytes, at, EncodeAll(fs))
    ensures FieldsIn(bytes, at) == Some(fs)
    decreases |fs|
  {
    if fs != [] {
      var f, rest := fs[0], fs[1..];
      Split(fs, f, rest);
      var next := FieldBack(bytes, at, f, EncodeAll(rest));
      FieldsBack(bytes, next, rest);
      OneThenRest(bytes, at, f, next, rest);
    }
  }

  /** Every list of fields reads back whole: numbers, kinds, values and bodies, in order. */
  lemma FieldsRoundTrip(fs: seq<Field>)
    requires AllFit(fs)
    ensures FieldsIn(EncodeAll(fs), 0) == Some(fs)
  {
    assert Ends(EncodeAll(fs), 0, EncodeAll(fs));
    FieldsBack(EncodeAll(fs), 0, fs);
  }

  // ---- the two frames -----------------------------------------------------------------------------------

  /** The bytes are exactly two fields with these numbers and bodies. */
  ghost predicate TwoFields(frame: seq<Byte>, m: nat, a: seq<Byte>, n: nat, b: seq<Byte>) {
    FieldsIn(frame, 0) == Some([BytesField(m, a), BytesField(n, b)])
  }

  /** A register frame holds the request id as field 1 and, as field 20, a registration that only says role 2. */
  lemma RegisterFrameSays(requestId: seq<Unit>)
    requires |requestId| < 0x1000_0000
    ensures exists id, reg ::
              && TwoFields(RegisterFrame(requestId), 1, id, 20, reg)
              && TextOf(id) == Some(requestId) && FieldsIn(reg, 0) == Some([VarintField(10, 2)])
  {
    var id, reg := TextBytes(requestId), EncodeAll([VarintField(10, 2)]);
    TextShort(requestId);
    TextRoundTrip(requestId);
    RoleShort();
    FieldsRoundTrip([VarintField(10, 2)]);
    FieldsRoundTrip([BytesField(1, id), BytesField(20, reg)]);
    assert TwoFields(RegisterFrame(requestId), 1, id, 20, reg);
  }

  /** A heartbeat frame holds the request id, and in field 24 the request id again and then the node id. */
  lemma HeartbeatFrameSays(requestId: seq<Unit>, nodeId: seq<Unit>)
    requires |requestId| < 0x1000_0000 && |nodeId| < 0x1000_0000
    ensures exists id, beat, node ::
              && TwoFields(HeartbeatFrame(requestId, nodeId), 1, id, 24, beat) && TwoFields(beat, 1, id, 2, node)
              && TextOf(id) == Some(requestId) && TextOf(node) == Some(nodeId)
  {
    var id, node := TextBytes(requestId), TextBytes(nodeId);
    var beat := EncodeAll([BytesField(1, id), BytesField(2, node)]);
    TextShort(requestId);
    TextShort(nodeId);
    TextRoundTrip(requestId);
    TextRoundTrip(nodeId);
    TwoFieldsShort(1, id, 2, node);
    FieldsRoundTrip([BytesField(1, id), BytesField(2, node)]);
    FieldsRoundTrip([BytesField(1, id), BytesField(24, beat)]);
    assert TwoFields(HeartbeatFrame(requestId, nodeId), 1, id, 24, beat) && TwoFields(beat, 1, id, 2, node);
  }
}
