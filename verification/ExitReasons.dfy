/** Why an actor ended, its proto encoding, its header text and the two parsers of that text. */
module ExitReasons {
  import opened Common
  import opened ActorIds

  datatype ExitReason =
    | Normal
    | Shutdown
    | Killed
    | Error(message: string)
    | Linked(actorId: ActorId, reason: ExitReason)

  datatype ProtoReason = ProtoUnspecified | ProtoNormal | ProtoShutdown | ProtoKilled | ProtoError | ProtoLinked

  datatype Details = Details(errorMessage: string, linkedActorId: string, linkedReason: int)

  const UNKNOWN_LINKED_ACTOR := ActorId("unknown", "system", "default", "unknown")

  /** Identities are validated when built, so a reason only ever carries valid ones. */
  predicate ValidReason(r: ExitReason) {
    r.Linked? ==> Valid(r.actorId) && ValidReason(r.reason)
  }

  /** Follows the code: `Killed` is not an error, although the comments on termination say it propagates. */
  predicate IsError(r: ExitReason) { r.Error? || r.Linked? }

  // ---- proto encoding -------------------------------------------------------------------------

  function ToProto(r: ExitReason): ProtoReason {
    match r
    case Normal => ProtoNormal
    case Shutdown => ProtoShutdown
    case Killed => ProtoKilled
    case Error(_) => ProtoError
    case Linked(_, _) => ProtoLinked
  }

  function ProtoNumber(p: ProtoReason): int {
    match p
    case ProtoUnspecified => 0
    case ProtoNormal => 1
    case ProtoShutdown => 2
    case ProtoKilled => 3
    case ProtoError => 4
    case ProtoLinked => 5
  }

  function ProtoFromNumber(n: int): (r: Option<ProtoReason>)
    ensures r.Some? <==> 0 <= n <= 5
    ensures r.Some? ==> ProtoNumber(r.value) == n
  {
    if n == 0 then Some(ProtoUnspecified)
    else if n == 1 then Some(ProtoNormal)
    else if n == 2 then Some(ProtoShutdown)
    else if n == 3 then Some(ProtoKilled)
    else if n == 4 then Some(ProtoError)
    else if n == 5 then Some(ProtoLinked)
    else None
  }

  function ToProtoDetails(r: ExitReason): Option<Details> {
    match r
    case Error(msg) => Some(Details(msg, "", 0))
    case Linked(id, inner) => Some(Details("", Canonical(id), ProtoNumber(ToProto(inner))))
    case _ => None
  }

  function FromProto(p: ProtoReason, details: Option<Details>): ExitReason
    decreases details.Some?
  {
    match p
    case ProtoUnspecified => Normal
    case ProtoNormal => Normal
    case ProtoShutdown => Shutdown
    case ProtoKilled => Killed
    case ProtoError =>
      Error(if details.Some? && details.value.errorMessage != "" then details.value.errorMessage else "unknown error")
    case ProtoLinked =>
      var id := if details.Some? && details.value.linkedActorId != ""
                then ParseOrUnknown(details.value.linkedActorId) else UNKNOWN_LINKED_ACTOR;
      var inner := if details.Some? && details.value.linkedReason != 0 &&
                      ProtoFromNumber(details.value.linkedReason).Some?
                   then FromProto(ProtoFromNumber(details.value.linkedReason).value, None) else Normal;
      Linked(id, inner)
  }

  function ParseOrUnknown(text: string): ActorId {
    match FromCanonical(text)
    case Ok(id) => id
    case Err(_) => UNKNOWN_LINKED_ACTOR
  }

  /** What survives one trip over the wire. */
  function ProtoTrip(r: ExitReason): ExitReason { FromProto(ToProto(r), ToProtoDetails(r)) }

  /** The variant, and one level of the cause, without payloads. */
  function Shape(r: ExitReason): (ProtoReason, ProtoReason) {
    (ToProto(r), if r.Linked? then ToProto(r.reason) else ProtoUnspecified)
  }

  /** The identity of the linked actor over the wire: kept iff its node id has no `@`, and stable after one trip. */
  lemma IdTrip(id: ActorId)
    requires Valid(id)
    ensures ParseOrUnknown(Canonical(id)) == id <==> '@' !in id.nodeId
    ensures Valid(ParseOrUnknown(Canonical(id)))
    ensures ParseOrUnknown(Canonical(ParseOrUnknown(Canonical(id)))) == ParseOrUnknown(Canonical(id))
  {
    CanonicalRoundTrip(id);
    ParseThenPrint(Canonical(id));
    CanonicalRoundTrip(UNKNOWN_LINKED_ACTOR);
  }

  /** A linked reason over the wire: the identity is parsed back, the cause keeps only its variant. */
  lemma LinkedTrip(id: ActorId, inner: ExitReason)
    ensures ProtoTrip(Linked(id, inner)) == Linked(ParseOrUnknown(Canonical(id)), FromProto(ToProto(inner), None))
  {
    assert Canonical(id) != "";
    assert ProtoFromNumber(ProtoNumber(ToProto(inner))) == Some(ToProto(inner));
  }

  /** For reasons of any depth the trip keeps the variant, the immediately nested variant and whether it is an error. */
  lemma {:induction false} ProtoTripKeepsShape(r: ExitReason)
    requires ValidReason(r)
    ensures ValidReason(ProtoTrip(r))
    ensures Shape(ProtoTrip(r)) == Shape(r) && IsError(ProtoTrip(r)) == IsError(r)
  {
    if r.Linked? {
      LinkedTrip(r.actorId, r.reason);
      IdTrip(r.actorId);
      BareTrip(r.reason);
    }
  }

  /** A cause travels without details: its variant is all that is left. */
  lemma BareTrip(r: ExitReason)
    ensures ToProto(FromProto(ToProto(r), None)) == ToProto(r)
    ensures ValidReason(FromProto(ToProto(r), None))
  {
    assert Valid(UNKNOWN_LINKED_ACTOR);
  }

  /** A second trip changes nothing more. */
  lemma {:induction false} ProtoTripIdempotent(r: ExitReason)
    requires ValidReason(r)
    ensures ProtoTrip(ProtoTrip(r)) == ProtoTrip(r)
  {
    if r.Linked? {
      LinkedTrip(r.actorId, r.reason);
      var once := ProtoTrip(r);
      LinkedTrip(once.actorId, once.reason);
      IdTrip(r.actorId);
    }
  }

  /** The reasons the wire format can hold in full. */
  predicate FitsProto(r: ExitReason) {
    match r
    case Error(msg) => msg != ""
    case Linked(id, inner) =>
      && '@' !in id.nodeId
      && (inner.Error? ==> inner.message == "unknown error")
      && (inner.Linked? ==> inner == Linked(UNKNOWN_LINKED_ACTOR, Normal))
    case _ => true
  }

  /** Nothing is lost over the wire exactly for these reasons. */
  lemma {:induction false} ProtoTripIdentity(r: ExitReason)
    requires ValidReason(r)
    ensures ProtoTrip(r) == r <==> FitsProto(r)
  {
    if r.Linked? {
      LinkedTrip(r.actorId, r.reason);
      IdTrip(r.actorId);
    }
  }

  /**
    Whatever arrives is read as the reason whose encoding it is, with the gaps filled: no variant means normal, a
    missing message "unknown error", an identity that does not parse the placeholder, a cause out of range normal.
   */
  lemma DecodeFillsGaps(p: ProtoReason, d: Option<Details>)
    ensures ToProto(FromProto(p, d)) == if p.ProtoUnspecified? then ProtoNormal else p
    ensures ToProtoDetails(FromProto(p, d)).Some? <==> p.ProtoError? || p.ProtoLinked?
    ensures p.ProtoError? ==>
            var message := if d.Some? && d.value.errorMessage != "" then d.value.errorMessage else "unknown error";
            ToProtoDetails(FromProto(p, d)) == Some(Details(message, "", 0))
    ensures p.ProtoLinked? ==>
            var parses := d.Some? && FromCanonical(d.value.linkedActorId).Ok?;
            var id := if parses then d.value.linkedActorId else Canonical(UNKNOWN_LINKED_ACTOR);
            var cause := if d.Some? && 1 <= d.value.linkedReason <= 5 then d.value.linkedReason else 1;
            ToProtoDetails(FromProto(p, d)) == Some(Details("", id, cause))
  {
    if p.ProtoLinked? && d.Some? {
      var text, n := d.value.linkedActorId, d.value.linkedReason;
      ParseThenPrint(text);
      assert FindLast("", '@', 0).None?;
      assert FromCanonical("").Err?;
      if 1 <= n <= 5 { CauseNumber(n); }
    }
  }

  lemma CauseNumber(n: int)
    requires 1 <= n <= 5
    ensures ProtoFromNumber(n).Some? && ProtoNumber(ToProto(FromProto(ProtoFromNumber(n).value, None))) == n
  {
  }

  // ---- header text ----------------------------------------------------------------------------

  function CauseText(r: ExitReason): string {
    match r
    case Normal => "normal"
    case Shutdown => "shutdown"
    case Killed => "killed"
    case Error(msg) => msg
    case Linked(_, _) => "linked"
  }

  /** `exit_reason_to_string`. */
  function ReasonText(r: ExitReason): string {
    match r
    case Linked(id, inner) => "linked:" + Canonical(id) + ":" + CauseText(inner)
    case _ => CauseText(r)
  }

  predicate StartsWith(s: string, p: string) { |p| <= |s| && s[..|p|] == p }

  /** The index of the colon that ends the second part of `splitn(3, ':')` on a text that starts with `linked:`. */
  function SecondColon(s: string): Option<nat>
    requires StartsWith(s, "linked:")
  {
    FindFrom(s, ":", 7)
  }

  /** `ExitReason::from_str`. */
  function ParseReason(s: string): ExitReason
    decreases |s|
  {
    if s == "normal" then Normal
    else if s == "shutdown" then Shutdown
    else if s == "killed" then Killed
    else if StartsWith(s, "linked:") && SecondColon(s).Some? then
      var j := SecondColon(s).value;
      Linked(ParseOrUnknown(s[7..j]), ParseReason(s[j + 1..]))
    else Error(s)
  }

  /** Error texts that the parser takes for something else. */
  predicate Reserved(msg: string) {
    msg == "normal" || msg == "shutdown" || msg == "killed" || (StartsWith(msg, "linked:") && SecondColon(msg).Some?)
  }

  /**
    Printing then parsing is the identity on the plain variants, and on an error exactly when its text is not
    reserved.
   */
  lemma TextRoundTrip(r: ExitReason)
    requires !r.Linked?
    ensures ParseReason(ReasonText(r)) == r <==> (r.Error? ==> !Reserved(r.message))
  {
  }

  /**
    A linked reason always comes back linked, but never with its actor: the colons inside the canonical identity
    end the second part too early, and the rest of the identity ends up inside the cause.
   */
  lemma {:induction false} LinkedTextTrip(id: ActorId, inner: ExitReason)
    requires Valid(id)
    ensures ParseReason(ReasonText(Linked(id, inner))) ==
            Linked(UNKNOWN_LINKED_ACTOR, Error(":" + id.namespace + "@" + id.nodeId + ":" + CauseText(inner)))
  {
    var second, tail, cause := id.name + "//" + id.actorType, id.namespace + "@" + id.nodeId, CauseText(inner);
    var rest := ":" + tail + ":" + cause;
    assert Canonical(id) == second + "::" + tail;
    Regroup("linked:", second, tail, cause);
    assert rest == ":" + id.namespace + "@" + id.nodeId + ":" + cause;
    PlainSecond(id);
    LinkedParts(second, rest);
  }

  /** What the text tells of a cause: an error with its message alone, anything else by one word, at any depth. */
  lemma CauseToldIff(id: ActorId, cause: ExitReason, message: string)
    ensures ReasonText(Linked(id, cause)) == ReasonText(Linked(id, Error(message))) <==>
            || cause == Error(message)
            || (cause.Normal? && message == "normal")
            || (cause.Shutdown? && message == "shutdown")
            || (cause.Killed? && message == "killed")
            || (cause.Linked? && message == "linked")
  {
    var front := "linked:" + Canonical(id) + ":";
    assert ReasonText(Linked(id, cause))[|front|..] == CauseText(cause);
    assert ReasonText(Linked(id, Error(message)))[|front|..] == message;
  }

  lemma PlainSecond(id: ActorId)
    requires Valid(id)
    ensures var second := id.name + "//" + id.actorType;
            '@' !in second && forall i :: 0 <= i < |second| ==> second[i] != ':'
  {
    SlugChars(id.name);
    SlugChars(id.actorType);
  }

  lemma LinkedParts(second: string, rest: string)
    requires '@' !in second && (forall i :: 0 <= i < |second| ==> second[i] != ':') && rest != "" && rest[0] == ':'
    ensures ParseReason("linked:" + second + ":" + rest) == Linked(UNKNOWN_LINKED_ACTOR, Error(rest))
  {
    SplitLinked(second, rest);
    NoAtNoParse(second);
    ColonIsError(rest);
  }

  lemma Regroup(p: string, second: string, tail: string, cause: string)
    ensures p + (second + "::" + tail) + ":" + cause == p + second + ":" + (":" + tail + ":" + cause)
  {
    assert "::" == ":" + ":";
  }

  lemma NoAtNoParse(s: string)
    requires '@' !in s
    ensures ParseOrUnknown(s) == UNKNOWN_LINKED_ACTOR
  {
    assert FindLast(s, '@', |s|).None?;
  }

  lemma ColonIsError(s: string)
    requires s != "" && s[0] == ':'
    ensures ParseReason(s) == Error(s)
  {
    assert |s| >= 7 ==> s[..7][0] == ':';
  }

  /** A part without colons that a colon ends is what the search for the next colon delimits. */
  lemma {:induction false} CutAtColon(prefix: string, part: string, rest: string)
    requires forall i :: 0 <= i < |part| ==> part[i] != ':'
    ensures var s := prefix + part + ":" + rest;
            && FindFrom(s, ":", |prefix|) == Some(|prefix| + |part|)
            && s[..|prefix|] == prefix
            && s[|prefix|..|prefix| + |part|] == part
            && s[|prefix| + |part| + 1..] == rest
  {
    var s := prefix + part + ":" + rest;
    assert OccursAt(s, ":", |prefix| + |part|);
    forall i | |prefix| <= i < |prefix| + |part| ensures !OccursAt(s, ":", i) {
      assert s[i..i + 1][0] == s[i] == part[i - |prefix|];
    }
  }

  /** A second part without colons is cut off whole. */
  lemma {:induction false} SplitLinked(second: string, rest: string)
    requires forall i :: 0 <= i < |second| ==> second[i] != ':'
    ensures ParseReason("linked:" + second + ":" + rest) == Linked(ParseOrUnknown(second), ParseReason(rest))
  {
    CutAtColon("linked:", second, rest);
    assert |"linked:"| == 7;
    var s := "linked:" + second + ":" + rest;
    assert |s| >= 8 && s[0] == s[..7][0] == 'l';
    assert SecondColon(s) == Some(7 + |second|);
  }

  lemma SlugChars(s: string)
    requires s != "" && IsAlnum(s[0]) && IsSlugTail(s[1..])
    ensures forall i :: 0 <= i < |s| ==> s[i] != ':' && s[i] != '@' && s[i] != '/'
  {
    assert forall i :: 1 <= i < |s| ==> s[i] == s[1..][i - 1];
  }

  /**
    `parse_exit_reason_from_str`, the parser the receiving actor applies to the `exit_reason` header. Exit messages
    never carry the `exit_linked_error` header, so the cause of a linked reason is `Normal`.
   */
  function ParseHeader(s: string): ExitReason {
    if s == "Normal" then Normal
    else if s == "Shutdown" then Shutdown
    else if s == "Killed" then Killed
    else if StartsWith(s, "Error:") then Error(s[6..])
    else if StartsWith(s, "Linked:") then Linked(ParseOrUnknown(s[7..]), Normal)
    else Normal
  }

  /** Texts that the receiver reads as an error. */
  predicate ReadsAsError(s: string) { StartsWith(s, "Error:") || StartsWith(s, "Linked:") }

  /**
    Sender and receiver disagree about spelling: the receiver sees an error only when the text happens to start
    with a capitalised tag, which a linked reason never does.
   */
  lemma HeaderTrip(r: ExitReason)
    ensures IsError(ParseHeader(ReasonText(r))) <==> r.Error? && ReadsAsError(r.message)
    ensures r.Linked? ==> ParseHeader(ReasonText(r)) == Normal
  {
    if r.Linked? {
      assert ReasonText(r)[0] == 'l';
      assert forall p :: p in {"Normal", "Shutdown", "Killed", "Error:", "Linked:"} && |p| <= |ReasonText(r)| ==>
        ReasonText(r)[..|p|][0] == 'l';
    }
  }

  /** What the receiver reads, exactly: the capitalised words, an error by its tag, a linked identity that parses. */
  lemma HeaderReads(s: string)
    ensures ParseHeader(s).Shutdown? <==> s == "Shutdown"
    ensures ParseHeader(s).Killed? <==> s == "Killed"
    ensures forall msg :: ParseHeader(s) == Error(msg) <==> s == "Error:" + msg
    ensures ParseHeader(s).Linked? <==> StartsWith(s, "Linked:")
    ensures forall id :: Valid(id) && '@' !in id.nodeId && s == "Linked:" + Canonical(id) ==>
      ParseHeader(s) == Linked(id, Normal)
  {
    HeaderTags(s);
    forall msg ensures ParseHeader(s) == Error(msg) <==> s == "Error:" + msg { TagCut("Error:", msg, s); }
    forall id | Valid(id) && '@' !in id.nodeId && s == "Linked:" + Canonical(id)
      ensures ParseHeader(s) == Linked(id, Normal)
    {
      TagCut("Linked:", Canonical(id), s);
      IdTrip(id);
    }
  }

  lemma HeaderTags(s: string)
    ensures StartsWith(s, "Error:") ==> ParseHeader(s) == Error(s[6..])
    ensures StartsWith(s, "Linked:") ==> ParseHeader(s) == Linked(ParseOrUnknown(s[7..]), Normal)
  {
    assert StartsWith(s, "Error:") ==> s[0] == s[..6][0] == 'E';
    assert StartsWith(s, "Linked:") ==> s[0] == s[..7][0] == 'L';
  }

  lemma TagCut(tag: string, rest: string, s: string)
    ensures s == tag + rest <==> StartsWith(s, tag) && s[|tag|..] == rest
  {
    if StartsWith(s, tag) {
      assert s == s[..|tag|] + s[|tag|..];
    }
  }
}
