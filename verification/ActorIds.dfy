/** Structured actor identity and its canonical text `{name}//{type}::{namespace}@{node}`. */
module ActorIds {
  import opened Common

  datatype ActorId = ActorId(name: string, actorType: string, namespace: string, nodeId: string)

  datatype ActorIdError = InvalidName | InvalidActorType | MissingField(field: string) | InvalidFormat(missing: string)

  const NAME_MAX_LEN := 128
  const ACTOR_TYPE_MAX_LEN := 128

  predicate IsAlpha(c: char) { 'a' <= c <= 'z' || 'A' <= c <= 'Z' }

  predicate IsAlnum(c: char) { IsAlpha(c) || '0' <= c <= '9' }

  predicate IsSlugTail(s: string) {
    forall i :: 0 <= i < |s| ==> IsAlnum(s[i]) || s[i] == '-' || s[i] == '_'
  }

  predicate NameOk(s: string) {
    0 < |s| <= NAME_MAX_LEN && IsAlnum(s[0]) && IsSlugTail(s[1..])
  }

  predicate ActorTypeOk(s: string) {
    0 < |s| <= ACTOR_TYPE_MAX_LEN && IsAlpha(s[0]) && IsSlugTail(s[1..])
  }

  /** The identities that can exist: the fields are private and only the validating constructor makes one. */
  predicate Valid(id: ActorId) {
    NameOk(id.name) && ActorTypeOk(id.actorType) && id.namespace != "" && id.nodeId != ""
  }

  function New(name: string, actorType: string, namespace: string, nodeId: string): (r: Result<ActorId, ActorIdError>)
    ensures r.Ok? <==> Valid(ActorId(name, actorType, namespace, nodeId))
    ensures r.Ok? ==> r.value == ActorId(name, actorType, namespace, nodeId)
  {
    if !NameOk(name) then Err(InvalidName)
    else if actorType == "" then Err(MissingField("actor_type"))
    else if !ActorTypeOk(actorType) then Err(InvalidActorType)
    else if namespace == "" then Err(MissingField("namespace"))
    else if nodeId == "" then Err(MissingField("node_id"))
    else Ok(ActorId(name, actorType, namespace, nodeId))
  }

  function Canonical(id: ActorId): string {
    id.name + "//" + id.actorType + "::" + id.namespace + "@" + id.nodeId
  }

  predicate OccursAt(s: string, pat: string, i: int) {
    0 <= i && i + |pat| <= |s| && s[i..i + |pat|] == pat
  }

  /** First occurrence of `pat` at or after `from`, as `split_once` finds it. */
  function FindFrom(s: string, pat: string, from: nat): (r: Option<nat>)
    requires from <= |s|
    ensures r.Some? ==> from <= r.value && OccursAt(s, pat, r.value)
    ensures r.Some? ==> forall j :: from <= j < r.value ==> !OccursAt(s, pat, j)
    ensures r.None? ==> forall j :: from <= j ==> !OccursAt(s, pat, j)
    decreases |s| - from
  {
    if OccursAt(s, pat, from) then Some(from)
    else if from == |s| then None
    else FindFrom(s, pat, from + 1)
  }

  /** Last occurrence of `c` below `end`, as `rsplit_once` finds it. */
  function FindLast(s: string, c: char, end: nat): (r: Option<nat>)
    requires end <= |s|
    ensures r.Some? ==> r.value < end && s[r.value] == c
    ensures r.Some? ==> forall j :: r.value < j < end ==> s[j] != c
    ensures r.None? ==> forall j :: 0 <= j < end ==> s[j] != c
  {
    if end == 0 then None
    else if s[end - 1] == c then Some(end - 1)
    else FindLast(s, c, end - 1)
  }

  function FromCanonical(text: string): (r: Result<ActorId, ActorIdError>) {
    match FindLast(text, '@', |text|)
    case None => Err(InvalidFormat("@"))
    case Some(at) =>
      var beforeNode := text[..at];
      match FindFrom(beforeNode, "//", 0)
      case None => Err(InvalidFormat("//"))
      case Some(slash) =>
        var afterName := beforeNode[slash + 2..];
        match FindFrom(afterName, "::", 0)
        case None => Err(InvalidFormat("::"))
        case Some(colon) =>
          New(beforeNode[..slash], afterName[..colon], afterName[colon + 2..], text[at + 1..])
  }

  /** Parsing never invents text: whatever parses prints back to exactly the text that was parsed. */
  lemma ParseThenPrint(text: string)
    ensures FromCanonical(text).Ok? ==> Valid(FromCanonical(text).value) && Canonical(FromCanonical(text).value) == text
  {
    if FromCanonical(text).Ok? {
      var at := FindLast(text, '@', |text|).value;
      var beforeNode := text[..at];
      var slash := FindFrom(beforeNode, "//", 0).value;
      var afterName := beforeNode[slash + 2..];
      var colon := FindFrom(afterName, "::", 0).value;
      assert OccursAt(text, "@", at) by { assert text[at..at + 1] == [text[at]]; }
      CutAround(text, "@", at);
      CutAround(beforeNode, "//", slash);
      CutAround(afterName, "::", colon);
      Rejoin(text, beforeNode, text[at + 1..], beforeNode[..slash], afterName, afterName[..colon],
        afterName[colon + 2..]);
    }
  }

  lemma Rejoin(text: string, before: string, node: string, name: string, after: string, kind: string, namespace: string)
    requires text == before + "@" + node && before == name + "//" + after && after == kind + "::" + namespace
    ensures text == Canonical(ActorId(name, kind, namespace, node))
  {
  }

  lemma CutAround(s: string, sep: string, i: nat)
    requires OccursAt(s, sep, i)
    ensures s == s[..i] + sep + s[i + |sep|..]
  {
  }

  /** A slug holds neither `/` nor `:`, so the separator that follows it is the first one found. */
  lemma SlugThenSeparator(slug: string, sep: string, rest: string)
    requires slug != "" && IsAlnum(slug[0]) && IsSlugTail(slug[1..])
    requires sep == "//" || sep == "::"
    ensures FindFrom(slug + sep + rest, sep, 0) == Some(|slug|)
    ensures (slug + sep + rest)[..|slug|] == slug && (slug + sep + rest)[|slug| + 2..] == rest
  {
    var s := slug + sep + rest;
    assert OccursAt(s, sep, |slug|);
    forall j | 0 <= j < |slug| ensures !OccursAt(s, sep, j) {
      assert s[j] == slug[j] && (j > 0 ==> slug[j] == slug[1..][j - 1]);
      assert s[j..j + 2][0] == s[j] != sep[0];
    }
  }

  /** `FindLast` sees the last `@` of the node id when it has one and the separator otherwise. */
  lemma LastAt(prefix: string, node: string)
    ensures var s := prefix + "@" + node;
            FindLast(s, '@', |s|) == match FindLast(node, '@', |node|)
                                     case None => Some(|prefix|)
                                     case Some(k) => Some(|prefix| + 1 + k)
  {
    LastAtBelow(prefix, node, |node|);
  }

  lemma {:induction false} LastAtBelow(prefix: string, node: string, end: nat)
    requires end <= |node|
    ensures FindLast(prefix + "@" + node, '@', |prefix| + 1 + end) == match FindLast(node, '@', end)
                                                                    case None => Some(|prefix|)
                                                                    case Some(k) => Some(|prefix| + 1 + k)
  {
    if end > 0 {
      assert (prefix + "@" + node)[|prefix| + end] == node[end - 1];
      LastAtBelow(prefix, node, end - 1);
    } else {
      assert (prefix + "@" + node)[|prefix|] == '@';
    }
  }

  function Head(id: ActorId): string { id.name + "//" + id.actorType + "::" + id.namespace }

  /** The text before the `@` that is split on, cut at its first `//` and `::`, yields name and type unchanged. */
  lemma SplitHead(id: ActorId, tail: string, node: string)
    requires Valid(id)
    requires FindLast(Head(id) + tail + "@" + node, '@', |Head(id) + tail + "@" + node|) == Some(|Head(id) + tail|)
    ensures FromCanonical(Head(id) + tail + "@" + node) == New(id.name, id.actorType, id.namespace + tail, node)
  {
    var text := Head(id) + tail + "@" + node;
    var rest := id.actorType + "::" + (id.namespace + tail);
    assert text[..|Head(id) + tail|] == Head(id) + tail == id.name + "//" + rest;
    assert text[|Head(id) + tail| + 1..] == node;
    SlugThenSeparator(id.name, "//", rest);
    SlugThenSeparator(id.actorType, "::", id.namespace + tail);
  }

  /**
    Round trip of the canonical form, exactly. The text of a valid identity parses if and only if the node id does
    not end in `@`; what it parses to always prints the same (the equality the source uses), and has the same four
    fields if and only if the node id contains no `@` at all.
   */
  lemma CanonicalRoundTrip(id: ActorId)
    requires Valid(id)
    ensures FromCanonical(Canonical(id)).Ok? <==> id.nodeId[|id.nodeId| - 1] != '@'
    ensures FromCanonical(Canonical(id)).Ok? ==> Canonical(FromCanonical(Canonical(id)).value) == Canonical(id)
    ensures FromCanonical(Canonical(id)) == Ok(id) <==> '@' !in id.nodeId
  {
    ParseThenPrint(Canonical(id));
    CanonicalParse(id);
    match FindLast(id.nodeId, '@', |id.nodeId|)
    case None => assert id.namespace + "" == id.namespace;
    case Some(k) =>
      assert |id.nodeId[k + 1..]| < |id.nodeId|;
      assert id.nodeId[k] in id.nodeId;
  }

  /** The parse of a printed identity: the part of the node id up to its last `@` moves into the namespace. */
  lemma CanonicalParse(id: ActorId)
    requires Valid(id)
    ensures FromCanonical(Canonical(id)) == match FindLast(id.nodeId, '@', |id.nodeId|)
                                            case None => New(id.name, id.actorType, id.namespace + "", id.nodeId)
                                            case Some(k) => New(id.name, id.actorType,
                                                                id.namespace + ("@" + id.nodeId[..k]),
                                                                id.nodeId[k + 1..])
  {
    LastAt(Head(id), id.nodeId);
    assert Canonical(id) == Head(id) + "@" + id.nodeId;
    match FindLast(id.nodeId, '@', |id.nodeId|)
    case None =>
      assert Head(id) + "" == Head(id);
      SplitHead(id, "", id.nodeId);
    case Some(k) =>
      var tail, node := "@" + id.nodeId[..k], id.nodeId[k + 1..];
      assert id.nodeId == id.nodeId[..k] + "@" + node;
      assert Head(id) + tail + "@" + node == Head(id) + "@" + id.nodeId;
      SplitHead(id, tail, node);
  }

  /** On node ids without `@`, equal text means equal fields, so the models may compare identities field by field. */
  lemma CanonicalInjective(a: ActorId, b: ActorId)
    requires Valid(a) && Valid(b) && '@' !in a.nodeId && '@' !in b.nodeId
    ensures Canonical(a) == Canonical(b) <==> a == b
  {
    CanonicalRoundTrip(a);
    CanonicalRoundTrip(b);
  }
}
