/**
 * Transcript records as the healer sees them, and where tool calls and results sit in a
 * transcript.
 */
module Transcript {
  import opened Basics

  /** Both "toolResult" and "tool" are `ToolResult`. */
  datatype Role = User | Assistant | ToolResult | OtherRole

  /** `OtherPart` is any part that is not a well-formed tool call or a text. */
  datatype Part = ToolCall(id: string, name: Option<string>) | Text(text: string) | OtherPart(body: string)

  /** An entry of a `tool_calls` or `toolCalls` array. */
  datatype Call = Call(id: string, name: Option<string>)

  /** The fields the healer does not look at. */
  datatype Body = Raw(json: string) | Healed(toolName: string, nowMs: int)

  /** `parts` is whichever of the arrays `parts` and `content` is in use. */
  datatype Message =
    Message(role: Role, id: Option<string>, parts: seq<Part>, calls: seq<Call>, resultFor: Option<string>, body: Body)

  /** One line of a transcript: not an object at all, a bare message, or a message inside an envelope. */
  datatype Record = Opaque(json: string) | Bare(message: Message) | Nested(envelope: string, message: Message)

  predicate HasPayload(r: Record) { !r.Opaque? }

  function ReplacePayload(r: Record, m: Message): Record
    requires HasPayload(r)
  {
    if r.Nested? then Nested(r.envelope, m) else Bare(m)
  }

  predicate HasCallPart(parts: seq<Part>, id: string) {
    exists k :: 0 <= k < |parts| && parts[k].ToolCall? && parts[k].id == id
  }

  predicate HasCall(calls: seq<Call>, id: string) {
    exists k :: 0 <= k < |calls| && calls[k].id == id
  }

  /** An assistant record that carries a tool call with this id, as a part or in a call array. */
  predicate Declares(r: Record, id: string) {
    HasPayload(r) && r.message.role == Assistant && (HasCallPart(r.message.parts, id) || HasCall(r.message.calls, id))
  }

  predicate Contains(s: string, t: string) {
    exists i :: 0 <= i <= |s| && OccursAt(s, t, i)
  }

  const HEAL_MARK: string := ":heal-tool-result:"

  predicate SyntheticId(id: string) {
    StartsWith(id, "heal-") || StartsWith(id, "synth-settle:") || Contains(id, HEAL_MARK)
  }

  /** A tool result for this id; an empty id is treated as none. */
  predicate IsResult(r: Record, id: string) {
    HasPayload(r) && r.message.role == ToolResult && r.message.resultFor == Some(id) && id != ""
  }

  predicate IsSynthetic(r: Record) {
    HasPayload(r) && r.message.id.Some? && SyntheticId(r.message.id.value)
  }

  datatype Kind = CallSite | RealResult | StaleResult

  predicate Matches(r: Record, kind: Kind, id: string) {
    match kind
    case CallSite => Declares(r, id)
    case RealResult => IsResult(r, id) && !IsSynthetic(r)
    case StaleResult => IsResult(r, id) && IsSynthetic(r)
  }

  /** The indices of the matching records, in order. */
  function Sites(rs: seq<Record>, kind: Kind, id: string): (sites: seq<nat>)
    ensures forall k :: 0 <= k < |sites| ==> sites[k] < |rs|
  {
    if rs == [] then []
    else Sites(rs[..|rs| - 1], kind, id) + (if Matches(rs[|rs| - 1], kind, id) then [|rs| - 1] else [])
  }

  lemma {:induction false} NoSites(rs: seq<Record>, kind: Kind, id: string)
    ensures Sites(rs, kind, id) == [] <==> forall i :: 0 <= i < |rs| ==> !Matches(rs[i], kind, id)
  {
    if rs != [] { NoSites(rs[..|rs| - 1], kind, id); }
  }

  /** The last site is the last matching record. */
  lemma {:induction false} LastSite(rs: seq<Record>, kind: Kind, id: string, p: nat)
    requires p < |rs| && Matches(rs[p], kind, id)
    requires forall i :: p < i < |rs| ==> !Matches(rs[i], kind, id)
    ensures var s := Sites(rs, kind, id); s != [] && s[|s| - 1] == p
  {
    if p < |rs| - 1 { LastSite(rs[..|rs| - 1], kind, id, p); }
  }

  lemma {:induction false} LastSiteMatches(rs: seq<Record>, kind: Kind, id: string)
    requires Sites(rs, kind, id) != []
    ensures var s := Sites(rs, kind, id);
            var p := s[|s| - 1];
            Matches(rs[p], kind, id) && forall i :: p < i < |rs| ==> !Matches(rs[i], kind, id)
  {
    var last := |rs| - 1;
    if !Matches(rs[last], kind, id) {
      LastSiteMatches(rs[..last], kind, id);
      assert forall i :: 0 <= i < last ==> rs[..last][i] == rs[i];
    }
  }

  lemma {:induction false} OnlySite(rs: seq<Record>, kind: Kind, id: string, q: nat)
    requires q < |rs| && Matches(rs[q], kind, id)
    requires forall i :: 0 <= i < |rs| && i != q ==> !Matches(rs[i], kind, id)
    ensures Sites(rs, kind, id) == [q]
  {
    if q == |rs| - 1 {
      NoSites(rs[..q], kind, id);
    } else {
      OnlySite(rs[..|rs| - 1], kind, id, q);
    }
  }

  lemma {:induction false} SingleSite(rs: seq<Record>, kind: Kind, id: string, q: nat)
    requires Sites(rs, kind, id) == [q]
    ensures q < |rs| && Matches(rs[q], kind, id)
    ensures forall i :: 0 <= i < |rs| && i != q ==> !Matches(rs[i], kind, id)
  {
    var last := |rs| - 1;
    if Matches(rs[last], kind, id) {
      assert Sites(rs, kind, id) == Sites(rs[..last], kind, id) + [last];
      assert Sites(rs, kind, id)[|Sites(rs[..last], kind, id)|] == last;
      assert Sites(rs[..last], kind, id) == [];
      NoSites(rs[..last], kind, id);
      assert forall i :: 0 <= i < last ==> rs[..last][i] == rs[i];
    } else {
      SingleSite(rs[..last], kind, id, q);
      assert forall i :: 0 <= i < last ==> rs[..last][i] == rs[i];
    }
  }

  /** A record is the only site exactly when it matches and no other does. */
  lemma SoleSiteExactly(rs: seq<Record>, kind: Kind, id: string, q: nat)
    ensures Sites(rs, kind, id) == [q] <==>
            q < |rs| && Matches(rs[q], kind, id) && forall i :: 0 <= i < |rs| && i != q ==> !Matches(rs[i], kind, id)
  {
    hide Sites, Matches;
    if Sites(rs, kind, id) == [q] { SingleSite(rs, kind, id, q); }
    if q < |rs| && Matches(rs[q], kind, id) && forall i :: 0 <= i < |rs| && i != q ==> !Matches(rs[i], kind, id) {
      OnlySite(rs, kind, id, q);
    }
  }
}
