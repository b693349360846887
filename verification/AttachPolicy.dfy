/** What the gateway's frames mean: its echo of an address, and its verdict on a frame. */
module AttachPolicy {
  import opened Basics
  import opened GatewayTrace

  const VERDICT_TIMEOUT := 60.0
  const MAX_IN_FLIGHT := 8

  const RECIPIENT_UNREACHABLE := "recipient_unreachable"
  const RELAY_PUSHED := "relay_pushed"
  const RELAY_STORED := "relay_stored"
  const RELAY_PUSHED_STORED := "relay_pushed_stored"
  const GATEWAY_SILENT := "gateway_silent: no verdict within 60s"

  /** A field of a frame: text, text with a lone surrogate, a boolean, or anything else. */
  datatype Field = Text(text: string) | Unencodable | Flag(flag: bool) | Other

  type Fields = map<string, Field>

  function TextOf(frame: Fields, name: string): Option<string>
  {
    if name in frame && frame[name].Text? && frame[name].text != "" then Some(frame[name].text) else None
  }

  predicate IsTrue(frame: Fields, name: string)
  {
    name in frame && frame[name] == Flag(true)
  }

  /** `reason` is absent on an acceptance. */
  datatype Verdict = Verdict(
    id: string, reason: Option<string>, recipient: Option<string>, pushed: bool, stored: bool)

  /** An id with a lone surrogate is never one of ours: a verdict on it settles nothing, as one without an id. */
  function ParseVerdict(frame: Fields, accepted: bool): (v: Option<Verdict>)
    ensures v.Some? <==> TextOf(frame, "message_id").Some?
    ensures v.Some? ==> TextOf(frame, "message_id") == Some(v.value.id) && (v.value.reason.None? <==> accepted)
    ensures v.Some? ==> v.value.reason != Some("") && v.value.recipient == TextOf(frame, "recipient")
    ensures v.Some? && v.value.pushed ==> accepted
  {
    match TextOf(frame, "message_id")
    case None => None
    case Some(id) =>
      var recipient := TextOf(frame, "recipient");
      if accepted then Some(Verdict(id, None, recipient, IsTrue(frame, "pushed"), IsTrue(frame, "stored")))
      else
        var reason := match TextOf(frame, "reason") case Some(text) => text case None => "DeliveryError";
        Some(Verdict(id, Some(reason), recipient, false, IsTrue(frame, "stored")))
  }

  /** What the core is told, and whether the recipient is worth a presence watch. */
  datatype Judgement = Judgement(outcome: Outcome, watchRecipient: bool)

  predicate Unreachable(reason: Option<string>)
  {
    reason.Some? && RECIPIENT_UNREACHABLE <= reason.value
  }

  /**
   * Only a plain acceptance confirms. A push or a stored refusal parks under its token, and any other refusal
   * carries the gateway's words; the recipient is watched when the frame is parked or they are unreachable.
   */
  function VerdictReport(v: Verdict): (r: Judgement)
    ensures r.outcome.Confirmed? <==> v.reason.None? && !v.pushed
    ensures v.reason.None? && v.pushed ==> r.outcome == Failed(if v.stored then RELAY_PUSHED_STORED else RELAY_PUSHED)
    ensures v.reason.Some? && v.stored ==> r.outcome == Failed(RELAY_STORED)
    ensures v.reason.Some? && !v.stored && v.reason.value != "" ==> r.outcome == Failed(v.reason.value)
    ensures r.watchRecipient <==>
              if v.reason.None? then v.pushed else v.stored || Unreachable(v.reason)
  {
    match v.reason
    case None =>
      if !v.pushed then Judgement(Confirmed, false)
      else Judgement(Failed(if v.stored then RELAY_PUSHED_STORED else RELAY_PUSHED), true)
    case Some(reason) =>
      if v.stored then Judgement(Failed(RELAY_STORED), true)
      else
        var words := if reason == "" then "DeliveryError" else reason;
        Judgement(Failed(words), RECIPIENT_UNREACHABLE <= words)
  }

  datatype Binding = Bound | Mismatch | UnknownLocal

  function BindingOutcome(declared: string, local: Option<string>): (r: Binding)
    ensures r.Bound? ==> local.Some?
  {
    if local.None? || local.value == "" then UnknownLocal
    else if declared == local.value then Bound
    else Mismatch
  }

  predicate IdCharacter(c: char)
  {
    'A' <= c <= 'Z' || 'a' <= c <= 'z' || '0' <= c <= '9' || c == '.' || c == '_' || c == '-'
  }

  /** The ids a gateway takes as they are; any other id is refused before it is written. */
  predicate Sendable(id: string)
  {
    1 <= |id| <= 64 && forall i :: 0 <= i < |id| ==> IdCharacter(id[i])
  }
}
