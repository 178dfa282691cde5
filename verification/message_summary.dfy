/** `network_message_summary` and `transport_message_summary` of utils.rs: the
    one-line descriptions of decoded messages. Each summary names the message
    kind; a frame lists its payload's kinds in order. A small reader of
    summaries states what they preserve: a summary determines the message
    (up to the abstracted body contents). */
module MessageSummary {
  import opened Wrappers
  import opened Protocol
  import Strings

  /** Characters no network summary contains, so they can delimit a frame's list. */
  predicate Plain(s: string)
  {
    |s| > 0 && ',' !in s && '[' !in s && ']' !in s
  }

  /** `network_message_summary`: the tag name of the body. */
  function NetworkMessageSummary(msg: NetworkMessage): (r: string)
    ensures Plain(r)
    ensures ParseNetworkSummary(r) == Some(msg)
  {
    match msg.body
    case OAM => "OAM"
    case Push => "Push"
    case Request => "Request"
    case Response => "Response"
    case ResponseFinal => "ResponseFinal"
    case Interest => "Interest"
    case Declare => "Declare"
  }

  /** Reads a network summary back into the message it names. */
  function ParseNetworkSummary(s: string): Option<NetworkMessage>
  {
    if s == "OAM" then Some(NetworkMessage(NetworkBody.OAM))
    else if s == "Push" then Some(NetworkMessage(Push))
    else if s == "Request" then Some(NetworkMessage(Request))
    else if s == "Response" then Some(NetworkMessage(Response))
    else if s == "ResponseFinal" then Some(NetworkMessage(ResponseFinal))
    else if s == "Interest" then Some(NetworkMessage(Interest))
    else if s == "Declare" then Some(NetworkMessage(Declare))
    else None
  }

  /** The summaries of `payload`, in payload order (`iter().map(network_message_summary)`). */
  function PayloadSummaries(payload: seq<NetworkMessage>): (out: seq<string>)
    ensures |out| == |payload|
    ensures forall i :: 0 <= i < |payload| ==> out[i] == NetworkMessageSummary(payload[i])
  {
    if |payload| == 0 then [] else [NetworkMessageSummary(payload[0])] + PayloadSummaries(payload[1..])
  }

  /** `transport_message_summary`: the tag name for every kind except `Frame`;
      for a frame, `"Frame["`, the payload summaries separated by `","` with no
      spaces and no trailing separator, then `"]"`. */
  function TransportMessageSummary(msg: TransportMessage): (r: string)
    ensures msg.body.Frame? ==>
              r == "Frame[" + Strings.Join(PayloadSummaries(msg.body.payload), ",") + "]"
    ensures !msg.body.Frame? ==> Plain(r)
  {
    match msg.body
    case OAM => "OAM"
    case InitSyn => "InitSyn"
    case InitAck => "InitAck"
    case OpenSyn => "OpenSyn"
    case OpenAck => "OpenAck"
    case Close => "Close"
    case KeepAlive => "KeepAlive"
    case Frame(payload) =>
      Strings.ReduceIsJoin(PayloadSummaries(payload), ",");
      "Frame[" + Strings.Reduce(PayloadSummaries(payload), ",").UnwrapOr("") + "]"
    case Fragment => "Fragment"
    case Join => "Join"
  }

  /** Reads a list of network summaries back into messages. */
  function ParsePayload(parts: seq<string>): Option<seq<NetworkMessage>>
  {
    if |parts| == 0 then Some([])
    else
      match ParseNetworkSummary(parts[0])
      case None => None
      case Some(m) =>
        match ParsePayload(parts[1..])
        case None => None
        case Some(ms) => Some([m] + ms)
  }

  /** Reads a transport summary back into the message it describes. */
  function ParseTransportSummary(s: string): Option<TransportMessage>
  {
    if s == "OAM" then Some(TransportMessage(TransportBody.OAM))
    else if s == "InitSyn" then Some(TransportMessage(InitSyn))
    else if s == "InitAck" then Some(TransportMessage(InitAck))
    else if s == "OpenSyn" then Some(TransportMessage(OpenSyn))
    else if s == "OpenAck" then Some(TransportMessage(OpenAck))
    else if s == "Close" then Some(TransportMessage(Close))
    else if s == "KeepAlive" then Some(TransportMessage(KeepAlive))
    else if s == "Fragment" then Some(TransportMessage(Fragment))
    else if s == "Join" then Some(TransportMessage(TransportBody.Join))
    else if |s| >= 7 && s[..6] == "Frame[" && s[|s| - 1] == ']' then
      var inner := s[6..|s| - 1];
      if inner == "" then Some(TransportMessage(Frame([])))
      else
        match ParsePayload(Strings.Split(inner, ','))
        case None => None
        case Some(payload) => Some(TransportMessage(Frame(payload)))
    else None
  }

  /** Reading back the summaries of a payload gives the payload. */
  lemma {:induction false} ParsePayloadSummaries(payload: seq<NetworkMessage>)
    ensures ParsePayload(PayloadSummaries(payload)) == Some(payload)
    decreases |payload|
  {
    if |payload| > 0 {
      var parts := PayloadSummaries(payload);
      assert parts[1..] == PayloadSummaries(payload[1..]);
      ParsePayloadSummaries(payload[1..]);
      assert [payload[0]] + payload[1..] == payload;
    }
  }

  /** A frame summary is never one of the leaf tag names. */
  lemma FrameSummaryIsNoTag(inner: string)
    ensures var s := "Frame[" + inner + "]";
            && s != "OAM" && s != "InitSyn" && s != "InitAck" && s != "OpenSyn"
            && s != "OpenAck" && s != "Close" && s != "KeepAlive"
            && s != "Fragment" && s != "Join"
  {
    var s := "Frame[" + inner + "]";
    assert s[0] == 'F' && s[3] == 'm' && |s| >= 7;
    assert "Fragment"[3] == 'g';
  }

  /** Round trip: reading a transport summary back gives the summarized message,
      so the summary keeps the message kind and, for a frame, every payload
      kind in payload order. */
  lemma TransportSummaryRoundTrip(msg: TransportMessage)
    ensures ParseTransportSummary(TransportMessageSummary(msg)) == Some(msg)
  {
    if msg.body.Frame? {
      var payload := msg.body.payload;
      var parts := PayloadSummaries(payload);
      var inner := Strings.Join(parts, ",");
      var s := "Frame[" + inner + "]";
      FrameSummaryIsNoTag(inner);
      assert s[..6] == "Frame[" && s[6..|s| - 1] == inner;
      if |payload| == 0 {
        assert inner == "";
      } else {
        assert forall i :: 0 <= i < |parts| ==> ',' !in parts[i];
        Strings.SplitJoin(parts, ',');
        ParsePayloadSummaries(payload);
      }
    }
  }

  /** Two transport messages have the same summary exactly when they are the
      same message (body contents aside). */
  lemma TransportSummaryInjective(m1: TransportMessage, m2: TransportMessage)
    ensures TransportMessageSummary(m1) == TransportMessageSummary(m2) <==> m1 == m2
  {
    TransportSummaryRoundTrip(m1);
    TransportSummaryRoundTrip(m2);
  }

  /** Small examples of summaries. */
  lemma SummaryExamples()
    ensures TransportMessageSummary(TransportMessage(Frame([NetworkMessage(Push), NetworkMessage(Declare)])))
              == "Frame[Push,Declare]"
    ensures TransportMessageSummary(TransportMessage(Frame([]))) == "Frame[]"
    ensures TransportMessageSummary(TransportMessage(KeepAlive)) == "KeepAlive"
  {
  }
}
