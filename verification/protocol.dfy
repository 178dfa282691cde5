/** The message taxonomy of the wire protocol, as far as the summaries see it:
    only the body discriminants. The contents of each body are abstracted away,
    except that a transport `Frame` carries its network-message payload. */
module Protocol {

  /** `NetworkBody`: the seven network-layer message kinds. */
  datatype NetworkBody = OAM | Push | Request | Response | ResponseFinal | Interest | Declare

  /** `NetworkMessage`, reduced to its body. */
  datatype NetworkMessage = NetworkMessage(body: NetworkBody)

  /** `TransportBody`: the ten transport-layer message kinds; a `Frame` nests
      a sequence of network messages in wire order. */
  datatype TransportBody =
    | OAM
    | InitSyn
    | InitAck
    | OpenSyn
    | OpenAck
    | Close
    | KeepAlive
    | Frame(payload: seq<NetworkMessage>)
    | Fragment
    | Join

  /** `TransportMessage`, reduced to its body. */
  datatype TransportMessage = TransportMessage(body: TransportBody)
}
