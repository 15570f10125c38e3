/** The data every component shares: blocks as the RPC node serves them, and the
    transactions inside them as far as RFQ tracking looks at them. */
module Chain {

  datatype Option<+T> = None | Some(value: T)

  /** Nanoseconds. */
  type Time = int

  /** A transaction message. An authz wrapper carries packed messages, each of which
      unpacks to a message (possibly another wrapper) or fails to unpack (`None`).
      `Rfq` is a message that is recognised as an RFQ action, with the request time
      its rfq_id encodes, if that is a plausible time. */
  datatype Msg =
    | Rfq(requestedAt: Option<Time>)
    | Plain
    | Exec(inner: seq<Option<Msg>>)

  /** A transaction together with its execution result. */
  datatype Tx = Tx(decodable: bool, msgs: seq<Msg>, sentAt: Option<Time>, wasmFailure: bool, quotes: nat)

  datatype Block = Block(height: int, time: Time, txs: seq<Tx>)

  /** The last height a backward sync announces. */
  function LowestHeight(stopHeight: nat): (h: int)
    ensures h >= 1
  {
    if stopHeight > 1 then stopHeight - 1 else 1
  }

  /** The block the RPC node returns for each requested height. */
  type Serve = int -> Block

  /** The node answers a request with the block of that height. */
  ghost predicate Faithful(serve: Serve) {
    forall h :: serve(h).height == h
  }

  /** Time Monotonicity (CometBFT consensus specification, section "BFT Time"). */
  ghost predicate Monotonic(serve: Serve) {
    forall g, h :: 1 <= g <= h ==> serve(g).time <= serve(h).time
  }
}
