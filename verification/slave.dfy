/** The slave side of the bus protocol (class `Xerxes::Slave`): a table from
    message id to handler, a dispatcher that runs the handler bound to an
    incoming message's id, and helpers that send messages stamped with the
    slave's own address.

    Handlers are opaque tokens of type `H`: the model records which handler
    is invoked with which message, not what the handler does. The protocol
    object's `readMessage` and `sendMessage` are passed in as functions. */
module SlaveDispatch {
  import opened Hardware

  /** `msgid_t` */
  type MsgId = nat

  datatype Message = Message(srcAddr: bv8, dstAddr: bv8, msgId: MsgId, payload: seq<bv8>)

  /** One run of a bound handler on a message. */
  datatype Invocation<H> = Invocation(handler: H, msg: Message)

  function Lookup<H>(b: map<MsgId, H>, id: MsgId): Option<H>
  {
    if id in b then Some(b[id]) else None
  }

  /** `unordered_map::emplace`: insert only if the id is not yet bound. */
  function Emplace<H>(b: map<MsgId, H>, id: MsgId, h: H): (r: map<MsgId, H>)
    ensures r.Keys == b.Keys + {id}
    ensures forall k :: k in b ==> r[k] == b[k]
    ensures id !in b ==> r[id] == h
  {
    if id in b then b else b[id := h]
  }

  /** What `call` runs: the bound handler, once, on the message itself, or
      nothing when the id is unbound. */
  function Dispatch<H>(b: map<MsgId, H>, msg: Message): (r: seq<Invocation<H>>)
    ensures |r| <= 1
    ensures r != [] <==> msg.msgId in b
    ensures forall k :: 0 <= k < |r| ==> r[k].msg == msg && Some(r[k].handler) == Lookup(b, msg.msgId)
  {
    if msg.msgId in b then [Invocation(b[msg.msgId], msg)] else []
  }

  /** A series of `bind` calls, in order. */
  function BindAll<H>(b: map<MsgId, H>, binds: seq<(MsgId, H)>): map<MsgId, H>
    decreases |binds|
  {
    if binds == [] then b else BindAll(Emplace(b, binds[0].0, binds[0].1), binds[1..])
  }

  /** The handler of the first pair in `binds` that names `id`. */
  function FirstBinding<H>(binds: seq<(MsgId, H)>, id: MsgId): Option<H>
    decreases |binds|
  {
    if binds == [] then None
    else if binds[0].0 == id then Some(binds[0].1)
    else FirstBinding(binds[1..], id)
  }

  /** After any series of binds, an id keeps the handler it already had, and
      an id that was unbound gets the handler of its FIRST bind: later binds
      of the same id are ignored. */
  lemma {:induction false} BindAllFirstWins<H>(b: map<MsgId, H>, binds: seq<(MsgId, H)>, id: MsgId)
    ensures Lookup(BindAll(b, binds), id) == if id in b then Some(b[id]) else FirstBinding(binds, id)
    decreases |binds|
  {
    if binds != [] {
      BindAllFirstWins(Emplace(b, binds[0].0, binds[0].1), binds[1..], id);
    }
  }

  /** `bind(id, h1); bind(id, h2); call(m)` with `m.msgId == id` on a table
      where `id` was unbound runs `h1`, not `h2`. */
  lemma RebindKeepsFirst<H>(b: map<MsgId, H>, id: MsgId, h1: H, h2: H, m: Message)
    requires id !in b && m.msgId == id
    ensures Dispatch(Emplace(Emplace(b, id, h1), id, h2), m) == [Invocation(h1, m)]
  {
  }

  class Slave<H> {
    var bindings: map<MsgId, H>
    /** Fixed at construction; no method can change it. */
    const address: bv8

    constructor (address: bv8)
      ensures this.address == address && bindings == map[]
    {
      this.address := address;
      bindings := map[];
    }

    /** `Slave::bind` */
    method Bind(msgId: MsgId, f: H)
      modifies this
      ensures bindings == Emplace(old(bindings), msgId, f)
    {
      if msgId !in bindings {
        bindings := bindings[msgId := f];
      }
    }

    /** `Slave::call`: the handler bound to `msg.msgId` runs once on `msg`;
        an unbound id runs nothing. The table is only read. */
    method Call(msg: Message) returns (invoked: seq<Invocation<H>>)
      ensures msg.msgId in bindings ==> invoked == [Invocation(bindings[msg.msgId], msg)]
      ensures msg.msgId !in bindings ==> invoked == []
    {
      invoked := [];
      if msg.msgId in bindings {
        invoked := [Invocation(bindings[msg.msgId], msg)];
      }
    }

    /** `Slave::send(destinationAddress, msgId)`: a message with no payload,
        from this slave's address. */
    method Send(destinationAddress: bv8, msgId: MsgId, sendMessage: Message -> bool)
      returns (sent: Message, ok: bool)
      ensures sent == Message(address, destinationAddress, msgId, [])
      ensures ok == sendMessage(sent)
    {
      sent := Message(address, destinationAddress, msgId, []);
      ok := sendMessage(sent);
    }

    /** `Slave::send(destinationAddress, msgId, payload)` */
    method SendWithPayload(destinationAddress: bv8, msgId: MsgId, payload: seq<bv8>, sendMessage: Message -> bool)
      returns (sent: Message, ok: bool)
      ensures sent.srcAddr == address && sent.dstAddr == destinationAddress
      ensures sent.msgId == msgId && sent.payload == payload
      ensures ok == sendMessage(sent)
    {
      sent := Message(address, destinationAddress, msgId, payload);
      ok := sendMessage(sent);
    }

    /** `Slave::sync`: read at most one message within the timeout and
        dispatch it; report whether one arrived. */
    method Sync(timeoutUs: nat, readMessage: nat -> Option<Message>)
      returns (processed: bool, invoked: seq<Invocation<H>>)
      ensures processed <==> readMessage(timeoutUs).Some?
      ensures !processed ==> invoked == []
      ensures processed ==> invoked == Dispatch(bindings, readMessage(timeoutUs).value)
    {
      var ingress := readMessage(timeoutUs);
      if ingress.None? {
        return false, [];
      }
      invoked := Call(ingress.value);
      processed := true;
    }
  }
}
