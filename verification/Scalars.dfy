/** Deferred replies to blocking scalar requests: exactly one reply attempt, whatever ends the request. */
module Scalars {
  import opened Wrappers

  type Pid = nat
  type Cid = nat
  type MessageId = nat

  /** Where a reply goes: back to the blocked sender, or over a connection as a message of its own. */
  datatype Responder = Sync(sender: nat) | Async(cid: Cid, msgId: MessageId)

  /** What the kernel is asked to do. */
  datatype Call<R> =
    | ReturnScalar(sender: nat, value: R)
    | SendScalar(cid: Cid, msgId: MessageId, value: R)
    | Disconnect(cid: Cid)

  /** The calls that make up one answered request: one reply attempt, and one disconnect afterwards when
      the reply travels over a connection of its own. */
  function Answer<R>(to: Responder, value: R): seq<Call<R>> {
    match to
    case Sync(sender) => [ReturnScalar(sender, value)]
    case Async(cid, msgId) => [SendScalar(cid, msgId, value), Disconnect(cid)]
  }

  predicate IsReply<R>(c: Call<R>) {
    c.ReturnScalar? || c.SendScalar?
  }

  /** Reply attempts in a list of calls. */
  function Replies<R>(calls: seq<Call<R>>): nat {
    if calls == [] then 0 else (if IsReply(calls[0]) then 1 else 0) + Replies(calls[1..])
  }

  /** Disconnects of a connection in a list of calls. */
  function Disconnects<R>(calls: seq<Call<R>>, cid: Cid): nat {
    if calls == [] then 0 else (if calls[0] == Call.Disconnect(cid) then 1 else 0) + Disconnects(calls[1..], cid)
  }

  class Kernel<R> {
    /** Everything asked of the kernel so far, and the connections it knows by process. */
    var calls: seq<Call<R>>
    const connections: map<Cid, Pid>

    constructor (connections: map<Cid, Pid>)
      ensures calls == [] && this.connections == connections
    {
      calls := [];
      this.connections := connections;
    }

    /** A call that may fail. */
    method Ask(c: Call<R>) returns (ok: bool)
      modifies this
      ensures calls == old(calls) + [c]
    {
      calls := calls + [c];
      ok := *;
    }
  }

  /** A reply that is still to be sent; it is consumed by `Respond` or by being dropped. */
  class BlockingScalarResponse<R> {
    const kernel: Kernel<R>
    const pid: Pid
    /** What a handler that never answers replies with. */
    const default: R
    var responder: Option<Responder>
    var response: Option<R>

    constructor (kernel: Kernel<R>, responder: Responder, pid: Pid, default: R)
      ensures this.kernel == kernel && this.pid == pid && this.default == default
      ensures this.responder == Some(responder) && response == None
    {
      this.kernel, this.pid, this.default := kernel, pid, default;
      this.responder, response := Some(responder), None;
    }

    /** Send the reply; a connection made for it is closed whether or not that worked. */
    method Reply(to: Responder, value: R) returns (ok: bool)
      modifies kernel
      ensures kernel.calls == old(kernel.calls) + Answer(to, value)
    {
      match to
      case Sync(sender) =>
        ok := kernel.Ask(ReturnScalar(sender, value));
      case Async(cid, msgId) =>
        ok := kernel.Ask(SendScalar(cid, msgId, value));
        var disconnected := kernel.Ask(Disconnect(cid));
    }

    /** Answer now. The object goes away, and finds nothing left to send. */
    method Respond(value: R) returns (ok: bool)
      requires responder.Some?
      modifies this`responder, this`response, kernel
      ensures responder == None
      ensures kernel.calls == old(kernel.calls) + Answer(old(responder).value, value)
    {
      var to := responder.value;
      responder := None;
      ok := Reply(to, value);
      Drop();
    }

    /** Choose what a drop will send. */
    method SetResponse(value: R)
      modifies this`response
      ensures response == Some(value)
    {
      response := Some(value);
    }

    /** Going away unanswered sends what was chosen last, or the default. */
    method Drop()
      modifies this`responder, this`response, kernel
      ensures responder == None
      ensures kernel.calls == old(kernel.calls)
                              + (if old(responder).None? then []
                                 else Answer(old(responder).value,
                                     if old(response).Some? then old(response).value else default))
    {
      if responder.Some? {
        var to := responder.value;
        responder := None;
        var value := if response.Some? then response.value else default;
        response := None;
        var ok := Reply(to, value);
      }
    }
  }

  /** How a handler may treat a request: choose replies any number of times, then answer or let it go. */
  datatype Ending<R> = Respond(value: R) | LetGo

  /** The value a request is answered with. */
  function Chosen<R>(choices: seq<R>, ending: Ending<R>, default: R): R {
    match ending
    case Respond(v) => v
    case LetGo => if choices == [] then default else choices[|choices| - 1]
  }

  /** The life of an accepted request, during its handler or long after it. */
  method Live<R>(request: BlockingScalarResponse<R>, choices: seq<R>, ending: Ending<R>)
    requires request.responder.Some? && request.response == None
    modifies request`responder, request`response, request.kernel
    ensures request.responder == None
    ensures request.kernel.calls == old(request.kernel.calls)
              + Answer(old(request.responder).value, Chosen(choices, ending, request.default))
  {
    var k := 0;
    while k < |choices|
      invariant 0 <= k <= |choices|
      invariant request.responder == old(request.responder) && request.kernel.calls == old(request.kernel.calls)
      invariant request.response == if k == 0 then None else Some(choices[k - 1])
    {
      request.SetResponse(choices[k]);
      k := k + 1;
    }
    match ending
    case Respond(v) =>
      var ok := request.Respond(v);
    case LetGo =>
      request.Drop();
  }

  /** One reply attempt for every answered request, and one disconnect exactly when it came over a
      connection of its own. */
  lemma AnsweredOnce<R>(before: seq<Call<R>>, to: Responder, value: R)
    ensures Replies(before + Answer(to, value)) == Replies(before) + 1
    ensures forall cid :: Disconnects(before + Answer(to, value), cid)
                       == Disconnects(before, cid) + (if to.Async? && to.cid == cid then 1 else 0)
  {
    CountsAdd(before, Answer(to, value));
    match to
    case Sync(sender) =>
      CountsOne(Call.ReturnScalar(sender, value));
    case Async(cid, msgId) =>
      var reply, close := Call.SendScalar(cid, msgId, value), Call<R>.Disconnect(cid);
      CountsOne(reply);
      CountsOne(close);
      CountsAdd([reply], [close]);
      assert Answer(to, value) == [reply] + [close];
  }

  lemma CountsOne<R>(c: Call<R>)
    ensures Replies([c]) == if IsReply(c) then 1 else 0
    ensures forall cid :: Disconnects([c], cid) == if c == Call.Disconnect(cid) then 1 else 0
  {
    assert [c][1..] == [];
  }

  lemma {:induction false} CountsAdd<R>(a: seq<Call<R>>, b: seq<Call<R>>)
    ensures Replies(a + b) == Replies(a) + Replies(b)
    ensures forall cid :: Disconnects(a + b, cid) == Disconnects(a, cid) + Disconnects(b, cid)
  {
    if a == [] {
      assert a + b == b;
    } else {
      assert (a + b)[1..] == a[1..] + b;
      CountsAdd(a[1..], b);
    }
  }

  /** The body of an incoming message. */
  datatype Body =
    | BlockingScalar(sender: nat)
    | Move(init: Option<AsyncInit>)
    | OtherBody

  /** What an asynchronous request carries, once it decodes: the connection and id for its reply. */
  datatype AsyncInit = AsyncInit(cid: Cid, msgId: MessageId)

  /** The reply goes where the request asks, and only over a connection to the process that asked. */
  predicate Accepted(body: Body, pid: Pid, connections: map<Cid, Pid>) {
    match body
    case BlockingScalar(_) => true
    case Move(init) => init.Some? && init.value.cid in connections && connections[init.value.cid] == pid
    case OtherBody => false
  }

  /** Handle a blocking scalar message: an accepted one is answered once, with the value its handler
      chose, to the sender that waits, or under the request's message id over the request's connection,
      which is closed then; a malformed one, or one whose connection leads to another process, is not answered. */
  method HandleBlockingScalar<R>(kernel: Kernel<R>, body: Body, pid: Pid, default: R, choices: seq<R>,
                                 ending: Ending<R>) returns (ok: bool)
    modifies kernel
    ensures ok <==> Accepted(body, pid, kernel.connections)
    ensures !ok ==> kernel.calls == old(kernel.calls)
    ensures ok && body.BlockingScalar? ==>
              kernel.calls == old(kernel.calls) + [ReturnScalar(body.sender, Chosen(choices, ending, default))]
    ensures ok && body.Move? ==>
              kernel.calls == old(kernel.calls)
                + [SendScalar(body.init.value.cid, body.init.value.msgId, Chosen(choices, ending, default)),
                   Disconnect(body.init.value.cid)]
  {
    var to;
    match body {
      case BlockingScalar(sender) =>
        to := Sync(sender);
      case Move(init) =>
        if init == None {
          return false;
        }
        if !(init.value.cid in kernel.connections && kernel.connections[init.value.cid] == pid) {
          return false;
        }
        to := Async(init.value.cid, init.value.msgId);
      case OtherBody =>
        return false;
    }
    var request := new BlockingScalarResponse(kernel, to, pid, default);
    Live(request, choices, ending);
    return true;
  }
}
