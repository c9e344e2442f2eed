/** A server's event loop: the lookup table of its own messages and the table of handlers for replies,
    events and cancellations that it waits for. */
module ServerLoop {
  import opened Wrappers

  type MessageId = nat

  const LUT_SIZE := 128
  const DYNAMIC_IDS := 0x1_0000

  // ---- the lookup table ----

  datatype Fill = Filled | TooLarge | OutOfBounds | Twice

  /** An id does not fit, or was registered before. */
  predicate Bad<H>(messages: seq<(nat, H)>, k: nat)
    requires k < |messages|
  {
    messages[k].0 >= LUT_SIZE || exists j :: 0 <= j < k && messages[j].0 == messages[k].0
  }

  /** The first bad id of a list. */
  predicate FirstBad<H>(messages: seq<(nat, H)>, k: int) {
    0 <= k < |messages| && Bad(messages, k) && forall j :: 0 <= j < k ==> !Bad(messages, j)
  }

  /** Fill the table of the server's own messages. The first bad id decides how it panics: if it is too
      large by more than one the explicit check finds it, if it is too large by one it gets past the check
      but not past the index, and otherwise it is registered twice. */
  method FillLut<H>(messages: seq<(nat, H)>) returns (r: Fill, lut: array<Option<H>>)
    ensures fresh(lut) && lut.Length == LUT_SIZE
    ensures r.Filled? <==> (forall i :: 0 <= i < |messages| ==> messages[i].0 < LUT_SIZE)
                           && (forall i, j :: 0 <= i < j < |messages| ==> messages[i].0 != messages[j].0)
    ensures r.Filled? ==> forall i :: 0 <= i < |messages| ==> lut[messages[i].0] == Some(messages[i].1)
    ensures r.Filled? ==> forall id :: 0 <= id < LUT_SIZE && lut[id].Some? ==>
              exists i :: 0 <= i < |messages| && messages[i].0 == id
    ensures r.TooLarge? <==> exists k :: FirstBad(messages, k) && messages[k].0 > LUT_SIZE
    ensures r.OutOfBounds? <==> exists k :: FirstBad(messages, k) && messages[k].0 == LUT_SIZE
    ensures r.Twice? <==> exists k :: FirstBad(messages, k) && messages[k].0 < LUT_SIZE
  {
    hide Bad, FirstBad;
    lut := new Option<H>[LUT_SIZE](_ => None);
    var k := 0;
    while k < |messages|
      invariant 0 <= k <= |messages|
      invariant forall i :: 0 <= i < k ==> messages[i].0 < LUT_SIZE && lut[messages[i].0] == Some(messages[i].1)
      invariant forall id :: 0 <= id < LUT_SIZE && lut[id].Some? ==> exists i :: 0 <= i < k && messages[i].0 == id
      invariant forall i :: 0 <= i < k ==> !Bad(messages, i)
    {
      var (id, handle) := messages[k];
      Decide(messages, k);
      if id > lut.Length {
        return TooLarge, lut;
      }
      if id >= lut.Length {
        return OutOfBounds, lut;
      }
      if lut[id].Some? {
        return Twice, lut;
      }
      lut[id] := Some(handle);
      k := k + 1;
    }
    NoneBad(messages);
    return Filled, lut;
  }

  /** Behind good ids one is bad if it is too large or among them, and then it is the first bad one. */
  lemma Decide<H>(messages: seq<(nat, H)>, k: nat)
    requires k < |messages| && forall i :: 0 <= i < k ==> !Bad(messages, i)
    ensures Bad(messages, k) <==> messages[k].0 >= LUT_SIZE || exists j :: 0 <= j < k && messages[j].0 == messages[k].0
    ensures Bad(messages, k) ==> FirstBad(messages, k) && forall j :: FirstBad(messages, j) ==> j == k
    ensures Bad(messages, k) ==>
              (exists i :: 0 <= i < |messages| && messages[i].0 >= LUT_SIZE)
              || (exists i, j :: 0 <= i < j < |messages| && messages[i].0 == messages[j].0)
  {
  }

  lemma NoneBad<H>(messages: seq<(nat, H)>)
    requires forall k :: 0 <= k < |messages| ==> !Bad(messages, k)
    ensures forall i :: 0 <= i < |messages| ==> messages[i].0 < LUT_SIZE
    ensures forall i, j :: 0 <= i < j < |messages| ==> messages[i].0 != messages[j].0
    ensures forall j :: !FirstBad(messages, j)
  {
    forall i | 0 <= i < |messages|
      ensures messages[i].0 < LUT_SIZE
    {
      assert !Bad(messages, i);
    }
    forall i, j | 0 <= i < j < |messages|
      ensures messages[i].0 != messages[j].0
    {
      assert !Bad(messages, j);
    }
  }

  /** An id of 128 behind any list of good ids is the case of the index. */
  lemma OneTooLarge<H>(messages: seq<(nat, H)>, handle: H)
    requires forall k :: 0 <= k < |messages| ==> !Bad(messages, k)
    ensures var all: seq<(nat, H)> := messages + [(LUT_SIZE, handle)];
            FirstBad(all, |messages|) && all[|messages|].0 == LUT_SIZE
  {
    var all: seq<(nat, H)> := messages + [(LUT_SIZE, handle)];
    forall k | 0 <= k < |messages|
      ensures !Bad(all, k)
    {
      assert !Bad(messages, k);
      assert forall j :: 0 <= j <= k ==> all[j] == messages[j];
    }
  }

  // ---- the handler table ----

  /** What a dynamic id was handed out for. */
  datatype Handler = AsyncResponse(request: nat) | Event(subscription: nat) | Cancellation

  type Handlers = seq<(MessageId, Handler)>

  predicate Distinct(hs: Handlers) {
    forall i, j :: 0 <= i < j < |hs| ==> hs[i].0 != hs[j].0
  }

  /** The table as a map: a linear search from the front finds the first entry of an id. */
  function Table(hs: Handlers): map<MessageId, Handler> {
    if hs == [] then map[] else Table(hs[1..])[hs[0].0 := hs[0].1]
  }

  lemma {:induction false} TableHas(hs: Handlers, i: nat)
    requires i < |hs|
    ensures hs[i].0 in Table(hs) && (Distinct(hs) ==> Table(hs)[hs[i].0] == hs[i].1)
  {
    if i > 0 {
      TableHas(hs[1..], i - 1);
    }
  }

  lemma {:induction false} TableFrom(hs: Handlers, id: MessageId) returns (i: nat)
    requires id in Table(hs)
    ensures i < |hs| && hs[i] == (id, Table(hs)[id])
  {
    i := 0;
    if hs[0].0 != id {
      var k := TableFrom(hs[1..], id);
      i := k + 1;
    }
  }

  /** `Vec::swap_remove`: the last element takes the place of the removed one. */
  function SwapRemove(hs: Handlers, i: nat): Handlers
    requires i < |hs|
  {
    hs[i := hs[|hs| - 1]][..|hs| - 1]
  }

  lemma {:induction false} TableLacks(hs: Handlers, id: MessageId)
    requires forall i :: 0 <= i < |hs| ==> hs[i].0 != id
    ensures id !in Table(hs)
  {
    if hs != [] {
      TableLacks(hs[1..], id);
    }
  }

  lemma {:induction false} TableWithin(hs: Handlers, from: nat, to: nat)
    requires forall i :: 0 <= i < |hs| ==> from <= hs[i].0 < to
    ensures forall id :: id in Table(hs) ==> from <= id < to
  {
    if hs != [] {
      TableWithin(hs[1..], from, to);
    }
  }

  /** Where the entries of a table are after a swapping removal. */
  lemma SwapRemoveAt(hs: Handlers, i: nat, k: nat)
    requires i < |hs| && k < |hs| - 1
    ensures SwapRemove(hs, i)[k] == hs[if k == i then |hs| - 1 else k]
  {
  }

  lemma SwapRemoveDistinct(hs: Handlers, i: nat)
    requires Distinct(hs) && i < |hs|
    ensures Distinct(SwapRemove(hs, i))
  {
    hide SwapRemove;
    var n := |hs| - 1;
    assert |SwapRemove(hs, i)| == n by { SwapRemoveLength(hs, i); }
    forall j, k | 0 <= j < k < n
      ensures SwapRemove(hs, i)[j].0 != SwapRemove(hs, i)[k].0
    {
      SwapRemoveAt(hs, i, j);
      SwapRemoveAt(hs, i, k);
    }
  }

  lemma SwapRemoveLength(hs: Handlers, i: nat)
    requires i < |hs|
    ensures |SwapRemove(hs, i)| == |hs| - 1
  {
  }

  /** Removing by swapping takes away the one handler and loses no other. */
  lemma SwapRemoveTable(hs: Handlers, i: nat)
    requires Distinct(hs) && i < |hs|
    ensures Distinct(SwapRemove(hs, i)) && Table(SwapRemove(hs, i)) == Table(hs) - {hs[i].0}
  {
    hide Table, SwapRemove;
    var left, n := SwapRemove(hs, i), |hs| - 1;
    SwapRemoveDistinct(hs, i);
    SwapRemoveLength(hs, i);
    forall id | id in Table(hs) && id != hs[i].0
      ensures id in Table(left) && Table(left)[id] == Table(hs)[id]
    {
      var j := TableFrom(hs, id);
      var k := if j == n then i else j;
      SwapRemoveAt(hs, i, k);
      TableHas(left, k);
    }
    forall id | id in Table(left)
      ensures id in Table(hs) && id != hs[i].0
    {
      var k := TableFrom(left, id);
      SwapRemoveAt(hs, i, k);
      TableHas(hs, if k == i then n else k);
    }
  }

  lemma SwapRemoveKeeps(hs: Handlers, i: nat)
    requires i < |hs|
    ensures forall k :: 0 <= k < |SwapRemove(hs, i)| ==> SwapRemove(hs, i)[k] in hs
  {
  }

  lemma {:induction false} PushTable(hs: Handlers, id: MessageId, h: Handler)
    requires Distinct(hs) && forall i :: 0 <= i < |hs| ==> hs[i].0 != id
    ensures Distinct(hs + [(id, h)]) && Table(hs + [(id, h)]) == Table(hs)[id := h]
  {
    if hs == [] {
      assert hs + [(id, h)] == [(id, h)];
      assert [(id, h)][1..] == [];
    } else {
      PushTable(hs[1..], id, h);
      assert (hs + [(id, h)])[1..] == hs[1..] + [(id, h)];
      assert hs[0].0 != id;
    }
  }

  /** `Vec::retain` of everything but two ids. */
  function Retain(hs: Handlers, a: MessageId, b: MessageId): Handlers {
    if hs == [] then []
    else if hs[0].0 != a && hs[0].0 != b then [hs[0]] + Retain(hs[1..], a, b)
    else Retain(hs[1..], a, b)
  }

  lemma {:induction false} RetainTable(hs: Handlers, a: MessageId, b: MessageId)
    ensures Table(Retain(hs, a, b)) == Table(hs) - {a, b}
  {
    if hs != [] {
      RetainTable(hs[1..], a, b);
      if hs[0].0 != a && hs[0].0 != b {
        assert Retain(hs, a, b)[1..] == Retain(hs[1..], a, b);
      }
    }
  }

  lemma {:induction false} RetainDistinct(hs: Handlers, a: MessageId, b: MessageId)
    requires Distinct(hs)
    ensures Distinct(Retain(hs, a, b)) && forall i :: 0 <= i < |Retain(hs, a, b)| ==> Retain(hs, a, b)[i] in hs
  {
    if hs != [] {
      var rest := Retain(hs[1..], a, b);
      RetainDistinct(hs[1..], a, b);
      forall i | 0 <= i < |rest|
        ensures rest[i] in hs && rest[i].0 != hs[0].0
      {
        assert rest[i] in hs[1..];
      }
    }
  }

  // ---- the server ----

  /** How a subscription is answered, or that it could not be sent. */
  datatype Answer = Accepted | Refused | NotSent

  /** What a handler asks of its context while it runs. The flag says whether the request could be sent. */
  datatype Action =
    | SendAsync(request: nat, sent: bool)
    | TrySendAsync(request: nat, sent: bool)
    | Subscribe(subscription: nat, answer: Answer)
    | Shutdown

  /** Nothing fails to be sent that must be. */
  predicate AllSent(actions: seq<Action>) {
    forall k :: 0 <= k < |actions| ==> Delivers(actions[k])
  }

  predicate Delivers(a: Action) {
    (a.SendAsync? ==> a.sent) && (a.Subscribe? ==> !a.answer.NotSent?)
  }

  predicate ShutsDown(actions: seq<Action>) {
    exists k :: 0 <= k < |actions| && actions[k].Shutdown?
  }

  /** The ids that an action was given: one for the reply to a request, two for events and their end. */
  datatype Given = Nothing | ForReply(id: MessageId) | ForEvents(id: MessageId, cancel: MessageId)

  function Ids(g: Given): set<MessageId> {
    match g
    case Nothing => {}
    case ForReply(id) => {id}
    case ForEvents(id, cancel) => {id, cancel}
  }

  /** A request that was sent gets an id for its reply, an accepted subscription gets two, and nothing else
      gets any. */
  predicate Suits(a: Action, g: Given) {
    match a
    case SendAsync(_, sent) => if sent then g.ForReply? else g == Nothing
    case TrySendAsync(_, sent) => if sent then g.ForReply? else g == Nothing
    case Subscribe(_, answer) => if answer.Accepted? then g.ForEvents? && g.id < g.cancel else g == Nothing
    case Shutdown => g == Nothing
  }

  /** The table has a handler of the right kind for every id given. */
  predicate Handles(t: map<MessageId, Handler>, a: Action, g: Given)
    requires Suits(a, g)
  {
    match g
    case Nothing => true
    case ForReply(id) => id in t && t[id] == AsyncResponse(a.request)
    case ForEvents(id, cancel) =>
      id in t && t[id] == Event(a.subscription) && cancel in t && t[cancel] == Cancellation
  }

  /** Every action got what it is due, in order, from ids between `from` and `to`. */
  ghost predicate Registered(actions: seq<Action>, given: seq<Given>, t: map<MessageId, Handler>, from: nat, to: nat) {
    && |given| == |actions|
    && (forall k :: 0 <= k < |given| ==> Suits(actions[k], given[k]) && Handles(t, actions[k], given[k]))
    && (forall k, id :: 0 <= k < |given| && id in Ids(given[k]) ==> from <= id < to)
    && Ascending(given)
  }

  ghost predicate Ascending(given: seq<Given>) {
    forall j, k, x, y :: 0 <= j < k < |given| && x in Ids(given[j]) && y in Ids(given[k]) ==> x < y
  }

  /** All ids of the first list come before those of the second. */
  ghost predicate Before(first: seq<Given>, second: seq<Given>) {
    forall j, k, x, y :: 0 <= j < |first| && 0 <= k < |second| && x in Ids(first[j]) && y in Ids(second[k]) ==> x < y
  }

  /** The table has grown by nothing but these ids. */
  ghost predicate GrownBy(t: map<MessageId, Handler>, later: map<MessageId, Handler>, given: seq<Given>) {
    && (forall id :: id in t ==> id in later && later[id] == t[id])
    && (forall id :: id in later && id !in t ==> exists k :: 0 <= k < |given| && id in Ids(given[k]))
  }

  lemma RegisterMore(actions: seq<Action>, given: seq<Given>, t: map<MessageId, Handler>, from: nat, to: nat,
                     a: Action, g: Given, t': map<MessageId, Handler>, to': nat)
    requires Registered(actions, given, t, from, to) && from <= to <= to'
    requires forall id :: id in t ==> id in t' && t'[id] == t[id]
    requires Suits(a, g) && Handles(t', a, g) && forall id :: id in Ids(g) ==> to <= id < to'
    ensures Registered(actions + [a], given + [g], t', from, to')
  {
  }

  lemma GrowMore(t0: map<MessageId, Handler>, t: map<MessageId, Handler>, given: seq<Given>, g: Given,
                 t': map<MessageId, Handler>)
    requires GrownBy(t0, t, given)
    requires forall id :: id in t ==> id in t' && t'[id] == t[id]
    requires forall id :: id in t' && id !in t ==> id in Ids(g)
    ensures GrownBy(t0, t', given + [g])
  {
    var all := given + [g];
    assert all[|given|] == g;
    assert forall k :: 0 <= k < |given| ==> all[k] == given[k];
  }

  /** A received message. It is a scalar or not, it may be a cancellation, which names two ids, and it
      makes its handler do things. */
  datatype Message = Message(id: MessageId, scalar: bool, cancels: Option<(MessageId, MessageId)>, actions: seq<Action>)

  /** The process-wide source of dynamic ids. */
  class DynamicIds {
    var next: nat

    constructor ()
      ensures next == DYNAMIC_IDS
    {
      next := DYNAMIC_IDS;
    }

    /** The next id; others in the process may have taken some since this server last did. */
    method Next() returns (id: MessageId)
      modifies this
      ensures old(next) <= id && next == id + 1
    {
      id :| next <= id;
      next := id + 1;
    }
  }

  lemma NothingRegistered(t: map<MessageId, Handler>, next: nat)
    ensures Registered([], [], t, next, next) && GrownBy(t, t, [])
  {
  }

  class ServerContext {
    const ids: DynamicIds
    var shutdown: bool
    var handlers: Handlers
    /** Requests whose reply reached their handler, by message id. */
    ghost var answered: seq<(MessageId, nat)>

    constructor (ids: DynamicIds)
      requires ids.next >= DYNAMIC_IDS
      ensures this.ids == ids && handlers == [] && answered == [] && !shutdown && Valid()
    {
      this.ids, shutdown, handlers, answered := ids, false, [], [];
    }

    /** Dynamic ids are unique, never reused, and no two replies went to one id. */
    ghost predicate Valid()
      reads this, ids
    {
      && DYNAMIC_IDS <= ids.next
      && Distinct(handlers)
      && (forall i :: 0 <= i < |handlers| ==> DYNAMIC_IDS <= handlers[i].0 < ids.next)
      && (forall i :: 0 <= i < |answered| ==> answered[i].0 < ids.next && answered[i].0 !in Table(handlers))
      && (forall i, j :: 0 <= i < j < |answered| ==> answered[i].0 != answered[j].0)
    }

    method Push(h: Handler) returns (id: MessageId)
      requires Valid()
      modifies this`handlers, ids
      ensures Valid() && old(ids.next) <= id && ids.next == id + 1 && id !in Table(old(handlers))
      ensures Table(handlers) == Table(old(handlers))[id := h]
    {
      TableWithin(handlers, DYNAMIC_IDS, ids.next);
      id := ids.Next();
      PushTable(handlers, id, h);
      handlers := handlers + [(id, h)];
    }

    /** Everything a handler does through its context. Every request sent gets its handler and every
        accepted subscription its two, under fresh ids and in order; nothing else is added, and no handler
        is taken away. It panics exactly when something cannot be sent that the handler does not merely
        try to send. */
    method Perform(actions: seq<Action>) returns (ok: bool, ghost given: seq<Given>)
      requires Valid()
      modifies this`handlers, this`shutdown, ids
      ensures ok <==> AllSent(actions)
      ensures Valid() && ids.next >= old(ids.next)
      ensures ok ==> Registered(actions, given, Table(handlers), old(ids.next), ids.next)
      ensures GrownBy(Table(old(handlers)), Table(handlers), given)
      ensures ok ==> (shutdown <==> old(shutdown) || ShutsDown(actions))
    {
      hide Table, Distinct, Registered, GrownBy, Suits, Handles;
      var k := 0;
      given := [];
      NothingRegistered(Table(handlers), ids.next);
      while k < |actions|
        invariant 0 <= k <= |actions| && AllSent(actions[..k])
        invariant Valid() && ids.next >= old(ids.next)
        invariant Registered(actions[..k], given, Table(handlers), old(ids.next), ids.next)
        invariant GrownBy(Table(old(handlers)), Table(handlers), given)
        invariant shutdown <==> old(shutdown) || ShutsDown(actions[..k])
        decreases |actions| - k
      {
        ghost var t, from := Table(handlers), ids.next;
        var sent;
        ghost var g;
        sent, g := PerformOne(actions[k]);
        if !sent {
          GrowMore(Table(old(handlers)), t, given, g, Table(handlers));
          given := given + [g];
          return false, given;
        }
        RegisterMore(actions[..k], given, t, old(ids.next), from, actions[k], g, Table(handlers), ids.next);
        GrowMore(Table(old(handlers)), t, given, g, Table(handlers));
        assert actions[..k + 1] == actions[..k] + [actions[k]];
        given := given + [g];
        k := k + 1;
      }
      assert actions[..k] == actions;
      ok := true;
    }

    /** One action. */
    method PerformOne(action: Action) returns (ok: bool, ghost g: Given)
      requires Valid()
      modifies this`handlers, this`shutdown, ids
      ensures ok <==> Delivers(action)
      ensures Valid() && ids.next >= old(ids.next)
      ensures ok ==> Suits(action, g) && Handles(Table(handlers), action, g)
      ensures forall id :: id in Ids(g) ==> old(ids.next) <= id < ids.next
      ensures forall id :: id in Table(old(handlers)) ==>
                id in Table(handlers) && Table(handlers)[id] == Table(old(handlers))[id]
      ensures forall id :: id in Table(handlers) && id !in Table(old(handlers)) ==> id in Ids(g)
      ensures shutdown <==> old(shutdown) || action.Shutdown?
    {
      hide Table, Distinct;
      ok, g := true, Nothing;
      match action {
        case SendAsync(request, sent) =>
          if !sent {
            return false, g;
          }
          var id := Push(AsyncResponse(request));
          g := ForReply(id);
        case TrySendAsync(request, sent) =>
          if sent {
            var id := Push(AsyncResponse(request));
            g := ForReply(id);
          } else {
            var lost := ids.Next();
          }
        case Subscribe(subscription, answer) =>
          if answer.Accepted? {
            var id := Push(Event(subscription));
            var cancel := Push(Cancellation);
            g := ForEvents(id, cancel);
          } else {
            var lost := ids.Next();
            var lostToo := ids.Next();
            ok := answer.Refused?;
          }
        case Shutdown =>
          shutdown := true;
      }
    }

    /** `position(...).unwrap()` and `swap_remove`: it panics unless the id has a handler. */
    method RemoveHandler(id: MessageId) returns (ok: bool)
      requires Valid()
      modifies this`handlers
      ensures ok <==> id in Table(old(handlers))
      ensures Valid() && Table(handlers) == Table(old(handlers)) - {id}
    {
      hide Table;
      var k := 0;
      while k < |handlers| && handlers[k].0 != id
        invariant 0 <= k <= |handlers|
        invariant forall i :: 0 <= i < k ==> handlers[i].0 != id
      {
        k := k + 1;
      }
      ok := k < |handlers|;
      if ok {
        TableHas(handlers, k);
        SwapRemoveTable(handlers, k);
        SwapRemoveKeeps(handlers, k);
        handlers := SwapRemove(handlers, k);
      } else {
        TableLacks(handlers, id);
        assert Table(handlers) - {id} == Table(handlers);
      }
    }

    method Find(id: MessageId) returns (r: Option<Handler>)
      requires Valid()
      ensures r.Some? <==> id in Table(handlers)
      ensures r.Some? ==> r.value == Table(handlers)[id]
    {
      hide Table;
      var k := 0;
      while k < |handlers|
        invariant 0 <= k <= |handlers|
        invariant forall i :: 0 <= i < k ==> handlers[i].0 != id
      {
        if handlers[k].0 == id {
          TableHas(handlers, k);
          return Some(handlers[k].1);
        }
        k := k + 1;
      }
      TableLacks(handlers, id);
      return None;
    }

    /** Dispatch one message. A reply that has a handler reaches it if it is well formed, and exactly
        that handler is gone afterwards; a cancellation removes the two ids it names; nothing else takes
        a handler away. What the handler that runs asks for is registered. Only a handler of its own making
        panics. */
    method Dispatch<H>(lut: array<Option<H>>, m: Message) returns (ok: bool, ghost given: seq<Given>)
      requires Valid() && lut.Length == LUT_SIZE
      modifies this`handlers, this`shutdown, this`answered, ids
      ensures ok <==> (Runs(lut, Table(old(handlers)), m) ==> AllSent(m.actions))
      ensures ok ==> Valid() && ids.next >= old(ids.next)
      ensures ok ==> answered == old(answered)
                          + (if m.scalar && m.id in Table(old(handlers)) && Table(old(handlers))[m.id].AsyncResponse?
                             then [(m.id, Table(old(handlers))[m.id].request)] else [])
      ensures ok ==> forall id :: id in Table(old(handlers)) && !Takes(Table(old(handlers)), m, id) ==>
                id in Table(handlers) && Table(handlers)[id] == Table(old(handlers))[id]
      ensures ok ==> forall id :: id in Table(handlers) ==>
                (id in Table(old(handlers)) && !Takes(Table(old(handlers)), m, id))
                || exists k :: 0 <= k < |given| && id in Ids(given[k])
      ensures ok && Runs(lut, Table(old(handlers)), m) ==>
                Registered(m.actions, given, Table(handlers), old(ids.next), ids.next)
      ensures ok && !Runs(lut, Table(old(handlers)), m) ==> given == []
      ensures ok ==>
                (shutdown <==> old(shutdown) || (Runs(lut, Table(old(handlers)), m) && ShutsDown(m.actions)))
    {
      hide Table, Distinct, Retain, Registered, Suits, Handles, AllSent, ShutsDown;
      TableWithin(handlers, DYNAMIC_IDS, ids.next);
      ok, given := true, [];
      if m.id < lut.Length {
        if lut[m.id].Some? {
          ok, given := Perform(m.actions);
        }
        return;
      }
      var handler := Find(m.id);
      if handler == None {
        return;
      }
      match handler.value
      case AsyncResponse(request) =>
        if m.scalar {
          ok, given := Perform(m.actions);
          if !ok {
            return;
          }
        }
        ghost var t := Table(handlers);
        var removed := RemoveHandler(m.id);
        assert removed;
        if m.scalar {
          StillRegistered(m.actions, given, t, old(ids.next), ids.next, Table(handlers), m.id);
          answered := answered + [(m.id, request)];
        }
      case Event(_) =>
        ok, given := Perform(m.actions);
      case Cancellation =>
        if m.cancels.Some? {
          RetainDistinct(handlers, m.cancels.value.0, m.cancels.value.1);
          RetainTable(handlers, m.cancels.value.0, m.cancels.value.1);
          handlers := Retain(handlers, m.cancels.value.0, m.cancels.value.1);
        }
    }
  }

  /** Taking away an older id leaves what was registered. */
  lemma StillRegistered(actions: seq<Action>, given: seq<Given>, t: map<MessageId, Handler>, from: nat, to: nat,
                        t': map<MessageId, Handler>, gone: MessageId)
    requires Registered(actions, given, t, from, to) && gone < from && t' == t - {gone}
    ensures Registered(actions, given, t', from, to)
  {
    forall k | 0 <= k < |given|
      ensures Handles(t', actions[k], given[k])
    {
      assert forall id :: id in Ids(given[k]) ==> from <= id;
    }
  }

  /** The message makes a handler of the server run: its own, one for a well-formed reply, or one for an
      event. */
  predicate Runs<H>(lut: array<Option<H>>, t: map<MessageId, Handler>, m: Message)
    requires lut.Length == LUT_SIZE
    reads lut
  {
    if m.id < LUT_SIZE then lut[m.id].Some?
    else m.id in t && ((t[m.id].AsyncResponse? && m.scalar) || t[m.id].Event?)
  }

  /** The message takes the handler of an id away: it is its reply, or a cancellation that names it. */
  predicate Takes(t: map<MessageId, Handler>, m: Message, id: MessageId) {
    m.id in t &&
    match t[m.id]
    case AsyncResponse(_) => id == m.id
    case Event(_) => false
    case Cancellation => m.cancels.Some? && (id == m.cancels.value.0 || id == m.cancels.value.1)
  }

  /** The message is the reply, the event or the end that an id was given for, or a cancellation that names
      the id. */
  predicate Concerns(m: Message, id: MessageId) {
    m.id == id || Cancels(m, id)
  }

  predicate Cancels(m: Message, id: MessageId) {
    m.cancels.Some? && (id == m.cancels.value.0 || id == m.cancels.value.1)
  }

  predicate Names(m: Message, id: MessageId) {
    (m.id == id && !m.scalar) || Cancels(m, id)
  }

  /** The handler of a request waits until a message concerns it, that of a subscription until a message
      cancels it. */
  ghost predicate Waits(t: map<MessageId, Handler>, a: Action, g: Given, queue: seq<Message>, j: nat, k: nat)
    requires k <= |queue| && Suits(a, g)
  {
    match g
    case Nothing => true
    case ForReply(id) =>
      (id in t && t[id] == AsyncResponse(a.request)) || exists i :: j < i < k && Concerns(queue[i], id)
    case ForEvents(id, cancel) =>
      (id in t && t[id] == Event(a.subscription)) || exists i :: j < i < k && Cancels(queue[i], id)
  }

  /** What message `i` does for an action of message `j`: the first well-formed reply to its request reaches
      its handler with the request, and every event of its subscription that comes before a cancellation
      reaches its handler. */
  ghost predicate Reaches(answered: seq<(MessageId, nat)>, a: Action, g: Given, queue: seq<Message>,
                          given: seq<seq<Given>>, j: nat, i: nat)
    requires j < i < |given| && |given| <= |queue| && Suits(a, g)
  {
    match g
    case Nothing => true
    case ForReply(id) =>
      (queue[i].id == id && queue[i].scalar && forall h :: j < h < i ==> !Concerns(queue[h], id)) ==>
        (id, a.request) in answered && |given[i]| == |queue[i].actions|
    case ForEvents(id, _) =>
      (queue[i].id == id && forall h :: j < h < i ==> !Cancels(queue[h], id)) ==> |given[i]| == |queue[i].actions|
  }

  /** A handler that ran got for each of its actions what it is due; one that did not run got nothing. */
  predicate AllSuit(actions: seq<Action>, given: seq<Given>) {
    given == [] || (|given| == |actions| && forall a :: 0 <= a < |given| ==> Suits(actions[a], given[a]))
  }

  /** How far a run of the loop has come: what the processed messages were given, where it is now, and what
      it has come to. */
  ghost predicate Progress<H>(lut: array<Option<H>>, t: map<MessageId, Handler>, answered: seq<(MessageId, nat)>,
                              next: nat, queue: seq<Message>, given: seq<seq<Given>>)
    requires lut.Length == LUT_SIZE && |given| <= |queue|
    reads lut
  {
    && (forall j :: 0 <= j < |given| ==> AllSuit(queue[j].actions, given[j]))
    && (forall j :: 0 <= j < |given| && queue[j].id < LUT_SIZE && lut[queue[j].id].Some? ==>
          |given[j]| == |queue[j].actions|)
    && (forall j, a, id :: 0 <= j < |given| && 0 <= a < |given[j]| && id in Ids(given[j][a]) ==>
          DYNAMIC_IDS <= id < next)
    && (forall j :: 0 <= j < |given| ==> Ascending(given[j]))
    && (forall j, k :: 0 <= j < k < |given| ==> Before(given[j], given[k]))
    && (forall j, a :: 0 <= j < |given| && 0 <= a < |given[j]| ==>
          Waits(t, queue[j].actions[a], given[j][a], queue, j, |given|))
    && (forall j, a, i :: 0 <= j < i < |given| && 0 <= a < |given[j]| ==>
          Reaches(answered, queue[j].actions[a], given[j][a], queue, given, j, i))
  }

  /** A well-formed message of that id is among those processed. */
  predicate Arrived(queue: seq<Message>, k: nat, id: MessageId)
    requires k <= |queue|
  {
    exists i :: 0 <= i < k && queue[i].id == id && queue[i].scalar
  }

  /** The loop, until shutdown. Whatever arrives and whatever handlers do, nothing panics but a handler
      whose own request could not be sent. A handler that was waiting is still waiting, or its reply
      reached it, or a malformed reply or a cancellation named it. Whatever a handler sends or subscribes
      to in the run is registered, and the reply and the events that come for it reach its own handler. */
  method MainLoop<H>(context: ServerContext, lut: array<Option<H>>, queue: seq<Message>)
    returns (ok: bool, ghost given: seq<seq<Given>>)
    requires context.Valid() && lut.Length == LUT_SIZE
    modifies context`handlers, context`shutdown, context`answered, context.ids
    ensures !ok ==> exists k :: 0 <= k < |queue| && !AllSent(queue[k].actions)
    ensures ok ==> context.Valid() && old(context.answered) <= context.answered
    ensures ok ==> forall id :: id in Table(old(context.handlers)) ==>
              || (id in Table(context.handlers) && Table(context.handlers)[id] == Table(old(context.handlers))[id])
              || (Table(old(context.handlers))[id].AsyncResponse?
                  && (id, Table(old(context.handlers))[id].request) in context.answered)
              || (exists k :: 0 <= k < |queue| && Names(queue[k], id))
    ensures ok ==> |given| <= |queue| && Progress(lut, Table(context.handlers), context.answered, context.ids.next,
                       queue, given)
    ensures ok ==> forall i :: |old(context.answered)| <= i < |context.answered| ==>
              Arrived(queue, |given|, context.answered[i].0)
    ensures ok && |given| < |queue| ==>
              old(context.shutdown) || (|given| > 0 && ShutsDown(queue[|given| - 1].actions))
  {
    hide Table, Progress;
    ghost var start := Table(context.handlers);
    var k := 0;
    given := [];
    NoProgress(lut, start, context.answered, context.ids.next, queue);
    while k < |queue| && !context.shutdown
      invariant 0 <= k == |given| <= |queue|
      invariant context.Valid() && old(context.answered) <= context.answered
      invariant forall id :: id in start ==>
                  || (id in Table(context.handlers) && Table(context.handlers)[id] == start[id])
                  || (start[id].AsyncResponse? && (id, start[id].request) in context.answered)
                  || (exists j :: 0 <= j < k && Names(queue[j], id))
      invariant Progress(lut, Table(context.handlers), context.answered, context.ids.next, queue, given)
      invariant forall i :: |old(context.answered)| <= i < |context.answered| ==>
                  Arrived(queue, k, context.answered[i].0)
      invariant context.shutdown ==>
                  old(context.shutdown) || (k > 0 && ShutsDown(queue[k - 1].actions))
    {
      ghost var t, answered, next := Table(context.handlers), context.answered, context.ids.next;
      ghost var g;
      ok, g := context.Dispatch(lut, queue[k]);
      if !ok {
        return;
      }
      OneMore(lut, t, answered, next, queue, given, g, Table(context.handlers), context.answered, context.ids.next);
      given := given + [g];
      k := k + 1;
    }
    ok := true;
  }

  lemma NoProgress<H>(lut: array<Option<H>>, t: map<MessageId, Handler>, answered: seq<(MessageId, nat)>, next: nat,
                      queue: seq<Message>)
    requires lut.Length == LUT_SIZE
    ensures Progress(lut, t, answered, next, queue, [])
  {
  }

  /** What dispatching a message does to the table and to the replies that arrived. */
  ghost predicate Dispatched<H>(lut: array<Option<H>>, t: map<MessageId, Handler>, answered: seq<(MessageId, nat)>,
                                next: nat, m: Message, g: seq<Given>, t': map<MessageId, Handler>,
                                answered': seq<(MessageId, nat)>, next': nat)
    requires lut.Length == LUT_SIZE
    reads lut
  {
    && answered'
       == answered + (if m.scalar && m.id in t && t[m.id].AsyncResponse? then [(m.id, t[m.id].request)] else [])
    && (forall id :: id in t && !Takes(t, m, id) ==> id in t' && t'[id] == t[id])
    && DYNAMIC_IDS <= next <= next'
    && if Runs(lut, t, m) then Registered(m.actions, g, t', next, next') else g == []
  }

  lemma OneMore<H>(lut: array<Option<H>>, t: map<MessageId, Handler>, answered: seq<(MessageId, nat)>, next: nat,
                   queue: seq<Message>, given: seq<seq<Given>>, g: seq<Given>, t': map<MessageId, Handler>,
                   answered': seq<(MessageId, nat)>, next': nat)
    requires lut.Length == LUT_SIZE && |given| < |queue| && Progress(lut, t, answered, next, queue, given)
    requires Dispatched(lut, t, answered, next, queue[|given|], g, t', answered', next')
    ensures Progress(lut, t', answered', next', queue, given + [g])
  {
    hide Waits, Reaches, Registered, Suits, Handles, Dispatched, Ascending, Before;
    var k, all := |given|, given + [g];
    NewWaits(lut, t, answered, next, g, t', answered', next', queue, k);
    forall j, a | 0 <= j < k && 0 <= a < |given[j]|
      ensures Waits(t', queue[j].actions[a], given[j][a], queue, j, k + 1)
      ensures Reaches(answered', queue[j].actions[a], given[j][a], queue, all, j, k)
    {
      StillWaits(lut, t, answered, next, queue, given, g, t', answered', next', j, a);
    }
    forall j, a, i | 0 <= j < i < k && 0 <= a < |given[j]|
      ensures Reaches(answered', queue[j].actions[a], given[j][a], queue, all, j, i)
    {
      StillReaches(answered, answered', queue[j].actions[a], given[j][a], queue, given, g, j, i);
    }
    assert forall j :: 0 <= j < k ==> all[j] == given[j];
    forall j | 0 <= j < k
      ensures Before(given[j], g)
    {
      LaterIds(given[j], g, next, next');
    }
  }

  lemma LaterIds(first: seq<Given>, second: seq<Given>, next: nat, next': nat)
    requires forall a, id :: 0 <= a < |first| && id in Ids(first[a]) ==> id < next
    requires forall a, id :: 0 <= a < |second| && id in Ids(second[a]) ==> next <= id < next'
    ensures Before(first, second)
  {
  }

  /** A handler that waits either goes on waiting or is reached. */
  lemma StillWaits<H>(lut: array<Option<H>>, t: map<MessageId, Handler>, answered: seq<(MessageId, nat)>, next: nat,
                      queue: seq<Message>, given: seq<seq<Given>>, g: seq<Given>, t': map<MessageId, Handler>,
                      answered': seq<(MessageId, nat)>, next': nat, j: nat, a: nat)
    requires lut.Length == LUT_SIZE && |given| < |queue| && j < |given| && a < |given[j]|
    requires Dispatched(lut, t, answered, next, queue[|given|], g, t', answered', next')
    requires AllSuit(queue[j].actions, given[j]) && forall id :: id in Ids(given[j][a]) ==> DYNAMIC_IDS <= id < next
    requires Waits(t, queue[j].actions[a], given[j][a], queue, j, |given|)
    ensures Waits(t', queue[j].actions[a], given[j][a], queue, j, |given| + 1)
    ensures Reaches(answered', queue[j].actions[a], given[j][a], queue, given + [g], j, |given|)
  {
    var k, one := |given|, given[j][a];
    assert (given + [g])[k] == g;
    match one
    case Nothing =>
    case ForReply(id) =>
      assert id in Ids(one);
      if i :| j < i < k && Concerns(queue[i], id) {
        assert j < i < k + 1;
      } else if Takes(t, queue[k], id) {
        assert Concerns(queue[k], id);
      }
    case ForEvents(id, cancel) =>
      assert id in Ids(one);
      if i :| j < i < k && Cancels(queue[i], id) {
        assert j < i < k + 1;
      } else if Takes(t, queue[k], id) {
        assert Cancels(queue[k], id);
      }
  }

  lemma StillReaches(answered: seq<(MessageId, nat)>, answered': seq<(MessageId, nat)>, act: Action, one: Given,
                     queue: seq<Message>, given: seq<seq<Given>>, g: seq<Given>, j: nat, i: nat)
    requires j < i < |given| < |queue| && Suits(act, one) && answered <= answered'
    requires Reaches(answered, act, one, queue, given, j, i)
    ensures Reaches(answered', act, one, queue, given + [g], j, i)
  {
    assert (given + [g])[i] == given[i];
  }

  /** What was just given. */
  lemma NewWaits<H>(lut: array<Option<H>>, t: map<MessageId, Handler>, answered: seq<(MessageId, nat)>, next: nat,
                    g: seq<Given>, t': map<MessageId, Handler>, answered': seq<(MessageId, nat)>, next': nat,
                    queue: seq<Message>, k: nat)
    requires lut.Length == LUT_SIZE && k < |queue|
    requires Dispatched(lut, t, answered, next, queue[k], g, t', answered', next')
    ensures AllSuit(queue[k].actions, g) && answered <= answered' && next <= next'
    ensures queue[k].id < LUT_SIZE && lut[queue[k].id].Some? ==> |g| == |queue[k].actions|
    ensures Ascending(g) && DYNAMIC_IDS <= next
    ensures forall a, id :: 0 <= a < |g| && id in Ids(g[a]) ==> next <= id < next'
    ensures forall a :: 0 <= a < |g| ==> Waits(t', queue[k].actions[a], g[a], queue, k, k + 1)
  {
  }
}
