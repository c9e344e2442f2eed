/** Message buffers: page ownership and payload across moves, blocking moves and replies. */
module Buffers {
  import opened Wrappers

  type Byte = b: int | 0 <= b < 256
  type Pid = nat

  const PAGE := 0x1000

  /** A mapped, page-aligned range. */
  datatype Range = Range(first: nat, count: nat) {
    function Len(): nat { count * PAGE }
    function Start(): nat { first * PAGE }
  }

  predicate InRange(p: nat, r: Range) {
    r.first <= p < r.first + r.count
  }

  function Pages(r: Range): set<nat> {
    set p: nat | r.first <= p < r.first + r.count && InRange(p, r)
  }

  /** Owner of every mapped page. */
  type Owners = map<nat, Pid>

  ghost predicate Owns(o: Owners, pid: Pid, r: Range) {
    r.count > 0 && forall p :: InRange(p, r) ==> p in o && o[p] == pid
  }

  ghost predicate Unowned(o: Owners, r: Range) {
    forall p :: InRange(p, r) ==> p !in o
  }

  function Given(o: Owners, pid: Pid, r: Range): Owners {
    map p | p in o.Keys + Pages(r) :: if InRange(p, r) then pid else o[p]
  }

  function Freed(o: Owners, r: Range): Owners {
    o - Pages(r)
  }

  /** Pages needed for `len` bytes: at least one. */
  function PagesFor(len: nat): nat {
    if len == 0 then 1 else (len + PAGE - 1) / PAGE
  }

  lemma PagesForFits(len: nat)
    ensures PagesFor(len) >= 1 && len <= PagesFor(len) * PAGE
    ensures PagesFor(len) == 1 || (PagesFor(len) - 1) * PAGE < len
  {
  }

  // ---- the memory system ----

  class Memory {
    const size: nat
    var bytes: seq<Byte>
    var owners: Owners
    /** How often mapping, moving or serializing into enough room has failed. */
    ghost var faults: nat

    constructor (size: nat)
      ensures Valid() && this.size == size && owners == map[] && faults == 0
    {
      this.size, faults := size, 0;
      bytes, owners := seq(size * PAGE, _ => 0), map[];
    }

    ghost predicate Valid()
      reads this
    {
      |bytes| == size * PAGE && forall p :: p in owners ==> p < size
    }

    function BytesOf(r: Range): seq<Byte>
      requires Valid() && r.first + r.count <= size
      reads this
    {
      bytes[r.Start()..r.Start() + r.Len()]
    }

    /** Map so many fresh pages, or fail. */
    method Map(pid: Pid, count: nat) returns (r: Option<Range>)
      requires Valid() && count > 0
      modifies this`owners, this`faults
      ensures Valid() && faults == old(faults) + (if r.None? then 1 else 0)
      ensures r.None? ==> owners == old(owners)
      ensures r.Some? ==>
                r.value.count == count && Unowned(old(owners), r.value)
                && owners == Given(old(owners), pid, r.value)
    {
      var first: nat := *;
      var range := Range(first, count);
      if first + count <= size && forall p :: first <= p < first + count ==> p !in owners {
        owners := Given(owners, pid, range);
        return Some(range);
      }
      faults := faults + 1;
      return None;
    }

    /** Unmap; it fails unless every page is the caller's. */
    method Unmap(pid: Pid, r: Range) returns (ok: bool)
      requires Valid()
      modifies this`owners
      ensures Valid() && (ok <==> Owns(old(owners), pid, r))
      ensures owners == if ok then Freed(old(owners), r) else old(owners)
    {
      ok := r.count > 0 && forall p :: r.first <= p < r.first + r.count ==> p in owners && owners[p] == pid;
      if ok {
        owners := Freed(owners, r);
      }
    }

    /** Move the pages of a message to another process, or fail. */
    method Move(from: Pid, to: Pid, r: Range) returns (ok: bool)
      requires Valid() && Owns(owners, from, r)
      modifies this`owners, this`faults
      ensures Valid() && owners == if ok then Given(old(owners), to, r) else old(owners)
      ensures faults == old(faults) + (if ok then 0 else 1)
    {
      ok := *;
      if ok {
        owners := Given(owners, to, r);
      } else {
        faults := faults + 1;
      }
    }

    /** The kernel returns the memory of an answered message to the blocked sender. */
    method Return(from: Pid, to: Pid, r: Range)
      requires Valid() && Owns(owners, from, r)
      modifies this`owners
      ensures Valid() && owners == Given(old(owners), to, r)
    {
      owners := Given(owners, to, r);
    }

    /** Write from the start of a range. */
    method Write(r: Range, data: seq<Byte>)
      requires Valid() && r.first + r.count <= size && |data| <= r.Len()
      modifies this`bytes
      ensures Valid() && BytesOf(r)[..|data|] == data
      ensures forall i :: 0 <= i < |bytes| && !(r.Start() <= i < r.Start() + r.Len()) ==> bytes[i] == old(bytes)[i]
    {
      bytes := bytes[..r.Start()] + data + bytes[r.Start() + |data|..];
    }

    /** `serialize_into`: the number of bytes written, or a failure that may have written some. */
    method Serialize(r: Range, src: seq<Byte>) returns (used: Option<nat>)
      requires Valid() && r.first + r.count <= size
      modifies this`bytes, this`faults
      ensures Valid() && (used.Some? ==> used.value == |src| <= r.Len() && BytesOf(r)[..|src|] == src)
      ensures faults == old(faults) + (if used.None? && |src| <= r.Len() then 1 else 0)
      ensures forall i :: 0 <= i < |bytes| && !(r.Start() <= i < r.Start() + r.Len()) ==> bytes[i] == old(bytes)[i]
    {
      var failed: bool := *;
      if failed || |src| > r.Len() {
        assert 0 <= |src| && 0 <= r.Len();
        var written: nat :| written <= |src| && written <= r.Len();
        Write(r, src[..written]);
        if |src| <= r.Len() {
          faults := faults + 1;
        }
        return None;
      }
      Write(r, src);
      return Some(|src|);
    }
  }

  lemma OwnedInBounds(mem: Memory, pid: Pid, r: Range)
    requires mem.Valid() && Owns(mem.owners, pid, r)
    ensures r.first + r.count <= mem.size
  {
    assert InRange(r.first + r.count - 1, r);
  }

  // ---- messages ----

  /** A memory message; `valid` carries the payload length, and 0 stands for none. */
  datatype MemoryMessage = MemoryMessage(id: nat, buf: Range, valid: nat) {
    /** `message_len`: never more than the buffer holds. */
    function PayloadLen(): nat {
      if valid < buf.Len() then valid else buf.Len()
    }
  }

  /** The payload a receiver decodes. */
  function Payload(mem: Memory, m: MemoryMessage): seq<Byte>
    requires mem.Valid() && m.buf.first + m.buf.count <= mem.size
    reads mem
  {
    mem.BytesOf(m.buf)[..m.PayloadLen()]
  }

  /** Ownership after a moved-in buffer was replaced by a reply: what the reply does not cover is freed,
      and the reply is the server's. */
  ghost predicate Replaced(o: Owners, o': Owners, pid: Pid, existing: Range, reply: Range) {
    && (forall p :: InRange(p, reply) ==> p in o' && o'[p] == pid && (InRange(p, existing) || p !in o))
    && (forall p :: !InRange(p, reply) && InRange(p, existing) ==> p !in o')
    && (forall p :: !InRange(p, reply) && !InRange(p, existing) ==> (p in o' <==> p in o) && (p in o ==> o'[p] == o[p]))
  }

  /** Answer a blocking move: reuse the front of the moved-in buffer if the reply fits, and free the
      tail; otherwise, or when pages cannot be freed in parts, use a fresh one and free the old one. */
  method ReplyMove(mem: Memory, pid: Pid, m: MemoryMessage, src: seq<Byte>, keyos: bool)
    returns (ok: bool, m': MemoryMessage)
    requires mem.Valid() && Owns(mem.owners, pid, m.buf)
    modifies mem
    ensures mem.Valid()
    ensures !ok ==> m' == m && mem.owners == old(mem.owners)
    ensures Owns(mem.owners, pid, m'.buf) && m'.buf.first + m'.buf.count <= mem.size
    ensures Replaced(old(mem.owners), mem.owners, pid, m.buf, m'.buf) && (ok ==> m'.buf.count == PagesFor(|src|))
    ensures ok ==> Payload(mem, m') == src
    ensures ok && keyos && PagesFor(|src|) <= m.buf.count ==> m'.buf.first == m.buf.first
    ensures ok <==> mem.faults == old(mem.faults)
  {
    m' := m;
    var needed := PagesFor(|src|);
    PagesForFits(|src|);
    OwnedInBounds(mem, pid, m.buf);
    var reply, used;
    if keyos && m.buf.count >= needed {
      reply := Range(m.buf.first, needed);
      used := mem.Serialize(reply, src);
      if used == None {
        return false, m;
      }
    } else {
      var mapped := mem.Map(pid, needed);
      if mapped == None {
        return false, m;
      }
      reply := mapped.value;
      OwnedInBounds(mem, pid, reply);
      assert InRange(reply.first, reply) && InRange(m.buf.first, m.buf);
      used := mem.Serialize(reply, src);
      if used == None {
        var freed := mem.Unmap(pid, reply);
        assert mem.owners == old(mem.owners);
        return false, m;
      }
    }
    m' := m.(buf := reply, valid := used.value);
    if reply.first == m.buf.first {
      var tail := Range(m.buf.first + reply.count, m.buf.count - reply.count);
      if tail.count > 0 {
        var freed := mem.Unmap(pid, tail);
        assert freed;
      }
    } else {
      var freed := mem.Unmap(pid, m.buf);
      assert freed;
    }
    ok := true;
  }

  /** What a reply keeps of a moved-in buffer that is large enough, and what it frees: front and tail
      split it, and the front is as short as the reply allows. */
  lemma ReplySplitsBuffer(o: Owners, o': Owners, pid: Pid, existing: Range, reply: Range)
    requires Replaced(o, o', pid, existing, reply) && reply.first == existing.first && reply.count <= existing.count
    ensures forall p :: InRange(p, existing) ==> (p in o' <==> InRange(p, reply))
    ensures o'.Keys == o.Keys - Pages(Range(existing.first + reply.count, existing.count - reply.count)) + Pages(reply)
  {
    forall p
      ensures p in o' <==>
                p in o.Keys - Pages(Range(existing.first + reply.count, existing.count - reply.count))
                + Pages(reply)
    {
      assert InRange(p, existing) <==>
          InRange(p, reply)
          || InRange(p, Range(existing.first + reply.count, existing.count - reply.count));
    }
  }

  // ---- the buffer object ----

  class Buffer {
    const mem: Memory
    const me: Pid
    var pages: Range
    var used: nat
    var shouldDrop: bool

    constructor (mem: Memory, me: Pid, pages: Range)
      requires mem.Valid() && Owns(mem.owners, me, pages)
      ensures this.mem == mem && this.me == me && this.pages == pages && used == 0 && shouldDrop && Valid()
    {
      this.mem, this.me, this.pages, used, shouldDrop := mem, me, pages, 0, true;
      OwnedInBounds(mem, me, pages);
    }

    /** While the buffer is to be unmapped it owns its pages. */
    ghost predicate Valid()
      reads this, mem
    {
      && mem.Valid() && used <= pages.Len() && pages.first + pages.count <= mem.size
      && (shouldDrop ==> Owns(mem.owners, me, pages))
    }

    /** `drop`: unmap the pages unless they were given away; it cannot fail. */
    method Drop()
      requires Valid()
      modifies mem`owners
      ensures mem.Valid() && mem.owners == if shouldDrop then Freed(old(mem.owners), pages) else old(mem.owners)
    {
      if shouldDrop {
        var ok := mem.Unmap(me, pages);
        assert ok;
      }
    }

    function Message(id: nat): MemoryMessage
      reads this
    {
      MemoryMessage(id, pages, used)
    }

    /** The bytes that are decoded from the buffer. */
    function Content(): seq<Byte>
      requires Valid()
      reads this, mem
    {
      mem.BytesOf(pages)[..used]
    }

    /** Move the pages to another process. In the end they are the receiver's, or, when the kernel
        refuses, nobody's: the buffer is dropped either way. */
    method Send(to: Pid, id: nat) returns (ok: bool, ghost m: MemoryMessage)
      requires Valid() && shouldDrop
      modifies this`shouldDrop, mem`owners, mem`faults
      ensures mem.Valid() && m == MemoryMessage(id, pages, used)
      ensures ok <==> mem.faults == old(mem.faults)
      ensures mem.owners == if ok then Given(old(mem.owners), to, pages) else Freed(old(mem.owners), pages)
    {
      var message := Message(id);
      m := message;
      ok := mem.Move(me, to, message.buf);
      if ok {
        shouldDrop := false;
      }
      Drop();
    }

    /** Adopt what came back from a blocking move, which may be of another size. */
    method Adopt(m: MemoryMessage)
      requires mem.Valid() && Owns(mem.owners, me, m.buf)
      modifies this`pages, this`used, this`shouldDrop
      ensures Valid() && shouldDrop && pages == m.buf && Content() == Payload(mem, m)
    {
      OwnedInBounds(mem, me, m.buf);
      pages := m.buf;
      used := if m.valid < m.buf.Len() then m.valid else m.buf.Len();
      shouldDrop := true;
    }
  }

  /** A new buffer with the serialized value; when serializing fails the pages are unmapped again. */
  method IntoBuf(mem: Memory, me: Pid, src: seq<Byte>) returns (buf: Buffer?)
    requires mem.Valid()
    modifies mem
    ensures mem.Valid()
    ensures buf == null ==> mem.owners == old(mem.owners)
    ensures buf != null ==>
              fresh(buf) && buf.mem == mem && buf.me == me && buf.Valid() && buf.shouldDrop
              && buf.Content() == src
    ensures buf != null ==> Unowned(old(mem.owners), buf.pages) && mem.owners == Given(old(mem.owners), me, buf.pages)
    ensures buf != null ==> buf.pages.count == PagesFor(|src|)
    ensures buf != null <==> mem.faults == old(mem.faults)
  {
    PagesForFits(|src|);
    var pages := mem.Map(me, PagesFor(|src|));
    if pages == None {
      return null;
    }
    var b := new Buffer(mem, me, pages.value);
    var used := mem.Serialize(b.pages, src);
    if used == None {
      b.Drop();
      assert mem.owners == old(mem.owners);
      return null;
    }
    b.used := used.value;
    buf := b;
  }

  // ---- whole exchanges ----

  /** A moved message: the receiver decodes exactly what was sent and unmaps it when done, unless a request
      to the kernel or serializing fails. Whatever fails, every page mapped on the way has left its owner
      exactly once at the end. */
  method SendArchive(mem: Memory, client: Pid, server: Pid, id: nat, request: seq<Byte>)
    returns (ok: bool, seen: seq<Byte>)
    requires mem.Valid()
    modifies mem
    ensures mem.Valid() && mem.owners == old(mem.owners)
    ensures ok ==> seen == request
    ensures ok <==> mem.faults == old(mem.faults)
  {
    var buf := IntoBuf(mem, client, request);
    if buf == null {
      return false, [];
    }
    ghost var m;
    var range, used := buf.pages, buf.used;
    ok, m := buf.Send(server, id);
    seen := [];
    if ok {
      var message := MemoryMessage(id, range, used);
      OwnedInBounds(mem, server, range);
      seen := Payload(mem, message);
      var freed := mem.Unmap(server, message.buf);
      assert freed;
    }
    assert mem.owners == old(mem.owners);
  }

  /** A blocking call: the request is moved to the server, which answers with a buffer of any size that
      moves back and is adopted and, in the end, dropped. Whatever fails on either side, all pages are
      back where they were, and a call that completed gave the server exactly the request and the client
      exactly the response. It completes exactly when nothing fails. */
  method BlockingCall(mem: Memory, client: Pid, server: Pid, id: nat, request: seq<Byte>, response: seq<Byte>,
                      keyos: bool)
    returns (sent: bool, answered: bool, seen: seq<Byte>, got: seq<Byte>)
    requires mem.Valid()
    modifies mem
    ensures mem.Valid() && mem.owners == old(mem.owners)
    ensures sent ==> seen == request
    ensures answered ==> got == response
    ensures (answered ==> sent) && (answered <==> mem.faults == old(mem.faults))
  {
    sent, answered, seen, got := false, false, [], [];
    var buf := IntoBuf(mem, client, request);
    if buf == null {
      return;
    }
    ghost var lent := buf.pages;
    var message := buf.Message(id);
    sent := mem.Move(client, server, message.buf);
    if sent {
      OwnedInBounds(mem, server, message.buf);
      seen := Payload(mem, message);
      var reply;
      answered, reply := ReplyMove(mem, server, message, response, keyos);
      ghost var held := mem.owners;
      OwnedInBounds(mem, server, reply.buf);
      mem.Return(server, client, reply.buf);
      buf.Adopt(reply);
      got := buf.Content();
      AllBack(old(mem.owners), held, client, server, lent, reply.buf);
    }
    buf.Drop();
    assert mem.owners == old(mem.owners);
  }

  /** The client's pages go over, some of them or fresh ones come back, and dropping those leaves the
      ownership there was before. */
  lemma AllBack(o: Owners, held: Owners, client: Pid, server: Pid, lent: Range, reply: Range)
    requires Unowned(o, lent) && Replaced(Given(Given(o, client, lent), server, lent), held, server, lent, reply)
    ensures Freed(Given(held, client, reply), reply) == o
  {
    var back := Freed(Given(held, client, reply), reply);
    forall p
      ensures (p in back <==> p in o) && (p in o ==> back[p] == o[p])
    {
      assert InRange(p, lent) || InRange(p, reply) || !InRange(p, lent);
    }
  }
}
