/** The packet queue of a muxed UDP connection: a hand-built linked list of buffer holders that are
    recycled through a pool shared by all connections. Each method is one section that the source
    runs under the connection's lock, together with its pool traffic. */
module PacketQueue {
  import opened Wrappers

  type Bytes = seq<uint8>

  datatype UdpAddr = UdpAddr(ip: Bytes, port: uint16)

  datatype Packet = Packet(data: Bytes, addr: UdpAddr)

  const RECEIVE_MTU: nat := 8192

  class BufferHolder {
    var next: BufferHolder?
    var packet: Option<Packet>

    constructor ()
      ensures next == null && packet.None?
    {
      next, packet := null, None;
    }

    method Reset()
      modifies this
      ensures next == null && packet.None?
    {
      next, packet := null, None;
    }
  }

  /** A pool hands out a holder it was given back, or a new one. */
  class Pool {
    var free: set<BufferHolder>

    ghost predicate Valid()
      reads this, free
    {
      forall h :: h in free ==> h.next == null
    }

    constructor ()
      ensures Valid() && free == {}
    {
      free := {};
    }

    method Get() returns (h: BufferHolder)
      requires Valid()
      modifies this
      ensures Valid() && h.next == null && h !in free
      ensures (h in old(free) && free == old(free) - {h}) || (fresh(h) && free == old(free))
    {
      if * {
        h := new BufferHolder();
      } else {
        if free == {} {
          h := new BufferHolder();
        } else {
          h :| h in free;
          free := free - {h};
        }
      }
    }

    method Put(h: BufferHolder)
      requires Valid() && h.next == null
      modifies this
      ensures Valid() && free == old(free) + {h}
    {
      free := free + {h};
    }
  }

  /** The holder after position `i`, if there is one. */
  ghost function NextOf(nodes: seq<BufferHolder>, i: int): BufferHolder?
    requires -1 <= i < |nodes|
  {
    if i + 1 < |nodes| then nodes[i + 1] else null
  }

  datatype ConnState = Open | Waiting | Closed

  datatype WriteError = ShortBuffer | ClosedPipe

  datatype ReadOutcome = Got(packet: Packet) | TooShort | EndOfFile | Parked

  // ---- Lock sections ----

  /** What the connection's lock protects: the queued packets, oldest first, and the state. */
  datatype Queue = Queue(packets: seq<Packet>, state: ConnState)

  /** Appends a packet; the result says whether the reader must be woken. */
  function WriteSection(q: Queue, p: Packet): (Queue, Result<bool, WriteError>) {
    if |p.data| > RECEIVE_MTU then (q, Err(ShortBuffer))
    else if q.state == Closed then (q, Err(ClosedPipe))
    else (Queue(q.packets + [p], Open), Ok(q.state == Waiting))
  }

  /** One pass of the read loop, for a caller's buffer of `capacity` bytes: take the oldest packet, or
      report the end, or announce that the reader is about to wait. A packet that does not fit the
      buffer is dropped. */
  function ReadSection(q: Queue, capacity: nat): (Queue, ReadOutcome) {
    if q.packets != [] then
      (q.(packets := q.packets[1..]), if capacity < |q.packets[0].data| then TooShort else Got(q.packets[0]))
    else if q.state == Closed then (q, EndOfFile)
    else (q.(state := Waiting), Parked)
  }

  function CloseSection(q: Queue): Queue { Queue([], Closed) }

  // ---- The linked list ----

  class MuxedConn {
    const pool: Pool
    var head: BufferHolder?  // newest packet
    var tail: BufferHolder?  // oldest packet
    var state: ConnState
    ghost var nodes: seq<BufferHolder>

    /** `nodes` is the list from tail to head: consecutive and without repetition. */
    ghost predicate ListIsRight()
      reads this, nodes
    {
      && (if nodes == [] then tail == null && head == null else tail == nodes[0] && head == nodes[|nodes| - 1])
      && (forall i {:trigger nodes[i]} :: 0 <= i < |nodes| ==> nodes[i].next == NextOf(nodes, i))
      && (forall i {:trigger nodes[i]} :: 0 <= i < |nodes| ==> nodes[i].packet.Some?)
      && (forall i, j :: 0 <= i < j < |nodes| ==> nodes[i] != nodes[j])
      && (state == Closed ==> nodes == [])
    }

    /** Besides, no listed holder is in the pool. */
    ghost predicate Valid()
      reads this, nodes, pool
    {
      ListIsRight() && forall i :: 0 <= i < |nodes| ==> nodes[i] !in pool.free
    }

    /** The queued packets, oldest first. */
    ghost function Packets(): (ps: seq<Packet>)
      reads this, nodes
      ensures |ps| == |nodes|
    {
      seq(|nodes|, i requires 0 <= i < |nodes| reads this, nodes =>
          if nodes[i].packet.Some? then nodes[i].packet.value else Packet([], UdpAddr([], 0)))
    }

    ghost function Contents(): Queue
      reads this, nodes
    {
      Queue(Packets(), state)
    }

    constructor (pool: Pool)
      ensures this.pool == pool && Valid() && Contents() == Queue([], Open) && nodes == []
    {
      this.pool := pool;
      head, tail, state := null, null, Open;
      nodes := [];
    }

    /** Appends a packet. The caller must wake the reader when `wake` is set. */
    method WritePacket(data: Bytes, addr: UdpAddr) returns (r: Result<bool, WriteError>)
      requires Valid() && pool.Valid()
      modifies this, pool, nodes, pool.free
      ensures Valid() && pool.Valid()
      ensures (Contents(), r) == WriteSection(old(Contents()), Packet(data, addr))
      ensures OnlyMoved(this, old(nodes), old(pool.free))
    {
      var pkt := TakeHolder();
      if |data| > RECEIVE_MTU {
        GiveBack(pkt);
        return Err(ShortBuffer);
      }
      Fill(pkt, Packet(data, addr));
      if state == Closed {
        GiveBack(pkt);
        return Err(ClosedPipe);
      }
      r := Ok(state == Waiting);
      Link(pkt);
    }

    method Fill(pkt: BufferHolder, packet: Packet)
      requires Valid() && pool.Valid() && pkt !in nodes && pkt !in pool.free
      modifies pkt`packet
      ensures Valid() && pool.Valid() && Packets() == old(Packets()) && pkt.packet == Some(packet)
    {
      pkt.packet := Some(packet);
    }

    method TakeHolder() returns (pkt: BufferHolder)
      requires Valid() && pool.Valid()
      modifies pool
      ensures Valid() && pool.Valid() && Packets() == old(Packets())
      ensures pkt.next == null && pkt !in nodes && pkt !in pool.free
      ensures pkt in old(pool.free) || fresh(pkt)
      ensures pool.free <= old(pool.free)
    {
      pkt := pool.Get();
    }

    method GiveBack(pkt: BufferHolder)
      requires Valid() && pool.Valid() && pkt !in nodes && pkt !in pool.free
      modifies pool, pkt
      ensures Valid() && pool.Valid() && Packets() == old(Packets())
      ensures pool.free == old(pool.free) + {pkt}
    {
      pkt.Reset();
      pool.Put(pkt);
    }

    /** Appends a filled holder that nothing else refers to, and leaves the waiting state. */
    method Link(pkt: BufferHolder)
      requires Valid() && state != Closed
      requires pkt.next == null && pkt.packet.Some? && pkt !in nodes && pkt !in pool.free
      requires pool.Valid()
      modifies this`head, this`tail, this`nodes, this`state, nodes
      ensures Valid() && pool.Valid() && nodes == old(nodes) + [pkt] && state == Open
      ensures Packets() == old(Packets()) + [old(pkt.packet.value)]
    {
      if head != null {
        head.next := pkt;
      }
      head := pkt;
      if tail == null {
        tail := pkt;
      }
      nodes := nodes + [pkt];
      state := Open;
      assert forall i {:trigger nodes[i]} :: 0 <= i < |nodes| ==> nodes[i].next == NextOf(nodes, i) by {
        assert forall i {:trigger nodes[i]} :: 0 <= i < |old(nodes)| ==> nodes[i] == old(nodes)[i];
      }
    }

    /** Takes the oldest holder off the list. */
    method Unlink() returns (pkt: BufferHolder)
      requires Valid() && pool.Valid() && tail != null
      modifies this`head, this`tail, this`nodes
      ensures Valid() && pool.Valid() && nodes == old(nodes)[1..] && pkt == old(nodes)[0] && pkt !in nodes
      ensures pkt !in pool.free
      ensures Packets() == old(Packets())[1..] && pkt.packet == Some(old(Packets())[0])
    {
      pkt := tail;
      tail := pkt.next;
      if pkt == head {
        head := null;
      }
      nodes := nodes[1..];
    }

    method ReadFrom(capacity: nat) returns (r: ReadOutcome)
      requires Valid() && pool.Valid()
      modifies this, pool, nodes
      ensures Valid() && pool.Valid()
      ensures (Contents(), r) == ReadSection(old(Contents()), capacity)
      ensures OnlyMoved(this, old(nodes), old(pool.free))
    {
      if tail != null {
        var pkt := Unlink();
        var packet := pkt.packet.value;
        r := if capacity < |packet.data| then TooShort else Got(packet);
        GiveBack(pkt);
        return;
      }
      if state == Closed {
        return EndOfFile;
      }
      state := Waiting;
      return Parked;
    }

    /** Drops all queued packets back into the pool. */
    method Close()
      requires Valid() && pool.Valid()
      modifies this, pool, nodes
      ensures Valid() && pool.Valid()
      ensures Contents() == CloseSection(old(Contents()))
      ensures OnlyMoved(this, old(nodes), old(pool.free))
      ensures forall h :: h in old(nodes) ==> h in pool.free
    {
      if state != Closed {
        Drain();
        head, tail := null, null;
        nodes := [];
        state := Closed;
      }
    }

    /** Walks the list and puts every holder back into the pool. */
    method Drain()
      requires Valid() && pool.Valid()
      modifies pool, nodes
      ensures pool.Valid() && old(pool.free) <= pool.free
      ensures forall h :: h in nodes ==> h in pool.free
      ensures forall h :: h in pool.free ==> h in old(pool.free) || h in nodes
    {
      ghost var n := 0;
      var pkt := tail;
      while pkt != null
        invariant 0 <= n <= |nodes|
        invariant pkt == NextOf(nodes, n - 1)
        invariant forall i {:trigger nodes[i]} :: n <= i < |nodes| ==> nodes[i].next == NextOf(nodes, i)
        invariant forall i :: n <= i < |nodes| ==> nodes[i] !in pool.free
        invariant pool.Valid() && old(pool.free) <= pool.free
        invariant forall i :: 0 <= i < n ==> nodes[i] in pool.free
        invariant forall h :: h in pool.free ==> h in old(pool.free) || h in nodes
        decreases |nodes| - n
      {
        var next := pkt.next;
        pkt.Reset();
        pool.Put(pkt);
        pkt := next;
        n := n + 1;
      }
    }
  }

  /** Holders only move between the pool and this connection's queue, or are new. */
  twostate predicate OnlyMoved(c: MuxedConn, nodes: seq<BufferHolder>, free: set<BufferHolder>)
    reads c, c.pool
  {
    && (forall h :: h in c.nodes ==> h in nodes || h in free || fresh(h))
    && (forall h :: h in c.pool.free ==> h in nodes || h in free || fresh(h))
  }

  // ---- Several connections on one pool ----

  /** Two connections share no holder. */
  ghost predicate Disjoint(c: MuxedConn, d: MuxedConn)
    reads c, d
  {
    forall h :: h in c.nodes ==> h !in d.nodes
  }

  /** What one connection does to the shared pool never reaches into another connection's queue. */
  twostate lemma OtherQueueIsUntouched(c: MuxedConn, d: MuxedConn)
    requires c != d && c.pool == d.pool
    requires old(d.Valid()) && old(Disjoint(c, d))
    requires unchanged(d) && unchanged(old(d.nodes))
    requires OnlyMoved(c, old(c.nodes), old(c.pool.free))
    ensures d.Valid() && Disjoint(c, d) && d.Packets() == old(d.Packets())
  {
    assert d.ListIsRight() && d.Packets() == old(d.Packets()) by {
      hide *;
    }
    hide MuxedConn.ListIsRight, MuxedConn.Packets;
    forall h | h in d.nodes ensures h !in c.nodes && h !in d.pool.free {
      assert h !in old(c.nodes) && h !in old(c.pool.free);
    }
  }
}
