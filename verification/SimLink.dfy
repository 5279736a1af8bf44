/**
 The simulated link: a rate-limited, drop-tail queue with a fixed latency and a
 cyclic loss mask. The link is a linked queue of packets with first and last
 pointers; the value functions below say what each operation does to its
 abstract value.
 */
module SimLink {
  import opened Words

  // ----- The abstract value of a link -----

  datatype PacketValue = PacketValue(arrival: nat, bytes: seq<Byte>)

  datatype LinkValue = LinkValue(
    queueTime: nat,
    queueDelayMax: nat,
    picosecPerByte: nat,
    latency: nat,
    dropped: nat,
    sent: nat,
    queue: seq<PacketValue>)

  /** The time is that of the bytes at the given rate, in units of 2^20 picoseconds
      rounded down, but at least one. */
  predicate TakesTime(picosecPerByte: nat, length: nat, t: nat) {
    var picosec := picosecPerByte * length;
    if picosec < 0x10_0000 then t == 1 else t * 0x10_0000 <= picosec < (t + 1) * 0x10_0000
  }

  function TransmitTime(picosecPerByte: nat, length: nat): (t: nat)
    ensures t >= 1
    ensures TakesTime(picosecPerByte, length, t)
  {
    var t := picosecPerByte * length / 0x10_0000;
    if t <= 0 then 1 else t
  }

  function QueueDelay(l: LinkValue, now: nat): nat {
    if now > l.queueTime then 0 else l.queueTime - now
  }

  /** The link takes the packet in; otherwise the queue is full. */
  predicate Admits(l: LinkValue, now: nat) {
    l.queueDelayMax == 0 || QueueDelay(l, now) < l.queueDelayMax
  }

  /** The clock of the queue once the packet has been transmitted. */
  function Finish(l: LinkValue, length: nat, now: nat): nat {
    now + QueueDelay(l, now) + TransmitTime(l.picosecPerByte, length)
  }

  function Submitted(l: LinkValue, bytes: seq<Byte>, now: nat, lost: bool): LinkValue {
    if !Admits(l, now) then
      l.(dropped := l.dropped + 1)
    else
      var finish := Finish(l, |bytes|, now);
      if lost then
        l.(queueTime := finish, dropped := l.dropped + 1)
      else
        l.(queueTime := finish, sent := l.sent + 1,
           queue := l.queue + [PacketValue(finish + l.latency, bytes)])
  }

  predicate HasArrived(l: LinkValue, now: nat) {
    l.queue != [] && l.queue[0].arrival <= now
  }

  function Dequeued(l: LinkValue, now: nat): LinkValue {
    if HasArrived(l, now) then l.(queue := l.queue[1..]) else l
  }

  function NextArrival(l: LinkValue, now: nat): nat {
    if l.queue != [] && l.queue[0].arrival < now then l.queue[0].arrival else now
  }

  /** Packets wait in strictly increasing order of arrival, none of them later
      than the queue's clock plus the latency. */
  ghost predicate Ordered(l: LinkValue) {
    && (forall i, j :: 0 <= i < j < |l.queue| ==> l.queue[i].arrival < l.queue[j].arrival)
    && (forall i :: 0 <= i < |l.queue| ==> l.queue[i].arrival <= l.queueTime + l.latency)
  }

  lemma SubmittedStaysOrdered(l: LinkValue, bytes: seq<Byte>, now: nat, lost: bool)
    requires Ordered(l)
    ensures Ordered(Submitted(l, bytes, now, lost))
    ensures Admits(l, now) ==> Submitted(l, bytes, now, lost).queueTime > l.queueTime
  {
  }

  /** Looking at the head alone gives the earliest arrival of all: the answer is
      a lower bound of the given time and of every queued arrival, and is one of them. */
  lemma NextArrivalIsEarliest(l: LinkValue, now: nat)
    requires Ordered(l)
    ensures NextArrival(l, now) <= now
    ensures forall p :: p in l.queue ==> NextArrival(l, now) <= p.arrival
    ensures NextArrival(l, now) == now || exists p :: p in l.queue && NextArrival(l, now) == p.arrival
  {
    if l.queue != [] && l.queue[0].arrival < now {
      assert l.queue[0] in l.queue;
    }
  }

  // ----- The mask -----

  function TakesLoss(mask: Option<Mask>): bool {
    mask.Some? && mask.value[0]
  }

  function Rotated(mask: Option<Mask>): Option<Mask> {
    if mask.Some? then Some(RotateRight(mask.value)) else None
  }

  // ----- The objects -----

  /** Something queued arrives before the given time. */
  ghost predicate ArrivesBefore(l: LinkValue, time: nat) {
    exists p :: p in l.queue && p.arrival < time
  }

  lemma EarlyArrivalAtHead(l: LinkValue, time: nat, next: nat)
    requires Ordered(l) && time <= next
    ensures ArrivesBefore(l, time) <==> NextArrival(l, next) < time
  {
    NextArrivalIsEarliest(l, next);
  }

  /** The loss mask lives outside the links, which hold pointers to it. */
  class LossMask {
    var bits: Mask

    constructor (bits: Mask)
      ensures this.bits == bits
    {
      this.bits := bits;
    }
  }

  class Packet {
    var next: Packet?
    var arrivalTime: nat
    var bytes: seq<Byte>

    constructor ()
      ensures next == null && arrivalTime == 0 && bytes == []
    {
      next, arrivalTime, bytes := null, 0, [];
    }

    function Value(): PacketValue
      reads this
    {
      PacketValue(arrivalTime, bytes)
    }
  }

  class Link {
    var queueTime: nat
    var queueDelayMax: nat
    var picosecPerByte: nat
    var latency: nat
    var lossMask: LossMask?
    var packetsDropped: nat
    var packetsSent: nat
    var firstPacket: Packet?
    var lastPacket: Packet?
    ghost var nodes: seq<Packet>
    ghost var contents: seq<PacketValue>

    /** `nodes` are the packets met from firstPacket on: all different, each
        linked to the one after it, and ending at lastPacket. `contents` is
        what they hold. */
    ghost predicate Valid()
      reads this, nodes
    {
      && (nodes == [] ==> firstPacket == null && lastPacket == null)
      && (nodes != [] ==> firstPacket == nodes[0] && lastPacket == nodes[|nodes| - 1] && lastPacket.next == null)
      && (forall i, j :: 0 <= i < j < |nodes| ==> nodes[i] != nodes[j])
      && (forall i :: 0 <= i < |nodes| - 1 ==> nodes[i].next == nodes[i + 1])
      && |contents| == |nodes|
      && (forall i :: 0 <= i < |nodes| ==> contents[i] == nodes[i].Value())
    }

    ghost function Value(): LinkValue
      reads this
    {
      LinkValue(queueTime, queueDelayMax, picosecPerByte, latency, packetsDropped, packetsSent, contents)
    }

    ghost function MaskValue(): Option<Mask>
      reads this, lossMask
    {
      if lossMask == null then None else Some(lossMask.bits)
    }

    constructor (picosecPerByte: nat, latency: nat, lossMask: LossMask?, queueDelayMax: nat, now: nat)
      ensures Valid() && nodes == [] && this.lossMask == lossMask
      ensures Value() == LinkValue(now, queueDelayMax, picosecPerByte, latency, 0, 0, [])
    {
      this.queueTime := now;
      this.queueDelayMax := queueDelayMax;
      this.picosecPerByte := picosecPerByte;
      this.latency := latency;
      this.packetsDropped, this.packetsSent := 0, 0;
      this.firstPacket, this.lastPacket := null, null;
      this.lossMask := lossMask;
      this.nodes, this.contents := [], [];
    }

    method NextArrivalTime(now: nat) returns (t: nat)
      requires Valid()
      ensures t == NextArrival(Value(), now)
    {
      t := now;
      if firstPacket != null && firstPacket.arrivalTime < now {
        t := firstPacket.arrivalTime;
      }
    }

    method Dequeue(now: nat) returns (packet: Packet?)
      requires Valid()
      modifies this`firstPacket, this`lastPacket, this`nodes, this`contents
      ensures Valid()
      ensures packet != null <==> old(contents) != [] && old(contents)[0].arrival <= now
      ensures packet != null ==>
                packet.Value() == old(Value()).queue[0] && packet == old(nodes)[0] && nodes == old(nodes)[1..]
      ensures packet == null ==> nodes == old(nodes)
      ensures lastPacket == old(lastPacket) || lastPacket == null
      ensures Value() == Dequeued(old(Value()), now)
    {
      packet := firstPacket;
      if packet != null && packet.arrivalTime <= now {
        firstPacket := packet.next;
        if firstPacket == null {
          lastPacket := null;
        }
        nodes, contents := nodes[1..], contents[1..];
      } else {
        packet := null;
      }
    }

    /** Links the packet in at the end of the queue. */
    method Append(packet: Packet, arrival: nat)
      requires Valid() && packet !in nodes
      modifies this`firstPacket, this`lastPacket, this`nodes, this`contents, lastPacket, packet
      ensures Valid()
      ensures nodes == old(nodes) + [packet]
      ensures contents == old(contents) + [PacketValue(arrival, old(packet.bytes))]
    {
      if lastPacket == null {
        firstPacket := packet;
      } else {
        lastPacket.next := packet;
      }
      lastPacket := packet;
      packet.next := null;
      packet.arrivalTime := arrival;
      nodes, contents := nodes + [packet], contents + [packet.Value()];
    }

    /** Draws the fate of an admitted packet: dropped, or appended to the queue. */
    method Transmit(packet: Packet)
      requires Valid() && packet !in nodes
      modifies this, lastPacket, packet, lossMask
      ensures Valid() && MaskValue() == Rotated(old(MaskValue())) && unchanged(`lossMask)
      ensures || (nodes == old(nodes) && unchanged(`lastPacket))
              || (nodes == old(nodes) + [packet] && lastPacket == packet)
      ensures var l := old(Value());
              Value() == if old(TakesLoss(MaskValue())) then l.(dropped := l.dropped + 1)
                         else l.(sent := l.sent + 1,
                                 queue := l.queue + [PacketValue(l.queueTime + l.latency, old(packet.bytes))])
    {
      var lost := TestLoss(lossMask);
      if lost {
        packetsDropped := packetsDropped + 1;
      } else {
        packetsSent := packetsSent + 1;
        Append(packet, queueTime + latency);
      }
    }

    method Submit(packet: Packet, now: nat)
      requires Valid() && packet !in nodes
      modifies this, lastPacket, packet, lossMask
      ensures Valid() && unchanged(`lossMask)
      ensures || (nodes == old(nodes) && unchanged(`lastPacket))
              || (nodes == old(nodes) + [packet] && lastPacket == packet)
      ensures Value() == Submitted(old(Value()), old(packet.bytes), now, old(TakesLoss(MaskValue())))
      ensures MaskValue() == if Admits(old(Value()), now) then Rotated(old(MaskValue())) else old(MaskValue())
    {
      hide TransmitTime, TakesTime;
      var queueDelay := if now > queueTime then 0 else queueTime - now;
      var transmitTime := TransmitTime(picosecPerByte, |packet.bytes|);
      if queueDelayMax == 0 || queueDelay < queueDelayMax {
        queueTime := now + queueDelay + transmitTime;
        Transmit(packet);
      } else {
        packetsDropped := packetsDropped + 1;
      }
    }

    /** Submits a newly created packet. */
    method SubmitNew(bytes: seq<Byte>, now: nat)
      requires Valid()
      modifies this, lastPacket, lossMask
      ensures Valid() && unchanged(`lossMask)
      ensures (nodes == old(nodes) && unchanged(`lastPacket))
           || (lastPacket != null && fresh(lastPacket) && nodes == old(nodes) + [lastPacket])
      ensures Value() == Submitted(old(Value()), bytes, now, old(TakesLoss(MaskValue())))
      ensures MaskValue() == if Admits(old(Value()), now) then Rotated(old(MaskValue())) else old(MaskValue())
    {
      var packet := new Packet();
      packet.bytes := bytes;
      assert Valid() && Value() == old(Value()) && MaskValue() == old(MaskValue());
      Submit(packet, now);
    }

    /** Walks the queue to its end, releasing every packet. */
    method Delete() returns (freed: nat)
      requires Valid()
      modifies this`firstPacket, this`nodes, this`contents
      ensures firstPacket == null && freed == |old(nodes)|
    {
      freed := 0;
      while firstPacket != null
        invariant freed <= |old(nodes)| && nodes == old(nodes)[freed..]
        invariant firstPacket == if nodes == [] then null else nodes[0]
        decreases |nodes|
      {
        var packet := firstPacket;
        firstPacket := packet.next;
        nodes := nodes[1..];
        freed := freed + 1;
      }
    }
  }

  /** Reads the last bit of the mask and rotates the mask in place. */
  method TestLoss(lossMask: LossMask?) returns (lost: bool)
    modifies lossMask
    ensures lossMask == null ==> !lost
    ensures lossMask != null ==> lost == old(lossMask.bits)[0] && lossMask.bits == RotateRight(old(lossMask.bits))
  {
    lost := false;
    if lossMask != null {
      lost := lossMask.bits[0];
      lossMask.bits := lossMask.bits[1..] + [lost];
    }
  }
}
