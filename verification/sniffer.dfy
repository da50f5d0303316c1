/** The `NetworkSniffer` of functions/logs/network/sniffer.ts: its callback
    registry and the packet record it builds from the capture buffer. Opening and
    closing the capture device is not modelled; the decoded Ethernet header is
    an input. */
module Sniffer {
  import opened Bytes
  import Seqs

  /** The identity of a callback function object (`===` on functions). */
  type CallbackId = nat

  datatype Sniffer = Sniffer(device: string, callbacks: seq<CallbackId>)

  /** A sniffer as the constructor leaves it: no callbacks. */
  function New(device: string): (r: Sniffer)
    ensures r.device == device && r.callbacks == []
  {
    Sniffer(device, [])
  }

  /** How often `cb` is registered. */
  function Count(cbs: seq<CallbackId>, cb: CallbackId): nat {
    multiset(cbs)[cb]
  }

  /** `onPacket`: registers `cb` once more, at the end. */
  function OnPacket(s: Sniffer, cb: CallbackId): (r: Sniffer)
    ensures |r.callbacks| == |s.callbacks| + 1 && r.callbacks[|s.callbacks|] == cb
    ensures r.callbacks[..|s.callbacks|] == s.callbacks
    ensures Count(r.callbacks, cb) == Count(s.callbacks, cb) + 1
    ensures forall other :: other != cb ==> Count(r.callbacks, other) == Count(s.callbacks, other)
    ensures r.device == s.device
  {
    var r := s.(callbacks := s.callbacks + [cb]);
    assert r.callbacks[..|s.callbacks|] == s.callbacks;
    r
  }

  /** `offPacket`: drops every registration of `cb` and keeps the others in order. */
  function OffPacket(s: Sniffer, cb: CallbackId): (r: Sniffer)
    ensures cb !in r.callbacks
    ensures Seqs.IsSubseq(r.callbacks, s.callbacks)
    ensures forall other :: other != cb ==> Count(r.callbacks, other) == Count(s.callbacks, other)
    ensures cb !in s.callbacks ==> r == s
    ensures r.device == s.device
  {
    Seqs.FilterSpec(x => x != cb, s.callbacks);
    Seqs.FilterKeepsAll(x => x != cb, s.callbacks);
    s.(callbacks := Seqs.Filter(x => x != cb, s.callbacks))
  }

  /** Removing twice is removing once. */
  lemma OffPacketIdempotent(s: Sniffer, cb: CallbackId)
    ensures OffPacket(OffPacket(s, cb), cb) == OffPacket(s, cb)
  {
  }

  /** Registering and then unregistering a callback leaves the others as they were
      and drops the callback entirely, earlier registrations included. */
  lemma OffUndoesOn(s: Sniffer, cb: CallbackId)
    ensures OffPacket(OnPacket(s, cb), cb) == OffPacket(s, cb)
  {
    Seqs.FilterSnoc(x => x != cb, s.callbacks, cb);
  }

  // ---------------------------------------------------------------------------
  // Packets

  const BufferSize: nat := 65535
  const EthernetHeaderSize: nat := 14

  /** What `decoders.Ethernet` reports about the frame header. */
  datatype Header = Header(srcMac: string, dstMac: string, ethertype: int)

  datatype Ethernet = Ethernet(srcMac: string, dstMac: string, ethertype: int, payload: seq<byte>)

  datatype Packet = Packet(timestamp: int, length: nat, linkType: string, ethernet: Ethernet)

  /** `buf.slice(start, end)` for non-negative bounds: both are clamped to the
      buffer, and an end before the start gives an empty slice. */
  function Slice(buf: seq<byte>, start: nat, end: nat): (r: seq<byte>)
    ensures start <= end <= |buf| ==> r == buf[start..end]
    ensures end <= start ==> r == []
    ensures start <= |buf| < end ==> r == buf[start..]
    ensures |r| <= |buf|
  {
    var lo := Seqs.Min(start, |buf|);
    var hi := Seqs.Min(end, |buf|);
    if hi <= lo then [] else buf[lo..hi]
  }

  /** The record built for a captured frame of `nbytes` bytes: its length is
      `nbytes`, and its payload is what follows the 14-byte Ethernet header up to
      the frame's end, within the capture buffer. */
  function MakePacket(nbytes: nat, buffer: seq<byte>, linkType: string, header: Header, now: int): (r: Packet)
    requires |buffer| == BufferSize
    ensures r.length == nbytes && r.linkType == linkType && r.timestamp == now
    ensures r.ethernet.srcMac == header.srcMac && r.ethernet.dstMac == header.dstMac
    ensures r.ethernet.ethertype == header.ethertype
    ensures EthernetHeaderSize <= nbytes <= BufferSize ==>
      r.ethernet.payload == buffer[EthernetHeaderSize..nbytes] && |r.ethernet.payload| == nbytes - EthernetHeaderSize
    ensures nbytes <= EthernetHeaderSize ==> r.ethernet.payload == []
    ensures nbytes > BufferSize ==> r.ethernet.payload == buffer[EthernetHeaderSize..]
  {
    Packet(now, nbytes, linkType,
           Ethernet(header.srcMac, header.dstMac, header.ethertype, Slice(buffer, EthernetHeaderSize, nbytes)))
  }

  /** The calls `callbacks.forEach(cb => cb(packet))` makes, in order. */
  function Deliver(s: Sniffer, p: Packet): (r: seq<(CallbackId, Packet)>)
    ensures |r| == |s.callbacks|
    ensures forall i :: 0 <= i < |r| ==> r[i] == (s.callbacks[i], p)
  {
    seq(|s.callbacks|, i requires 0 <= i < |s.callbacks| => (s.callbacks[i], p))
  }

  /** Delivery follows registration order: a callback registered last is called
      last, after everything registered before it. */
  lemma DeliverOrder(s: Sniffer, cb: CallbackId, p: Packet)
    ensures Deliver(OnPacket(s, cb), p) == Deliver(s, p) + [(cb, p)]
  {
    var t := OnPacket(s, cb);
    assert forall i :: 0 <= i < |s.callbacks| ==> t.callbacks[i] == s.callbacks[i];
  }

  /** How often callback `cb` receives the packet. */
  function Calls(s: Sniffer, p: Packet, cb: CallbackId): nat {
    multiset(Deliver(s, p))[(cb, p)]
  }

  /** Each callback receives every packet once per registration. */
  lemma {:induction false} CallsPerRegistration(s: Sniffer, p: Packet, cb: CallbackId)
    ensures Calls(s, p, cb) == Count(s.callbacks, cb)
    decreases |s.callbacks|
  {
    if s.callbacks != [] {
      var t := s.(callbacks := s.callbacks[1..]);
      CallsPerRegistration(t, p, cb);
      CallsCons(s, p, cb);
      CountCons(s.callbacks, cb);
    }
  }

  lemma CallsCons(s: Sniffer, p: Packet, cb: CallbackId)
    requires s.callbacks != []
    ensures Calls(s, p, cb) ==
      Calls(s.(callbacks := s.callbacks[1..]), p, cb) + (if s.callbacks[0] == cb then 1 else 0)
  {
    var t := s.(callbacks := s.callbacks[1..]);
    var h := s.callbacks[0];
    assert Deliver(s, p) == [(h, p)] + Deliver(t, p);
    assert multiset(Deliver(s, p)) == multiset([(h, p)]) + multiset(Deliver(t, p));
  }

  lemma CountCons(cbs: seq<CallbackId>, cb: CallbackId)
    requires cbs != []
    ensures Count(cbs, cb) == Count(cbs[1..], cb) + (if cbs[0] == cb then 1 else 0)
  {
    assert cbs == [cbs[0]] + cbs[1..];
    assert multiset(cbs) == multiset([cbs[0]]) + multiset(cbs[1..]);
  }

  /** A new sniffer calls nobody, and unregistering from it changes nothing; after
      one registration exactly that callback is called, once. */
  lemma NewIsSilent(device: string, p: Packet, cb: CallbackId, other: CallbackId)
    requires other != cb
    ensures Deliver(New(device), p) == []
    ensures OffPacket(New(device), cb) == New(device)
    ensures Calls(OnPacket(New(device), cb), p, cb) == 1
    ensures Calls(OnPacket(New(device), cb), p, other) == 0
  {
    CallsPerRegistration(OnPacket(New(device), cb), p, cb);
    CallsPerRegistration(OnPacket(New(device), cb), p, other);
  }

  /** An unregistered callback is never called again; one registered twice is
      called twice. */
  lemma DeliveryAfterRegistration(s: Sniffer, p: Packet, cb: CallbackId)
    ensures Calls(OffPacket(s, cb), p, cb) == 0
    ensures Calls(OnPacket(OnPacket(s, cb), cb), p, cb) == Count(s.callbacks, cb) + 2
  {
    CallsPerRegistration(OffPacket(s, cb), p, cb);
    CallsPerRegistration(OnPacket(OnPacket(s, cb), cb), p, cb);
  }
}
