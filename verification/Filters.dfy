/** Capture filters: hints that complete a partial plaintext record, and a test on wire packets. */
module Filters {
  import opened Records

  datatype CaptureFilters = CaptureFilters(ports: seq<Port>, peerIPs: seq<Address>, peerNets: seq<string>) {
    predicate Active() {
      ports != [] || peerIPs != [] || peerNets != []
    }

    function SinglePeer(): Option<Address> {
      if |peerIPs| == 1 then Some(peerIPs[0]) else None
    }

    function SinglePort(): Port {
      if |ports| == 1 then ports[0] else 0
    }
  }

  // ---------------------------------------------------------------------------------------------
  // Completing a record

  function ApplyWorkloadTuple(m: GenericMap, peer: Address, port: Port): GenericMap {
    var src := Addr(m, "SrcAddr");
    if src.Some? && src.value != peer then m
    else
      var r := m["Proto" := Float(6.0)]["SrcAddr" := Text(peer)];
      var p := PortAt(r, "SrcPort");
      if port > 0 && (p.None? || p.value == 0) then r["SrcPort" := U16(port)] else r
  }

  function Enrich(m: GenericMap, f: CaptureFilters): GenericMap {
    if HasTuple(m) then m
    else if f.SinglePeer().Some? then ApplyWorkloadTuple(m, f.SinglePeer().value, f.SinglePort())
    else if f.SinglePort() > 0 then
      var p := PortAt(m, "SrcPort");
      if p.Some? && p.value > 0 then m else m["Proto" := Float(6.0)]["SrcPort" := U16(f.SinglePort())]
    else m
  }

  /** Applying the hints again, as every later scan of a pending record does, changes nothing. */
  lemma EnrichIdempotent(m: GenericMap, f: CaptureFilters)
    ensures Enrich(Enrich(m, f), f) == Enrich(m, f)
  {
    var e := Enrich(m, f);
    if !HasTuple(m) && f.SinglePeer().Some? && !HasTuple(e) {
      assert Enrich(e, f) == ApplyWorkloadTuple(e, f.SinglePeer().value, f.SinglePort());
      assert Field(e, "SrcAddr") == Field(m, "SrcAddr") || Field(e, "SrcAddr") == Text(f.SinglePeer().value);
    }
  }

  /** The hints never replace a known local address or a known local port, and never reach another field. */
  lemma EnrichKeepsKnown(m: GenericMap, f: CaptureFilters)
    ensures Addr(m, "SrcAddr").Some? ==> Addr(Enrich(m, f), "SrcAddr") == Addr(m, "SrcAddr")
    ensures PortAt(m, "SrcPort").Some? && PortAt(m, "SrcPort").value > 0 ==>
              PortAt(Enrich(m, f), "SrcPort") == PortAt(m, "SrcPort")
    ensures forall k :: k !in {"SrcAddr", "SrcPort", "Proto"} ==> Field(Enrich(m, f), k) == Field(m, k)
    ensures HasTuple(m) ==> Enrich(m, f) == m
  {
    if Addr(m, "SrcAddr").Some? {
      ValidIPCanonical(Field(m, "SrcAddr"));
    }
  }

  /** A local endpoint the record does not know, or knows to be the filtered peer. */
  predicate OpenForPeer(m: GenericMap, peer: Address) {
    !HasTuple(m) && (Addr(m, "SrcAddr").None? || Addr(m, "SrcAddr").value == peer)
  }

  predicate LacksLocalPort(m: GenericMap) {
    !HasTuple(m) && (PortAt(m, "SrcPort").None? || PortAt(m, "SrcPort").value == 0)
  }

  /** What the hints do supply: a single filtered peer becomes the local address unless another one is known, and a
      single filtered port becomes the local port unless one is known or the peer hint was turned down; several peers or
      several ports are no hint. */
  lemma EnrichSupplies(m: GenericMap, f: CaptureFilters, peer: Address, port: Port)
    ensures f.peerIPs == [peer] && OpenForPeer(m, peer) ==>
      Field(Enrich(m, f), "SrcAddr") == Text(peer) && Field(Enrich(m, f), "Proto") == Float(6.0)
    ensures f.ports == [port] && port > 0 && LacksLocalPort(m)
            && (|f.peerIPs| == 1 ==> OpenForPeer(m, f.peerIPs[0])) ==>
      Field(Enrich(m, f), "SrcPort") == U16(port) && Field(Enrich(m, f), "Proto") == Float(6.0)
    ensures f.peerIPs == [peer] && !OpenForPeer(m, peer) ==> Enrich(m, f) == m
    ensures |f.peerIPs| != 1 && (|f.ports| != 1 || !LacksLocalPort(m)) ==> Enrich(m, f) == m
    ensures |f.ports| != 1 ==> Field(Enrich(m, f), "SrcPort") == Field(m, "SrcPort")
    ensures |f.peerIPs| != 1 ==> Field(Enrich(m, f), "SrcAddr") == Field(m, "SrcAddr")
  {
  }

  // ---------------------------------------------------------------------------------------------
  // Testing a wire packet

  predicate HasPort(m: GenericMap, p: Port) {
    PortAt(m, "SrcPort") == Some(p) || PortAt(m, "DstPort") == Some(p)
  }

  predicate HasIP(m: GenericMap, ip: string) {
    (Addr(m, "SrcAddr").Some? && Addr(m, "SrcAddr").value == ip) ||
    (Addr(m, "DstAddr").Some? && Addr(m, "DstAddr").value == ip)
  }

  predicate InNet(ip: Option<Address>, net: string) {
    ip.Some? && NetContains(net, ip.value)
  }

  predicate HasIPIn(m: GenericMap, net: string) {
    InNet(Addr(m, "SrcAddr"), net) || InNet(Addr(m, "DstAddr"), net)
  }

  /** Every kind of filter that is set has a member the packet's endpoints satisfy. */
  predicate MatchesFilters(m: GenericMap, f: CaptureFilters) {
    && f.Active()
    && (f.ports != [] ==> exists p :: p in f.ports && HasPort(m, p))
    && (f.peerIPs != [] ==> exists ip :: ip in f.peerIPs && HasIP(m, ip))
    && (f.peerNets != [] ==> exists net :: net in f.peerNets && HasIPIn(m, net))
  }

  /** For a packet with a tuple: some filter is set, and of each kind that is set some member holds of either end. */
  lemma FiltersOnTuple(m: GenericMap, f: CaptureFilters, t: FlowTuple)
    requires TupleOf(m) == Some(t)
    ensures MatchesFilters(m, f) <==>
      && (f.ports != [] || f.peerIPs != [] || f.peerNets != [])
      && (f.ports == [] || t.srcPort in f.ports || t.dstPort in f.ports)
      && (f.peerIPs == [] || t.srcIP in f.peerIPs || t.dstIP in f.peerIPs)
      && (f.peerNets == [] ||
            exists net | net in f.peerNets :: NetContains(net, t.srcIP) || NetContains(net, t.dstIP))
  {
    assert forall p: Port :: HasPort(m, p) <==> p in {t.srcPort, t.dstPort};
    assert forall ip :: HasIP(m, ip) <==> ip == t.srcIP || ip == t.dstIP;
    assert forall net :: HasIPIn(m, net) <==> NetContains(net, t.srcIP) || NetContains(net, t.dstIP);
    hide HasPort, HasIP, HasIPIn, TupleOf;
    assert t.srcPort in f.ports ==> HasPort(m, t.srcPort);
    assert t.dstPort in f.ports ==> HasPort(m, t.dstPort);
    assert t.srcIP in f.peerIPs ==> HasIP(m, t.srcIP);
    assert t.dstIP in f.peerIPs ==> HasIP(m, t.dstIP);
  }

  method WirePacketMatchesCaptureFilters(m: GenericMap, f: CaptureFilters) returns (r: bool)
    ensures r <==> MatchesFilters(m, f)
  {
    if !f.Active() {
      return false;
    }
    if |f.ports| > 0 {
      var matched := false;
      for i := 0 to |f.ports|
        invariant !matched
        invariant forall p :: p in f.ports[..i] ==> !HasPort(m, p)
      {
        if HasPort(m, f.ports[i]) {
          matched := true;
          break;
        }
      }
      if !matched {
        return false;
      }
    }
    if |f.peerIPs| > 0 {
      var matched := false;
      for i := 0 to |f.peerIPs|
        invariant !matched
        invariant forall ip :: ip in f.peerIPs[..i] ==> !HasIP(m, ip)
      {
        if HasIP(m, f.peerIPs[i]) {
          matched := true;
          break;
        }
      }
      if !matched {
        return false;
      }
    }
    if |f.peerNets| > 0 {
      var matched := false;
      for i := 0 to |f.peerNets|
        invariant !matched
        invariant forall net :: net in f.peerNets[..i] ==> !HasIPIn(m, net)
      {
        if HasIPIn(m, f.peerNets[i]) {
          matched := true;
          break;
        }
      }
      if !matched {
        return false;
      }
    }
    return true;
  }
}
