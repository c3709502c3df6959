/** The score of a plaintext record against a buffered wire packet. */
module Scoring {
  import opened Records
  import opened Timing
  import opened Filters

  const STRICT_BASE := 100
  const REMOTE_BASE := 75
  const LOOSE_BASE := 50
  const FILTER_BASE := 50
  const AMBIGUITY_MARGIN := 5
  const PAYLOAD_BONUS := 20
  const PAYLOAD_SIZE_BONUS := 5
  const DIRECTION_BONUS := 5

  datatype WirePacket = WirePacket(
    stamp: Stamp, fields: GenericMap, data: Bytes, packetID: Option<nat>, annotated: bool)

  datatype PendingPlaintext = PendingPlaintext(
    stamp: Stamp, data: GenericMap, original: GenericMap, id: nat, connectionAmbiguous: bool)

  // ---------------------------------------------------------------------------------------------
  // Endpoints

  datatype Endpoint = Endpoint(ip: Address, port: Port)

  /** The first of the two ends that has a usable address and a port other than 0. */
  function PodEndpoint(m: GenericMap): Option<Endpoint> {
    match (EndpointAt(m, "Src"), EndpointAt(m, "Dst"))
    case (Some(e), _) => Some(e)
    case (None, e) => e
  }

  function EndpointAt(m: GenericMap, side: string): Option<Endpoint> {
    match (Addr(m, side + "Addr"), PortAt(m, side + "Port"))
    case (Some(ip), Some(port)) => if port > 0 then Some(Endpoint(ip, port)) else None
    case _ => None
  }

  function PeerIP(m: GenericMap): Option<Address> {
    match PodEndpoint(m)
    case None => None
    case Some(pod) =>
      var dst, src := Addr(m, "DstAddr"), Addr(m, "SrcAddr");
      if dst.Some? && dst.value != pod.ip then dst
      else if src.Some? && src.value != pod.ip then src
      else None
  }

  predicate EgressFrom(wire: GenericMap, e: Endpoint) {
    Addr(wire, "SrcAddr") == Some(e.ip) && PortAt(wire, "SrcPort") == Some(e.port)
  }

  predicate IngressTo(wire: GenericMap, e: Endpoint) {
    Addr(wire, "DstAddr") == Some(e.ip) && PortAt(wire, "DstPort") == Some(e.port)
  }

  predicate HasEndpoint(wire: GenericMap, e: Endpoint) {
    EgressFrom(wire, e) || IngressTo(wire, e)
  }

  predicate Reads(pt: GenericMap) { FieldIs(pt, "Direction", "read") }
  predicate Writes(pt: GenericMap) { FieldIs(pt, "Direction", "write") }

  /** What the record knows of one of its ends holds of the given end of the packet. */
  predicate SideCompatible(wire: GenericMap, wireSide: string, pt: GenericMap, side: string) {
    var ip := Addr(pt, side + "Addr");
    ip.Some? ==>
      var port := PortAt(pt, side + "Port");
      && Addr(wire, wireSide + "Addr") == ip
      && (port.Some? && port.value > 0 ==> PortAt(wire, wireSide + "Port") == port)
  }

  predicate EndpointsCompatible(wire: GenericMap, pt: GenericMap) {
    && SideCompatible(wire, if Reads(pt) then "Dst" else "Src", pt, "Src")
    && SideCompatible(wire, if Reads(pt) then "Src" else "Dst", pt, "Dst")
  }

  /** A packet travelling against the record's direction is never a candidate. */
  predicate DirectionCompatible(wire: GenericMap, pt: GenericMap) {
    var pod := PodEndpoint(pt);
    pod.Some? ==>
      && (Writes(pt) ==> EgressFrom(wire, pod.value))
      && (Reads(pt) ==> IngressTo(wire, pod.value))
  }

  // ---------------------------------------------------------------------------------------------
  // Workload hints

  function TextAt(m: GenericMap, key: string): string {
    var v := Field(m, key);
    if v.Text? then v.text else ""
  }

  function PodAt(m: GenericMap, side: string): (string, string) {
    if TextAt(m, side + "K8S_Type") == "Pod" then
      (TextAt(m, side + "K8S_Name"), TextAt(m, side + "K8S_OwnerName"))
    else ("", "")
  }

  function PodIdentity(m: GenericMap): (string, string) {
    if PodAt(m, "Dst") != ("", "") then PodAt(m, "Dst") else PodAt(m, "Src")
  }

  predicate OccursAt(s: string, part: string, i: nat) {
    i + |part| <= |s| && s[i..i + |part|] == part
  }

  predicate Contains(s: string, part: string) {
    exists i | 0 <= i <= |s| :: OccursAt(s, part, i)
  }

  predicate PodCompatible(wire: GenericMap, pt: GenericMap) {
    var source := TextAt(pt, "TLSSource");
    var (name, owner) := PodIdentity(wire);
    var identity := ToLower(name + " " + owner);
    if source == "" || (name == "" && owner == "") then true
    else if Contains(identity, "openssl") then source == "openssl" || source == "ktls"
    else if Contains(identity, "gotls") then source == "gotls"
    else if Contains(identity, "ktls") then source == "ktls" || source == "openssl"
    else true
  }

  // ---------------------------------------------------------------------------------------------
  // The scoring ladder; -1 means no match

  function DirectionBonus(aligned: bool): int {
    if aligned then DIRECTION_BONUS else 0
  }

  function ScoreStrict(wire: GenericMap, pt: GenericMap): int {
    match (TupleOf(pt), TupleOf(wire))
    case (Some(p), Some(w)) =>
      if w != p && w != p.Reverse() then -1
      else STRICT_BASE + DirectionBonus(Writes(pt) && w == p) + DirectionBonus(Reads(pt) && w == p.Reverse())
    case _ => -1
  }

  function ScoreRemote(wire: GenericMap, pt: GenericMap): int {
    match (PodEndpoint(pt), PeerIP(pt))
    case (Some(pod), Some(peer)) =>
      if !HasEndpoint(wire, pod) || !HasIP(wire, peer) then -1
      else REMOTE_BASE + DirectionBonus(Writes(pt) && EgressFrom(wire, pod) && HasIP(wire, peer))
                       + DirectionBonus(Reads(pt) && IngressTo(wire, pod) && HasIP(wire, peer))
    case _ => -1
  }

  function ScoreLoose(wire: GenericMap, pt: GenericMap): int {
    match PodEndpoint(pt)
    case Some(pod) =>
      if !HasEndpoint(wire, pod) then -1
      else LOOSE_BASE + DirectionBonus(Writes(pt) && EgressFrom(wire, pod))
                      + DirectionBonus(Reads(pt) && IngressTo(wire, pod))
    case None => -1
  }

  function FilterBase(f: CaptureFilters): int {
    FILTER_BASE + (if f.ports != [] then 1 else 0) + (if f.peerIPs != [] || f.peerNets != [] then 1 else 0)
  }

  function ScoreFilter(wire: GenericMap, f: CaptureFilters): int {
    if MatchesFilters(wire, f) then FilterBase(f) else -1
  }

  function BaseScore(wire: GenericMap, pt: GenericMap, f: CaptureFilters): int {
    if HasTuple(pt) then ScoreStrict(wire, pt)
    else if ScoreStrict(wire, pt) >= 0 then ScoreStrict(wire, pt)
    else if ScoreRemote(wire, pt) >= 0 then ScoreRemote(wire, pt)
    else if ScoreLoose(wire, pt) >= 0 then ScoreLoose(wire, pt)
    else ScoreFilter(wire, f)
  }

  function WirePayloadLen(pt: GenericMap): int {
    var v := Field(pt, "PlaintextLen");
    if v.Float? && v.number > 0.0 then Truncate(v.number)
    else |PayloadBytes(Field(pt, "Plaintext"), Field(pt, "PlaintextPreview"))|
  }

  function PayloadBonus(pkt: WirePacket, pt: GenericMap): int {
    match TCPPayloadLen(pkt.data)
    case None => 0
    case Some(n) => PAYLOAD_BONUS + if 0 < WirePayloadLen(pt) <= n then PAYLOAD_SIZE_BONUS else 0
  }

  function AdjustForPayload(pkt: WirePacket, pt: GenericMap, score: int): int {
    if TCPPayloadLen(pkt.data) == Some(0) then -1 else score + PayloadBonus(pkt, pt)
  }

  function Score(pkt: WirePacket, pt: PendingPlaintext, f: CaptureFilters): int {
    if !TimesCorrelated(pkt.stamp, pt.stamp) then -1
    else if !PodCompatible(pkt.fields, pt.data) then -1
    else if !EndpointsCompatible(pkt.fields, pt.data) then -1
    else if !DirectionCompatible(pkt.fields, pt.data) then -1
    else
      var base := BaseScore(pkt.fields, pt.data, f);
      if base < 0 then -1 else AdjustForPayload(pkt, pt.data, base + TimeBonus(pkt.stamp, pt.stamp))
  }

  function MinAnnotationScore(pt: GenericMap, f: CaptureFilters): int {
    if HasTuple(pt) then STRICT_BASE
    else if PodEndpoint(pt).Some? then
      if PeerIP(pt).Some? && PeerIP(pt).value != PodEndpoint(pt).value.ip then REMOTE_BASE else LOOSE_BASE
    else if f.Active() then FILTER_BASE
    else LOOSE_BASE
  }

  // ---------------------------------------------------------------------------------------------
  // One tier per record

  datatype Tier = Strict | Remote | Loose | Filter | NoTier

  /** The tier a record can score in, read off the record and the presence of filters alone. */
  function TierOf(pt: GenericMap, f: CaptureFilters): Tier {
    if HasTuple(pt) then Strict
    else if PeerIP(pt).Some? then Remote
    else if PodEndpoint(pt).Some? then Loose
    else if f.Active() then Filter
    else NoTier
  }

  /** The base every packet gets that scores at all for this record. */
  function RecordBase(pt: GenericMap, f: CaptureFilters): int {
    var direction := if Writes(pt) || Reads(pt) then DIRECTION_BONUS else 0;
    match TierOf(pt, f)
    case Strict => STRICT_BASE + direction
    case Remote => REMOTE_BASE + direction
    case Loose => LOOSE_BASE + direction
    case Filter => FilterBase(f)
    case NoTier => -1
  }

  /** What the tier still asks of a packet whose endpoints are compatible. */
  predicate TierAdmits(wire: GenericMap, pt: GenericMap, f: CaptureFilters) {
    match TierOf(pt, f)
    case Strict => TupleOf(wire) == NetworkTuple(pt)
    case Remote => true
    case Loose => true
    case Filter => MatchesFilters(wire, f)
    case NoTier => false
  }

  /** The packets a record may be attached to, without any mention of scores. */
  predicate Candidate(pkt: WirePacket, pt: PendingPlaintext, f: CaptureFilters) {
    && TimesCorrelated(pkt.stamp, pt.stamp) && !GapSaturates(pkt.stamp, pt.stamp)
    && PodCompatible(pkt.fields, pt.data)
    && EndpointsCompatible(pkt.fields, pt.data)
    && DirectionCompatible(pkt.fields, pt.data)
    && TierAdmits(pkt.fields, pt.data, f)
    && TCPPayloadLen(pkt.data) != Some(0)
  }

  /** A packet with a full tuple that passes both endpoint checks and the strict comparison is a packet of
      the record's own connection in the record's own network direction, whatever the ports are. */
  lemma StrictMeansOwnTuple(wire: GenericMap, pt: GenericMap)
    requires HasTuple(pt) && EndpointsCompatible(wire, pt) && DirectionCompatible(wire, pt)
    ensures ScoreStrict(wire, pt) >= 0 <==> TupleOf(wire) == NetworkTuple(pt)
    ensures ScoreStrict(wire, pt) >= 0 ==>
      ScoreStrict(wire, pt) == STRICT_BASE + if Writes(pt) || Reads(pt) then DIRECTION_BONUS else 0
  {
    SideNames();
  }

  lemma SideNames()
    ensures "Src" + "Addr" == "SrcAddr" && "Src" + "Port" == "SrcPort"
    ensures "Dst" + "Addr" == "DstAddr" && "Dst" + "Port" == "DstPort"
  {
  }

  /** Compatible endpoints put the packet in the record's tier, with the record's base. */
  lemma CompatibleBase(wire: GenericMap, pt: GenericMap, f: CaptureFilters)
    requires EndpointsCompatible(wire, pt) && DirectionCompatible(wire, pt)
    ensures BaseScore(wire, pt, f) == if TierAdmits(wire, pt, f) then RecordBase(pt, f) else -1
  {
    SideNames();
    if HasTuple(pt) {
      StrictMeansOwnTuple(wire, pt);
    } else if PodEndpoint(pt).Some? {
      var pod := PodEndpoint(pt).value;
      assert HasEndpoint(wire, pod);
      assert PeerIP(pt).Some? ==> HasIP(wire, PeerIP(pt).value);
    }
  }

  lemma BaseInRange(wire: GenericMap, pt: GenericMap, f: CaptureFilters)
    ensures TierAdmits(wire, pt, f) ==> LOOSE_BASE <= RecordBase(pt, f) <= STRICT_BASE + DIRECTION_BONUS
  {
    hide TupleOf, MatchesFilters, PeerIP, PodEndpoint;
  }

  /** The score in closed form: who is a candidate, and by how much candidates of one record can differ. */
  lemma ScoreMeaning(pkt: WirePacket, pt: PendingPlaintext, f: CaptureFilters)
    ensures Score(pkt, pt, f) >= 0 <==> Candidate(pkt, pt, f)
    ensures Candidate(pkt, pt, f) ==>
      && Score(pkt, pt, f) == RecordBase(pt.data, f) + TimeBonus(pkt.stamp, pt.stamp) + PayloadBonus(pkt, pt.data)
      && 0 <= TimeBonus(pkt.stamp, pt.stamp) <= TIME_BONUS_MAX
  {
    hide BaseScore, EndpointsCompatible, DirectionCompatible, PodCompatible, TierAdmits, RecordBase,
         TimesCorrelated, TimeBonus, GapSaturates, WirePayloadLen;
    BaseInRange(pkt.fields, pt.data, f);
    if EndpointsCompatible(pkt.fields, pt.data) && DirectionCompatible(pkt.fields, pt.data) {
      CompatibleBase(pkt.fields, pt.data, f);
    }
    BonusRange(pkt.stamp, pt.stamp);
    if GapSaturates(pkt.stamp, pt.stamp) {
      SaturatedBonus(pkt.stamp, pt.stamp);
    }
  }

  /** Every candidate clears the annotation threshold, which is the floor of the record's tier. */
  lemma CandidatesClearThreshold(pkt: WirePacket, pt: PendingPlaintext, f: CaptureFilters)
    requires Score(pkt, pt, f) >= 0
    ensures Score(pkt, pt, f) >= RecordBase(pt.data, f) >= MinAnnotationScore(pt.data, f)
    ensures RecordBase(pt.data, f) - MinAnnotationScore(pt.data, f) <= DIRECTION_BONUS
  {
    ScoreMeaning(pkt, pt, f);
  }

  /** Two candidates of one record are told apart by time and payload only, within 35 points. */
  lemma CandidatesShareTier(a: WirePacket, b: WirePacket, pt: PendingPlaintext, f: CaptureFilters)
    requires Score(a, pt, f) >= 0 && Score(b, pt, f) >= 0
    ensures Score(a, pt, f) - Score(b, pt, f)
         == TimeBonus(a.stamp, pt.stamp) - TimeBonus(b.stamp, pt.stamp)
          + PayloadBonus(a, pt.data) - PayloadBonus(b, pt.data)
    ensures -35 <= Score(a, pt, f) - Score(b, pt, f) <= 35
  {
    hide Score, RecordBase, TimeBonus, Candidate, WirePayloadLen;
    ScoreMeaning(a, pt, f);
    ScoreMeaning(b, pt, f);
  }

  /** How candidates of one record compare against the ambiguity margin.  Of two equally near in time, one with TCP
      payload beats one without a readable TCP layer beyond the margin; but a payload that fits the record better than
      another never does, since the bonus for size is no larger than the margin. */
  lemma MarginMeaning(a: WirePacket, b: WirePacket, pt: PendingPlaintext, f: CaptureFilters)
    requires Score(a, pt, f) >= 0 && Score(b, pt, f) >= 0
    requires TimeBonus(a.stamp, pt.stamp) == TimeBonus(b.stamp, pt.stamp)
    ensures Score(a, pt, f) - Score(b, pt, f) > AMBIGUITY_MARGIN <==>
              TCPPayloadLen(a.data).Some? && TCPPayloadLen(b.data).None?
  {
    hide Score, RecordBase, TimeBonus, Candidate, WirePayloadLen;
    ScoreMeaning(a, pt, f);
    ScoreMeaning(b, pt, f);
  }

  /** A full-tuple record scores only on packets of its own connection, travelling its own way. */
  lemma FullTupleScoresOwnConnection(pkt: WirePacket, pt: PendingPlaintext, f: CaptureFilters)
    requires HasTuple(pt.data) && Score(pkt, pt, f) >= 0
    ensures TupleOf(pkt.fields) == NetworkTuple(pt.data)
    ensures SameConnection(TupleOf(pkt.fields).value, TupleOf(pt.data).value)
  {
    ScoreMeaning(pkt, pt, f);
  }

  // ---------------------------------------------------------------------------------------------
  // Workloads

  predicate StandsAt(s: string, part: string, i: nat) {
    i + |part| <= |s| && forall k | 0 <= k < |part| :: s[i + k] == part[k]
  }

  /** The part stands, letter by letter, somewhere in the text. */
  lemma ContainsMeaning(s: string, part: string)
    ensures Contains(s, part) <==> exists i: nat :: StandsAt(s, part, i)
  {
    if i :| 0 <= i <= |s| && OccursAt(s, part, i) {
      forall k | 0 <= k < |part| ensures s[i + k] == part[k] {
        assert s[i..i + |part|][k] == part[k];
      }
      assert StandsAt(s, part, i);
    }
    if i: nat :| StandsAt(s, part, i) {
      assert s[i..i + |part|] == part;
      assert OccursAt(s, part, i);
    }
  }

  /** The packet's workload is that of its destination, if it is a pod with a name or an owner, else of its source. */
  lemma PodIdentityMeaning(wire: GenericMap, name: string, owner: string)
    requires name != "" || owner != ""
    ensures (&& Field(wire, "DstK8S_Type") == Text("Pod")
             && Field(wire, "DstK8S_Name") == Text(name) && Field(wire, "DstK8S_OwnerName") == Text(owner)) ==>
      PodIdentity(wire) == (name, owner)
    ensures (&& Field(wire, "DstK8S_Type") != Text("Pod") && Field(wire, "SrcK8S_Type") == Text("Pod")
             && Field(wire, "SrcK8S_Name") == Text(name) && Field(wire, "SrcK8S_OwnerName") == Text(owner)) ==>
      PodIdentity(wire) == (name, owner)
    ensures Field(wire, "DstK8S_Type") != Text("Pod") && Field(wire, "SrcK8S_Type") != Text("Pod") ==>
      PodIdentity(wire) == ("", "")
  {
    assert "Dst" + "K8S_Type" == "DstK8S_Type" && "Src" + "K8S_Type" == "SrcK8S_Type";
    assert "Dst" + "K8S_Name" == "DstK8S_Name" && "Src" + "K8S_Name" == "SrcK8S_Name";
    assert "Dst" + "K8S_OwnerName" == "DstK8S_OwnerName" && "Src" + "K8S_OwnerName" == "SrcK8S_OwnerName";
  }

  /** What a workload's name says of the hook that may report its traffic. */
  lemma WorkloadDecides(wire: GenericMap, pt: GenericMap, source: string)
    requires Field(pt, "TLSSource") == Text(source) && source != "" && PodIdentity(wire) != ("", "")
    ensures var (name, owner) := PodIdentity(wire);
      var identity := ToLower(name + " " + owner);
      PodCompatible(wire, pt) <==>
        if source == "openssl" || source == "ktls" then Contains(identity, "openssl") || !Contains(identity, "gotls")
        else if source == "gotls" then
          !Contains(identity, "openssl") && (Contains(identity, "gotls") || !Contains(identity, "ktls"))
        else !Contains(identity, "openssl") && !Contains(identity, "gotls") && !Contains(identity, "ktls")
  {
    hide Contains, PodIdentity;
    assert "openssl"[0] == 'o' && "ktls"[0] == 'k' && "gotls"[0] == 'g';
  }

  /** Without a named source, or without a named workload, every packet fits. */
  lemma UnnamedFits(wire: GenericMap, pt: GenericMap)
    requires PodIdentity(wire) == ("", "") || forall s :: Field(pt, "TLSSource") == Text(s) ==> s == ""
    ensures PodCompatible(wire, pt)
  {
    if Field(pt, "TLSSource").Text? {
      assert Field(pt, "TLSSource") == Text(Field(pt, "TLSSource").text);
    }
  }

  // ---------------------------------------------------------------------------------------------
  // What decides a score

  ghost predicate DifferInSource(a: GenericMap, b: GenericMap) {
    forall k :: k != "TLSSource" ==> Field(a, k) == Field(b, k)
  }

  lemma SourceIsNoEndpoint(a: GenericMap, b: GenericMap)
    requires DifferInSource(a, b)
    ensures TupleOf(a) == TupleOf(b) && PodEndpoint(a) == PodEndpoint(b) && PeerIP(a) == PeerIP(b)
    ensures Reads(a) == Reads(b) && Writes(a) == Writes(b) && WirePayloadLen(a) == WirePayloadLen(b)
    ensures forall wire, wireSide, side | side in {"Src", "Dst"} ::
      SideCompatible(wire, wireSide, a, side) == SideCompatible(wire, wireSide, b, side)
  {
    SideNames();
    assert "TLSSource"[0] == 'T';
    assert "Src"[0] == 'S' && "Dst"[0] == 'D';
    TupleFromFields(a, b);
  }

  lemma HooksFit(wire: GenericMap, a: GenericMap, b: GenericMap)
    requires Field(a, "TLSSource") == Text("openssl") && Field(b, "TLSSource") == Text("ktls")
    ensures PodCompatible(wire, a) == PodCompatible(wire, b)
  {
    hide PodCompatible;
    if PodIdentity(wire) == ("", "") {
      UnnamedFits(wire, a);
      UnnamedFits(wire, b);
    } else {
      WorkloadDecides(wire, a, "openssl");
      WorkloadDecides(wire, b, "ktls");
    }
  }

  lemma SourceIsNoBase(pkt: WirePacket, a: GenericMap, b: GenericMap, f: CaptureFilters, score: int)
    requires DifferInSource(a, b)
    ensures EndpointsCompatible(pkt.fields, a) == EndpointsCompatible(pkt.fields, b)
    ensures DirectionCompatible(pkt.fields, a) == DirectionCompatible(pkt.fields, b)
    ensures BaseScore(pkt.fields, a, f) == BaseScore(pkt.fields, b, f)
    ensures AdjustForPayload(pkt, a, score) == AdjustForPayload(pkt, b, score)
  {
    hide SideCompatible, TupleOf, PodEndpoint, PeerIP, WirePayloadLen, Reads, Writes, EgressFrom, IngressTo, HasIP,
         MatchesFilters, DifferInSource;
    SourceIsNoEndpoint(a, b);
  }

  /** A record reported by the OpenSSL hook scores on every packet as if the kernel hook had reported it. */
  lemma HooksAreInterchangeable(pkt: WirePacket, pt: PendingPlaintext, f: CaptureFilters)
    ensures Score(pkt, pt.(data := pt.data["TLSSource" := Text("openssl")]), f)
         == Score(pkt, pt.(data := pt.data["TLSSource" := Text("ktls")]), f)
  {
    hide EndpointsCompatible, DirectionCompatible, BaseScore, AdjustForPayload, PodCompatible, TimesCorrelated,
         TimeBonus;
    var a, b := pt.data["TLSSource" := Text("openssl")], pt.data["TLSSource" := Text("ktls")];
    HooksFit(pkt.fields, a, b);
    SourceIsNoBase(pkt, a, b, f, BaseScore(pkt.fields, a, f) + TimeBonus(pkt.stamp, pt.stamp));
  }

  /** With a single peer and a single port given, a record that knows no address is attached to nothing but packets of
      that very endpoint, in the record's own direction. */
  lemma HintsFixEndpoint(pkt: WirePacket, pt: PendingPlaintext, m: GenericMap, f: CaptureFilters,
                         peer: Address, port: Port)
    requires f.peerIPs == [peer] && f.ports == [port] && port > 0 && ValidIP(Text(peer)).Some?
    requires Addr(m, "SrcAddr").None? && Addr(m, "DstAddr").None? && LacksLocalPort(m)
    requires pt.data == Enrich(m, f)
    ensures var end := Endpoint(peer, port);
      && PodEndpoint(pt.data) == Some(end) && TierOf(pt.data, f) == Loose
      && (Score(pkt, pt, f) >= 0 ==>
            if Reads(pt.data) then IngressTo(pkt.fields, end) else EgressFrom(pkt.fields, end))
  {
    hide Score, TimesCorrelated, PodCompatible;
    SideNames();
    EnrichSupplies(m, f, peer, port);
    EnrichKeepsKnown(m, f);
    ScoreMeaning(pkt, pt, f);
  }

  // ---------------------------------------------------------------------------------------------
  // Candidates by the ends of their connection

  /** The end of the packet's connection on the side of the process the record is from, and the other one. */
  function Near(w: FlowTuple, pt: GenericMap): Endpoint {
    if Field(pt, "Direction") == Text("read") then Endpoint(w.dstIP, w.dstPort) else Endpoint(w.srcIP, w.srcPort)
  }

  function Far(w: FlowTuple, pt: GenericMap): Endpoint {
    if Field(pt, "Direction") == Text("read") then Endpoint(w.srcIP, w.srcPort) else Endpoint(w.dstIP, w.dstPort)
  }

  /** What the record knows of an end, under the given names, is true of `e`: its address, and a port next to it. */
  predicate AgreesWith(pt: GenericMap, addr: string, port: string, e: Endpoint) {
    Addr(pt, addr).Some? ==>
      Addr(pt, addr) == Some(e.ip) && (PortAt(pt, port) in {None, Some(0), Some(e.port)})
  }

  /** The end a partial record is known by: address and port of its own end, else of the other end. */
  lemma PodEndpointMeaning(pt: GenericMap, e: Endpoint)
    requires e.port > 0
    ensures Addr(pt, "SrcAddr") == Some(e.ip) && PortAt(pt, "SrcPort") == Some(e.port) ==> PodEndpoint(pt) == Some(e)
    ensures (&& (Addr(pt, "SrcAddr").None? || PortAt(pt, "SrcPort") in {None, Some(0)})
             && Addr(pt, "DstAddr") == Some(e.ip) && PortAt(pt, "DstPort") == Some(e.port)) ==>
      PodEndpoint(pt) == Some(e)
    ensures (&& (Addr(pt, "SrcAddr").None? || PortAt(pt, "SrcPort") in {None, Some(0)})
             && (Addr(pt, "DstAddr").None? || PortAt(pt, "DstPort") in {None, Some(0)})) ==> PodEndpoint(pt) == None
  {
    SideNames();
  }

  /** Which packets of a known connection are candidates. */
  lemma CandidateByEnds(pkt: WirePacket, pt: PendingPlaintext, f: CaptureFilters, w: FlowTuple)
    requires TupleOf(pkt.fields) == Some(w)
    ensures var near, far := Near(w, pt.data), Far(w, pt.data);
      Candidate(pkt, pt, f) <==>
        && InTime(pkt.stamp, pt.stamp) && PodCompatible(pkt.fields, pt.data) && TCPPayloadLen(pkt.data) != Some(0)
        && AgreesWith(pt.data, "SrcAddr", "SrcPort", near) && AgreesWith(pt.data, "DstAddr", "DstPort", far)
        && (PodEndpoint(pt.data).Some? && Field(pt.data, "Direction") in {Text("read"), Text("write")} ==>
              PodEndpoint(pt.data) == Some(near))
        && (if HasTuple(pt.data) then
              w == if Field(pt.data, "Direction") == Text("read") then TupleOf(pt.data).value.Reverse()
                   else TupleOf(pt.data).value
            else PodEndpoint(pt.data).None? ==> MatchesFilters(pkt.fields, f))
  {
    hide PodCompatible, MatchesFilters, TimesCorrelated, GapSaturates, PodEndpoint, TupleOf;
    SideNames();
    InTimeMeaning(pkt.stamp, pt.stamp);
    EndsAreSides(pkt.fields, pt.data, w);
    PeerNeedsPod(pt.data);
    MatchNeedsFilter(pkt.fields, f);
  }

  lemma MatchNeedsFilter(wire: GenericMap, f: CaptureFilters)
    ensures MatchesFilters(wire, f) ==> f.Active()
  {
  }

  lemma PeerNeedsPod(pt: GenericMap)
    ensures PeerIP(pt).Some? ==> PodEndpoint(pt).Some?
  {
  }

  lemma EndsAreSides(wire: GenericMap, pt: GenericMap, w: FlowTuple)
    requires TupleOf(wire) == Some(w)
    ensures EndpointsCompatible(wire, pt) <==>
      AgreesWith(pt, "SrcAddr", "SrcPort", Near(w, pt)) && AgreesWith(pt, "DstAddr", "DstPort", Far(w, pt))
    ensures DirectionCompatible(wire, pt) <==>
      (PodEndpoint(pt).Some? && Field(pt, "Direction") in {Text("read"), Text("write")} ==>
         PodEndpoint(pt) == Some(Near(w, pt)))
  {
    hide PodEndpoint;
    SideNames();
  }

  /** Which packets are candidates for a record with a full tuple and a local port: those in time, of a fitting
      workload, not bare of payload, whose tuple is the record's turned into network direction. */
  lemma FullTupleCandidate(pkt: WirePacket, pt: PendingPlaintext, f: CaptureFilters, t: FlowTuple)
    requires TupleOf(pt.data) == Some(t) && t.srcPort > 0
    ensures Candidate(pkt, pt, f) <==>
      && InTime(pkt.stamp, pt.stamp) && PodCompatible(pkt.fields, pt.data) && TCPPayloadLen(pkt.data) != Some(0)
      && TupleOf(pkt.fields) == Some(if Field(pt.data, "Direction") == Text("read") then t.Reverse() else t)
  {
    hide PodCompatible, MatchesFilters, PodEndpoint, TimesCorrelated, GapSaturates;
    PodEndpointMeaning(pt.data, Endpoint(t.srcIP, t.srcPort));
    match TupleOf(pkt.fields)
    case Some(w) => CandidateByEnds(pkt, pt, f, w);
    case None =>
  }

  /** The score of a candidate in points. */
  lemma ScoreInPoints(pkt: WirePacket, pt: PendingPlaintext, f: CaptureFilters)
    requires Candidate(pkt, pt, f)
    ensures Score(pkt, pt, f) ==
      (if HasTuple(pt.data) then 100 else if PeerIP(pt.data).Some? then 75 else if PodEndpoint(pt.data).Some? then 50
       else 50 + (if f.ports != [] then 1 else 0) + (if f.peerIPs != [] || f.peerNets != [] then 1 else 0))
      + (if PodEndpoint(pt.data).Some? || HasTuple(pt.data) then
           if Field(pt.data, "Direction") in {Text("read"), Text("write")} then 5 else 0
         else 0)
      + TimeBonus(pkt.stamp, pt.stamp) + PayloadPoints(pkt, pt.data)
  {
    hide PodEndpoint, TupleOf, TimeBonus, PodCompatible, EndpointsCompatible, DirectionCompatible, TimesCorrelated,
         WirePayloadLen;
    PeerNeedsPod(pt.data);
    ScoreMeaning(pkt, pt, f);
    PayloadLength(pt.data);
  }

  /** Points for a readable TCP payload, more if it is as long as the plaintext the record tells of. */
  function PayloadPoints(pkt: WirePacket, pt: GenericMap): int {
    match TCPPayloadLen(pkt.data)
    case None => 0
    case Some(n) => if 0 < TextLength(pt) <= n then 25 else 20
  }

  /** The length the record gives, when it is positive, else the length of the payload it carries. */
  function TextLength(pt: GenericMap): int {
    match Field(pt, "PlaintextLen")
    case Float(x) => if x > 0.0 then x.Floor else |PayloadBytes(Field(pt, "Plaintext"), Field(pt, "PlaintextPreview"))|
    case _ => |PayloadBytes(Field(pt, "Plaintext"), Field(pt, "PlaintextPreview"))|
  }

  lemma PayloadLength(pt: GenericMap)
    ensures WirePayloadLen(pt) == TextLength(pt)
  {
  }

  lemma PayloadInPoints(pkt: WirePacket, pt: GenericMap)
    ensures PayloadBonus(pkt, pt) == PayloadPoints(pkt, pt)
  {
    PayloadLength(pt);
  }
}
