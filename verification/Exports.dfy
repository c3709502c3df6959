/** The records that leave the tool: an annotated record takes the endpoints of its packet, an unmatched one
    only what the agent recorded, turned into network direction. */
module Exports {
  import opened Records
  import opened Scoring

  // ---------------------------------------------------------------------------------------------
  // Field names

  predicate IsSrc(key: string) { HasPrefix(key, "Src") }
  predicate IsDst(key: string) { HasPrefix(key, "Dst") }
  predicate IsSide(key: string) { IsSrc(key) || IsDst(key) }
  predicate IsSideK8s(key: string) { HasPrefix(key, "SrcK8S_") || HasPrefix(key, "DstK8S_") }
  predicate IsK8s(key: string) { IsSideK8s(key) || HasPrefix(key, "K8S_") }

  const ENDPOINT_NAMES := {"SrcAddr", "SrcPort", "DstAddr", "DstPort"}
  const OTHER_NAMES := {"PacketID", "PcapAnnotated", "Direction", "TupleSource", "Proto", "RecordType",
                        "Plaintext", "PlaintextPreview", "PlaintextDisplay"}

  predicate IsEndpoint(key: string) {
    key in ENDPOINT_NAMES || IsSideK8s(key)
  }

  /** The same field of the other end; fields of neither end are their own counterpart. */
  function SwapKey(key: string): string {
    if IsSrc(key) then "Dst" + key[3..] else if IsDst(key) then "Src" + key[3..] else key
  }

  lemma EndpointNames(k: string)
    requires k in ENDPOINT_NAMES
    ensures IsSide(k) && !IsK8s(k)
    ensures SwapKey("SrcAddr") == "DstAddr" && SwapKey("SrcPort") == "DstPort"
    ensures SwapKey("DstAddr") == "SrcAddr" && SwapKey("DstPort") == "SrcPort"
  {
    assert "Src"[0] == 'S' && "Dst"[0] == 'D' && "K8S_"[0] == 'K';
    assert "SrcK8S_"[3] == 'K' && "DstK8S_"[3] == 'K';
    assert "SrcAddr"[3..] == "Addr" && "DstAddr"[3..] == "Addr" && "SrcPort"[3..] == "Port" && "DstPort"[3..] == "Port";
  }

  lemma OtherNames(k: string)
    requires k in OTHER_NAMES
    ensures !IsSide(k) && !IsK8s(k) && !IsEndpoint(k)
  {
    assert "Src"[0] == 'S' && "Dst"[0] == 'D' && "Dst"[1] == 's' && "K8S_"[0] == 'K';
    assert "SrcK8S_"[0] == 'S' && "DstK8S_"[0] == 'D' && "DstK8S_"[1] == 's';
  }

  lemma SwapKeyInvolution(key: string)
    ensures SwapKey(SwapKey(key)) == key
    ensures !(IsSrc(key) && IsDst(key))
    ensures IsSrc(SwapKey(key)) <==> IsDst(key)
    ensures IsDst(SwapKey(key)) <==> IsSrc(key)
  {
    assert SwapKey(SwapKey(key)) == key;
    assert "Src"[0] == 'S' && "Dst"[0] == 'D';
  }

  // ---------------------------------------------------------------------------------------------
  // Editing a record in the order its map happens to be visited

  function Without(m: GenericMap, drop: string -> bool): GenericMap {
    map k | k in m && !drop(k) :: m[k]
  }

  method DeleteFields(m: GenericMap, drop: string -> bool) returns (r: GenericMap)
    ensures r == Without(m, drop)
  {
    r := m;
    var todo := m.Keys;
    while todo != {}
      invariant todo <= m.Keys
      invariant forall k :: k in r <==> k in m && (k in todo || !drop(k))
      invariant forall k :: k in r ==> r[k] == m[k]
      decreases |todo|
    {
      var key :| key in todo;
      todo := todo - {key};
      if drop(key) {
        r := r - {key};
      }
    }
  }

  // ---------------------------------------------------------------------------------------------
  // Display text: whatever was computed for the record this time, empty for none

  const DISPLAY := "PlaintextDisplay"

  function EnrichForExport(m: GenericMap, display: string): GenericMap {
    if display != "" then m[DISPLAY := Text(display)] else m
  }

  /** Puts the display text into its field, when there is any, and leaves the rest. */
  method EnrichPlaintextForExport(m: GenericMap) returns (r: GenericMap, ghost display: string)
    ensures r == EnrichForExport(m, display) && Bare(r) == Bare(m)
    ensures Field(r, "PlaintextDisplay") == if display != "" then Text(display) else Field(m, "PlaintextDisplay")
  {
    var text: string := *;
    display := text;
    r := if text != "" then m[DISPLAY := Text(text)] else m;
  }

  /** The record apart from its display text. */
  function Bare(m: GenericMap): GenericMap {
    m - {DISPLAY}
  }

  lemma EnrichedBare(m: GenericMap, display: string)
    ensures Bare(EnrichForExport(m, display)) == Bare(m)
  {
  }

  lemma BareField(m: GenericMap, k: string)
    ensures k != DISPLAY ==> Field(Bare(m), k) == Field(m, k)
  {
  }

  lemma BareUpdate(m: GenericMap, k: string, v: Value)
    requires k != DISPLAY
    ensures Bare(m[k := v]) == Bare(m)[k := v]
  {
  }

  // ---------------------------------------------------------------------------------------------
  // Annotated records

  predicate Meaningful(v: Value) {
    match v
    case Null => false
    case Text(t) => t != ""
    case Float(x) => x != 0.0
    case Int(n) => n != 0
    case Int64(n) => n != 0
    case _ => true
  }

  function OverlayTuple(pt: GenericMap, wire: GenericMap): GenericMap {
    match TupleOf(wire)
    case Some(t) => SetTuple(pt, t)
    case None => pt
  }

  /** Field `k` is taken from the packet: the packet has it and the record has nothing to say in it. */
  predicate Borrows(pt: GenericMap, wire: GenericMap, copied: string -> bool, k: string) {
    k in wire && copied(k) && !Meaningful(Field(pt, k))
  }

  /** The copy once every field of the packet outside `todo` has been considered. */
  function CopyVisited(pt: GenericMap, wire: GenericMap, copied: string -> bool, todo: set<string>): GenericMap {
    map k | k in pt.Keys + wire.Keys && (k in pt || (k !in todo && Borrows(pt, wire, copied, k))) ::
      if k !in todo && Borrows(pt, wire, copied, k) then wire[k] else pt[k]
  }

  function CopyMissing(pt: GenericMap, wire: GenericMap, copied: string -> bool): GenericMap {
    CopyVisited(pt, wire, copied, {})
  }

  lemma CopyVisitedNone(pt: GenericMap, wire: GenericMap, copied: string -> bool)
    ensures CopyVisited(pt, wire, copied, wire.Keys) == pt
  {
  }

  lemma CopyVisitedStep(pt: GenericMap, wire: GenericMap, copied: string -> bool, todo: set<string>, key: string)
    requires key in todo && key in wire
    ensures CopyVisited(pt, wire, copied, todo - {key}) ==
      var r := CopyVisited(pt, wire, copied, todo);
      if copied(key) && !Meaningful(Field(r, key)) then r[key := wire[key]] else r
  {
  }

  method CopyMissingFields(pt: GenericMap, wire: GenericMap, copied: string -> bool) returns (r: GenericMap)
    ensures r == CopyMissing(pt, wire, copied)
  {
    r := pt;
    var todo := wire.Keys;
    CopyVisitedNone(pt, wire, copied);
    while todo != {}
      invariant todo <= wire.Keys
      invariant r == CopyVisited(pt, wire, copied, todo)
      decreases |todo|
    {
      var key :| key in todo;
      CopyVisitedStep(pt, wire, copied, todo, key);
      todo := todo - {key};
      if copied(key) && !Meaningful(Field(r, key)) {
        r := r[key := wire[key]];
      }
    }
  }

  function Overlay(pt: GenericMap, wire: GenericMap): GenericMap {
    CopyMissing(Without(OverlayTuple(pt, wire), IsSideK8s), wire, IsK8s)
  }

  method OverlayCorrelatedWire(pt: GenericMap, wire: GenericMap) returns (r: GenericMap)
    ensures r == Overlay(pt, wire)
  {
    r := OverlayTuple(pt, wire);
    r := DeleteFields(r, IsSideK8s);
    r := CopyMissingFields(r, wire, IsK8s);
  }

  /** The overlay replaces all workload metadata of both ends by the packet's, and besides it only the tuple. */
  lemma OverlayField(pt: GenericMap, wire: GenericMap, k: string)
    ensures !IsK8s(k) ==> Field(Overlay(pt, wire), k) == Field(OverlayTuple(pt, wire), k)
    ensures IsSideK8s(k) ==> Field(Overlay(pt, wire), k) == Field(wire, k)
    ensures IsK8s(k) && !IsSideK8s(k) ==>
      Field(Overlay(pt, wire), k) == if Meaningful(Field(pt, k)) || k !in wire then Field(pt, k) else Field(wire, k)
  {
    if IsK8s(k) {
      NotATupleField(k);
    }
  }

  lemma NotATupleField(k: string)
    requires IsK8s(k)
    ensures k !in ENDPOINT_NAMES && k != "Proto"
  {
    if k in ENDPOINT_NAMES {
      EndpointNames(k);
    }
    OtherNames("Proto");
  }

  lemma OverlaySetsTuple(pt: GenericMap, wire: GenericMap)
    ensures TupleOf(Overlay(pt, wire)) == if TupleOf(wire).Some? then TupleOf(wire) else TupleOf(pt)
  {
    forall k | k in ENDPOINT_NAMES ensures Field(Overlay(pt, wire), k) == Field(OverlayTuple(pt, wire), k) {
      EndpointNames(k);
      OverlayField(pt, wire, k);
    }
    TupleFromFields(Overlay(pt, wire), OverlayTuple(pt, wire));
    if TupleOf(wire).Some? {
      ValidIPCanonical(Field(wire, "SrcAddr"));
      ValidIPCanonical(Field(wire, "DstAddr"));
      SetTupleReadsBack(pt, TupleOf(wire).value);
    }
  }

  // ---------------------------------------------------------------------------------------------
  // Unmatched records

  function SwappedKeys(m: GenericMap): set<string> {
    set k | k in m :: SwapKey(k)
  }

  lemma SwappedKeysMeaning(m: GenericMap, k: string)
    ensures k in SwappedKeys(m) <==> SwapKey(k) in m
  {
    SwapKeyInvolution(k);
    if SwapKey(k) in m {
      assert SwapKey(SwapKey(k)) in SwappedKeys(m);
    }
    if k in SwappedKeys(m) {
      var j :| j in m && SwapKey(j) == k;
      SwapKeyInvolution(j);
    }
  }

  /** Every field takes the value of its counterpart. */
  function SwapEndpoints(m: GenericMap): GenericMap {
    map k | k in SwappedKeys(m) :: Field(m, SwapKey(k))
  }

  function PrepareUnmatched(m: GenericMap): GenericMap {
    if !TupleVerified(m) then Without(m, IsEndpoint)
    else if Reads(m) then SwapEndpoints(m)
    else m
  }

  lemma SwapMeaning(m: GenericMap, k: string)
    ensures Field(SwapEndpoints(m), k) == Field(m, SwapKey(k))
    ensures k in SwapEndpoints(m) <==> SwapKey(k) in m
  {
    SwappedKeysMeaning(m, k);
  }

  lemma SameFields(a: GenericMap, b: GenericMap)
    requires forall k :: (k in a <==> k in b) && (k in b ==> a[k] == b[k])
    ensures a == b
  {
  }

  /** The swap once every field of either end outside `todo` has been put in its place. */
  function SwapVisited(m: GenericMap, todo: set<string>): GenericMap {
    map k | k in SwappedKeys(m) && (SwapKey(k) !in todo || !IsSide(k)) :: Field(m, SwapKey(k))
  }

  lemma SwapVisitedField(m: GenericMap, todo: set<string>, k: string)
    ensures k in SwapVisited(m, todo) <==> SwapKey(k) in m && (SwapKey(k) !in todo || !IsSide(k))
    ensures k in SwapVisited(m, todo) ==> SwapVisited(m, todo)[k] == Field(m, SwapKey(k))
  {
    SwappedKeysMeaning(m, k);
  }

  lemma SwapVisitedAll(m: GenericMap)
    ensures SwapVisited(m, m.Keys) == Without(m, IsSide)
    ensures SwapVisited(m, {}) == SwapEndpoints(m)
  {
    hide SwapVisited, SwappedKeys;
    forall k
      ensures k in SwapVisited(m, m.Keys) <==> k in Without(m, IsSide)
      ensures k in SwapVisited(m, m.Keys) ==> SwapVisited(m, m.Keys)[k] == Without(m, IsSide)[k]
      ensures k in SwapVisited(m, {}) <==> k in SwapEndpoints(m)
      ensures k in SwapVisited(m, {}) ==> SwapVisited(m, {})[k] == SwapEndpoints(m)[k]
    {
      SwapVisitedField(m, m.Keys, k);
      SwapVisitedField(m, {}, k);
      SwapKeyInvolution(k);
      SwapMeaning(m, k);
    }
    SameFields(SwapVisited(m, m.Keys), Without(m, IsSide));
    SameFields(SwapVisited(m, {}), SwapEndpoints(m));
  }

  lemma SwapVisitedStep(m: GenericMap, todo: set<string>, key: string)
    requires key in todo && key in m
    ensures var r := SwapVisited(m, todo);
      SwapVisited(m, todo - {key}) == if IsSide(key) then r[SwapKey(key) := m[key]] else r
  {
    hide SwapVisited, SwapKey, IsSrc, IsDst;
    var r := SwapVisited(m, todo);
    var next := if IsSide(key) then r[SwapKey(key) := m[key]] else r;
    SwapKeyInvolution(key);
    forall k
      ensures k in SwapVisited(m, todo - {key}) <==> k in next
      ensures k in next ==> SwapVisited(m, todo - {key})[k] == next[k]
    {
      SwapVisitedField(m, todo, k);
      SwapVisitedField(m, todo - {key}, k);
      SwapKeyInvolution(k);
    }
    SameFields(SwapVisited(m, todo - {key}), next);
  }

  method SwapSides(m: GenericMap) returns (r: GenericMap)
    ensures r == SwapEndpoints(m)
  {
    hide SwapVisited, SwapEndpoints, Without;
    r := DeleteFields(m, IsSide);
    var todo := m.Keys;
    SwapVisitedAll(m);
    while todo != {}
      invariant todo <= m.Keys
      invariant r == SwapVisited(m, todo)
      decreases |todo|
    {
      var key :| key in todo;
      SwapVisitedStep(m, todo, key);
      SwapKeyInvolution(key);
      todo := todo - {key};
      if IsSrc(key) {
        r := r["Dst" + key[3..] := m[key]];
      }
      if IsDst(key) {
        r := r["Src" + key[3..] := m[key]];
      }
    }
  }

  method PrepareUnmatchedPlaintext(m: GenericMap) returns (r: GenericMap)
    ensures r == PrepareUnmatched(m)
  {
    if !TupleVerified(m) {
      r := DeleteFields(m, IsEndpoint);
    } else if !Reads(m) {
      r := m;
    } else {
      r := SwapSides(m);
    }
  }

  lemma SwapTwiceField(m: GenericMap, k: string)
    ensures k in SwapEndpoints(SwapEndpoints(m)) <==> k in m
    ensures k in m ==> SwapEndpoints(SwapEndpoints(m))[k] == m[k]
  {
    var s := SwapEndpoints(m);
    SwapKeyInvolution(k);
    SwappedKeysMeaning(m, SwapKey(k));
    SwappedKeysMeaning(s, k);
  }

  lemma SwapIsInvolution(m: GenericMap)
    ensures SwapEndpoints(SwapEndpoints(m)) == m
  {
    var r := SwapEndpoints(SwapEndpoints(m));
    forall k ensures (k in r <==> k in m) && (k in m ==> r[k] == m[k]) {
      SwapTwiceField(m, k);
    }
    SameFields(r, m);
  }

  lemma {:induction false} SwapKeepsSize(keys: set<string>)
    ensures |set k | k in keys :: SwapKey(k)| == |keys|
  {
    var image := set k | k in keys :: SwapKey(k);
    if keys == {} {
      assert image == {};
    } else {
      var key :| key in keys;
      var rest := keys - {key};
      SwapKeepsSize(rest);
      var restImage := set k | k in rest :: SwapKey(k);
      assert SwapKey(key) !in restImage by {
        forall k | k in rest ensures SwapKey(k) != SwapKey(key) {
          SwapKeyInvolution(k);
          SwapKeyInvolution(key);
        }
      }
      assert image == restImage + {SwapKey(key)};
    }
  }

  lemma SwapKeepsFieldCount(m: GenericMap)
    ensures |SwapEndpoints(m)| == |m|
  {
    SwapKeepsSize(m.Keys);
    assert SwapEndpoints(m).Keys == SwappedKeys(m) == set k | k in m.Keys :: SwapKey(k);
  }

  /** Swapping the fields reverses the tuple. */
  lemma SwapReversesTuple(m: GenericMap)
    requires TupleOf(m).Some?
    ensures TupleOf(SwapEndpoints(m)) == Some(TupleOf(m).value.Reverse())
  {
    EndpointNames("SrcAddr");
    SwapMeaning(m, "SrcAddr");
    SwapMeaning(m, "DstAddr");
    SwapMeaning(m, "SrcPort");
    SwapMeaning(m, "DstPort");
  }

  // ---------------------------------------------------------------------------------------------
  // Finished records.  Lines from the buffer are given apart from their display text.

  function AnnotatedRecord(data: GenericMap, wire: GenericMap): GenericMap {
    Bare(Overlay(data, wire))["PcapAnnotated" := Bool(true)]
  }

  function UnmatchedRecord(original: GenericMap): GenericMap {
    var rec := if FieldIs(original, "TupleSource", "kernel") then PrepareUnmatched(original) else original;
    Bare(rec)["PcapAnnotated" := Bool(false)]
  }

  /** The line written at once for a record that is not verified. */
  function UnverifiedRecord(m: GenericMap): GenericMap {
    PrepareUnmatched(m)["PcapAnnotated" := Bool(false)]
  }

  /** Marking and displaying a record leaves its endpoints alone. */
  lemma MarkingKeepsTuple(m: GenericMap, flag: bool)
    ensures TupleOf(Bare(m)["PcapAnnotated" := Bool(flag)]) == TupleOf(Bare(m)) == TupleOf(m)
  {
    TupleFromFields(Bare(m)["PcapAnnotated" := Bool(flag)], m);
    TupleFromFields(Bare(m), m);
  }

  lemma PreparedField(m: GenericMap, k: string)
    requires k in OTHER_NAMES
    ensures Field(PrepareUnmatched(m), k) == Field(m, k)
  {
    OtherNames(k);
    SwapMeaning(m, k);
  }

  lemma MarkedFields(m: GenericMap, flag: bool)
    ensures Field(Bare(m)["PcapAnnotated" := Bool(flag)], "PcapAnnotated") == Bool(flag)
    ensures Field(Bare(m)["PcapAnnotated" := Bool(flag)], "PacketID") == Field(m, "PacketID")
  {
  }

  /** A line of the plaintext log keeps the record's id and says whether a packet carries it. */
  lemma AnnotatedKeepsIdentity(m: GenericMap, wire: GenericMap)
    ensures Field(AnnotatedRecord(m, wire), "PacketID") == Field(m, "PacketID")
    ensures Field(AnnotatedRecord(m, wire), "PcapAnnotated") == Bool(true)
  {
    OtherNames("PacketID");
    OverlayField(m, wire, "PacketID");
    MarkedFields(Overlay(m, wire), true);
  }

  lemma UnmatchedKeepsIdentity(m: GenericMap)
    ensures Field(UnmatchedRecord(m), "PacketID") == Field(m, "PacketID")
    ensures Field(UnmatchedRecord(m), "PcapAnnotated") == Bool(false)
    ensures Field(UnverifiedRecord(m), "PacketID") == Field(m, "PacketID")
    ensures Field(UnverifiedRecord(m), "PcapAnnotated") == Bool(false)
  {
    PreparedField(m, "PacketID");
    MarkedFields(PrepareUnmatched(m), false);
    MarkedFields(m, false);
  }

  /** A verified record shows the same tuple however it leaves: annotated on a packet of its own connection,
      or expired without one. */
  lemma VerifiedTupleEitherWay(m: GenericMap, wire: GenericMap)
    requires TupleVerified(m)
    ensures TupleOf(UnmatchedRecord(m)) == NetworkTuple(m)
    ensures TupleOf(wire) == NetworkTuple(m) ==> TupleOf(AnnotatedRecord(m, wire)) == NetworkTuple(m)
  {
    SwapReversesTuple(m);
    MarkingKeepsTuple(PrepareUnmatched(m), false);
    OverlaySetsTuple(m, wire);
    MarkingKeepsTuple(Overlay(m, wire), true);
  }

  lemma BareSwap(m: GenericMap, k: string)
    ensures k in SwapEndpoints(Bare(m)) <==> k in Bare(SwapEndpoints(m))
    ensures Field(SwapEndpoints(Bare(m)), k) == Field(Bare(SwapEndpoints(m)), k)
  {
    OtherNames(DISPLAY);
    SwapKeyInvolution(k);
    SwapMeaning(m, k);
    SwapMeaning(Bare(m), k);
    BareField(m, SwapKey(k));
  }

  lemma BarePrepared(m: GenericMap)
    ensures TupleVerified(Bare(m)) == TupleVerified(m) && Reads(Bare(m)) == Reads(m)
    ensures PrepareUnmatched(Bare(m)) == Bare(PrepareUnmatched(m))
  {
    hide TupleOf, IsEndpoint, SwapEndpoints;
    TupleFromFields(Bare(m), m);
    if TupleVerified(m) && Reads(m) {
      var a, b := SwapEndpoints(Bare(m)), Bare(SwapEndpoints(m));
      forall k ensures (k in a <==> k in b) && (k in b ==> a[k] == b[k]) {
        BareSwap(m, k);
        assert Field(a, k) == Field(b, k);
      }
      SameFields(a, b);
    }
  }

  /** What an unmatched line says apart from its display text does not depend on the display text it came with. */
  lemma UnmatchedIgnoresDisplay(m: GenericMap)
    ensures UnmatchedRecord(Bare(m)) == UnmatchedRecord(m)
  {
    hide PrepareUnmatched;
    BarePrepared(m);
  }

  /** A record whose endpoints were not taken from the socket leaves without any of them. */
  lemma UnverifiedExportsNoEndpoint(m: GenericMap, k: string)
    requires !TupleVerified(m) && IsEndpoint(k)
    ensures k !in UnverifiedRecord(m)
    ensures FieldIs(m, "TupleSource", "kernel") ==> k !in UnmatchedRecord(m)
  {
    if k in OTHER_NAMES {
      OtherNames(k);
    }
  }

  // ---------------------------------------------------------------------------------------------
  // Finished records, field by field

  lemma PrefixMeaning(s: string, prefix: string)
    ensures HasPrefix(s, prefix) <==> prefix <= s
  {
  }

  /** A field name is metadata of one end, of the workload as a whole, or neither. */
  lemma K8sNames(k: string)
    ensures IsSideK8s(k) <==> "SrcK8S_" <= k || "DstK8S_" <= k
    ensures IsK8s(k) <==> "SrcK8S_" <= k || "DstK8S_" <= k || "K8S_" <= k
    ensures "K8S_" <= k ==> !IsSideK8s(k)
  {
    PrefixMeaning(k, "SrcK8S_");
    PrefixMeaning(k, "DstK8S_");
    PrefixMeaning(k, "K8S_");
    assert "K8S_"[0] == 'K' && "SrcK8S_"[0] == 'S' && "DstK8S_"[0] == 'D';
  }

  const TUPLE_NAMES := {"SrcAddr", "SrcPort", "DstAddr", "DstPort", "Proto"}

  lemma TupleNames(n: string)
    requires n in TUPLE_NAMES
    ensures !IsK8s(n) && n != "PcapAnnotated" && n != DISPLAY
  {
    if n in ENDPOINT_NAMES {
      EndpointNames(n);
    } else {
      OtherNames(n);
    }
  }

  /** What an annotated line takes from its packet: the tuple, when the packet has one. */
  lemma AnnotatedTuple(m: GenericMap, wire: GenericMap, t: FlowTuple)
    requires TupleOf(wire) == Some(t)
    ensures var line := AnnotatedRecord(m, wire);
      && Field(line, "SrcAddr") == Text(t.srcIP) && Field(line, "DstAddr") == Text(t.dstIP)
      && Field(line, "SrcPort") == U16(t.srcPort) && Field(line, "DstPort") == U16(t.dstPort)
      && Field(line, "Proto") == Float(6.0)
  {
    hide IsK8s, IsSideK8s, Overlay, HasPrefix, TupleOf, OverlayTuple, AnnotatedRecord;
    forall n | n in TUPLE_NAMES ensures Field(AnnotatedRecord(m, wire), n) == Field(OverlayTuple(m, wire), n) {
      AnnotatedName(m, wire, n);
    }
    OverlaidFields(m, wire, t);
  }

  lemma AnnotatedName(m: GenericMap, wire: GenericMap, n: string)
    requires n in TUPLE_NAMES
    ensures Field(AnnotatedRecord(m, wire), n) == Field(OverlayTuple(m, wire), n)
  {
    hide IsK8s, IsSideK8s, Overlay, OverlayTuple;
    TupleNames(n);
    OverlayField(m, wire, n);
  }

  lemma OverlaidFields(m: GenericMap, wire: GenericMap, t: FlowTuple)
    requires TupleOf(wire) == Some(t)
    ensures var r := OverlayTuple(m, wire);
      && Field(r, "SrcAddr") == Text(t.srcIP) && Field(r, "DstAddr") == Text(t.dstIP)
      && Field(r, "SrcPort") == U16(t.srcPort) && Field(r, "DstPort") == U16(t.dstPort)
      && Field(r, "Proto") == Float(6.0)
  {
    hide TupleOf;
  }

  /** Then all metadata of both ends, and other workload metadata the record has nothing to say in. */
  lemma AnnotatedMetadata(m: GenericMap, wire: GenericMap, k: string)
    ensures "SrcK8S_" <= k || "DstK8S_" <= k ==> Field(AnnotatedRecord(m, wire), k) == Field(wire, k)
    ensures "K8S_" <= k ==>
      Field(AnnotatedRecord(m, wire), k) ==
        if Field(m, k) in {Null, Text(""), Float(0.0), Int(0), Int64(0)} && k in wire then Field(wire, k)
        else Field(m, k)
  {
    hide IsK8s, IsSideK8s, Overlay, HasPrefix, TupleOf;
    K8sNames(k);
    K8sIsNoMark(k);
    OverlayField(m, wire, k);
  }

  lemma K8sIsNoMark(k: string)
    ensures IsK8s(k) ==> k != "PcapAnnotated" && k != DISPLAY
  {
    OtherNames("PcapAnnotated");
    OtherNames("PlaintextDisplay");
  }

  /** And what it leaves as the record has it: everything else. */
  lemma AnnotatedKeeps(m: GenericMap, wire: GenericMap, k: string)
    requires !("SrcK8S_" <= k) && !("DstK8S_" <= k) && !("K8S_" <= k)
    requires k != "PcapAnnotated" && k != "PlaintextDisplay"
    requires k in TUPLE_NAMES ==> TupleOf(wire).None?
    ensures Field(AnnotatedRecord(m, wire), k) == Field(m, k)
  {
    hide IsK8s, IsSideK8s, Overlay, HasPrefix, TupleOf;
    K8sNames(k);
    OverlayField(m, wire, k);
  }

  /** The line of a record the buffer gave up on.  A read record from the socket has its ends exchanged, field by field;
      one that claims to be from the socket without a full tuple loses its ends; all else stays. */
  lemma UnmatchedFields(m: GenericMap, k: string, x: string)
    requires k != "PcapAnnotated" && k != "PlaintextDisplay"
    ensures var line, kernel := UnmatchedRecord(m), Field(m, "TupleSource") == Text("kernel");
      && (kernel && HasTuple(m) && Field(m, "Direction") == Text("read") ==>
            && Field(line, "Src" + x) == Field(m, "Dst" + x) && Field(line, "Dst" + x) == Field(m, "Src" + x)
            && (!("Src" <= k) && !("Dst" <= k) ==> Field(line, k) == Field(m, k)))
      && (!kernel || (HasTuple(m) && Field(m, "Direction") != Text("read")) ==> Field(line, k) == Field(m, k))
      && (kernel && !HasTuple(m) ==> if NamesEnd(k) then k !in line else Field(line, k) == Field(m, k))
  {
    hide TupleOf, SwapEndpoints;
    PrefixMeaning("Src" + x, "Src");
    PrefixMeaning("Dst" + x, "Dst");
    PrefixMeaning("Dst" + x, "Src");
    PrefixMeaning(k, "Src");
    PrefixMeaning(k, "Dst");
    assert ("Src" + x)[3..] == x && ("Dst" + x)[3..] == x && ("Src" + x)[0] == 'S' && ("Dst" + x)[0] == 'D';
    SwapMeaning(m, "Src" + x);
    SwapMeaning(m, "Dst" + x);
    SwapMeaning(m, k);
    EndNames(k);
  }

  /** The name belongs to one of the two ends: its address, its port or its metadata. */
  predicate NamesEnd(k: string) {
    k in {"SrcAddr", "SrcPort", "DstAddr", "DstPort"} || "SrcK8S_" <= k || "DstK8S_" <= k
  }

  lemma EndNames(k: string)
    ensures IsEndpoint(k) <==> NamesEnd(k)
  {
    PrefixMeaning(k, "SrcK8S_");
    PrefixMeaning(k, "DstK8S_");
  }

  /** The line written at once for a record not from the socket: without its ends, and otherwise as it is. */
  lemma UnverifiedFields(m: GenericMap, k: string)
    requires Field(m, "TupleSource") != Text("kernel") || TupleOf(m).None?
    requires k != "PcapAnnotated"
    ensures if NamesEnd(k) then k !in UnverifiedRecord(m) else Field(UnverifiedRecord(m), k) == Field(m, k)
  {
    hide TupleOf;
    EndNames(k);
  }
}
