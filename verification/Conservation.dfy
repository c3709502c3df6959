/** What every run of the buffer keeps, for any way of choosing packets: no packet or record is lost or
    duplicated, packets keep their order, and the two outputs name the same pairs.

    Conservation is stated by counting: for every value a packet or record can have, as many come out as went in. */
module Conservation {
  import opened Records
  import opened Timing
  import opened Scoring
  import opened Matching
  import opened Sequences
  import opened Protocol

  // ---------------------------------------------------------------------------------------------
  // What is counted

  /** A packet as it arrived. */
  function Plain(): WirePacket -> WirePacket {
    (p: WirePacket) => p.(packetID := None, annotated := false)
  }

  /** A record as it arrived. */
  function Fresh(pt: PendingPlaintext): PendingPlaintext {
    pt.(data := pt.original, connectionAmbiguous := false)
  }

  type OfPacket = WirePacket -> bool
  type OfRecord = PendingPlaintext -> bool

  function AnyRecord(): OfRecord {
    (pt: PendingPlaintext) => true
  }

  /** The packet carries record id `id` and arrived like that. */
  function Carries(id: nat, like: OfPacket): WirePacket -> bool {
    (p: WirePacket) => p.packetID == Some(id) && like(Plain()(p))
  }

  /** The exported record has id `id` and was annotated on a packet that arrived like that. */
  function Claims(id: nat, like: OfPacket): Export -> bool {
    (e: Export) => e.pt.id == id && e.outcome.Annotated? && like(Plain()(e.outcome.packet))
  }

  /** The pending record has id `id` and arrived like that. */
  function Holds(id: nat, like: OfRecord): PendingPlaintext -> bool {
    (pt: PendingPlaintext) => pt.id == id && like(Fresh(pt))
  }

  /** The exported record has id `id` and arrived like that. */
  function Reports(id: nat, like: OfRecord): Export -> bool {
    (e: Export) => e.pt.id == id && like(Fresh(e.pt))
  }

  function ArrivedAs(pkt: WirePacket): WirePacket -> bool {
    (p: WirePacket) => Plain()(p) == pkt
  }

  function Received(): WirePacket -> int {
    (p: WirePacket) => p.stamp.received
  }

  // ---------------------------------------------------------------------------------------------
  // Agreement of the two outputs

  predicate Sound(packets: seq<WirePacket>) {
    forall i | 0 <= i < |packets| :: packets[i].annotated <==> packets[i].packetID.Some?
  }

  predicate AllSound(s: State) {
    Sound(s.pcap) && Sound(s.packets)
  }

  /** Packets that carry this id, written or still buffered, less the records that claim them. */
  function Imbalance(s: State, id: nat, like: OfPacket): int {
    Count(s.pcap, Carries(id, like)) + Count(s.packets, Carries(id, like)) - Count(s.exports, Claims(id, like))
  }

  lemma AnnotateCarries(packets: seq<WirePacket>, i: nat, mark: nat, id: nat, like: OfPacket)
    requires i < |packets| && Sound(packets) && !packets[i].annotated
    ensures Sound(Annotate(packets, i, mark))
    ensures Count(Annotate(packets, i, mark), Carries(id, like)) == Count(packets, Carries(id, like))
              + if mark == id && like(Plain()(packets[i])) then 1 else 0
  {
    CountUpdate(packets, i, packets[i].(annotated := true, packetID := Some(mark)), Carries(id, like));
  }

  lemma {:induction false} MatchBalances(m: Matcher, packets: seq<WirePacket>, pending: seq<PendingPlaintext>,
      final: bool, clock: Clock, pass: nat, n: nat, id: nat, like: OfPacket)
    requires n <= |pending| && Sound(packets)
    ensures var p := MatchUpTo(m, packets, pending, final, clock, pass, n);
      && Sound(p.packets)
      && Count(p.packets, Carries(id, like)) == Count(packets, Carries(id, like)) + Count(p.exports, Claims(id, like))
  {
    if n > 0 {
      MatchBalances(m, packets, pending, final, clock, pass, n - 1, id, like);
      var p := MatchUpTo(m, packets, pending, final, clock, pass, n - 1);
      var a := AllowedAttempt(m, p.packets, pending[n-1], final, clock(pass, n - 1));
      if a.chosen.Some? {
        AnnotateCarries(p.packets, a.chosen.value, a.pt.id, id, like);
        CountSnoc(p.exports, AnnotatedExport(a.pt, p.packets[a.chosen.value]), Claims(id, like));
      }
    }
  }

  lemma MatchPendingBalances(m: Matcher, s: State, final: bool, clock: Clock, pass: nat, id: nat, like: OfPacket)
    requires AllSound(s)
    ensures var t := MatchPending(m, s, final, clock, pass);
      AllSound(t) && Imbalance(t, id, like) == Imbalance(s, id, like)
  {
    hide Count, Carries, Claims, MatchUpTo;
    var p := MatchUpTo(m, s.packets, s.pending, final, clock, pass, |s.pending|);
    MatchBalances(m, s.packets, s.pending, final, clock, pass, |s.pending|, id, like);
    CountConcat(s.exports, p.exports, Claims(id, like));
  }

  lemma SelectSound(packets: seq<WirePacket>, f: WirePacket -> bool, want: bool)
    requires Sound(packets)
    ensures Sound(Select(packets, f, want))
  {
    var r := Select(packets, f, want);
    forall i | 0 <= i < |r| ensures r[i].annotated <==> r[i].packetID.Some? {
      SelectMember(packets, f, want, r[i]);
    }
  }

  lemma FlushPacketsBalances(s: State, now: int, window: Duration, id: nat, like: OfPacket)
    requires AllSound(s)
    ensures var t := FlushPackets(s, now, window); AllSound(t) && Imbalance(t, id, like) == Imbalance(s, id, like)
  {
    hide Count, Carries, Claims, Select, OldPacket;
    var gone := Select(s.packets, OldPacket(now, window), true);
    SelectSound(s.packets, OldPacket(now, window), true);
    SelectSound(s.packets, OldPacket(now, window), false);
    CountSelect(s.packets, OldPacket(now, window), Carries(id, like));
    CountConcat(s.pcap, gone, Carries(id, like));
  }

  lemma UnmatchedClaimNothing(xs: seq<PendingPlaintext>, id: nat, like: OfPacket)
    ensures Count(Map(xs, Unmatch()), Claims(id, like)) == 0
  {
    CountNone(Map(xs, Unmatch()), Claims(id, like));
  }

  lemma FlushRecordsBalances(s: State, now: int, window: Duration, id: nat, like: OfPacket)
    ensures Imbalance(FlushRecords(s, now, window), id, like) == Imbalance(s, id, like)
  {
    hide Count, Carries, Claims, Select, OldRecord, Map;
    var gone := Select(s.pending, OldRecord(now, window), true);
    UnmatchedClaimNothing(gone, id, like);
    CountConcat(s.exports, Map(gone, Unmatch()), Claims(id, like));
  }

  lemma FlushExpiredBalances(m: Matcher, s: State, now: int, window: Duration, clock: Clock,
      id: nat, like: OfPacket)
    requires AllSound(s)
    ensures var t := FlushExpired(m, s, now, window, clock);
      AllSound(t) && Imbalance(t, id, like) == Imbalance(s, id, like)
  {
    hide Count, Carries, Claims, Select, Imbalance, MatchPending;
    var s1 := s;
    if s.packets != [] {
      MatchPendingBalances(m, s, false, clock, 0, id, like);
      s1 := MatchPending(m, s, false, clock, 0);
      FlushPacketsBalances(s1, now, window, id, like);
      s1 := FlushPackets(s1, now, window);
    }
    FlushRecordsBalances(s1, now, window, id, like);
  }

  /** Admitting a packet adds exactly it to the packets written and buffered, in whatever way they are counted. */
  lemma AdmitCounts(s: State, pkt: WirePacket, f: WirePacket -> bool)
    ensures var t := Admit(s, pkt);
      Count(t.pcap, f) + Count(t.packets, f) == Count(s.pcap, f) + Count(s.packets, f) + if f(pkt) then 1 else 0
  {
    var packets := s.packets + [pkt];
    CountSnoc(s.packets, pkt, f);
    if |packets| > MAX_BUFFERED {
      var first, rest := [packets[0]], packets[1..];
      assert packets == first + rest;
      CountConcat(first, rest, f);
      CountConcat(s.pcap, first, f);
    }
  }

  lemma AdmitBalances(s: State, pkt: WirePacket, id: nat, like: OfPacket)
    requires AllSound(s) && !pkt.annotated && pkt.packetID == None
    ensures var t := Admit(s, pkt); AllSound(t) && Imbalance(t, id, like) == Imbalance(s, id, like)
  {
    hide Count;
    AdmitCounts(s, pkt, Carries(id, like));
  }

  lemma SettleBalances(m: Matcher, s: State, pt: PendingPlaintext, r: Reading, id: nat, like: OfPacket)
    requires AllSound(s)
    ensures var t := Settle(m, s, pt, r); AllSound(t) && Imbalance(t, id, like) == Imbalance(s, id, like)
  {
    hide Count, Carries, Annotate;
    var a := AllowedAttempt(m, s.packets, pt, false, r);
    if a.chosen.Some? {
      AnnotateCarries(s.packets, a.chosen.value, a.pt.id, id, like);
      CountSnoc(s.exports, AnnotatedExport(a.pt, s.packets[a.chosen.value]), Claims(id, like));
    }
  }

  lemma FlushAllBalances(m: Matcher, s: State, clock: Clock, id: nat, like: OfPacket)
    requires AllSound(s)
    ensures var t := FlushAll(m, s, clock); AllSound(t) && Imbalance(t, id, like) == Imbalance(s, id, like)
  {
    hide Carries, Claims, MatchPending, Map, Count;
    CountNone([], Carries(id, like));
    MatchPendingBalances(m, s, true, clock, 0, id, like);
    var s1 := MatchPending(m, s, true, clock, 0);
    UnmatchedClaimNothing(s1.pending, id, like);
    CountConcat(s1.exports, Map(s1.pending, Unmatch()), Claims(id, like));
    CountConcat(s1.pcap, s1.packets, Carries(id, like));
  }

  lemma StepBalances(m: Matcher, window: Duration, s: State, step: Step, id: nat, like: OfPacket)
    requires AllSound(s) && step.WellFormed()
    ensures var t := Apply(m, window, s, step); AllSound(t) && Imbalance(t, id, like) == Imbalance(s, id, like)
  {
    hide Imbalance, FlushExpired, MatchPending, Admit, Settle, FlushAll, AllSound;
    match step
    case Wire(pkt, clock) =>
      var s1 := FlushExpired(m, s, pkt.stamp.received, window, clock);
      FlushExpiredBalances(m, s, pkt.stamp.received, window, clock, id, like);
      AdmitBalances(s1, pkt, id, like);
      MatchPendingBalances(m, Admit(s1, pkt), false, clock, 1, id, like);
    case Event(pt, clock) =>
      FlushExpiredBalances(m, s, pt.stamp.received, window, clock, id, like);
      SettleBalances(m, FlushExpired(m, s, pt.stamp.received, window, clock), pt, clock(1, 0), id, like);
    case Tick(now, clock) => FlushExpiredBalances(m, s, now, window, clock, id, like);
    case Close(clock) => FlushAllBalances(m, s, clock, id, like);
  }

  // ---------------------------------------------------------------------------------------------
  // Records: handed in once, held or reported once

  /** How often the record is held or has been reported. */
  function Accounted(s: State, id: nat, like: OfRecord): nat {
    Count(s.exports, Reports(id, like)) + Count(s.pending, Holds(id, like))
  }

  /** A record counts the same after an attempt, pending or exported in whatever way. */
  lemma AttemptReports(pt: PendingPlaintext, pt1: PendingPlaintext, id: nat, like: OfRecord)
    requires pt1.stamp == pt.stamp && pt1.original == pt.original && pt1.id == pt.id
    ensures Holds(id, like)(pt1) == Holds(id, like)(pt)
    ensures forall o: Outcome :: Reports(id, like)(Export(pt1, o)) == Holds(id, like)(pt)
  {
    assert Fresh(pt1) == Fresh(pt);
  }

  lemma AdvanceAccounts(p: Pass, pt: PendingPlaintext, a: Attempt, id: nat, like: OfRecord)
    requires AttemptAllowed(p.packets, pt, a)
    ensures var q := Advance(p, a);
      Count(q.exports, Reports(id, like)) + Count(q.kept, Holds(id, like))
        == Count(p.exports, Reports(id, like)) + Count(p.kept, Holds(id, like)) + if Holds(id, like)(pt) then 1 else 0
  {
    hide Count, Reports, Holds, Annotate;
    AttemptReports(pt, a.pt, id, like);
    if a.chosen.Some? {
      CountSnoc(p.exports, AnnotatedExport(a.pt, p.packets[a.chosen.value]), Reports(id, like));
    } else {
      CountSnoc(p.kept, a.pt, Holds(id, like));
    }
  }

  lemma {:induction false} MatchAccounts(m: Matcher, packets: seq<WirePacket>, pending: seq<PendingPlaintext>,
      final: bool, clock: Clock, pass: nat, n: nat, id: nat, like: OfRecord)
    requires n <= |pending|
    ensures var p := MatchUpTo(m, packets, pending, final, clock, pass, n);
      Count(p.exports, Reports(id, like)) + Count(p.kept, Holds(id, like))
        == Count(pending[..n], Holds(id, like))
  {
    hide Advance, Reports, Holds, MatchUpTo, Count;
    if n == 0 {
      MatchStart(m, packets, pending, final, clock, pass);
      CountNone([], Reports(id, like));
      CountNone([], Holds(id, like));
      assert pending[..n] == [];
    } else {
      MatchAccounts(m, packets, pending, final, clock, pass, n - 1, id, like);
      var p := MatchUpTo(m, packets, pending, final, clock, pass, n - 1);
      var a := AllowedAttempt(m, p.packets, pending[n-1], final, clock(pass, n - 1));
      MatchStep(m, packets, pending, final, clock, pass, n - 1);
      AdvanceAccounts(p, pending[n-1], a, id, like);
      assert pending[..n] == pending[..n-1] + [pending[n-1]];
      CountSnoc(pending[..n-1], pending[n-1], Holds(id, like));
    }
  }

  lemma MatchPendingAccounts(m: Matcher, s: State, final: bool, clock: Clock, pass: nat, id: nat, like: OfRecord)
    ensures Accounted(MatchPending(m, s, final, clock, pass), id, like) == Accounted(s, id, like)
  {
    hide Count, Reports, Holds, MatchUpTo;
    var p := MatchUpTo(m, s.packets, s.pending, final, clock, pass, |s.pending|);
    MatchAccounts(m, s.packets, s.pending, final, clock, pass, |s.pending|, id, like);
    assert s.pending[..|s.pending|] == s.pending;
    CountConcat(s.exports, p.exports, Reports(id, like));
  }

  lemma UnmatchedReports(exports: seq<Export>, xs: seq<PendingPlaintext>, id: nat, like: OfRecord)
    ensures Count(exports + Map(xs, Unmatch()), Reports(id, like))
         == Count(exports, Reports(id, like)) + Count(xs, Holds(id, like))
  {
    CountMap(xs, Unmatch(), Reports(id, like), Holds(id, like));
    CountConcat(exports, Map(xs, Unmatch()), Reports(id, like));
  }

  lemma FlushRecordsAccounts(s: State, now: int, window: Duration, id: nat, like: OfRecord)
    ensures Accounted(FlushRecords(s, now, window), id, like) == Accounted(s, id, like)
  {
    hide Count, Reports, Holds, Select, OldRecord, Map;
    UnmatchedReports(s.exports, Select(s.pending, OldRecord(now, window), true), id, like);
    CountSelect(s.pending, OldRecord(now, window), Holds(id, like));
  }

  lemma FlushExpiredAccounts(m: Matcher, s: State, now: int, window: Duration, clock: Clock,
      id: nat, like: OfRecord)
    ensures Accounted(FlushExpired(m, s, now, window, clock), id, like) == Accounted(s, id, like)
  {
    hide Count, Reports, Holds, Select, MatchPending;
    MatchPendingAccounts(m, s, false, clock, 0, id, like);
    var s1 := if s.packets == [] then s else FlushPackets(MatchPending(m, s, false, clock, 0), now, window);
    FlushRecordsAccounts(s1, now, window, id, like);
  }

  /** The record a step hands in, if any. */
  predicate HandsIn(step: Step, id: nat, like: OfRecord) {
    step.Event? && Holds(id, like)(step.pt)
  }

  lemma SettleAccounts(m: Matcher, s: State, pt: PendingPlaintext, r: Reading, id: nat, like: OfRecord)
    ensures Accounted(Settle(m, s, pt, r), id, like)
         == Accounted(s, id, like) + if Holds(id, like)(pt) then 1 else 0
  {
    hide Count, Reports, Holds;
    var a := AllowedAttempt(m, s.packets, pt, false, r);
    AttemptReports(pt, a.pt, id, like);
    if a.chosen.Some? {
      CountSnoc(s.exports, AnnotatedExport(a.pt, s.packets[a.chosen.value]), Reports(id, like));
    } else {
      CountSnoc(s.pending, a.pt, Holds(id, like));
    }
  }

  lemma StepAccounts(m: Matcher, window: Duration, s: State, step: Step, id: nat, like: OfRecord)
    ensures Accounted(Apply(m, window, s, step), id, like)
         == Accounted(s, id, like) + if HandsIn(step, id, like) then 1 else 0
  {
    hide Count, Reports, Holds, FlushExpired, MatchPending, Settle;
    match step
    case Wire(pkt, clock) =>
      var s1 := FlushExpired(m, s, pkt.stamp.received, window, clock);
      FlushExpiredAccounts(m, s, pkt.stamp.received, window, clock, id, like);
      MatchPendingAccounts(m, Admit(s1, pkt), false, clock, 1, id, like);
    case Event(pt, clock) =>
      FlushExpiredAccounts(m, s, pt.stamp.received, window, clock, id, like);
      SettleAccounts(m, FlushExpired(m, s, pt.stamp.received, window, clock), pt, clock(1, 0), id, like);
    case Tick(now, clock) => FlushExpiredAccounts(m, s, now, window, clock, id, like);
    case Close(clock) =>
      MatchPendingAccounts(m, s, true, clock, 0, id, like);
      var s1 := MatchPending(m, s, true, clock, 0);
      UnmatchedReports(s1.exports, s1.pending, id, like);
      CountNone([], Holds(id, like));
  }

  // ---------------------------------------------------------------------------------------------
  // Packets: each arrival written or buffered once, in order of arrival

  /** How often a packet with this arrival is written or buffered. */
  function Present(s: State, pkt: WirePacket): nat {
    Count(s.pcap, ArrivedAs(pkt)) + Count(s.packets, ArrivedAs(pkt))
  }

  /** Written packets, then buffered packets, as they arrived. */
  function Wires(s: State): seq<WirePacket> {
    Map(s.pcap, Plain()) + Map(s.packets, Plain())
  }

  predicate Ordered(s: State) {
    SortedBy(s.packets, Received())
  }

  lemma {:induction false} MatchPlain(m: Matcher, packets: seq<WirePacket>, pending: seq<PendingPlaintext>,
      final: bool, clock: Clock, pass: nat, n: nat)
    requires n <= |pending|
    ensures Map(MatchUpTo(m, packets, pending, final, clock, pass, n).packets, Plain()) == Map(packets, Plain())
  {
    if n > 0 {
      MatchPlain(m, packets, pending, final, clock, pass, n - 1);
      var p := MatchUpTo(m, packets, pending, final, clock, pass, n - 1);
      var a := AllowedAttempt(m, p.packets, pending[n-1], final, clock(pass, n - 1));
      if a.chosen.Some? {
        assert Map(Annotate(p.packets, a.chosen.value, a.pt.id), Plain()) == Map(p.packets, Plain());
      }
    }
  }

  /** Counting and ordering look at packets as they arrived. */
  lemma PlainDecides(xs: seq<WirePacket>, ys: seq<WirePacket>, pkt: WirePacket)
    requires Map(xs, Plain()) == Map(ys, Plain())
    ensures Count(xs, ArrivedAs(pkt)) == Count(ys, ArrivedAs(pkt))
    ensures SortedBy(xs, Received()) <==> SortedBy(ys, Received())
  {
    var same := (p: WirePacket) => p == pkt;
    CountMap(xs, Plain(), same, ArrivedAs(pkt));
    CountMap(ys, Plain(), same, ArrivedAs(pkt));
    assert forall i | 0 <= i < |xs| :: Map(xs, Plain())[i].stamp == xs[i].stamp;
    assert forall i | 0 <= i < |ys| :: Map(ys, Plain())[i].stamp == ys[i].stamp;
  }

  /** A part of a step that takes in no packet and drops none. */
  predicate KeepsWires(s: State, t: State, pkt: WirePacket) {
    && Present(t, pkt) == Present(s, pkt)
    && (Ordered(s) ==> Ordered(t) && Wires(t) == Wires(s))
    && s.pcap <= t.pcap
  }

  lemma MatchPendingKeepsWires(m: Matcher, s: State, final: bool, clock: Clock, pass: nat, pkt: WirePacket)
    ensures var t := MatchPending(m, s, final, clock, pass); KeepsWires(s, t, pkt) && Wires(t) == Wires(s)
  {
    hide Count, Map, MatchUpTo, SortedBy;
    var p := MatchUpTo(m, s.packets, s.pending, final, clock, pass, |s.pending|);
    MatchPlain(m, s.packets, s.pending, final, clock, pass, |s.pending|);
    PlainDecides(s.packets, p.packets, pkt);
  }

  lemma FlushPacketsKeepsWires(s: State, now: int, window: Duration, pkt: WirePacket)
    ensures KeepsWires(s, FlushPackets(s, now, window), pkt)
  {
    hide Count, Map, Select;
    var aged := OldPacket(now, window);
    var gone, rest := Select(s.packets, aged, true), Select(s.packets, aged, false);
    CountSelect(s.packets, aged, ArrivedAs(pkt));
    CountConcat(s.pcap, gone, ArrivedAs(pkt));
    if Ordered(s) {
      SelectSorted(s.packets, aged, false, Received());
      forall i, j | 0 <= i < j < |s.packets| && aged(s.packets[j]) ensures aged(s.packets[i]) {
        assert Received()(s.packets[i]) <= Received()(s.packets[j]);
      }
      SelectPrefix(s.packets, aged);
      MapConcat(s.pcap, gone, Plain());
      MapConcat(gone, rest, Plain());
    }
  }

  lemma FlushExpiredKeepsWires(m: Matcher, s: State, now: int, window: Duration, clock: Clock, pkt: WirePacket)
    ensures KeepsWires(s, FlushExpired(m, s, now, window, clock), pkt)
  {
    hide Count, Map, Select, MatchPending, SortedBy;
    if s.packets != [] {
      MatchPendingKeepsWires(m, s, false, clock, 0, pkt);
      FlushPacketsKeepsWires(MatchPending(m, s, false, clock, 0), now, window, pkt);
    }
  }

  lemma AdmitTakesWire(s: State, arrival: WirePacket)
    requires Plain()(arrival) == arrival
    ensures var t := Admit(s, arrival); Wires(t) == Wires(s) + [arrival] && s.pcap <= t.pcap
  {
    hide Map, Plain;
    var packets := s.packets + [arrival];
    MapSnoc(s.packets, arrival, Plain());
    if |packets| > MAX_BUFFERED {
      var first, rest := [packets[0]], packets[1..];
      assert packets == first + rest;
      MapConcat(first, rest, Plain());
      MapConcat(s.pcap, first, Plain());
    }
  }

  lemma AdmitKeepsOrder(s: State, arrival: WirePacket)
    requires Ordered(s) && forall p | p in s.packets :: p.stamp.received <= arrival.stamp.received
    ensures Ordered(Admit(s, arrival))
  {
    assert SortedBy(s.packets + [arrival], Received());
  }

  lemma SettleKeepsWires(m: Matcher, s: State, pt: PendingPlaintext, r: Reading, pkt: WirePacket)
    ensures KeepsWires(s, Settle(m, s, pt, r), pkt)
  {
    hide Count;
    var a := AllowedAttempt(m, s.packets, pt, false, r);
    if a.chosen.Some? {
      assert Map(Annotate(s.packets, a.chosen.value, a.pt.id), Plain()) == Map(s.packets, Plain());
      PlainDecides(s.packets, Annotate(s.packets, a.chosen.value, a.pt.id), pkt);
    }
  }

  lemma FlushAllKeepsWires(m: Matcher, s: State, clock: Clock, pkt: WirePacket)
    ensures var t := FlushAll(m, s, clock); KeepsWires(s, t, pkt) && Wires(t) == Wires(s)
  {
    hide Map, MatchPending;
    MatchPendingKeepsWires(m, s, true, clock, 0, pkt);
    var s1 := MatchPending(m, s, true, clock, 0);
    CountConcat(s1.pcap, s1.packets, ArrivedAs(pkt));
    MapConcat(s1.pcap, s1.packets, Plain());
  }
}
