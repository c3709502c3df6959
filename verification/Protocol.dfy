/** The correlation buffer as a state machine, for any way of choosing packets.

    A step may examine pending records twice; `Clock` gives the two clock readings made for the k-th record
    examined in the p-th pass of a step.  Nothing is assumed of the readings. */
module Protocol {
  import opened Records
  import opened Timing
  import opened Scoring
  import opened Matching
  import opened Sequences

  const MAX_BUFFERED := 20000

  // ---------------------------------------------------------------------------------------------
  // State

  datatype Outcome = Annotated(packet: WirePacket) | Unmatched

  /** A record handed back to the exporter, and how it left the buffer: annotated on a packet, shown here as it was
      before, or not. */
  datatype Export = Export(pt: PendingPlaintext, outcome: Outcome)

  datatype State = State(
    packets: seq<WirePacket>, pending: seq<PendingPlaintext>, pcap: seq<WirePacket>, exports: seq<Export>)

  const EMPTY := State([], [], [], [])

  type Clock = (nat, nat) -> Reading

  // ---------------------------------------------------------------------------------------------
  // Choosing a packet

  type Chooser = (seq<WirePacket>, PendingPlaintext, bool, Reading) -> Attempt

  /** What the protocol needs of an attempt: it picks a packet that is not taken, leaves the identity of the
      record alone, never forgets an ambiguity and never annotates in spite of one. */
  ghost predicate IsMatcher(m: Chooser) {
    forall packets, pt, final, r :: AttemptAllowed(packets, pt, m(packets, pt, final, r))
  }

  predicate AttemptAllowed(packets: seq<WirePacket>, pt: PendingPlaintext, a: Attempt) {
    && a.pt.stamp == pt.stamp && a.pt.original == pt.original && a.pt.id == pt.id
    && (pt.connectionAmbiguous ==> a.pt.connectionAmbiguous)
    && (a.chosen.Some? ==>
          a.chosen.value < |packets| && !packets[a.chosen.value].annotated && !a.pt.connectionAmbiguous)
  }

  type Matcher = m: Chooser | IsMatcher(m) witness (packets, pt, final, r) => Attempt(pt, None)

  // ---------------------------------------------------------------------------------------------
  // Matching pending records

  function Annotate(packets: seq<WirePacket>, i: nat, id: nat): seq<WirePacket>
    requires i < |packets|
  {
    packets[i := packets[i].(annotated := true, packetID := Some(id))]
  }

  function AnnotatedExport(pt: PendingPlaintext, pkt: WirePacket): Export {
    Export(pt, Annotated(pkt))
  }

  function UnmatchedExport(pt: PendingPlaintext): Export {
    Export(pt, Unmatched)
  }

  datatype Pass = Pass(packets: seq<WirePacket>, kept: seq<PendingPlaintext>, exports: seq<Export>)

  function AllowedAttempt(m: Matcher, packets: seq<WirePacket>, pt: PendingPlaintext, final: bool, r: Reading)
    : (a: Attempt)
    ensures AttemptAllowed(packets, pt, a)
  {
    m(packets, pt, final, r)
  }

  /** The pass after one more attempt. */
  function Advance(p: Pass, a: Attempt): (q: Pass)
    requires a.chosen.Some? ==> a.chosen.value < |p.packets|
    ensures |q.packets| == |p.packets|
  {
    match a.chosen
    case Some(i) => Pass(Annotate(p.packets, i, a.pt.id), p.kept, p.exports + [AnnotatedExport(a.pt, p.packets[i])])
    case None => p.(kept := p.kept + [a.pt])
  }

  /** The pass over the pending records after the first `n` of them. */
  function MatchUpTo(m: Matcher, packets: seq<WirePacket>, pending: seq<PendingPlaintext>,
                     final: bool, clock: Clock, pass: nat, n: nat): (p: Pass)
    requires n <= |pending|
    ensures |p.packets| == |packets|
  {
    if n == 0 then Pass(packets, [], [])
    else
      var p := MatchUpTo(m, packets, pending, final, clock, pass, n - 1);
      Advance(p, AllowedAttempt(m, p.packets, pending[n-1], final, clock(pass, n - 1)))
  }

  lemma MatchStart(m: Matcher, packets: seq<WirePacket>, pending: seq<PendingPlaintext>,
                   final: bool, clock: Clock, pass: nat)
    ensures MatchUpTo(m, packets, pending, final, clock, pass, 0) == Pass(packets, [], [])
  {
  }

  lemma MatchStep(m: Matcher, packets: seq<WirePacket>, pending: seq<PendingPlaintext>,
                  final: bool, clock: Clock, pass: nat, k: nat)
    requires k < |pending|
    ensures var p := MatchUpTo(m, packets, pending, final, clock, pass, k);
      MatchUpTo(m, packets, pending, final, clock, pass, k + 1)
        == Advance(p, AllowedAttempt(m, p.packets, pending[k], final, clock(pass, k)))
  {
  }

  function MatchPending(m: Matcher, s: State, final: bool, clock: Clock, pass: nat): State {
    var p := MatchUpTo(m, s.packets, s.pending, final, clock, pass, |s.pending|);
    s.(packets := p.packets, pending := p.kept, exports := s.exports + p.exports)
  }

  // ---------------------------------------------------------------------------------------------
  // Expiry

  predicate Old(now: int, window: Duration, stamp: Stamp) {
    Sub(now, stamp.received) >= window
  }

  function OldPacket(now: int, window: Duration): WirePacket -> bool {
    (p: WirePacket) => Old(now, window, p.stamp)
  }

  function OldRecord(now: int, window: Duration): PendingPlaintext -> bool {
    (pt: PendingPlaintext) => Old(now, window, pt.stamp)
  }

  function Unmatch(): PendingPlaintext -> Export {
    (pt: PendingPlaintext) => UnmatchedExport(pt)
  }

  function FlushPackets(s: State, now: int, window: Duration): State {
    s.(pcap := s.pcap + Select(s.packets, OldPacket(now, window), true),
       packets := Select(s.packets, OldPacket(now, window), false))
  }

  function FlushRecords(s: State, now: int, window: Duration): State {
    s.(exports := s.exports + Map(Select(s.pending, OldRecord(now, window), true), Unmatch()),
       pending := Select(s.pending, OldRecord(now, window), false))
  }

  function FlushExpired(m: Matcher, s: State, now: int, window: Duration, clock: Clock): State {
    var s1 := if s.packets == [] then s else FlushPackets(MatchPending(m, s, false, clock, 0), now, window);
    FlushRecords(s1, now, window)
  }

  // ---------------------------------------------------------------------------------------------
  // Steps

  function NewPacket(now: int, fields: GenericMap, captured: Option<int>, data: Bytes): WirePacket {
    WirePacket(Stamp(now, captured), fields, data, None, false)
  }

  function NewPending(now: int, m: GenericMap, captured: Option<int>, id: nat): PendingPlaintext {
    PendingPlaintext(Stamp(now, captured), m, m, id, false)
  }

  /** The oldest packet gives way when the buffer is over its limit. */
  function Admit(s: State, pkt: WirePacket): State {
    var packets := s.packets + [pkt];
    if |packets| > MAX_BUFFERED then s.(pcap := s.pcap + [packets[0]], packets := packets[1..])
    else s.(packets := packets)
  }

  function Enqueue(m: Matcher, s: State, pkt: WirePacket, window: Duration, clock: Clock): State {
    MatchPending(m, Admit(FlushExpired(m, s, pkt.stamp.received, window, clock), pkt), false, clock, 1)
  }

  /** The attempt of a record that has just arrived. */
  function Settle(m: Matcher, s: State, pt: PendingPlaintext, r: Reading): State {
    var a := AllowedAttempt(m, s.packets, pt, false, r);
    match a.chosen
    case Some(i) =>
      s.(packets := Annotate(s.packets, i, a.pt.id), exports := s.exports + [AnnotatedExport(a.pt, s.packets[i])])
    case None => s.(pending := s.pending + [a.pt])
  }

  function HandlePlaintext(m: Matcher, s: State, pt: PendingPlaintext, window: Duration, clock: Clock): State {
    Settle(m, FlushExpired(m, s, pt.stamp.received, window, clock), pt, clock(1, 0))
  }

  function FlushAll(m: Matcher, s: State, clock: Clock): State {
    var s1 := MatchPending(m, s, true, clock, 0);
    State([], [], s1.pcap + s1.packets, s1.exports + Map(s1.pending, Unmatch()))
  }

  datatype Step =
    | Wire(pkt: WirePacket, clock: Clock)
    | Event(pt: PendingPlaintext, clock: Clock)
    | Tick(now: int, clock: Clock)
    | Close(clock: Clock)
  {
    /** A packet enters without an annotation, a record without enrichment or a verdict on ambiguity. */
    predicate WellFormed() {
      && (Wire? ==> !pkt.annotated && pkt.packetID == None)
      && (Event? ==> pt.data == pt.original && !pt.connectionAmbiguous)
    }
  }

  /** The time a step takes once at its beginning; the final flush takes none. */
  function TimeOf(step: Step): Option<int> {
    match step
    case Wire(pkt, _) => Some(pkt.stamp.received)
    case Event(pt, _) => Some(pt.stamp.received)
    case Tick(now, _) => Some(now)
    case Close(_) => None
  }

  function Apply(m: Matcher, window: Duration, s: State, step: Step): State {
    match step
    case Wire(pkt, clock) => Enqueue(m, s, pkt, window, clock)
    case Event(pt, clock) => HandlePlaintext(m, s, pt, window, clock)
    case Tick(now, clock) => FlushExpired(m, s, now, window, clock)
    case Close(clock) => FlushAll(m, s, clock)
  }

  function RunFrom(m: Matcher, window: Duration, s: State, steps: seq<Step>): State {
    if steps == [] then s
    else Apply(m, window, RunFrom(m, window, s, steps[..|steps|-1]), steps[|steps|-1])
  }

  function Run(m: Matcher, window: Duration, steps: seq<Step>): State {
    RunFrom(m, window, EMPTY, steps)
  }
}
