/** Whole runs of the buffer, for any way of choosing packets. */
module Runs {
  import opened Records
  import opened Timing
  import opened Scoring
  import opened Matching
  import opened Sequences
  import opened Protocol
  import opened Conservation

  predicate WellFormed(steps: seq<Step>) {
    forall i | 0 <= i < |steps| :: steps[i].WellFormed()
  }

  predicate Closed(steps: seq<Step>) {
    steps != [] && steps[|steps|-1].Close?
  }

  lemma ClosedIsEmpty(m: Matcher, window: Duration, steps: seq<Step>)
    requires Closed(steps)
    ensures Run(m, window, steps).packets == [] && Run(m, window, steps).pending == []
  {
  }

  // ---------------------------------------------------------------------------------------------
  // Agreement of the outputs

  lemma {:induction false} RunBalances(m: Matcher, window: Duration, steps: seq<Step>, id: nat, like: OfPacket)
    requires WellFormed(steps)
    ensures var s := Run(m, window, steps); AllSound(s) && Imbalance(s, id, like) == 0
  {
    if steps != [] {
      hide Apply, Imbalance, AllSound;
      var init := steps[..|steps|-1];
      RunBalances(m, window, init, id, like);
      StepBalances(m, window, Run(m, window, init), steps[|steps|-1], id, like);
    }
  }

  /** After the final flush, packets written with an id are matched one to one by records annotated with it; and
      so are those among them that arrived with any given property. */
  lemma OutputsAgree(m: Matcher, window: Duration, steps: seq<Step>, id: nat, like: OfPacket)
    requires WellFormed(steps) && Closed(steps)
    ensures var s := Run(m, window, steps);
      && Count(s.pcap, Carries(id, like)) == Count(s.exports, Claims(id, like))
      && Sound(s.pcap)
  {
    RunBalances(m, window, steps, id, like);
    ClosedIsEmpty(m, window, steps);
    CountNone(Run(m, window, steps).packets, Carries(id, like));
  }

  // ---------------------------------------------------------------------------------------------
  // Records

  function HandsInOne(id: nat, like: OfRecord): Step -> bool {
    (step: Step) => HandsIn(step, id, like)
  }

  lemma {:induction false} RunAccounts(m: Matcher, window: Duration, steps: seq<Step>, id: nat, like: OfRecord)
    ensures Accounted(Run(m, window, steps), id, like) == Count(steps, HandsInOne(id, like))
  {
    if steps != [] {
      hide Apply, Accounted;
      var init := steps[..|steps|-1];
      RunAccounts(m, window, init, id, like);
      StepAccounts(m, window, Run(m, window, init), steps[|steps|-1], id, like);
    } else {
      CountNone([], Reports(id, like));
      CountNone([], Holds(id, like));
    }
  }

  /** After the final flush every record has been reported exactly as often as it was handed in. */
  lemma EveryRecordReported(m: Matcher, window: Duration, steps: seq<Step>, id: nat, like: OfRecord)
    requires Closed(steps)
    ensures Count(Run(m, window, steps).exports, Reports(id, like)) == Count(steps, HandsInOne(id, like))
  {
    RunAccounts(m, window, steps, id, like);
    ClosedIsEmpty(m, window, steps);
    CountNone(Run(m, window, steps).pending, Holds(id, like));
  }

  // ---------------------------------------------------------------------------------------------
  // Packets

  /** The packets of a run as they arrived. */
  function Arrivals(steps: seq<Step>): seq<WirePacket> {
    if steps == [] then []
    else
      var last := steps[|steps|-1];
      Arrivals(steps[..|steps|-1]) + if last.Wire? then [last.pkt] else []
  }

  predicate Later(s: State, pkt: WirePacket) {
    forall p | p in s.packets :: p.stamp.received <= pkt.stamp.received
  }

  lemma StepTakesWires(m: Matcher, window: Duration, s: State, step: Step, pkt: WirePacket)
    requires step.WellFormed()
    ensures var t := Apply(m, window, s, step);
      && Present(t, pkt) == Present(s, pkt) + (if step.Wire? && step.pkt == pkt then 1 else 0)
      && (Ordered(s) && (step.Wire? ==> Later(s, step.pkt)) ==>
            Ordered(t) && Wires(t) == Wires(s) + if step.Wire? then [step.pkt] else [])
      && s.pcap <= t.pcap
  {
    hide Count, Map, FlushExpired, MatchPending, Admit, Settle, FlushAll, SortedBy;
    match step
    case Wire(arrival, clock) =>
      var now := arrival.stamp.received;
      var s1 := FlushExpired(m, s, now, window, clock);
      FlushExpiredKeepsWires(m, s, now, window, clock, pkt);
      assert Plain()(arrival) == arrival;
      AdmitCounts(s1, arrival, ArrivedAs(pkt));
      AdmitTakesWire(s1, arrival);
      if Ordered(s) && Later(s, arrival) {
        FlushedIsOlder(m, s, now, window, clock);
        AdmitKeepsOrder(s1, arrival);
      }
      MatchPendingKeepsWires(m, Admit(s1, arrival), false, clock, 1, pkt);
    case Event(pt, clock) =>
      FlushExpiredKeepsWires(m, s, pt.stamp.received, window, clock, pkt);
      SettleKeepsWires(m, FlushExpired(m, s, pt.stamp.received, window, clock), pt, clock(1, 0), pkt);
    case Tick(now, clock) => FlushExpiredKeepsWires(m, s, now, window, clock, pkt);
    case Close(clock) => FlushAllKeepsWires(m, s, clock, pkt);
  }

  /** Packets that survive an expiry were buffered before it. */
  lemma FlushedIsOlder(m: Matcher, s: State, now: int, window: Duration, clock: Clock)
    ensures forall p | p in FlushExpired(m, s, now, window, clock).packets ::
              exists q | q in s.packets :: q.stamp == p.stamp
  {
    if s.packets != [] {
      MatchPlain(m, s.packets, s.pending, false, clock, 0, |s.pending|);
      var s1 := MatchPending(m, s, false, clock, 0);
      forall p | p in FlushExpired(m, s, now, window, clock).packets
        ensures exists q | q in s.packets :: q.stamp == p.stamp
      {
        SelectMember(s1.packets, OldPacket(now, window), false, p);
        var i :| 0 <= i < |s1.packets| && s1.packets[i] == p;
        assert Map(s1.packets, Plain())[i] == Map(s.packets, Plain())[i];
        assert s.packets[i] in s.packets;
      }
    }
  }

  lemma WiresContainBuffered(s: State, p: WirePacket)
    requires p in s.packets
    ensures Plain()(p) in Wires(s)
  {
    var i :| 0 <= i < |s.packets| && s.packets[i] == p;
    assert Map(s.packets, Plain())[i] == Plain()(p);
  }

  function Brings(pkt: WirePacket): Step -> bool {
    (step: Step) => step.Wire? && step.pkt == pkt
  }

  /** Whatever the clock does, a packet is written or buffered as often as it arrived. */
  lemma {:induction false} RunLosesNothing(m: Matcher, window: Duration, steps: seq<Step>, pkt: WirePacket)
    requires WellFormed(steps)
    ensures Present(Run(m, window, steps), pkt) == Count(steps, Brings(pkt))
  {
    if steps != [] {
      hide Apply, Present;
      var init := steps[..|steps|-1];
      RunLosesNothing(m, window, init, pkt);
      StepTakesWires(m, window, Run(m, window, init), steps[|steps|-1], pkt);
    } else {
      CountNone([], ArrivedAs(pkt));
    }
  }

  /** With receive times that never go back, the packets written and then those buffered are at every moment all
      the packets accepted so far, in their order. */
  lemma {:induction false} RunKeepsOrder(m: Matcher, window: Duration, steps: seq<Step>)
    requires WellFormed(steps) && SortedBy(Arrivals(steps), Received())
    ensures var s := Run(m, window, steps); Ordered(s) && Wires(s) == Arrivals(steps)
  {
    if steps != [] {
      var init, last := steps[..|steps|-1], steps[|steps|-1];
      assert Arrivals(init) <= Arrivals(steps);
      RunKeepsOrder(m, window, init);
      var s := Run(m, window, init);
      if last.Wire? {
        forall p | p in s.packets ensures p.stamp.received <= last.pkt.stamp.received {
          WiresContainBuffered(s, p);
          var i :| 0 <= i < |Arrivals(init)| && Arrivals(init)[i] == Plain()(p);
          assert Received()(Arrivals(steps)[i]) <= Received()(Arrivals(steps)[|Arrivals(init)|]);
        }
      }
      StepTakesWires(m, window, s, last, NewPacket(0, map[], None, []));
    }
  }

  /** After the final flush the packet file holds every accepted packet once, in order of arrival. */
  lemma PacketFileIsComplete(m: Matcher, window: Duration, steps: seq<Step>)
    requires WellFormed(steps) && Closed(steps) && SortedBy(Arrivals(steps), Received())
    ensures Map(Run(m, window, steps).pcap, Plain()) == Arrivals(steps)
  {
    RunKeepsOrder(m, window, steps);
    ClosedIsEmpty(m, window, steps);
  }

  // ---------------------------------------------------------------------------------------------
  // Outputs only grow: a packet is never annotated after it was written

  lemma StepExtends(m: Matcher, window: Duration, s: State, step: Step)
    ensures var t := Apply(m, window, s, step); s.pcap <= t.pcap && s.exports <= t.exports
  {
    hide MatchUpTo, Select;
  }

  lemma {:induction false} RunExtends(m: Matcher, window: Duration, s: State, steps: seq<Step>)
    ensures var t := RunFrom(m, window, s, steps); s.pcap <= t.pcap && s.exports <= t.exports
  {
    if steps != [] {
      hide Apply;
      var init := steps[..|steps|-1];
      RunExtends(m, window, s, init);
      StepExtends(m, window, RunFrom(m, window, s, init), steps[|steps|-1]);
    }
  }

  // ---------------------------------------------------------------------------------------------
  // Ambiguity is remembered

  /** Every pending record with this id has seen competing connections, and none with this id was annotated. */
  predicate Tainted(s: State, id: nat) {
    && (forall pt | pt in s.pending && pt.id == id :: pt.connectionAmbiguous)
    && NeverAnnotated(s.exports, id)
  }

  predicate NeverAnnotated(exports: seq<Export>, id: nat) {
    forall e | e in exports && e.pt.id == id :: e.outcome.Unmatched?
  }

  lemma {:induction false} MatchKeepsTaint(m: Matcher, packets: seq<WirePacket>, pending: seq<PendingPlaintext>,
      final: bool, clock: Clock, pass: nat, n: nat, id: nat)
    requires n <= |pending|
    requires forall pt | pt in pending && pt.id == id :: pt.connectionAmbiguous
    ensures var p := MatchUpTo(m, packets, pending, final, clock, pass, n);
      && (forall pt | pt in p.kept && pt.id == id :: pt.connectionAmbiguous)
      && NeverAnnotated(p.exports, id)
  {
    if n > 0 {
      MatchKeepsTaint(m, packets, pending, final, clock, pass, n - 1, id);
      assert pending[n-1] in pending;
    }
  }

  lemma MatchPendingKeepsTaint(m: Matcher, s: State, final: bool, clock: Clock, pass: nat, id: nat)
    requires Tainted(s, id)
    ensures Tainted(MatchPending(m, s, final, clock, pass), id)
  {
    MatchKeepsTaint(m, s.packets, s.pending, final, clock, pass, |s.pending|, id);
  }

  lemma FlushesKeepTaint(s: State, now: int, window: Duration, id: nat)
    requires Tainted(s, id)
    ensures Tainted(FlushRecords(FlushPackets(s, now, window), now, window), id)
    ensures Tainted(FlushRecords(s, now, window), id)
  {
    hide Select;
    SelectMembers(s.pending, OldRecord(now, window), false);
  }

  lemma FlushExpiredKeepsTaint(m: Matcher, s: State, now: int, window: Duration, clock: Clock, id: nat)
    requires Tainted(s, id)
    ensures Tainted(FlushExpired(m, s, now, window, clock), id)
  {
    hide MatchPending, FlushPackets, FlushRecords;
    if s.packets == [] {
      FlushesKeepTaint(s, now, window, id);
    } else {
      MatchPendingKeepsTaint(m, s, false, clock, 0, id);
      FlushesKeepTaint(MatchPending(m, s, false, clock, 0), now, window, id);
    }
  }

  lemma StepKeepsTaint(m: Matcher, window: Duration, s: State, step: Step, id: nat)
    requires Tainted(s, id)
    requires step.Event? ==> step.pt.id != id
    ensures Tainted(Apply(m, window, s, step), id)
  {
    hide MatchPending, FlushExpired, Map;
    match step
    case Wire(pkt, clock) =>
      var s1 := FlushExpired(m, s, pkt.stamp.received, window, clock);
      FlushExpiredKeepsTaint(m, s, pkt.stamp.received, window, clock, id);
      MatchPendingKeepsTaint(m, Admit(s1, pkt), false, clock, 1, id);
    case Event(pt, clock) => FlushExpiredKeepsTaint(m, s, pt.stamp.received, window, clock, id);
    case Tick(now, clock) => FlushExpiredKeepsTaint(m, s, now, window, clock, id);
    case Close(clock) => MatchPendingKeepsTaint(m, s, true, clock, 0, id);
  }

  /** Once a record has seen competing connections it is not annotated in the rest of the run, whatever expires
      or arrives, as long as its id is not handed in again. */
  lemma {:induction false} AmbiguityIsRemembered(m: Matcher, window: Duration, s: State, steps: seq<Step>, id: nat)
    requires Tainted(s, id)
    requires forall i | 0 <= i < |steps| && steps[i].Event? :: steps[i].pt.id != id
    ensures Tainted(RunFrom(m, window, s, steps), id)
  {
    if steps != [] {
      hide Apply;
      var init := steps[..|steps|-1];
      AmbiguityIsRemembered(m, window, s, init, id);
      StepKeepsTaint(m, window, RunFrom(m, window, s, init), steps[|steps|-1], id);
    }
  }

  // ---------------------------------------------------------------------------------------------
  // What is known of every pending and every annotated record

  type OfMatch = (PendingPlaintext, WirePacket) -> bool

  /** Attempts establish `d` of a record that has it already or is `raw`, as records arrive; and they annotate only
      where `j` holds of the record and the packet. */
  ghost predicate Justifies(m: Matcher, raw: OfRecord, d: OfRecord, j: OfMatch) {
    forall packets: seq<WirePacket>, pt: PendingPlaintext, final: bool, r: Reading | raw(pt) || d(pt) ::
      var a := AllowedAttempt(m, packets, pt, final, r);
      d(a.pt) && (a.chosen.Some? ==> j(a.pt, packets[a.chosen.value]))
  }

  predicate Justified(e: Export, j: OfMatch) {
    e.outcome.Annotated? ==> j(e.pt, e.outcome.packet)
  }

  predicate AllJustified(s: State, d: OfRecord, j: OfMatch) {
    (forall pt | pt in s.pending :: d(pt)) && (forall e | e in s.exports :: Justified(e, j))
  }

  lemma {:induction false} MatchJustified(m: Matcher, packets: seq<WirePacket>, pending: seq<PendingPlaintext>,
      final: bool, clock: Clock, pass: nat, n: nat, raw: OfRecord, d: OfRecord, j: OfMatch)
    requires n <= |pending| && Justifies(m, raw, d, j) && forall pt | pt in pending :: d(pt)
    ensures var p := MatchUpTo(m, packets, pending, final, clock, pass, n);
      (forall pt | pt in p.kept :: d(pt)) && (forall e | e in p.exports :: Justified(e, j))
  {
    if n > 0 {
      MatchJustified(m, packets, pending, final, clock, pass, n - 1, raw, d, j);
      assert pending[n-1] in pending;
    }
  }

  lemma MatchPendingJustified(m: Matcher, s: State, final: bool, clock: Clock, pass: nat,
      raw: OfRecord, d: OfRecord, j: OfMatch)
    requires Justifies(m, raw, d, j) && AllJustified(s, d, j)
    ensures AllJustified(MatchPending(m, s, final, clock, pass), d, j)
  {
    MatchJustified(m, s.packets, s.pending, final, clock, pass, |s.pending|, raw, d, j);
  }

  lemma FlushExpiredJustified(m: Matcher, s: State, now: int, window: Duration, clock: Clock,
      raw: OfRecord, d: OfRecord, j: OfMatch)
    requires Justifies(m, raw, d, j) && AllJustified(s, d, j)
    ensures AllJustified(FlushExpired(m, s, now, window, clock), d, j)
  {
    hide MatchPending, Select;
    MatchPendingJustified(m, s, false, clock, 0, raw, d, j);
    var s1 := if s.packets == [] then s else FlushPackets(MatchPending(m, s, false, clock, 0), now, window);
    SelectMembers(s1.pending, OldRecord(now, window), false);
  }

  lemma StepJustified(m: Matcher, window: Duration, s: State, step: Step, raw: OfRecord, d: OfRecord, j: OfMatch)
    requires Justifies(m, raw, d, j) && AllJustified(s, d, j)
    requires step.Event? ==> raw(step.pt)
    ensures AllJustified(Apply(m, window, s, step), d, j)
  {
    hide MatchPending, FlushExpired, Map;
    match step
    case Wire(pkt, clock) =>
      var s1 := FlushExpired(m, s, pkt.stamp.received, window, clock);
      FlushExpiredJustified(m, s, pkt.stamp.received, window, clock, raw, d, j);
      MatchPendingJustified(m, Admit(s1, pkt), false, clock, 1, raw, d, j);
    case Event(pt, clock) => FlushExpiredJustified(m, s, pt.stamp.received, window, clock, raw, d, j);
    case Tick(now, clock) => FlushExpiredJustified(m, s, now, window, clock, raw, d, j);
    case Close(clock) => MatchPendingJustified(m, s, true, clock, 0, raw, d, j);
  }

  lemma {:induction false} RunJustified(m: Matcher, window: Duration, steps: seq<Step>,
      raw: OfRecord, d: OfRecord, j: OfMatch)
    requires Justifies(m, raw, d, j)
    requires forall i | 0 <= i < |steps| && steps[i].Event? :: raw(steps[i].pt)
    ensures AllJustified(Run(m, window, steps), d, j)
  {
    if steps != [] {
      hide Apply;
      var init := steps[..|steps|-1];
      RunJustified(m, window, init, raw, d, j);
      StepJustified(m, window, Run(m, window, init), steps[|steps|-1], raw, d, j);
    }
  }

  // ---------------------------------------------------------------------------------------------
  // Whatever leaves the buffer came in

  /** Every exported record arrived, exactly so, in some step of the run. */
  lemma ExportArrived(m: Matcher, window: Duration, steps: seq<Step>, e: Export)
    requires WellFormed(steps) && e in Run(m, window, steps).exports
    ensures exists step | step in steps :: step.Event? && step.pt == Fresh(e.pt)
  {
    hide Run;
    var same := (pt: PendingPlaintext) => pt == Fresh(e.pt);
    CountNone(Run(m, window, steps).exports, Reports(e.pt.id, same));
    RunAccounts(m, window, steps, e.pt.id, same);
    assert Reports(e.pt.id, same)(e);
    CountNone(steps, HandsInOne(e.pt.id, same));
    var step :| step in steps && HandsInOne(e.pt.id, same)(step);
    var i :| 0 <= i < |steps| && steps[i] == step;
    assert Fresh(step.pt) == step.pt;
  }

  /** The export of an id that was handed in once is that of the record handed in. */
  lemma ExportOfHandIn(m: Matcher, window: Duration, steps: seq<Step>, i: nat, e: Export)
    requires WellFormed(steps) && i < |steps| && steps[i].Event?
    requires Count(steps, HandsInOne(steps[i].pt.id, AnyRecord())) == 1
    requires e in Run(m, window, steps).exports && e.pt.id == steps[i].pt.id
    ensures Fresh(e.pt) == steps[i].pt
  {
    hide Run, Count;
    ExportArrived(m, window, steps, e);
    var step :| step in steps && step.Event? && step.pt == Fresh(e.pt);
    var j :| 0 <= j < |steps| && steps[j] == step;
    var f := HandsInOne(steps[i].pt.id, AnyRecord());
    assert f(steps[i]) && f(steps[j]);
    CountUnique(steps, f, i);
  }

  /** Every packet a record was annotated on arrived, exactly so, in some step of the run. */
  lemma AnnotatedPacketArrived(m: Matcher, window: Duration, steps: seq<Step>, e: Export)
    requires WellFormed(steps) && e in Run(m, window, steps).exports && e.outcome.Annotated?
    ensures exists step | step in steps :: step.Wire? && step.pkt == Plain()(e.outcome.packet)
  {
    hide Run;
    var s, pkt := Run(m, window, steps), Plain()(e.outcome.packet);
    var same := (p: WirePacket) => p == pkt;
    CountNone(s.exports, Claims(e.pt.id, same));
    assert Claims(e.pt.id, same)(e);
    RunBalances(m, window, steps, e.pt.id, same);
    CountNone(s.pcap, Carries(e.pt.id, same));
    CountNone(s.packets, Carries(e.pt.id, same));
    var p :| p in s.pcap + s.packets && Carries(e.pt.id, same)(p);
    assert ArrivedAs(pkt)(p);
    CountNone(s.pcap, ArrivedAs(pkt));
    CountNone(s.packets, ArrivedAs(pkt));
    RunLosesNothing(m, window, steps, pkt);
    CountNone(steps, Brings(pkt));
  }

  // ---------------------------------------------------------------------------------------------
  // Runs in two parts

  lemma {:induction false} RunConcat(m: Matcher, window: Duration, s: State, first: seq<Step>, second: seq<Step>)
    ensures RunFrom(m, window, s, first + second) == RunFrom(m, window, RunFrom(m, window, s, first), second)
  {
    hide Apply;
    if second == [] {
      assert first + second == first;
    } else {
      var init := second[..|second|-1];
      RunConcat(m, window, s, first, init);
      assert (first + second)[..|first + second|-1] == first + init;
    }
  }
}
