/** How much the buffer holds, and for how long. */
module Bounds {
  import opened Records
  import opened Timing
  import opened Scoring
  import opened Sequences
  import opened Protocol
  import opened Conservation

  lemma StepBounded(m: Matcher, window: Duration, s: State, step: Step)
    requires |s.packets| <= MAX_BUFFERED
    ensures |Apply(m, window, s, step).packets| <= MAX_BUFFERED
  {
    hide MatchUpTo, Select;
  }

  /** The buffer never holds more than its limit between two steps. */
  lemma {:induction false} RunBounded(m: Matcher, window: Duration, steps: seq<Step>)
    ensures |Run(m, window, steps).packets| <= 20_000
  {
    if steps != [] {
      hide Apply;
      var init := steps[..|steps|-1];
      RunBounded(m, window, init);
      StepBounded(m, window, Run(m, window, init), steps[|steps|-1]);
    }
  }

  // ---------------------------------------------------------------------------------------------

  predicate YoungPackets(packets: seq<WirePacket>, now: int, window: Duration) {
    forall p | p in packets :: !Old(now, window, p.stamp)
  }

  predicate YoungRecords(pending: seq<PendingPlaintext>, now: int, window: Duration) {
    forall pt | pt in pending :: !Old(now, window, pt.stamp)
  }

  /** Nothing in the buffer has reached the window. */
  predicate Young(s: State, now: int, window: Duration) {
    YoungPackets(s.packets, now, window) && YoungRecords(s.pending, now, window)
  }

  lemma {:induction false} MatchKeepsYoung(m: Matcher, packets: seq<WirePacket>, pending: seq<PendingPlaintext>,
      final: bool, clock: Clock, pass: nat, n: nat, now: int, window: Duration)
    requires n <= |pending|
    requires YoungPackets(packets, now, window) && YoungRecords(pending, now, window)
    ensures var p := MatchUpTo(m, packets, pending, final, clock, pass, n);
      YoungPackets(p.packets, now, window) && YoungRecords(p.kept, now, window)
  {
    if n > 0 {
      MatchKeepsYoung(m, packets, pending, final, clock, pass, n - 1, now, window);
      var p := MatchUpTo(m, packets, pending, final, clock, pass, n - 1);
      var a := AllowedAttempt(m, p.packets, pending[n-1], final, clock(pass, n - 1));
      assert pending[n-1] in pending;
      if a.chosen.Some? {
        assert p.packets[a.chosen.value] in p.packets;
      }
    }
  }

  lemma FlushExpiredIsYoung(m: Matcher, s: State, now: int, window: Duration, clock: Clock)
    ensures Young(FlushExpired(m, s, now, window, clock), now, window)
  {
    hide MatchPending, Select;
    var s0 := MatchPending(m, s, false, clock, 0);
    var s1 := if s.packets == [] then s else FlushPackets(s0, now, window);
    SelectMembers(s0.packets, OldPacket(now, window), false);
    SelectMembers(s1.pending, OldRecord(now, window), false);
  }

  /** Every step at time `now` leaves nothing behind that has reached the window by then. */
  lemma StepLeavesYoung(m: Matcher, window: Duration, s: State, step: Step, now: int)
    requires window > 0 && TimeOf(step) == Some(now)
    ensures Young(Apply(m, window, s, step), now, window)
  {
    hide FlushExpired, MatchUpTo;
    match step
    case Wire(pkt, clock) =>
      var s1 := FlushExpired(m, s, now, window, clock);
      FlushExpiredIsYoung(m, s, now, window, clock);
      var s2 := Admit(s1, pkt);
      MatchKeepsYoung(m, s2.packets, s2.pending, false, clock, 1, |s2.pending|, now, window);
    case Event(pt, clock) =>
      var s1 := FlushExpired(m, s, now, window, clock);
      FlushExpiredIsYoung(m, s, now, window, clock);
      var a := AllowedAttempt(m, s1.packets, pt, false, clock(1, 0));
      if a.chosen.Some? {
        assert s1.packets[a.chosen.value] in s1.packets;
      }
    case Tick(_, clock) => FlushExpiredIsYoung(m, s, now, window, clock);
  }

  /** If the last step was at most a quarter of the window ago, as the ticker sees to, nothing in the buffer has
      been there for the window and a quarter of it. */
  lemma ResidenceBounded(m: Matcher, window: Duration, steps: seq<Step>, now: int, t: int)
    requires window > 0 && steps != [] && TimeOf(steps[|steps|-1]) == Some(now)
    requires now <= t <= now + window / 4
    ensures var s := Run(m, window, steps);
      && (forall p | p in s.packets :: t - p.stamp.received < window + window / 4)
      && (forall pt | pt in s.pending :: t - pt.stamp.received < window + window / 4)
  {
    hide Apply;
    StepLeavesYoung(m, window, Run(m, window, steps[..|steps|-1]), steps[|steps|-1], now);
  }

  // ---------------------------------------------------------------------------------------------
  // Nothing leaves early

  lemma OldMeaning(now: int, window: Duration, stamp: Stamp)
    requires window > 0
    ensures Old(now, window, stamp) <==> now - stamp.received >= window
  {
  }

  function YoungerThan(now: int, window: int): WirePacket -> bool {
    (p: WirePacket) => now - p.stamp.received < window
  }

  /** An expiry keeps exactly the packets that have not reached the window, and writes exactly the others, both in their
      order. */
  lemma ExpirySplits(m: Matcher, s: State, now: int, window: Duration, clock: Clock)
    requires window > 0
    ensures var t := FlushExpired(m, s, now, window, clock);
      var before := Map(s.packets, Plain());
      && Map(t.packets, Plain()) == Select(before, YoungerThan(now, window), true)
      && Map(t.pcap, Plain()) == Map(s.pcap, Plain()) + Select(before, YoungerThan(now, window), false)
  {
    hide Map, Select, MatchUpTo, Old;
    if s.packets == [] {
      SelectNone<WirePacket>([], YoungerThan(now, window), true);
      SelectNone<WirePacket>([], YoungerThan(now, window), false);
    } else {
      var s1 := MatchPending(m, s, false, clock, 0);
      MatchPlain(m, s.packets, s.pending, false, clock, 0, |s.pending|);
      forall p: WirePacket ensures Old(now, window, p.stamp) <==> !YoungerThan(now, window)(Plain()(p)) {
        OldMeaning(now, window, p.stamp);
      }
      SelectMap(s1.packets, Plain(), OldPacket(now, window), false, YoungerThan(now, window), true);
      SelectMap(s1.packets, Plain(), OldPacket(now, window), true, YoungerThan(now, window), false);
      MapConcat(s1.pcap, Select(s1.packets, OldPacket(now, window), true), Plain());
    }
  }

  /** Why a step may write packet `p`: this is the final flush, or the packet has reached the window, or the buffer is
      full and it is the oldest in it when another one comes. */
  predicate WrittenFor(m: Matcher, window: Duration, s: State, step: Step, p: WirePacket) {
    match TimeOf(step)
    case None => true
    case Some(now) =>
      || now - p.stamp.received >= window
      || (step.Wire?
          && var packets := FlushExpired(m, s, now, window, step.clock).packets;
             |packets| >= 20_000 && p == packets[0])
  }

  lemma ExpiryWrites(m: Matcher, s: State, now: int, window: Duration, clock: Clock, p: WirePacket)
    requires window > 0 && p in FlushExpired(m, s, now, window, clock).pcap
    ensures p in s.pcap || now - p.stamp.received >= window
  {
    hide MatchUpTo, Select, Old;
    if s.packets != [] && p !in s.pcap {
      var s1 := MatchPending(m, s, false, clock, 0);
      SelectMember(s1.packets, OldPacket(now, window), true, p);
      OldMeaning(now, window, p.stamp);
    }
  }

  lemma StepWrites(m: Matcher, window: Duration, s: State, step: Step, p: WirePacket)
    requires window > 0 && p in Apply(m, window, s, step).pcap && p !in s.pcap
    ensures WrittenFor(m, window, s, step, p)
  {
    hide FlushExpired, MatchUpTo;
    if TimeOf(step).Some? {
      var now := TimeOf(step).value;
      var s1 := FlushExpired(m, s, now, window, step.clock);
      if p in s1.pcap {
        ExpiryWrites(m, s, now, window, step.clock, p);
      }
    }
  }

  /** In every run, a packet is in the file only for cause: it had reached the window in some step, or was the oldest of
      20000 when another one came, or the capture ended. */
  lemma {:induction false} WrittenForCause(m: Matcher, window: Duration, steps: seq<Step>, p: WirePacket)
    requires window > 0 && p in Run(m, window, steps).pcap
    ensures exists i | 0 <= i < |steps| :: WrittenFor(m, window, Run(m, window, steps[..i]), steps[i], p)
  {
    hide Apply, WrittenFor;
    var init := steps[..|steps|-1];
    if p in Run(m, window, init).pcap {
      WrittenForCause(m, window, init, p);
      var i :| 0 <= i < |init| && WrittenFor(m, window, Run(m, window, init[..i]), init[i], p);
      assert steps[..i] == init[..i];
    } else {
      StepWrites(m, window, Run(m, window, init), steps[|steps|-1], p);
    }
  }
}
