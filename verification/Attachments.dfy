/** When a record is attached to a packet: over whole runs with the tool's own scoring, exactly when in some pass, or on
    its arrival, that packet is the clear choice and nothing stands against it. */
module Attachments {
  import opened Records
  import opened Timing
  import opened Scoring
  import opened Matching
  import opened Sequences
  import opened Protocol
  import opened Correlation
  import opened Competition

  /** The record was exported with this packet, shown as it was just before. */
  predicate Attached(exports: seq<Export>, id: nat, pkt: WirePacket) {
    exists e | e in exports :: e.pt.id == id && e.outcome == Annotated(pkt)
  }

  lemma AttachedConcat(first: seq<Export>, second: seq<Export>, id: nat, pkt: WirePacket)
    ensures Attached(first + second, id, pkt) <==> Attached(first, id, pkt) || Attached(second, id, pkt)
  {
    forall e | e in first || e in second ensures e in first + second {}
  }

  lemma AttachedOne(e: Export, id: nat, pkt: WirePacket)
    ensures Attached([e], id, pkt) <==> e.pt.id == id && e.outcome == Annotated(pkt)
  {
    assert e in [e];
  }

  lemma AttachedNone(exports: seq<Export>, id: nat, pkt: WirePacket)
    requires forall e | e in exports :: e.outcome.Unmatched?
    ensures !Attached(exports, id, pkt)
  {
  }

  /** Packet `i` is the clear choice for the record, which sees and saw no competition and need not wait. */
  predicate Suits(cfg: Settings, packets: seq<WirePacket>, pt: PendingPlaintext, final: bool, r: Reading, i: nat) {
    && i < |packets| && ClearChoice(View(packets, pt, cfg.filters), i)
    && !pt.connectionAmbiguous && !Competes(cfg, packets, pt)
    && (final || HasTuple(pt.original)
        || Sub(r.forRecord, pt.stamp.received) >= cfg.window
        || Sub(r.forPacket, packets[i].stamp.received) >= cfg.window)
  }

  lemma SuitsIsAttempt(cfg: Settings, packets: seq<WirePacket>, pt: PendingPlaintext, final: bool, r: Reading, i: nat)
    ensures AllowedAttempt(Greedy(cfg), packets, pt, final, r).chosen == Some(i) <==>
            Suits(cfg, packets, pt, final, r, i)
  {
    hide TryAnnotate, View, HasTuple;
    AttemptMeaning(packets, pt, cfg, final, r, i);
    AttemptIsAllowed(packets, pt, cfg, final, r);
  }

  /** Some packet suits the record, and it is this one. */
  predicate SuitsAny(cfg: Settings, packets: seq<WirePacket>, pt: PendingPlaintext, final: bool, r: Reading,
                     pkt: WirePacket) {
    exists i | 0 <= i < |packets| :: Suits(cfg, packets, pt, final, r, i) && packets[i] == pkt
  }

  lemma AttemptAttaches(cfg: Settings, packets: seq<WirePacket>, pt: PendingPlaintext, final: bool, r: Reading,
                        pkt: WirePacket)
    ensures var a := AllowedAttempt(Greedy(cfg), packets, pt, final, r);
      && a.pt.id == pt.id
      && (SuitsAny(cfg, packets, pt, final, r, pkt) <==> a.chosen.Some? && packets[a.chosen.value] == pkt)
  {
    hide Greedy, Suits;
    var a := AllowedAttempt(Greedy(cfg), packets, pt, final, r);
    if a.chosen.Some? {
      SuitsIsAttempt(cfg, packets, pt, final, r, a.chosen.value);
    }
    forall i | 0 <= i < |packets| && Suits(cfg, packets, pt, final, r, i) ensures a.chosen == Some(i) {
      SuitsIsAttempt(cfg, packets, pt, final, r, i);
    }
  }

  /** Among the first `n` pending records, one with this id finds this packet when the pass reaches it. */
  predicate PassFinds(cfg: Settings, s: State, final: bool, clock: Clock, pass: nat, n: nat, id: nat, pkt: WirePacket)
    requires n <= |s.pending|
  {
    exists k | 0 <= k < n ::
      && s.pending[k].id == id
      && SuitsAny(cfg, Reached(cfg, s, final, clock, pass, k), s.pending[k], final, clock(pass, k), pkt)
  }

  lemma AdvanceAttaches(cfg: Settings, p: Pass, pt: PendingPlaintext, final: bool, r: Reading, id: nat, pkt: WirePacket)
    ensures Attached(Advance(p, AllowedAttempt(Greedy(cfg), p.packets, pt, final, r)).exports, id, pkt) <==>
      Attached(p.exports, id, pkt) || (pt.id == id && SuitsAny(cfg, p.packets, pt, final, r, pkt))
  {
    hide Greedy, Attached, SuitsAny, Annotate;
    var a := AllowedAttempt(Greedy(cfg), p.packets, pt, final, r);
    AttemptAttaches(cfg, p.packets, pt, final, r, pkt);
    if a.chosen.Some? {
      var e := AnnotatedExport(a.pt, p.packets[a.chosen.value]);
      AttachedConcat(p.exports, [e], id, pkt);
      AttachedOne(e, id, pkt);
    }
  }

  lemma {:induction false} PassAttaches(cfg: Settings, s: State, final: bool, clock: Clock, pass: nat, n: nat,
                                        id: nat, pkt: WirePacket)
    requires n <= |s.pending|
    ensures Attached(MatchUpTo(Greedy(cfg), s.packets, s.pending, final, clock, pass, n).exports, id, pkt) <==>
            PassFinds(cfg, s, final, clock, pass, n, id, pkt)
  {
    hide Greedy, Attached, SuitsAny, Advance, MatchUpTo;
    if n == 0 {
      MatchStart(Greedy(cfg), s.packets, s.pending, final, clock, pass);
      AttachedNone([], id, pkt);
    } else {
      PassAttaches(cfg, s, final, clock, pass, n - 1, id, pkt);
      var p := MatchUpTo(Greedy(cfg), s.packets, s.pending, final, clock, pass, n - 1);
      MatchStep(Greedy(cfg), s.packets, s.pending, final, clock, pass, n - 1);
      AdvanceAttaches(cfg, p, s.pending[n-1], final, clock(pass, n - 1), id, pkt);
      assert Reached(cfg, s, final, clock, pass, n - 1) == p.packets;
    }
  }

  lemma MatchPendingAttaches(cfg: Settings, s: State, final: bool, clock: Clock, pass: nat, id: nat, pkt: WirePacket)
    ensures Attached(MatchPending(Greedy(cfg), s, final, clock, pass).exports, id, pkt) <==>
      Attached(s.exports, id, pkt) || PassFinds(cfg, s, final, clock, pass, |s.pending|, id, pkt)
  {
    hide Greedy, MatchUpTo, Attached, PassFinds;
    PassAttaches(cfg, s, final, clock, pass, |s.pending|, id, pkt);
    var p := MatchUpTo(Greedy(cfg), s.packets, s.pending, final, clock, pass, |s.pending|);
    AttachedConcat(s.exports, p.exports, id, pkt);
  }

  lemma UnmatchedAttachNothing(exports: seq<Export>, xs: seq<PendingPlaintext>, id: nat, pkt: WirePacket)
    ensures Attached(exports + Map(xs, Unmatch()), id, pkt) <==> Attached(exports, id, pkt)
  {
    AttachedConcat(exports, Map(xs, Unmatch()), id, pkt);
    AttachedNone(Map(xs, Unmatch()), id, pkt);
  }

  /** An expiry tries every pending record first, provided there is a packet. */
  predicate ExpiryFinds(cfg: Settings, s: State, clock: Clock, id: nat, pkt: WirePacket) {
    s.packets != [] && PassFinds(cfg, s, false, clock, 0, |s.pending|, id, pkt)
  }

  lemma ExpiryAttaches(cfg: Settings, s: State, now: int, clock: Clock, id: nat, pkt: WirePacket)
    ensures Attached(FlushExpired(Greedy(cfg), s, now, cfg.window, clock).exports, id, pkt) <==>
      Attached(s.exports, id, pkt) || ExpiryFinds(cfg, s, clock, id, pkt)
  {
    hide Greedy, MatchPending, Attached, PassFinds, Select, Map;
    MatchPendingAttaches(cfg, s, false, clock, 0, id, pkt);
    var s0 := MatchPending(Greedy(cfg), s, false, clock, 0);
    var s1 := if s.packets == [] then s else FlushPackets(s0, now, cfg.window);
    UnmatchedAttachNothing(s1.exports, Select(s1.pending, OldRecord(now, cfg.window), true), id, pkt);
  }

  /** What a step tries: every pending record before it expires anything; after a packet, every record that is left; a
      record that arrives, at once; and in the final flush every pending record, without waiting. */
  predicate StepFinds(cfg: Settings, s: State, step: Step, id: nat, pkt: WirePacket) {
    match step
    case Wire(arrival, clock) =>
      || ExpiryFinds(cfg, s, clock, id, pkt)
      || var s1 := Admit(FlushExpired(Greedy(cfg), s, arrival.stamp.received, cfg.window, clock), arrival);
         PassFinds(cfg, s1, false, clock, 1, |s1.pending|, id, pkt)
    case Event(pt, clock) =>
      || ExpiryFinds(cfg, s, clock, id, pkt)
      || (pt.id == id
          && var s1 := FlushExpired(Greedy(cfg), s, pt.stamp.received, cfg.window, clock);
             SuitsAny(cfg, s1.packets, pt, false, clock(1, 0), pkt))
    case Tick(_, clock) => ExpiryFinds(cfg, s, clock, id, pkt)
    case Close(clock) => PassFinds(cfg, s, true, clock, 0, |s.pending|, id, pkt)
  }

  lemma SettleAttaches(cfg: Settings, s: State, pt: PendingPlaintext, r: Reading, id: nat, pkt: WirePacket)
    ensures Attached(Settle(Greedy(cfg), s, pt, r).exports, id, pkt) <==>
      Attached(s.exports, id, pkt) || (pt.id == id && SuitsAny(cfg, s.packets, pt, false, r, pkt))
  {
    hide Greedy, Attached, SuitsAny;
    AttemptAttaches(cfg, s.packets, pt, false, r, pkt);
    var a := AllowedAttempt(Greedy(cfg), s.packets, pt, false, r);
    if a.chosen.Some? {
      var e := AnnotatedExport(a.pt, s.packets[a.chosen.value]);
      AttachedConcat(s.exports, [e], id, pkt);
      AttachedOne(e, id, pkt);
    }
  }

  lemma StepAttaches(cfg: Settings, s: State, step: Step, id: nat, pkt: WirePacket)
    ensures Attached(Apply(Greedy(cfg), cfg.window, s, step).exports, id, pkt) <==>
      Attached(s.exports, id, pkt) || StepFinds(cfg, s, step, id, pkt)
  {
    hide Greedy, MatchPending, FlushExpired, Settle, Attached, PassFinds, ExpiryFinds, SuitsAny, Map;
    match step
    case Wire(arrival, clock) =>
      var s1 := FlushExpired(Greedy(cfg), s, arrival.stamp.received, cfg.window, clock);
      ExpiryAttaches(cfg, s, arrival.stamp.received, clock, id, pkt);
      MatchPendingAttaches(cfg, Admit(s1, arrival), false, clock, 1, id, pkt);
    case Event(pt, clock) =>
      ExpiryAttaches(cfg, s, pt.stamp.received, clock, id, pkt);
      var s1 := FlushExpired(Greedy(cfg), s, pt.stamp.received, cfg.window, clock);
      SettleAttaches(cfg, s1, pt, clock(1, 0), id, pkt);
    case Tick(now, clock) => ExpiryAttaches(cfg, s, now, clock, id, pkt);
    case Close(clock) =>
      MatchPendingAttaches(cfg, s, true, clock, 0, id, pkt);
      var s1 := MatchPending(Greedy(cfg), s, true, clock, 0);
      UnmatchedAttachNothing(s1.exports, s1.pending, id, pkt);
  }

  /** In every run, a record was attached to a packet exactly when some step found that packet for it. */
  lemma {:induction false} AttachedForCause(cfg: Settings, steps: seq<Step>, id: nat, pkt: WirePacket)
    ensures Attached(Run(Greedy(cfg), cfg.window, steps).exports, id, pkt) <==>
      exists i | 0 <= i < |steps| :: StepFinds(cfg, Run(Greedy(cfg), cfg.window, steps[..i]), steps[i], id, pkt)
  {
    hide Greedy, Apply, StepFinds, Attached;
    if steps == [] {
      AttachedNone([], id, pkt);
    } else {
      var init, last := steps[..|steps|-1], steps[|steps|-1];
      AttachedForCause(cfg, init, id, pkt);
      StepAttaches(cfg, Run(Greedy(cfg), cfg.window, init), last, id, pkt);
      forall i | 0 <= i < |init| ensures steps[..i] == init[..i] && steps[i] == init[i] {}
    }
  }

  /** A record with a full tuple that finds its packet in the buffer on arrival is attached to it at once. */
  lemma ArrivalIsAttached(cfg: Settings, s: State, pt: PendingPlaintext, clock: Clock, i: nat)
    requires HasTuple(pt.original) && !pt.connectionAmbiguous
    requires var packets := FlushExpired(Greedy(cfg), s, pt.stamp.received, cfg.window, clock).packets;
      i < |packets| && ClearChoice(View(packets, pt, cfg.filters), i)
    ensures var packets := FlushExpired(Greedy(cfg), s, pt.stamp.received, cfg.window, clock).packets;
      var t := Apply(Greedy(cfg), cfg.window, s, Event(pt, clock));
      && Attached(t.exports, pt.id, packets[i])
      && t.packets == packets[i := packets[i].(annotated := true, packetID := Some(pt.id))]
  {
    hide Greedy, FlushExpired, View, HasTuple, TryAnnotate;
    var s1 := FlushExpired(Greedy(cfg), s, pt.stamp.received, cfg.window, clock);
    SuitsIsAttempt(cfg, s1.packets, pt, false, clock(1, 0), i);
    var a := AllowedAttempt(Greedy(cfg), s1.packets, pt, false, clock(1, 0));
    var e := AnnotatedExport(a.pt, s1.packets[i]);
    AttachedConcat(s1.exports, [e], pt.id, s1.packets[i]);
    AttachedOne(e, pt.id, s1.packets[i]);
  }
}
