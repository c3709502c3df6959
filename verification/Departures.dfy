/** Why records leave without a packet: over whole runs with the tool's own scoring, a record is exported unmatched
    exactly when it has waited its time, or the capture ends, and nothing could be attached to it without doubt. */
module Departures {
  import opened Timing
  import opened Scoring
  import opened Matching
  import opened Sequences
  import opened Protocol
  import opened Conservation
  import opened Runs
  import opened Correlation
  import opened Competition

  /** Some record with this id was exported unmatched. */
  predicate LeavesUnmatched(exports: seq<Export>, id: nat) {
    exists e | e in exports :: e.pt.id == id && e.outcome.Unmatched?
  }

  predicate Pends(pending: seq<PendingPlaintext>, id: nat) {
    exists pt | pt in pending :: pt.id == id
  }

  lemma LeavesConcat(first: seq<Export>, second: seq<Export>, id: nat)
    ensures LeavesUnmatched(first + second, id) <==> LeavesUnmatched(first, id) || LeavesUnmatched(second, id)
  {
    forall e | e in first || e in second ensures e in first + second {}
  }

  lemma PendsSnoc(pending: seq<PendingPlaintext>, pt: PendingPlaintext, id: nat)
    ensures Pends(pending + [pt], id) <==> Pends(pending, id) || pt.id == id
  {
    forall x | x in pending || x == pt ensures x in pending + [pt] {}
  }

  // ---------------------------------------------------------------------------------------------
  // An attempt that need not wait

  /** Nothing the record can be attached to without doubt. */
  predicate Blocked(cfg: Settings, packets: seq<WirePacket>, pt: PendingPlaintext) {
    || pt.connectionAmbiguous
    || Competes(cfg, packets, pt)
    || forall i | 0 <= i < |packets| :: !ClearChoice(View(packets, pt, cfg.filters), i)
  }

  lemma AttemptFails(cfg: Settings, packets: seq<WirePacket>, pt: PendingPlaintext, final: bool, r: Reading)
    requires final || Sub(r.forRecord, pt.stamp.received) >= cfg.window
    ensures AllowedAttempt(Greedy(cfg), packets, pt, final, r).chosen.None? <==> Blocked(cfg, packets, pt)
  {
    hide TryAnnotate, View;
    var a := TryAnnotate(packets, pt, cfg, final, r);
    AttemptIsAllowed(packets, pt, cfg, final, r);
    if a.chosen.Some? {
      AttemptMeaning(packets, pt, cfg, final, r, a.chosen.value);
    }
    forall i | 0 <= i < |packets| && ClearChoice(View(packets, pt, cfg.filters), i)
      ensures a.chosen.Some? || pt.connectionAmbiguous || Competes(cfg, packets, pt)
    {
      AttemptMeaning(packets, pt, cfg, final, r, i);
    }
  }

  // ---------------------------------------------------------------------------------------------
  // One pass over the pending records

  /** The attempt of the k-th pending record, when the pass reaches it, finds nothing. */
  predicate Unchosen(cfg: Settings, s: State, final: bool, clock: Clock, pass: nat, k: nat)
    requires k < |s.pending|
  {
    var packets := Reached(cfg, s, final, clock, pass, k);
    AllowedAttempt(Greedy(cfg), packets, s.pending[k], final, clock(pass, k)).chosen.None?
  }

  lemma {:induction false} PassAnnotates(m: Matcher, packets: seq<WirePacket>, pending: seq<PendingPlaintext>,
      final: bool, clock: Clock, pass: nat, n: nat, id: nat)
    requires n <= |pending|
    ensures var p := MatchUpTo(m, packets, pending, final, clock, pass, n);
      !LeavesUnmatched(p.exports, id) && (Pends(p.kept, id) ==> Pends(pending, id))
  {
    if n > 0 {
      PassAnnotates(m, packets, pending, final, clock, pass, n - 1, id);
      assert pending[n-1] in pending;
    }
  }

  /** A pass over the pending records exports nothing unmatched. */
  lemma MatchPendingAnnotates(m: Matcher, s: State, final: bool, clock: Clock, pass: nat, id: nat)
    ensures var t := MatchPending(m, s, final, clock, pass);
      && (LeavesUnmatched(t.exports, id) <==> LeavesUnmatched(s.exports, id))
      && (Pends(t.pending, id) ==> Pends(s.pending, id))
  {
    hide MatchUpTo, LeavesUnmatched, Pends;
    var p := MatchUpTo(m, s.packets, s.pending, final, clock, pass, |s.pending|);
    PassAnnotates(m, s.packets, s.pending, final, clock, pass, |s.pending|, id);
    LeavesConcat(s.exports, p.exports, id);
  }

  /** How the k-th pending record fares in a pass, up to any point of it. */
  lemma {:induction false} PassDecides(cfg: Settings, s: State, final: bool, clock: Clock, pass: nat, k: nat, n: nat)
    requires n <= |s.pending| && Sole(s.pending, k)
    ensures var p := MatchUpTo(Greedy(cfg), s.packets, s.pending, final, clock, pass, n);
      var id := s.pending[k].id;
      && (NeverAnnotated(p.exports, id) <==> k >= n || Unchosen(cfg, s, final, clock, pass, k))
      && (Pends(p.kept, id) <==> k < n && Unchosen(cfg, s, final, clock, pass, k))
      && (forall pt | pt in p.kept && pt.id == id :: pt.stamp == s.pending[k].stamp)
  {
    hide Greedy, Pends, NeverAnnotated;
    var id := s.pending[k].id;
    if n == 0 {
      assert NeverAnnotated([], id) && !Pends([], id) by {
        NothingThere(id);
      }
    } else {
      PassDecides(cfg, s, final, clock, pass, k, n - 1);
      var p := MatchUpTo(Greedy(cfg), s.packets, s.pending, final, clock, pass, n - 1);
      var a := AllowedAttempt(Greedy(cfg), p.packets, s.pending[n-1], final, clock(pass, n - 1));
      MatchStep(Greedy(cfg), s.packets, s.pending, final, clock, pass, n - 1);
      if a.chosen.Some? {
        AnnotatedSnoc(p.exports, AnnotatedExport(a.pt, p.packets[a.chosen.value]), id);
      } else {
        PendsSnoc(p.kept, a.pt, id);
      }
    }
  }

  lemma NothingThere(id: nat)
    ensures NeverAnnotated([], id) && !Pends([], id)
  {
  }

  lemma AnnotatedSnoc(exports: seq<Export>, e: Export, id: nat)
    ensures NeverAnnotated(exports + [e], id) <==>
              NeverAnnotated(exports, id) && (e.pt.id == id ==> e.outcome.Unmatched?)
  {
    assert e in exports + [e];
    forall x | x in exports ensures x in exports + [e] {}
  }

  // ---------------------------------------------------------------------------------------------
  // Expiry

  lemma FlushRecordsExports(s: State, now: int, window: Duration, id: nat)
    ensures LeavesUnmatched(FlushRecords(s, now, window).exports, id) <==>
      LeavesUnmatched(s.exports, id) || exists pt | pt in s.pending :: pt.id == id && Old(now, window, pt.stamp)
  {
    hide Select;
    var gone := Select(s.pending, OldRecord(now, window), true);
    LeavesConcat(s.exports, Map(gone, Unmatch()), id);
    SelectMembers(s.pending, OldRecord(now, window), true);
    UnmatchedLeave(gone, id);
  }

  lemma UnmatchedLeave(xs: seq<PendingPlaintext>, id: nat)
    ensures LeavesUnmatched(Map(xs, Unmatch()), id) <==> Pends(xs, id)
  {
    var exports := Map(xs, Unmatch());
    if Pends(xs, id) {
      var i :| 0 <= i < |xs| && xs[i].id == id;
      assert exports[i] in exports;
    }
  }

  /** The k-th pending record, known once, expires unmatched exactly when it has reached the window and there is no
      packet in the buffer or nothing to attach it to when the pass reaches it. */
  lemma ExpiryDecides(cfg: Settings, s: State, now: int, clock: Clock, k: nat)
    requires k < |s.pending| && Known(s, s.pending[k].id) <= 1 && clock(0, k).forRecord >= now
    ensures LeavesUnmatched(FlushExpired(Greedy(cfg), s, now, cfg.window, clock).exports, s.pending[k].id) <==>
      && Sub(now, s.pending[k].stamp.received) >= cfg.window
      && (s.packets == [] || Blocked(cfg, Reached(cfg, s, false, clock, 0, k), s.pending[k]))
  {
    hide Greedy, Known, MatchUpTo, Blocked, FlushRecords, Select;
    var id := s.pending[k].id;
    KnownOnce(s, k);
    if s.packets == [] {
      FlushRecordsExports(s, now, cfg.window, id);
    } else {
      var t := MatchPending(Greedy(cfg), s, false, clock, 0);
      MatchPendingAnnotates(Greedy(cfg), s, false, clock, 0, id);
      PassDecides(cfg, s, false, clock, 0, k, |s.pending|);
      FlushRecordsExports(FlushPackets(t, now, cfg.window), now, cfg.window, id);
      if Old(now, cfg.window, s.pending[k].stamp) {
        AttemptFails(cfg, Reached(cfg, s, false, clock, 0, k), s.pending[k], false, clock(0, k));
      }
    }
  }

  // ---------------------------------------------------------------------------------------------
  // The final flush

  /** After any run that handed in an id once and still holds its record, the final flush leaves the record unmatched
      exactly when, as the pass reaches it, it is marked ambiguous, or is partial and sees competing connections, or no
      packet is the clear choice. */
  lemma FinalFlushDecides(cfg: Settings, steps: seq<Step>, clock: Clock, k: nat)
    requires var s := Run(Greedy(cfg), cfg.window, steps);
      k < |s.pending| && Count(steps, HandsInOne(s.pending[k].id, AnyRecord())) == 1
    ensures var s := Run(Greedy(cfg), cfg.window, steps);
      NeverAnnotated(FlushAll(Greedy(cfg), s, clock).exports, s.pending[k].id) <==>
        Blocked(cfg, Reached(cfg, s, true, clock, 0, k), s.pending[k])
  {
    hide Greedy, Count, Run, Blocked, Accounted, MatchUpTo;
    var s := Run(Greedy(cfg), cfg.window, steps);
    var id := s.pending[k].id;
    RunAccounts(Greedy(cfg), cfg.window, steps, id, AnyRecord());
    KnownOnce(s, k);
    PassDecides(cfg, s, true, clock, 0, k, |s.pending|);
    AttemptFails(cfg, Reached(cfg, s, true, clock, 0, k), s.pending[k], true, clock(0, k));
    var p := MatchUpTo(Greedy(cfg), s.packets, s.pending, true, clock, 0, |s.pending|);
    AnnotatedParts(s.exports, p.exports, Map(p.kept, Unmatch()), id);
  }

  lemma AnnotatedParts(first: seq<Export>, second: seq<Export>, third: seq<Export>, id: nat)
    requires (forall e | e in first :: e.pt.id != id) && forall e | e in third :: e.outcome.Unmatched?
    ensures NeverAnnotated(first + second + third, id) <==> NeverAnnotated(second, id)
  {
    forall e | e in second ensures e in first + second + third {}
  }

  // ---------------------------------------------------------------------------------------------
  // Any step, any run

  /** The clock readings of the pass that opens the step were made after the step took its time. */
  ghost predicate Timely(step: Step) {
    TimeOf(step).Some? ==> forall k: nat :: step.clock(0, k).forRecord >= TimeOf(step).value
  }

  /** The k-th pending record leaves for cause: it has reached the window, or this is the final flush, and there is no
      packet in the buffer or nothing to attach it to when the pass reaches it. */
  predicate Departs(cfg: Settings, s: State, step: Step, k: nat)
    requires k < |s.pending|
  {
    match TimeOf(step)
    case Some(now) =>
      && Sub(now, s.pending[k].stamp.received) >= cfg.window
      && (s.packets == [] || Blocked(cfg, Reached(cfg, s, false, step.clock, 0, k), s.pending[k]))
    case None => Blocked(cfg, Reached(cfg, s, true, step.clock, 0, k), s.pending[k])
  }

  predicate DepartsIn(cfg: Settings, s: State, step: Step, id: nat) {
    exists k | 0 <= k < |s.pending| :: s.pending[k].id == id && Departs(cfg, s, step, k)
  }

  lemma FlushExpiredExports(m: Matcher, s: State, now: int, window: Duration, clock: Clock, id: nat)
    requires LeavesUnmatched(FlushExpired(m, s, now, window, clock).exports, id) && !LeavesUnmatched(s.exports, id)
    ensures Pends(s.pending, id)
  {
    hide MatchPending, FlushRecords, Select, LeavesUnmatched;
    MatchPendingAnnotates(m, s, false, clock, 0, id);
    var s1 := if s.packets == [] then s else FlushPackets(MatchPending(m, s, false, clock, 0), now, window);
    FlushRecordsExports(s1, now, window, id);
  }

  /** What follows the expiry in a step exports nothing unmatched. */
  lemma StepExports(m: Matcher, window: Duration, s: State, step: Step, id: nat)
    requires TimeOf(step).Some?
    ensures LeavesUnmatched(Apply(m, window, s, step).exports, id) <==>
            LeavesUnmatched(FlushExpired(m, s, TimeOf(step).value, window, step.clock).exports, id)
  {
    hide FlushExpired, MatchPending, LeavesUnmatched;
    var s1 := FlushExpired(m, s, TimeOf(step).value, window, step.clock);
    match step
    case Wire(pkt, clock) => MatchPendingAnnotates(m, Admit(s1, pkt), false, clock, 1, id);
    case Event(pt, clock) =>
      var a := AllowedAttempt(m, s1.packets, pt, false, clock(1, 0));
      if a.chosen.Some? {
        var e := AnnotatedExport(a.pt, s1.packets[a.chosen.value]);
        LeavesConcat(s1.exports, [e], id);
        AnnotatedStays(e, id);
      }
    case Tick(_, _) =>
  }

  lemma AnnotatedStays(e: Export, id: nat)
    requires e.outcome.Annotated?
    ensures !LeavesUnmatched([e], id)
  {
  }

  lemma FlushAllExports(m: Matcher, s: State, clock: Clock, id: nat)
    ensures var t := MatchPending(m, s, true, clock, 0);
      && (LeavesUnmatched(FlushAll(m, s, clock).exports, id) <==>
            LeavesUnmatched(s.exports, id) || Pends(t.pending, id))
      && (Pends(t.pending, id) ==> Pends(s.pending, id))
  {
    hide MatchPending, LeavesUnmatched, Pends, Map;
    var t := MatchPending(m, s, true, clock, 0);
    MatchPendingAnnotates(m, s, true, clock, 0, id);
    LeavesConcat(t.exports, Map(t.pending, Unmatch()), id);
    UnmatchedLeave(t.pending, id);
  }

  lemma StepDecides(cfg: Settings, s: State, step: Step, k: nat)
    requires k < |s.pending| && Known(s, s.pending[k].id) <= 1 && Timely(step)
    ensures LeavesUnmatched(Apply(Greedy(cfg), cfg.window, s, step).exports, s.pending[k].id) <==>
            Departs(cfg, s, step, k)
  {
    hide Greedy, Known, Blocked, FlushExpired, MatchUpTo, LeavesUnmatched, Pends, Unchosen;
    var id := s.pending[k].id;
    if TimeOf(step).Some? {
      hide Apply;
      StepExports(Greedy(cfg), cfg.window, s, step, id);
      ExpiryDecides(cfg, s, TimeOf(step).value, step.clock, k);
    } else {
      KnownOnce(s, k);
      NoneLeft(s.exports, id);
      FlushAllExports(Greedy(cfg), s, step.clock, id);
      PassDecides(cfg, s, true, step.clock, 0, k, |s.pending|);
      FinalUnchosen(cfg, s, step.clock, k);
    }
  }

  lemma NoneLeft(exports: seq<Export>, id: nat)
    requires forall e | e in exports :: e.pt.id != id
    ensures !LeavesUnmatched(exports, id)
  {
  }

  lemma FinalUnchosen(cfg: Settings, s: State, clock: Clock, k: nat)
    requires k < |s.pending|
    ensures Unchosen(cfg, s, true, clock, 0, k) <==> Blocked(cfg, Reached(cfg, s, true, clock, 0, k), s.pending[k])
  {
    hide Greedy, Blocked;
    AttemptFails(cfg, Reached(cfg, s, true, clock, 0, k), s.pending[k], true, clock(0, k));
  }

  lemma StepWasPending(m: Matcher, window: Duration, s: State, step: Step, id: nat)
    requires LeavesUnmatched(Apply(m, window, s, step).exports, id) && !LeavesUnmatched(s.exports, id)
    ensures Pends(s.pending, id)
  {
    hide FlushExpired, FlushAll, MatchPending, LeavesUnmatched, Pends;
    if TimeOf(step).Some? {
      StepExports(m, window, s, step, id);
      FlushExpiredExports(m, s, TimeOf(step).value, window, step.clock, id);
    } else {
      FlushAllExports(m, s, step.clock, id);
    }
  }

  lemma StepCause(cfg: Settings, s: State, step: Step, id: nat)
    requires Known(s, id) <= 1 && Timely(step)
    ensures LeavesUnmatched(Apply(Greedy(cfg), cfg.window, s, step).exports, id) <==>
            LeavesUnmatched(s.exports, id) || DepartsIn(cfg, s, step, id)
  {
    hide Greedy, Known, Apply, Departs, Timely;
    StepExtends(Greedy(cfg), cfg.window, s, step);
    if Pends(s.pending, id) {
      var k :| 0 <= k < |s.pending| && s.pending[k].id == id;
      KnownOnce(s, k);
      StepDecides(cfg, s, step, k);
    } else {
      forall k | 0 <= k < |s.pending| ensures s.pending[k].id != id {
        assert s.pending[k] in s.pending;
      }
      if LeavesUnmatched(Apply(Greedy(cfg), cfg.window, s, step).exports, id) && !LeavesUnmatched(s.exports, id) {
        StepWasPending(Greedy(cfg), cfg.window, s, step, id);
      }
    }
    if LeavesUnmatched(s.exports, id) {
      var e :| e in s.exports && e.pt.id == id && e.outcome.Unmatched?;
      assert e in Apply(Greedy(cfg), cfg.window, s, step).exports;
    }
  }

  /** In every run that hands in an id at most once, its record is exported unmatched exactly when in some step it
      leaves for cause. */
  lemma {:induction false} UnmatchedForCause(cfg: Settings, steps: seq<Step>, id: nat)
    requires Count(steps, HandsInOne(id, AnyRecord())) <= 1
    requires forall i | 0 <= i < |steps| :: Timely(steps[i])
    ensures LeavesUnmatched(Run(Greedy(cfg), cfg.window, steps).exports, id) <==>
      exists i | 0 <= i < |steps| :: DepartsIn(cfg, Run(Greedy(cfg), cfg.window, steps[..i]), steps[i], id)
  {
    hide Greedy, Apply, DepartsIn, Timely, Accounted, LeavesUnmatched;
    if steps == [] {
      NoneLeft([], id);
    } else {
      var init, last := steps[..|steps|-1], steps[|steps|-1];
      UnmatchedForCause(cfg, init, id);
      RunAccounts(Greedy(cfg), cfg.window, init, id, AnyRecord());
      StepCause(cfg, Run(Greedy(cfg), cfg.window, init), last, id);
      forall i | 0 <= i < |init| ensures steps[..i] == init[..i] && steps[i] == init[i] {}
    }
  }
}
