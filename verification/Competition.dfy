/** Competing connections rule a partial record out for good: over whole runs with the tool's own scoring. */
module Competition {
  import opened Records
  import opened Timing
  import opened Scoring
  import opened Matching
  import opened Sequences
  import opened Protocol
  import opened Conservation
  import opened Runs
  import opened Correlation

  /** How often records with this id are held or have been exported. */
  function Known(s: State, id: nat): nat {
    Accounted(s, id, AnyRecord())
  }

  /** No other pending record has this id. */
  predicate Sole(pending: seq<PendingPlaintext>, k: nat) {
    k < |pending| && forall i | 0 <= i < |pending| && i != k :: pending[i].id != pending[k].id
  }

  lemma KnownOnce(s: State, k: nat)
    requires k < |s.pending| && Known(s, s.pending[k].id) <= 1
    ensures Sole(s.pending, k) && Known(s, s.pending[k].id) == 1
    ensures forall e | e in s.exports :: e.pt.id != s.pending[k].id
  {
    hide Count;
    var id := s.pending[k].id;
    assert Holds(id, AnyRecord())(s.pending[k]);
    CountUnique(s.pending, Holds(id, AnyRecord()), k);
    forall i | 0 <= i < |s.pending| && i != k ensures s.pending[i].id != id {
      assert !Holds(id, AnyRecord())(s.pending[i]);
    }
    CountNone(s.exports, Reports(id, AnyRecord()));
    forall e | e in s.exports ensures e.pt.id != id {
      assert !Reports(id, AnyRecord())(e);
    }
  }

  lemma Unknown(s: State, id: nat)
    requires Known(s, id) == 0
    ensures (forall pt | pt in s.pending :: pt.id != id) && forall e | e in s.exports :: e.pt.id != id
  {
    hide Count;
    CountNone(s.pending, Holds(id, AnyRecord()));
    CountNone(s.exports, Reports(id, AnyRecord()));
    forall pt | pt in s.pending ensures pt.id != id {
      assert !Holds(id, AnyRecord())(pt);
    }
    forall e | e in s.exports ensures e.pt.id != id {
      assert !Reports(id, AnyRecord())(e);
    }
  }

  // ---------------------------------------------------------------------------------------------
  // Meeting competing connections

  /** A partial record sees packets of two connections that could both be its own. */
  predicate Competes(cfg: Settings, packets: seq<WirePacket>, pt: PendingPlaintext) {
    Partial(pt) && SeesCompetition(View(packets, pt, cfg.filters), |packets|)
  }

  /** Competition in plain terms: two packets, taken or not, are candidates for a record without a full tuple, and their
      tuples are neither equal nor each other's reverse. */
  lemma CompetesMeaning(cfg: Settings, packets: seq<WirePacket>, pt: PendingPlaintext)
    ensures var q := Prepared(pt, cfg.filters);
      Competes(cfg, packets, pt) <==>
        && TupleOf(pt.original).None?
        && exists i, j | 0 <= i < j < |packets| ::
             && Candidate(packets[i], q, cfg.filters) && Candidate(packets[j], q, cfg.filters)
             && Differ(TupleOf(packets[i].fields), TupleOf(packets[j].fields))
  {
    hide Score, Candidate, TupleOf;
    var q, seen := Prepared(pt, cfg.filters), View(packets, pt, cfg.filters);
    forall i | 0 <= i < |packets| ensures seen[i].score >= 0 <==> Candidate(packets[i], q, cfg.filters) {
      ScoreMeaning(packets[i], q, cfg.filters);
    }
    forall i, j | 0 <= i < j < |packets|
      ensures Compete(seen, i, j) <==>
        && Candidate(packets[i], q, cfg.filters) && Candidate(packets[j], q, cfg.filters)
        && Differ(TupleOf(packets[i].fields), TupleOf(packets[j].fields))
    {
    }
  }

  predicate Differ(a: Option<FlowTuple>, b: Option<FlowTuple>) {
    && a.Some? && b.Some? && a != b
    && a.value != FlowTuple(b.value.dstIP, b.value.dstPort, b.value.srcIP, b.value.srcPort)
  }

  /** The packets as the pass finds them when it reaches the k-th pending record. */
  function Reached(cfg: Settings, s: State, final: bool, clock: Clock, pass: nat, k: nat): seq<WirePacket>
    requires k < |s.pending|
  {
    MatchUpTo(Greedy(cfg), s.packets, s.pending, final, clock, pass, k).packets
  }

  /** The pass over the pending records shows competing connections to the record with this id. */
  predicate PassMeets(cfg: Settings, s: State, final: bool, clock: Clock, pass: nat, id: nat) {
    exists k | 0 <= k < |s.pending| ::
      s.pending[k].id == id && Competes(cfg, Reached(cfg, s, final, clock, pass, k), s.pending[k])
  }

  /** So does the pass an expiry begins with. */
  predicate ExpiryMeets(cfg: Settings, s: State, clock: Clock, id: nat) {
    s.packets != [] && PassMeets(cfg, s, false, clock, 0, id)
  }

  /** Some pass of the step, or the attempt on arrival, does. */
  predicate StepMeets(cfg: Settings, s: State, step: Step, id: nat) {
    match step
    case Wire(pkt, clock) =>
      || ExpiryMeets(cfg, s, clock, id)
      || var s1 := FlushExpired(Greedy(cfg), s, pkt.stamp.received, cfg.window, clock);
         PassMeets(cfg, Admit(s1, pkt), false, clock, 1, id)
    case Event(pt, clock) =>
      || ExpiryMeets(cfg, s, clock, id)
      || (pt.id == id && Competes(cfg, FlushExpired(Greedy(cfg), s, pt.stamp.received, cfg.window, clock).packets, pt))
    case Tick(_, clock) => ExpiryMeets(cfg, s, clock, id)
    case Close(clock) => PassMeets(cfg, s, true, clock, 0, id)
  }

  lemma CompetitionBlocks(cfg: Settings, packets: seq<WirePacket>, pt: PendingPlaintext, final: bool, r: Reading)
    requires Competes(cfg, packets, pt)
    ensures var a := AllowedAttempt(Greedy(cfg), packets, pt, final, r);
      a.chosen.None? && a.pt.connectionAmbiguous && a.pt.id == pt.id
  {
    hide TryAnnotate, View;
    AttemptKeeps(packets, pt, cfg, final, r);
  }

  lemma {:induction false} PassRemembers(cfg: Settings, s: State, final: bool, clock: Clock, pass: nat, k: nat, n: nat)
    requires n <= |s.pending| && Sole(s.pending, k)
    requires Competes(cfg, Reached(cfg, s, final, clock, pass, k), s.pending[k])
    ensures var p := MatchUpTo(Greedy(cfg), s.packets, s.pending, final, clock, pass, n);
      && (forall pt | pt in p.kept && pt.id == s.pending[k].id :: pt.connectionAmbiguous)
      && NeverAnnotated(p.exports, s.pending[k].id)
  {
    hide TryAnnotate, Competes, Greedy;
    if n > 0 {
      PassRemembers(cfg, s, final, clock, pass, k, n - 1);
      if k == n - 1 {
        CompetitionBlocks(cfg, Reached(cfg, s, final, clock, pass, k), s.pending[k], final, clock(pass, k));
      }
    }
  }

  lemma PassTaints(cfg: Settings, s: State, final: bool, clock: Clock, pass: nat, id: nat)
    requires Known(s, id) <= 1 && PassMeets(cfg, s, final, clock, pass, id)
    ensures Known(s, id) == 1 && Tainted(MatchPending(Greedy(cfg), s, final, clock, pass), id)
  {
    hide Competes, Greedy, Known, MatchUpTo;
    var k :| 0 <= k < |s.pending| && s.pending[k].id == id
             && Competes(cfg, Reached(cfg, s, final, clock, pass, k), s.pending[k]);
    KnownOnce(s, k);
    PassRemembers(cfg, s, final, clock, pass, k, |s.pending|);
  }

  lemma ExpiryTaints(cfg: Settings, s: State, now: int, clock: Clock, id: nat)
    requires Known(s, id) <= 1 && ExpiryMeets(cfg, s, clock, id)
    ensures Known(s, id) == 1 && Tainted(FlushExpired(Greedy(cfg), s, now, cfg.window, clock), id)
  {
    hide Greedy, Known, MatchPending, FlushPackets, FlushRecords, PassMeets, Tainted;
    PassTaints(cfg, s, false, clock, 0, id);
    FlushesKeepTaint(MatchPending(Greedy(cfg), s, false, clock, 0), now, cfg.window, id);
  }

  lemma SettleKeepsTaint(m: Matcher, s: State, pt: PendingPlaintext, r: Reading, id: nat)
    requires Tainted(s, id) && pt.id != id
    ensures Tainted(Settle(m, s, pt, r), id)
  {
  }

  lemma ArrivalTaints(cfg: Settings, s: State, pt: PendingPlaintext, r: Reading)
    requires Known(s, pt.id) == 0 && Competes(cfg, s.packets, pt)
    ensures Tainted(Settle(Greedy(cfg), s, pt, r), pt.id)
  {
    hide Greedy, Known, Competes;
    Unknown(s, pt.id);
    CompetitionBlocks(cfg, s.packets, pt, false, r);
  }

  predicate HandsInID(step: Step, id: nat) {
    HandsIn(step, id, AnyRecord())
  }

  /** A step that shows competing connections to a record known once leaves it tainted. */
  lemma StepTaints(cfg: Settings, s: State, step: Step, id: nat)
    requires Known(s, id) + (if HandsInID(step, id) then 1 else 0) <= 1
    requires StepMeets(cfg, s, step, id)
    ensures Tainted(Apply(Greedy(cfg), cfg.window, s, step), id)
    ensures Known(s, id) + (if HandsInID(step, id) then 1 else 0) == 1
  {
    hide Greedy, Accounted, FlushExpired, MatchPending, Admit, Settle, PassMeets, ExpiryMeets, Competes, Tainted, Map;
    var m, any := Greedy(cfg), AnyRecord();
    match step
    case Wire(pkt, clock) =>
      var s1 := FlushExpired(m, s, pkt.stamp.received, cfg.window, clock);
      FlushExpiredAccounts(m, s, pkt.stamp.received, cfg.window, clock, id, any);
      AdmitKeepsRecords(s1, pkt, id);
      if ExpiryMeets(cfg, s, clock, id) {
        ExpiryTaints(cfg, s, pkt.stamp.received, clock, id);
        MatchPendingKeepsTaint(m, Admit(s1, pkt), false, clock, 1, id);
      } else {
        PassTaints(cfg, Admit(s1, pkt), false, clock, 1, id);
      }
    case Event(pt, clock) =>
      var s1 := FlushExpired(m, s, pt.stamp.received, cfg.window, clock);
      FlushExpiredAccounts(m, s, pt.stamp.received, cfg.window, clock, id, any);
      if ExpiryMeets(cfg, s, clock, id) {
        ExpiryTaints(cfg, s, pt.stamp.received, clock, id);
        SettleKeepsTaint(m, s1, pt, clock(1, 0), id);
      } else {
        ArrivalTaints(cfg, s1, pt, clock(1, 0));
      }
    case Tick(now, clock) => ExpiryTaints(cfg, s, now, clock, id);
    case Close(clock) =>
      PassTaints(cfg, s, true, clock, 0, id);
      FlushAllKeepsTaint(m, s, clock, id);
  }

  lemma AdmitKeepsRecords(s: State, pkt: WirePacket, id: nat)
    ensures Known(Admit(s, pkt), id) == Known(s, id)
    ensures Tainted(s, id) ==> Tainted(Admit(s, pkt), id)
  {
  }

  lemma FlushAllKeepsTaint(m: Matcher, s: State, clock: Clock, id: nat)
    requires Tainted(MatchPending(m, s, true, clock, 0), id)
    ensures Tainted(FlushAll(m, s, clock), id)
  {
    hide MatchPending;
  }

  /** In every run that hands in an id once: if in any step, whether by a pass of an expiry, the pass after a packet,
      the attempt on arrival or the final pass, its partial record sees competing connections, then no record with
      that id is annotated, neither in that step nor in any other, whatever has expired by then. */
  lemma CompetitionIsFinal(cfg: Settings, before: seq<Step>, step: Step, after: seq<Step>, id: nat)
    requires Count(before + [step] + after, HandsInOne(id, AnyRecord())) == 1
    requires StepMeets(cfg, Run(Greedy(cfg), cfg.window, before), step, id)
    ensures NeverAnnotated(Run(Greedy(cfg), cfg.window, before + [step] + after).exports, id)
  {
    hide Greedy, Count, RunFrom, Apply, StepMeets, Accounted;
    var m, f := Greedy(cfg), HandsInOne(id, AnyRecord());
    var s := Run(m, cfg.window, before);
    CountConcat(before + [step], after, f);
    CountSnoc(before, step, f);
    RunAccounts(m, cfg.window, before, id, AnyRecord());
    StepTaints(cfg, s, step, id);
    RunOne(m, cfg.window, s, step);
    RunConcat(m, cfg.window, EMPTY, before, [step]);
    RunConcat(m, cfg.window, EMPTY, before + [step], after);
    CountNone(after, f);
    forall i | 0 <= i < |after| && after[i].Event? ensures after[i].pt.id != id {
      assert after[i] in after && !f(after[i]);
    }
    AmbiguityIsRemembered(m, cfg.window, Apply(m, cfg.window, s, step), after, id);
  }

  lemma RunOne(m: Matcher, window: Duration, s: State, step: Step)
    ensures RunFrom(m, window, s, [step]) == Apply(m, window, s, step)
  {
    hide Apply;
    assert [step][..0] == [];
    assert RunFrom(m, window, s, []) == s;
  }
}
