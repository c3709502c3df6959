/** The buffer with the tool's own scoring: what its annotations are worth. */
module Correlation {
  import opened Records
  import opened Timing
  import opened Filters
  import opened Scoring
  import opened Matching
  import opened Exports
  import opened Sequences
  import opened Protocol
  import opened Conservation
  import opened Runs

  lemma AttemptIsAllowed(packets: seq<WirePacket>, pt: PendingPlaintext, cfg: Settings, final: bool, r: Reading)
    ensures AttemptAllowed(packets, pt, TryAnnotate(packets, pt, cfg, final, r))
  {
    hide TryAnnotate, Score, TupleOf;
    AttemptKeeps(packets, pt, cfg, final, r);
    var a := TryAnnotate(packets, pt, cfg, final, r);
    if a.chosen.Some? {
      AttemptMeaning(packets, pt, cfg, final, r, a.chosen.value);
    }
  }

  function Greedy(cfg: Settings): Matcher {
    var m: Chooser := (packets, pt, final, r) => TryAnnotate(packets, pt, cfg, final, r);
    assert IsMatcher(m) by {
      hide TryAnnotate;
      forall packets: seq<WirePacket>, pt: PendingPlaintext, final: bool, r: Reading
        ensures AttemptAllowed(packets, pt, m(packets, pt, final, r))
      {
        AttemptIsAllowed(packets, pt, cfg, final, r);
      }
    }
    m
  }

  lemma GreedyIsTryAnnotate(packets: seq<WirePacket>, pt: PendingPlaintext, cfg: Settings, final: bool, r: Reading)
    ensures AllowedAttempt(Greedy(cfg), packets, pt, final, r) == TryAnnotate(packets, pt, cfg, final, r)
  {
    hide TryAnnotate;
  }

  /** The line an exported record becomes, apart from its display text. */
  function Line(e: Export): GenericMap {
    match e.outcome
    case Annotated(packet) => AnnotatedRecord(e.pt.data, packet.fields)
    case Unmatched => UnmatchedRecord(e.pt.original)
  }

  // ---------------------------------------------------------------------------------------------
  // Every pending record is its original plus the filters' hints; every match is with a candidate

  function IsRaw(): OfRecord {
    (pt: PendingPlaintext) => pt.data == pt.original
  }

  function IsEnriched(f: CaptureFilters): OfRecord {
    (pt: PendingPlaintext) => pt.data == Enrich(pt.original, f)
  }

  function IsCandidate(f: CaptureFilters): OfMatch {
    (pt: PendingPlaintext, packet: WirePacket) => pt.data == Enrich(pt.original, f) && Candidate(packet, pt, f)
  }

  lemma AttemptIsCandidate(packets: seq<WirePacket>, pt: PendingPlaintext, cfg: Settings, final: bool, r: Reading)
    requires IsRaw()(pt) || IsEnriched(cfg.filters)(pt)
    ensures var a := TryAnnotate(packets, pt, cfg, final, r);
      && IsEnriched(cfg.filters)(a.pt)
      && (a.chosen.Some? ==>
            a.chosen.value < |packets| && IsCandidate(cfg.filters)(a.pt, packets[a.chosen.value]))
  {
    hide TryAnnotate, Score, Enrich, TimesCorrelated, GapSaturates, PodCompatible, EndpointsCompatible,
         DirectionCompatible, TierAdmits;
    AttemptKeeps(packets, pt, cfg, final, r);
    EnrichIdempotent(pt.original, cfg.filters);
    var a := TryAnnotate(packets, pt, cfg, final, r);
    if a.chosen.Some? {
      AttemptMeaning(packets, pt, cfg, final, r, a.chosen.value);
      var seen := View(packets, pt, cfg.filters);
      assert Free(seen, a.chosen.value);
      ScoreMeaning(packets[a.chosen.value], Prepared(pt, cfg.filters), cfg.filters);
    }
  }

  lemma GreedyJustifies(cfg: Settings)
    ensures Justifies(Greedy(cfg), IsRaw(), IsEnriched(cfg.filters), IsCandidate(cfg.filters))
  {
    hide TryAnnotate, IsRaw, IsEnriched, IsCandidate;
    forall packets: seq<WirePacket>, pt: PendingPlaintext, final: bool, r: Reading
      | IsRaw()(pt) || IsEnriched(cfg.filters)(pt)
      ensures var a := AllowedAttempt(Greedy(cfg), packets, pt, final, r);
        && IsEnriched(cfg.filters)(a.pt)
        && (a.chosen.Some? ==> IsCandidate(cfg.filters)(a.pt, packets[a.chosen.value]))
    {
      AttemptIsCandidate(packets, pt, cfg, final, r);
    }
  }

  /** At every moment of every run, pending data is the enriched original. */
  lemma PendingIsEnriched(cfg: Settings, steps: seq<Step>, pt: PendingPlaintext)
    requires WellFormed(steps) && pt in Run(Greedy(cfg), cfg.window, steps).pending
    ensures pt.data == Enrich(pt.original, cfg.filters)
  {
    hide Run, Enrich, Greedy;
    AllAreJustified(cfg, steps);
    assert IsEnriched(cfg.filters)(pt);
  }

  /** At every moment of every run, a record was only annotated on a packet that is a candidate for it: near in time,
      of a workload that fits, agreeing with all the record knows of its endpoints, travelling its way, in its tier,
      and not without payload. */
  lemma AnnotatedIsCandidate(cfg: Settings, steps: seq<Step>, e: Export)
    requires WellFormed(steps) && e in Run(Greedy(cfg), cfg.window, steps).exports && e.outcome.Annotated?
    ensures e.pt.data == Enrich(e.pt.original, cfg.filters) && Candidate(e.outcome.packet, e.pt, cfg.filters)
    ensures var packet, event := e.outcome.packet.stamp, e.pt.stamp;
      if packet.captured.Some? && event.captured.Some? then
        -2_000_000_000 <= event.captured.value - packet.captured.value <= 5_000_000_000
      else -30_000_000_000 <= event.received - packet.received <= 30_000_000_000
  {
    hide Run, Enrich, Greedy, PodCompatible, EndpointsCompatible, DirectionCompatible, TierAdmits, TimesCorrelated,
         GapSaturates;
    InTimeMeaning(e.outcome.packet.stamp, e.pt.stamp);
    AllAreJustified(cfg, steps);
    assert Justified(e, IsCandidate(cfg.filters));
    assert IsCandidate(cfg.filters)(e.pt, e.outcome.packet);
  }

  lemma AllAreJustified(cfg: Settings, steps: seq<Step>)
    requires WellFormed(steps)
    ensures AllJustified(Run(Greedy(cfg), cfg.window, steps), IsEnriched(cfg.filters), IsCandidate(cfg.filters))
  {
    hide Run, Candidate, Enrich, Greedy;
    GreedyJustifies(cfg);
    forall i | 0 <= i < |steps| && steps[i].Event? ensures IsRaw()(steps[i].pt) {
      assert steps[i].WellFormed();
    }
    RunJustified(Greedy(cfg), cfg.window, steps, IsRaw(), IsEnriched(cfg.filters), IsCandidate(cfg.filters));
  }

  /** A record with a full tuple is only ever annotated on a packet of its own connection that travels its own way. */
  lemma FullTupleOwnConnection(cfg: Settings, steps: seq<Step>, e: Export)
    requires WellFormed(steps) && e in Run(Greedy(cfg), cfg.window, steps).exports
    requires HasTuple(e.pt.original) && e.outcome.Annotated?
    ensures TupleOf(e.outcome.packet.fields) == NetworkTuple(e.pt.original) && e.pt.data == e.pt.original
  {
    hide Run, Greedy, Enrich, EndpointsCompatible, DirectionCompatible, TupleOf, PodCompatible, TimesCorrelated;
    AnnotatedIsCandidate(cfg, steps, e);
    EnrichKeepsKnown(e.pt.original, cfg.filters);
  }

  /** In every run, the line of a verified record shows its tuple in network direction, annotated or not. */
  lemma VerifiedLineShowsNetworkTuple(cfg: Settings, steps: seq<Step>, e: Export)
    requires WellFormed(steps) && e in Run(Greedy(cfg), cfg.window, steps).exports
    requires TupleVerified(e.pt.original)
    ensures TupleOf(Line(e)) == NetworkTuple(e.pt.original)
  {
    hide Run, Greedy, AnnotatedRecord, UnmatchedRecord, TupleOf;
    if e.outcome.Annotated? {
      FullTupleOwnConnection(cfg, steps, e);
      VerifiedTupleEitherWay(e.pt.original, e.outcome.packet.fields);
    } else {
      VerifiedTupleEitherWay(e.pt.original, map[]);
    }
  }

  /** Apart from the display text, a line that no packet carries is a function of the record that was handed in: of two
      runs that hand in the same record, under whatever id, and leave it unmatched, neither the traffic nor the filters
      nor the fate of other records show in it. */
  lemma UnmatchedLineIgnoresTraffic(cfg1: Settings, steps1: seq<Step>, i1: nat, e1: Export,
                                    cfg2: Settings, steps2: seq<Step>, i2: nat, e2: Export)
    requires LeftUnmatched(cfg1, steps1, i1, e1) && LeftUnmatched(cfg2, steps2, i2, e2)
    requires Bare(steps1[i1].pt.original) == Bare(steps2[i2].pt.original)
    ensures Line(e1) == Line(e2) == UnmatchedRecord(steps1[i1].pt.original)
  {
    hide LeftUnmatched, UnmatchedRecord;
    UnmatchedLine(cfg1, steps1, i1, e1);
    UnmatchedLine(cfg2, steps2, i2, e2);
    UnmatchedIgnoresDisplay(steps1[i1].pt.original);
    UnmatchedIgnoresDisplay(steps2[i2].pt.original);
  }

  /** An annotated line is made from the record that was handed in, completed by the filters' hints, and from the packet
      it was attached to. */
  lemma AnnotatedLine(cfg: Settings, steps: seq<Step>, i: nat, e: Export)
    requires WellFormed(steps) && i < |steps| && steps[i].Event?
    requires Count(steps, HandsInOne(steps[i].pt.id, AnyRecord())) == 1
    requires e in Run(Greedy(cfg), cfg.window, steps).exports && e.pt.id == steps[i].pt.id && e.outcome.Annotated?
    ensures Line(e) == AnnotatedRecord(Enrich(steps[i].pt.original, cfg.filters), e.outcome.packet.fields)
  {
    hide Run, Greedy, Count, AnnotatedRecord, Enrich, Candidate;
    AnnotatedIsCandidate(cfg, steps, e);
    ExportOfHandIn(Greedy(cfg), cfg.window, steps, i, e);
  }

  /** Step `i` of the run hands in a record, under an id of its own, and `e` is the export of that id, whose line claims
      no packet. */
  predicate LeftUnmatched(cfg: Settings, steps: seq<Step>, i: nat, e: Export) {
    && WellFormed(steps) && i < |steps| && steps[i].Event?
    && Count(steps, HandsInOne(steps[i].pt.id, AnyRecord())) == 1
    && e in Run(Greedy(cfg), cfg.window, steps).exports && e.pt.id == steps[i].pt.id
    && Field(Line(e), "PcapAnnotated") == Bool(false)
  }

  lemma UnmatchedLine(cfg: Settings, steps: seq<Step>, i: nat, e: Export)
    requires LeftUnmatched(cfg, steps, i, e)
    ensures i < |steps| && steps[i].Event? && Line(e) == UnmatchedRecord(steps[i].pt.original)
  {
    hide Run, Greedy, Count, AnnotatedRecord, UnmatchedRecord;
    if e.outcome.Annotated? {
      AnnotatedKeepsIdentity(e.pt.data, e.outcome.packet.fields);
    }
    ExportOfHandIn(Greedy(cfg), cfg.window, steps, i, e);
  }

  // ---------------------------------------------------------------------------------------------
  // Full-tuple records are never marked

  function IsFresh(): OfRecord {
    (pt: PendingPlaintext) => !pt.connectionAmbiguous
  }

  function IsUnmarked(): OfRecord {
    (pt: PendingPlaintext) => HasTuple(pt.original) ==> !pt.connectionAmbiguous
  }

  lemma GreedyMarksPartial(cfg: Settings)
    ensures Justifies(Greedy(cfg), IsFresh(), IsUnmarked(), (pt: PendingPlaintext, packet: WirePacket) => true)
  {
    hide TryAnnotate, HasTuple, View;
    forall packets: seq<WirePacket>, pt: PendingPlaintext, final: bool, r: Reading | IsFresh()(pt) || IsUnmarked()(pt)
      ensures IsUnmarked()(AllowedAttempt(Greedy(cfg), packets, pt, final, r).pt)
    {
      AttemptKeeps(packets, pt, cfg, final, r);
    }
  }

  /** At every moment of every run, a pending record with a full tuple is unmarked, and so whatever is next tried with
      it succeeds exactly on the clear choice. */
  lemma FullTupleAlwaysReady(cfg: Settings, steps: seq<Step>, pt: PendingPlaintext,
                             packets: seq<WirePacket>, final: bool, r: Reading, i: nat)
    requires WellFormed(steps) && pt in Run(Greedy(cfg), cfg.window, steps).pending && HasTuple(pt.original)
    ensures !pt.connectionAmbiguous
    ensures AllowedAttempt(Greedy(cfg), packets, pt, final, r).chosen == Some(i) <==>
              ClearChoice(View(packets, pt, cfg.filters), i)
  {
    hide Run, TryAnnotate, HasTuple, View, ClearChoice;
    var any := (pt: PendingPlaintext, packet: WirePacket) => true;
    GreedyMarksPartial(cfg);
    forall i | 0 <= i < |steps| && steps[i].Event? ensures IsFresh()(steps[i].pt) {
      assert steps[i].WellFormed();
    }
    RunJustified(Greedy(cfg), cfg.window, steps, IsFresh(), IsUnmarked(), any);
    assert IsUnmarked()(pt);
    FullTupleNeverWaits(packets, pt, cfg, final, r, i);
  }
}
