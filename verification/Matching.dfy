/** Choosing the packet a plaintext record is attached to. */
module Matching {
  import opened Records
  import opened Timing
  import opened Filters
  import opened Scoring

  datatype Settings = Settings(window: Duration, filters: CaptureFilters)

  // ---------------------------------------------------------------------------------------------
  // The one-pass scan

  /** What the scan notes about one packet: its score, the connection it names, and whether it is taken. */
  datatype Sighting = Sighting(score: int, connection: Option<FlowTuple>, annotated: bool)

  function See(pkt: WirePacket, pt: PendingPlaintext, f: CaptureFilters): Sighting {
    Sighting(Score(pkt, pt, f), TupleOf(pkt.fields), pkt.annotated)
  }

  function Sightings(packets: seq<WirePacket>, pt: PendingPlaintext, f: CaptureFilters): (r: seq<Sighting>)
    ensures |r| == |packets|
  {
    seq(|packets|, i requires 0 <= i < |packets| => See(packets[i], pt, f))
  }

  datatype Scan = Scan(
    bestIdx: int, bestScore: int, secondBest: int, connection: Option<FlowTuple>, multiple: bool)
  {
    predicate Ambiguous() {
      bestIdx >= 0 && secondBest >= 0 && bestScore - secondBest <= AMBIGUITY_MARGIN
    }
  }

  /** The scan after the first `n` packets. */
  function ScanUpTo(seen: seq<Sighting>, n: nat): Scan
    requires n <= |seen|
  {
    if n == 0 then Scan(-1, -1, -1, None, false) else ScanStep(ScanUpTo(seen, n - 1), n - 1, seen[n-1])
  }

  function ScanStep(s: Scan, i: nat, g: Sighting): Scan {
    var s1 :=
      if g.score >= 0 && g.connection.Some? then
        var other := s.connection.Some? && !SameConnection(s.connection.value, g.connection.value);
        s.(multiple := s.multiple || other, connection := g.connection)
      else s;
    if g.annotated then s1
    else if g.score > s1.bestScore then s1.(secondBest := s1.bestScore, bestScore := g.score, bestIdx := i)
    else if g.score > s1.secondBest then s1.(secondBest := g.score)
    else s1
  }

  method BestWireMatch(packets: array<WirePacket>, lo: nat, hi: nat, pt: PendingPlaintext, f: CaptureFilters)
    returns (bestIdx: int, bestScore: int, ambiguous: bool, multiple: bool)
    requires lo <= hi <= packets.Length
    ensures var s := ScanUpTo(Sightings(packets[lo..hi], pt, f), hi - lo);
      bestIdx == s.bestIdx && bestScore == s.bestScore && ambiguous == s.Ambiguous() && multiple == s.multiple
  {
    hide Score, TupleOf;
    bestIdx, bestScore := -1, -1;
    var secondBest := -1;
    var connection: Option<FlowTuple> := None;
    multiple := false;
    for i := 0 to hi - lo
      invariant Scan(bestIdx, bestScore, secondBest, connection, multiple)
             == ScanUpTo(Sightings(packets[lo..hi], pt, f), i)
    {
      var pkt := packets[lo + i];
      var score := Score(pkt, pt, f);
      if score >= 0 {
        var tuple := TupleOf(pkt.fields);
        if tuple.Some? {
          if connection.Some? && tuple.value != connection.value && tuple.value != connection.value.Reverse() {
            multiple := true;
          }
          connection := tuple;
        }
      }
      if pkt.annotated {
        continue;
      }
      if score > bestScore {
        secondBest := bestScore;
        bestScore := score;
        bestIdx := i;
        continue;
      }
      if score > secondBest {
        secondBest := score;
      }
    }
    ambiguous := bestIdx >= 0 && secondBest >= 0 && bestScore - secondBest <= AMBIGUITY_MARGIN;
  }

  /** Packet `i` is not taken and may carry the record. */
  predicate Free(seen: seq<Sighting>, i: int) {
    0 <= i < |seen| && !seen[i].annotated && seen[i].score >= 0
  }

  /** The scan returns the first free packet of maximal score, and the maximum over the other free ones. */
  lemma {:induction false} ScanFindsBest(seen: seq<Sighting>, n: nat)
    requires n <= |seen|
    ensures var s := ScanUpTo(seen, n);
      && -1 <= s.secondBest <= s.bestScore && -1 <= s.bestIdx < n
      && (s.bestIdx == -1 <==> s.bestScore == -1)
      && (s.bestIdx == -1 <==> forall j | 0 <= j < n :: !Free(seen, j))
      && (s.bestIdx >= 0 ==> Free(seen, s.bestIdx) && s.bestScore == seen[s.bestIdx].score)
      && (forall j | 0 <= j < n && Free(seen, j) ::
            seen[j].score <= s.bestScore && (j < s.bestIdx ==> seen[j].score < s.bestScore))
      && (forall j | 0 <= j < n && Free(seen, j) && j != s.bestIdx :: seen[j].score <= s.secondBest)
      && (s.secondBest >= 0 ==>
            exists j | 0 <= j < n && j != s.bestIdx :: Free(seen, j) && seen[j].score == s.secondBest)
  {
    if n > 0 {
      ScanFindsBest(seen, n - 1);
      var before, s := ScanUpTo(seen, n - 1), ScanUpTo(seen, n);
      assert Free(seen, n - 1) ==> s.bestIdx >= 0;
      if s.bestIdx != before.bestIdx || s.secondBest != before.secondBest {
        assert Free(seen, n - 1);
      }
    }
  }

  /** The score-ambiguity flag: some other free packet comes within the margin of the best one. */
  lemma AmbiguousMeaning(seen: seq<Sighting>)
    ensures var s := ScanUpTo(seen, |seen|);
      s.Ambiguous() <==>
        (s.bestIdx >= 0 && exists j | 0 <= j < |seen| && j != s.bestIdx ::
          Free(seen, j) && s.bestScore - seen[j].score <= AMBIGUITY_MARGIN)
  {
    ScanFindsBest(seen, |seen|);
  }

  // ---------------------------------------------------------------------------------------------
  // Competing connections

  lemma SameConnectionIsEquivalence(a: FlowTuple, b: FlowTuple, c: FlowTuple)
    ensures SameConnection(a, a)
    ensures SameConnection(a, b) ==> SameConnection(b, a)
    ensures SameConnection(a, b) && SameConnection(b, c) ==> SameConnection(a, c)
  {
  }

  /** Packet `i`, annotated or not, scores for the record and names a connection. */
  predicate Names(seen: seq<Sighting>, i: int) {
    0 <= i < |seen| && seen[i].score >= 0 && seen[i].connection.Some?
  }

  predicate Compete(seen: seq<Sighting>, i: int, j: int) {
    Names(seen, i) && Names(seen, j) && !SameConnection(seen[i].connection.value, seen[j].connection.value)
  }

  predicate SeesCompetition(seen: seq<Sighting>, n: nat) {
    exists i, j | 0 <= i < j < n :: Compete(seen, i, j)
  }

  /** Comparing each connection with the one before it alone decides whether all of them are one. */
  lemma {:induction false} ScanSeesCompetition(seen: seq<Sighting>, n: nat)
    requires n <= |seen|
    ensures var s := ScanUpTo(seen, n);
      && (s.multiple <==> SeesCompetition(seen, n))
      && (s.connection.Some? <==> exists i | 0 <= i < n :: Names(seen, i))
      && (s.connection.Some? ==> exists i | 0 <= i < n :: Names(seen, i) && seen[i].connection == s.connection)
      && (s.connection.Some? && !s.multiple ==>
            forall i | 0 <= i < n && Names(seen, i) :: SameConnection(seen[i].connection.value, s.connection.value))
  {
    if n > 0 {
      ScanSeesCompetition(seen, n - 1);
      var before, s := ScanUpTo(seen, n - 1), ScanUpTo(seen, n);
      if Names(seen, n - 1) && before.connection.Some? {
        var last :| 0 <= last < n - 1 && Names(seen, last) && seen[last].connection == before.connection;
        if !before.multiple && s.multiple {
          assert Compete(seen, last, n - 1);
        }
      }
    }
  }

  // ---------------------------------------------------------------------------------------------
  // One attempt to annotate

  /** The two readings of the clock made when an attempt asks how long the record and the packet have waited. */
  datatype Reading = Reading(forRecord: int, forPacket: int)

  /** The record after the attempt, and the packet to annotate with it, if any. */
  datatype Attempt = Attempt(pt: PendingPlaintext, chosen: Option<nat>)

  function Prepared(pt: PendingPlaintext, f: CaptureFilters): PendingPlaintext {
    pt.(data := Enrich(pt.data, f))
  }

  function View(packets: seq<WirePacket>, pt: PendingPlaintext, f: CaptureFilters): (r: seq<Sighting>)
    ensures |r| == |packets|
  {
    Sightings(packets, Prepared(pt, f), f)
  }

  predicate Partial(pt: PendingPlaintext) {
    !HasTuple(pt.original)
  }

  predicate MustWait(pt: PendingPlaintext, pkt: WirePacket, window: Duration, r: Reading) {
    && Partial(pt)
    && Sub(r.forRecord, pt.stamp.received) < window && Sub(r.forPacket, pkt.stamp.received) < window
  }

  function TryAnnotate(packets: seq<WirePacket>, pt: PendingPlaintext, cfg: Settings, final: bool, r: Reading)
    : Attempt
  {
    var seen := View(packets, pt, cfg.filters);
    var s := ScanUpTo(seen, |seen|);
    var pt1 := Prepared(pt, cfg.filters).(connectionAmbiguous := pt.connectionAmbiguous || (Partial(pt) && s.multiple));
    if s.bestIdx < 0 || s.Ambiguous() || pt1.connectionAmbiguous
       || s.bestScore < MinAnnotationScore(pt1.data, cfg.filters) then Attempt(pt1, None)
    else
      ScanFindsBest(seen, |seen|);
      if !final && MustWait(pt, packets[s.bestIdx], cfg.window, r) then Attempt(pt1, None)
      else Attempt(pt1, Some(s.bestIdx))
  }

  /** Packet `i` is the only one the record can be attached to: it is free, and every other free packet scores
      at least six points less. */
  predicate ClearChoice(seen: seq<Sighting>, i: int) {
    && Free(seen, i)
    && forall j | 0 <= j < |seen| && j != i && Free(seen, j) :: seen[i].score - seen[j].score > AMBIGUITY_MARGIN
  }

  /** The points that tell candidates of one record apart. */
  function Points(pkt: WirePacket, pt: PendingPlaintext): int {
    TimeBonus(pkt.stamp, pt.stamp) + PayloadPoints(pkt, pt.data)
  }

  /** The clear choice without scores: a candidate that is not taken, six points or more ahead of every other one. */
  lemma ClearChoiceMeaning(packets: seq<WirePacket>, pt: PendingPlaintext, f: CaptureFilters, i: int)
    ensures var q := Prepared(pt, f);
      ClearChoice(View(packets, pt, f), i) <==>
        && 0 <= i < |packets| && !packets[i].annotated && Candidate(packets[i], q, f)
        && forall j | 0 <= j < |packets| && j != i && !packets[j].annotated && Candidate(packets[j], q, f) ::
             Points(packets[i], q) >= Points(packets[j], q) + 6
  {
    hide Candidate, Score, RecordBase, TimeBonus, PayloadBonus, WirePayloadLen, TextLength;
    var q := Prepared(pt, f);
    forall j | 0 <= j < |packets|
      ensures Free(View(packets, pt, f), j) <==> !packets[j].annotated && Candidate(packets[j], q, f)
      ensures Candidate(packets[j], q, f) ==>
        View(packets, pt, f)[j].score == RecordBase(q.data, f) + Points(packets[j], q)
    {
      ScoreMeaning(packets[j], q, f);
      PayloadInPoints(packets[j], q.data);
    }
  }

  /** When an attempt succeeds, and with which packet; the threshold plays no part in it. */
  lemma AttemptMeaning(packets: seq<WirePacket>, pt: PendingPlaintext, cfg: Settings, final: bool, r: Reading, i: nat)
    ensures var seen := View(packets, pt, cfg.filters);
      TryAnnotate(packets, pt, cfg, final, r).chosen == Some(i) <==>
        && ClearChoice(seen, i)
        && !pt.connectionAmbiguous && !(Partial(pt) && SeesCompetition(seen, |seen|))
        && (final || !MustWait(pt, packets[i], cfg.window, r))
  {
    hide Score, TupleOf, Enrich, MinAnnotationScore;
    var seen := View(packets, pt, cfg.filters);
    var s := ScanUpTo(seen, |seen|);
    ScanFindsBest(seen, |seen|);
    AmbiguousMeaning(seen);
    ScanSeesCompetition(seen, |seen|);
    if s.bestIdx >= 0 {
      CandidatesClearThreshold(packets[s.bestIdx], Prepared(pt, cfg.filters), cfg.filters);
    }
    if ClearChoice(seen, i) {
      assert s.bestIdx >= 0 && s.bestIdx == i;
    }
  }

  /** What an attempt does to the record itself, whatever its outcome. */
  lemma AttemptKeeps(packets: seq<WirePacket>, pt: PendingPlaintext, cfg: Settings, final: bool, r: Reading)
    ensures var a := TryAnnotate(packets, pt, cfg, final, r);
            var seen := View(packets, pt, cfg.filters);
      && a.pt.(data := pt.data, connectionAmbiguous := pt.connectionAmbiguous) == pt
      && a.pt.data == Enrich(pt.data, cfg.filters)
      && (a.pt.connectionAmbiguous <==> pt.connectionAmbiguous || (Partial(pt) && SeesCompetition(seen, |seen|)))
      && (a.chosen.Some? ==> !a.pt.connectionAmbiguous)
  {
    hide Score, TupleOf, Enrich, MinAnnotationScore;
    ScanSeesCompetition(View(packets, pt, cfg.filters), |packets|);
  }

  /** A record with a full tuple never waits and is never marked: at any time, whatever connections are in sight, it is
      annotated on packet `i` exactly when that is the clear choice, unless it came marked. */
  lemma FullTupleNeverWaits(packets: seq<WirePacket>, pt: PendingPlaintext, cfg: Settings, final: bool, r: Reading,
                            i: nat)
    requires HasTuple(pt.original)
    ensures TryAnnotate(packets, pt, cfg, final, r).chosen == Some(i) <==>
              ClearChoice(View(packets, pt, cfg.filters), i) && !pt.connectionAmbiguous
    ensures TryAnnotate(packets, pt, cfg, final, r).pt.connectionAmbiguous == pt.connectionAmbiguous
  {
    hide TryAnnotate, View, TupleOf;
    AttemptMeaning(packets, pt, cfg, final, r, i);
    AttemptKeeps(packets, pt, cfg, final, r);
  }

  /** A partial record is annotated ahead of the final flush only once it or the packet has waited for the window. */
  lemma PartialWaits(packets: seq<WirePacket>, pt: PendingPlaintext, cfg: Settings, r: Reading, i: nat)
    requires Partial(pt) && TryAnnotate(packets, pt, cfg, false, r).chosen == Some(i)
    ensures i < |packets|
    ensures || Sub(r.forRecord, pt.stamp.received) >= cfg.window
            || Sub(r.forPacket, packets[i].stamp.received) >= cfg.window
  {
    hide TryAnnotate, View, TupleOf;
    AttemptMeaning(packets, pt, cfg, false, r, i);
    assert Free(View(packets, pt, cfg.filters), i);
  }
}
