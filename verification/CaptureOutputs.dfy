/** The two files a capture leaves behind: the packets with their ids, and the lines of the plaintext log. */
module CaptureOutputs {
  import opened Records
  import opened Timing
  import opened Filters
  import opened Scoring
  import opened Matching
  import opened Exports
  import opened Sequences
  import opened Protocol
  import opened Conservation
  import opened Runs
  import opened Correlation
  import opened Capture

  function Final(cfg: Settings, inputs: seq<Input>): State {
    Run(Greedy(cfg), cfg.window, Steps(inputs))
  }

  /** All lines of the plaintext log: those written at once and those that went through the buffer, the latter apart
      from their display text. */
  function Lines(cfg: Settings, inputs: seq<Input>): seq<GenericMap> {
    DirectLines(inputs) + Map(Final(cfg, inputs).exports, Line)
  }

  function AnyPacket(): OfPacket {
    (p: WirePacket) => true
  }

  function Shows(id: nat): GenericMap -> bool {
    (line: GenericMap) => Field(line, "PacketID") == U64(id)
  }

  function ShowsAnnotated(id: nat): GenericMap -> bool {
    (line: GenericMap) => Field(line, "PacketID") == U64(id) && Field(line, "PcapAnnotated") == Bool(true)
  }

  function IsID(id: nat): nat -> bool {
    (n: nat) => n == id
  }

  predicate EndsStopped(inputs: seq<Input>) {
    inputs != [] && inputs[|inputs|-1].Stopped?
  }

  // ---------------------------------------------------------------------------------------------
  // Steps of the buffer come from the collector

  /** A record handed to the buffer is verified and carries its id. */
  predicate FromCollector(step: Step) {
    && step.WellFormed()
    && (step.Event? ==> TupleVerified(step.pt.original) && Field(step.pt.original, "PacketID") == U64(step.pt.id))
  }

  lemma TaggedShowsID(fields: GenericMap, id: nat, display: string)
    ensures Field(Tagged(fields, id, display), "PacketID") == U64(id)
  {
  }

  lemma {:induction false} StepsFromCollector(inputs: seq<Input>)
    ensures forall i | 0 <= i < |Steps(inputs)| :: FromCollector(Steps(inputs)[i])
  {
    if inputs != [] {
      hide TupleVerified, Tagged, CaptureTime;
      var init, last := inputs[..|inputs|-1], inputs[|inputs|-1];
      StepsFromCollector(init);
      if last.Plaintext() {
        TaggedShowsID(last.fields, NextID(PlaintextCount(init)), last.display);
      }
    }
  }

  lemma StepsWellFormed(inputs: seq<Input>)
    ensures WellFormed(Steps(inputs))
  {
    StepsFromCollector(inputs);
    forall i | 0 <= i < |Steps(inputs)| ensures Steps(inputs)[i].WellFormed() {
      assert FromCollector(Steps(inputs)[i]);
    }
  }

  lemma StoppedIsClosed(inputs: seq<Input>)
    requires EndsStopped(inputs)
    ensures Closed(Steps(inputs))
  {
  }

  /** Every record that left the buffer is one the collector handed to it. */
  lemma ExportsFromCollector(cfg: Settings, inputs: seq<Input>, e: Export)
    requires e in Final(cfg, inputs).exports
    ensures TupleVerified(e.pt.original) && Field(e.pt.original, "PacketID") == U64(e.pt.id)
  {
    hide Run, Greedy, Steps, TupleVerified;
    StepsWellFormed(inputs);
    ExportArrived(Greedy(cfg), cfg.window, Steps(inputs), e);
    var step :| step in Steps(inputs) && step.Event? && step.pt == Fresh(e.pt);
    StepsFromCollector(inputs);
    assert FromCollector(step);
  }

  // ---------------------------------------------------------------------------------------------
  // Where a record goes

  /** The plaintext record of input `i` as it is tagged with its id. */
  function TaggedInput(inputs: seq<Input>, i: nat): GenericMap
    requires i < |inputs| && inputs[i].Received?
  {
    Tagged(inputs[i].fields, NextID(PlaintextCount(inputs[..i])), inputs[i].display)
  }

  /** The record is plaintext, and its tuple was taken from the socket. */
  predicate FromSocket(inputs: seq<Input>, i: nat) {
    && i < |inputs| && inputs[i].Received? && Field(inputs[i].fields, "RecordType") == Text("plaintext")
    && Field(inputs[i].fields, "TupleSource") == Text("kernel") && TupleOf(inputs[i].fields).Some?
  }

  /** A record is tagged with its id and its display text, and otherwise as it was received. */
  lemma TaggedKeeps(fields: GenericMap, id: nat, display: string)
    ensures Field(Tagged(fields, id, display), "PacketID") == U64(id)
    ensures display != "" ==> Field(Tagged(fields, id, display), "PlaintextDisplay") == Text(display)
    ensures Field(Tagged(fields, id, display), "TupleSource") == Field(fields, "TupleSource")
    ensures TupleOf(Tagged(fields, id, display)) == TupleOf(fields)
    ensures forall k :: k !in {"PacketID", "PlaintextDisplay"} ==>
      Field(Tagged(fields, id, display), k) == Field(fields, k)
  {
    TupleFromFields(Tagged(fields, id, display), fields);
  }

  /** A record from the socket is handed to the buffer, once, as it is tagged, and writes no line at once; any other
      plaintext record writes its line at once and does not reach the buffer. */
  lemma RecordsAreRouted(inputs: seq<Input>, i: nat)
    requires i < |inputs| && inputs[i].Received? && Field(inputs[i].fields, "RecordType") == Text("plaintext")
    ensures var steps, lines := StepsOf(PlaintextCount(inputs[..i]), inputs[i]),
                                LinesOf(PlaintextCount(inputs[..i]), inputs[i]);
      if FromSocket(inputs, i) then
        && lines == [] && |steps| == 1 && steps[0].Event?
        && steps[0].pt == PendingPlaintext(
             Stamp(inputs[i].now, CaptureTime(inputs[i].fields)), TaggedInput(inputs, i), TaggedInput(inputs, i),
             NextID(PlaintextCount(inputs[..i])), false)
      else steps == [] && lines == [UnverifiedRecord(TaggedInput(inputs, i))]
  {
    hide UnverifiedRecord, Tagged, PlaintextCount, TupleOf;
    var m := TaggedInput(inputs, i);
    TaggedKeeps(inputs[i].fields, NextID(PlaintextCount(inputs[..i])), inputs[i].display);
    assert CaptureTime(m) == CaptureTime(inputs[i].fields) by {
      assert Field(m, "TimeFlowStartMs") == Field(inputs[i].fields, "TimeFlowStartMs");
      assert Field(m, "Time") == Field(inputs[i].fields, "Time");
    }
  }

  lemma {:induction false} StepsContain(inputs: seq<Input>, i: nat, step: Step)
    requires i < |inputs| && step in StepsOf(PlaintextCount(inputs[..i]), inputs[i])
    ensures step in Steps(inputs)
  {
    hide StepsOf, PlaintextCount;
    var init := inputs[..|inputs|-1];
    if i < |init| {
      assert init[..i] == inputs[..i];
      StepsContain(init, i, step);
    } else {
      assert inputs[..i] == init;
    }
  }

  /** Every record from the socket leaves through the buffer: after the end of the capture it is exported, as it was
      tagged, exactly as often as it was received. */
  lemma SocketRecordsLeaveByBuffer(cfg: Settings, inputs: seq<Input>, i: nat)
    requires EndsStopped(inputs) && FromSocket(inputs, i)
    ensures exists e | e in Final(cfg, inputs).exports ::
      e.pt.original == TaggedInput(inputs, i) && e.pt.id == NextID(PlaintextCount(inputs[..i]))
      && Line(e) in Lines(cfg, inputs)
  {
    hide Run, Greedy, Steps, DirectLines, Line, Count, TupleOf, PlaintextCount, StepsOf, LinesOf, Tagged;
    RecordsAreRouted(inputs, i);
    var step := StepsOf(PlaintextCount(inputs[..i]), inputs[i])[0];
    var id := step.pt.id;
    StepsContain(inputs, i, step);
    StoppedIsClosed(inputs);
    var same := (pt: PendingPlaintext) => pt == step.pt;
    EveryRecordReported(Greedy(cfg), cfg.window, Steps(inputs), id, same);
    assert Fresh(step.pt) == step.pt;
    assert HandsInOne(id, same)(step);
    CountNone(Steps(inputs), HandsInOne(id, same));
    CountNone(Final(cfg, inputs).exports, Reports(id, same));
    var e :| e in Final(cfg, inputs).exports && Reports(id, same)(e);
    var k :| 0 <= k < |Final(cfg, inputs).exports| && Final(cfg, inputs).exports[k] == e;
    assert Map(Final(cfg, inputs).exports, Line)[k] == Line(e);
    assert Fresh(e.pt) == step.pt && e.pt.original == step.pt.original;
    assert Line(e) in Lines(cfg, inputs);
  }

  // ---------------------------------------------------------------------------------------------
  // One line per record

  lemma AssignedSnoc(inputs: seq<Input>, id: nat)
    requires inputs != []
    ensures var init, last := inputs[..|inputs|-1], inputs[|inputs|-1];
      Count(AssignedIDs(inputs), IsID(id)) ==
        Count(AssignedIDs(init), IsID(id)) + if last.Plaintext() && NextID(PlaintextCount(init)) == id then 1 else 0
  {
    var init, last := inputs[..|inputs|-1], inputs[|inputs|-1];
    var n := PlaintextCount(init);
    if last.Plaintext() {
      assert AssignedIDs(inputs) == AssignedIDs(init) + [NextID(n)];
      CountSnoc(AssignedIDs(init), NextID(n), IsID(id));
    }
  }

  lemma StepOrLine(count: nat, input: Input, id: nat)
    ensures Count(StepsOf(count, input), HandsInOne(id, AnyRecord())) + Count(LinesOf(count, input), Shows(id))
         == if input.Plaintext() && NextID(count) == id then 1 else 0
  {
    hide TupleVerified, Tagged, CaptureTime, UnverifiedRecord;
    var steps, lines := StepsOf(count, input), LinesOf(count, input);
    CountNone(steps, HandsInOne(id, AnyRecord()));
    CountNone(lines, Shows(id));
    if |steps| == 1 {
      assert steps == [] + steps;
      CountSnoc([], steps[0], HandsInOne(id, AnyRecord()));
    }
    if input.Plaintext() {
      TaggedShowsID(input.fields, NextID(count), input.display);
      UnmatchedKeepsIdentity(Tagged(input.fields, NextID(count), input.display));
      if |lines| == 1 {
        assert lines == [] + lines;
        CountSnoc([], lines[0], Shows(id));
      }
    }
  }

  lemma {:induction false} IDsAreUsed(inputs: seq<Input>, id: nat)
    ensures Count(Steps(inputs), HandsInOne(id, AnyRecord())) + Count(DirectLines(inputs), Shows(id))
         == Count(AssignedIDs(inputs), IsID(id))
  {
    if inputs != [] {
      hide StepsOf, LinesOf, AssignedIDs, Count, PlaintextCount;
      var init, last := inputs[..|inputs|-1], inputs[|inputs|-1];
      IDsAreUsed(init, id);
      AssignedSnoc(inputs, id);
      StepOrLine(PlaintextCount(init), last, id);
      CountConcat(Steps(init), StepsOf(PlaintextCount(init), last), HandsInOne(id, AnyRecord()));
      CountConcat(DirectLines(init), LinesOf(PlaintextCount(init), last), Shows(id));
    } else {
      assert AssignedIDs(inputs) == [];
    }
  }

  /** After the end of a capture, every id given to a plaintext record is on exactly as many lines of the log as it
      was given out, verified or not, annotated or not. */
  lemma OneLinePerRecord(cfg: Settings, inputs: seq<Input>, id: nat)
    requires EndsStopped(inputs)
    ensures Count(Lines(cfg, inputs), Shows(id)) == Count(AssignedIDs(inputs), IsID(id))
  {
    hide Run, Greedy, Steps, DirectLines, Line, AssignedIDs, Count;
    var s := Final(cfg, inputs);
    StoppedIsClosed(inputs);
    IDsAreUsed(inputs, id);
    EveryRecordReported(Greedy(cfg), cfg.window, Steps(inputs), id, AnyRecord());
    forall e | e in s.exports ensures Shows(id)(Line(e)) == Reports(id, AnyRecord())(e) {
      ExportsFromCollector(cfg, inputs, e);
      LineShowsID(cfg, inputs, e);
    }
    CountMap(s.exports, Line, Shows(id), Reports(id, AnyRecord()));
    CountConcat(DirectLines(inputs), Map(s.exports, Line), Shows(id));
  }

  lemma LineShowsID(cfg: Settings, inputs: seq<Input>, e: Export)
    requires e in Final(cfg, inputs).exports
    ensures Field(Line(e), "PacketID") == U64(e.pt.id)
    ensures Field(Line(e), "PcapAnnotated") == Bool(e.outcome.Annotated?)
  {
    hide Run, Greedy, Steps, AnnotatedRecord, UnmatchedRecord, Enrich, Candidate;
    ExportsFromCollector(cfg, inputs, e);
    if e.outcome.Annotated? {
      StepsWellFormed(inputs);
      AnnotatedIsCandidate(cfg, Steps(inputs), e);
      EnrichKeepsKnown(e.pt.original, cfg.filters);
      AnnotatedKeepsIdentity(e.pt.data, e.outcome.packet.fields);
    } else {
      UnmatchedKeepsIdentity(e.pt.original);
    }
  }

  // ---------------------------------------------------------------------------------------------
  // Ids are distinct as long as the counter has not wrapped around

  lemma IDsDistinct(inputs: seq<Input>, i: nat, j: nat)
    requires i < j < |AssignedIDs(inputs)| <= ID_LIMIT
    ensures AssignedIDs(inputs)[i] != AssignedIDs(inputs)[j]
  {
  }

  lemma {:induction false} DistinctCount(ids: seq<nat>, id: nat)
    requires forall i, j | 0 <= i < j < |ids| :: ids[i] != ids[j]
    ensures Count(ids, IsID(id)) == if id in ids then 1 else 0
  {
    if ids != [] {
      var init, last := ids[..|ids|-1], ids[|ids|-1];
      DistinctCount(init, id);
      assert ids == init + [last];
      if last == id {
        assert forall i | 0 <= i < |init| :: ids[i] != ids[|ids|-1];
      }
    }
  }

  lemma AssignedOnce(inputs: seq<Input>, id: nat)
    requires PlaintextCount(inputs) <= ID_LIMIT
    ensures Count(AssignedIDs(inputs), IsID(id)) == if id in AssignedIDs(inputs) then 1 else 0
  {
    hide PlaintextCount;
    var ids := AssignedIDs(inputs);
    forall i, j | 0 <= i < j < |ids| ensures ids[i] != ids[j] {
      IDsDistinct(inputs, i, j);
    }
    DistinctCount(ids, id);
  }

  // ---------------------------------------------------------------------------------------------
  // The files agree

  /** After the end of a capture, the packets written with an id are as many as the log's lines that show the id and
      say a packet carries it. */
  lemma FilesAgree(cfg: Settings, inputs: seq<Input>, id: nat)
    requires EndsStopped(inputs)
    ensures Count(Final(cfg, inputs).pcap, Carries(id, AnyPacket())) == Count(Lines(cfg, inputs), ShowsAnnotated(id))
  {
    hide Run, Greedy, Steps, DirectLines, Line, Count;
    var s := Final(cfg, inputs);
    StoppedIsClosed(inputs);
    StepsWellFormed(inputs);
    OutputsAgree(Greedy(cfg), cfg.window, Steps(inputs), id, AnyPacket());
    forall e | e in s.exports ensures ShowsAnnotated(id)(Line(e)) == Claims(id, AnyPacket())(e) {
      LineShowsID(cfg, inputs, e);
    }
    CountMap(s.exports, Line, ShowsAnnotated(id), Claims(id, AnyPacket()));
    CountConcat(DirectLines(inputs), Map(s.exports, Line), ShowsAnnotated(id));
    DirectLinesUnannotated(inputs);
    CountNone(DirectLines(inputs), ShowsAnnotated(id));
  }

  lemma {:induction false} DirectLinesUnannotated(inputs: seq<Input>)
    ensures forall line | line in DirectLines(inputs) :: Field(line, "PcapAnnotated") == Bool(false)
  {
    if inputs != [] {
      hide TupleVerified, Tagged, UnverifiedRecord;
      var init, last := inputs[..|inputs|-1], inputs[|inputs|-1];
      DirectLinesUnannotated(init);
      if last.Plaintext() {
        UnmatchedKeepsIdentity(Tagged(last.fields, NextID(PlaintextCount(init)), last.display));
      }
    }
  }

  /** Each id appears on at most one packet, and it does exactly when it appears on one annotated line. */
  lemma EachIDOnce(cfg: Settings, inputs: seq<Input>, id: nat)
    requires EndsStopped(inputs) && PlaintextCount(inputs) <= ID_LIMIT
    ensures Count(Lines(cfg, inputs), Shows(id)) == if id in AssignedIDs(inputs) then 1 else 0
    ensures Count(Final(cfg, inputs).pcap, Carries(id, AnyPacket()))
         == Count(Lines(cfg, inputs), ShowsAnnotated(id)) <= 1
  {
    hide Run, Greedy, Steps, DirectLines, Line, AssignedIDs, PlaintextCount, Lines, Final;
    OneLinePerRecord(cfg, inputs, id);
    AssignedOnce(inputs, id);
    FilesAgree(cfg, inputs, id);
    CountWeaker(Lines(cfg, inputs), ShowsAnnotated(id), Shows(id));
  }

  lemma {:induction false} CountWeaker<T>(xs: seq<T>, f: T -> bool, g: T -> bool)
    requires forall x | x in xs && f(x) :: g(x)
    ensures Count(xs, f) <= Count(xs, g)
  {
    if xs != [] {
      CountWeaker(xs[..|xs|-1], f, g);
      assert xs[|xs|-1] in xs;
    }
  }

  /** A packet in the file that carries an id is a packet of the connection, and of the direction, that the line with
      that id shows; the line's tuple is the one the agent took from the socket, in network direction; and the packet
      is a candidate for the record. */
  lemma PacketAndLineShowOneTuple(cfg: Settings, inputs: seq<Input>, pkt: WirePacket)
    requires EndsStopped(inputs)
    requires pkt in Final(cfg, inputs).pcap && pkt.packetID.Some?
    ensures exists e | e in Final(cfg, inputs).exports ::
      && Line(e) in Lines(cfg, inputs)
      && ShowsAnnotated(pkt.packetID.value)(Line(e))
      && TupleOf(Line(e)) == TupleOf(pkt.fields) == NetworkTuple(e.pt.original)
      && e.outcome.Annotated? && Plain()(e.outcome.packet) == Plain()(pkt)
      && Candidate(e.outcome.packet, e.pt, cfg.filters)
  {
    hide Run, Greedy, Steps, DirectLines, Line, Count, TupleOf, NetworkTuple, Candidate;
    var s, id := Final(cfg, inputs), pkt.packetID.value;
    var same := (p: WirePacket) => p == Plain()(pkt);
    StoppedIsClosed(inputs);
    StepsWellFormed(inputs);
    OutputsAgree(Greedy(cfg), cfg.window, Steps(inputs), id, same);
    CountNone(s.pcap, Carries(id, same));
    assert Carries(id, same)(pkt);
    CountNone(s.exports, Claims(id, same));
    var e :| e in s.exports && Claims(id, same)(e);
    LineShowsID(cfg, inputs, e);
    ExportsFromCollector(cfg, inputs, e);
    AnnotatedIsCandidate(cfg, Steps(inputs), e);
    FullTupleOwnConnection(cfg, Steps(inputs), e);
    VerifiedLineShowsNetworkTuple(cfg, Steps(inputs), e);
    var k :| 0 <= k < |s.exports| && s.exports[k] == e;
    assert Map(s.exports, Line)[k] == Line(e);
  }

  // ---------------------------------------------------------------------------------------------
  // The packet file

  /** The frame an input brings: a record that is no plaintext, with data that decodes. */
  function FrameOf(input: Input): seq<WirePacket> {
    if input.Received? && Field(input.fields, "RecordType") != Text("plaintext") && "Data" in input.fields
       && input.fields["Data"].Text? && DecodeBase64(input.fields["Data"].text).Some?
    then [WirePacket(Stamp(input.now, CaptureTime(input.fields)), input.fields,
                     DecodeBase64(input.fields["Data"].text).value, None, false)]
    else []
  }

  /** The frames a capture accepted, in order. */
  function Accepted(inputs: seq<Input>): seq<WirePacket> {
    if inputs == [] then [] else Accepted(inputs[..|inputs|-1]) + FrameOf(inputs[|inputs|-1])
  }

  lemma {:induction false} ArrivalsConcat(first: seq<Step>, second: seq<Step>)
    ensures Arrivals(first + second) == Arrivals(first) + Arrivals(second)
  {
    if second == [] {
      assert first + second == first;
    } else {
      ArrivalsConcat(first, second[..|second|-1]);
      assert (first + second)[..|first + second|-1] == first + second[..|second|-1];
    }
  }

  lemma StepsBring(count: nat, input: Input)
    ensures Arrivals(StepsOf(count, input)) == FrameOf(input)
  {
    hide TupleVerified, Tagged, CaptureTime;
    var steps := StepsOf(count, input);
    if |steps| == 1 {
      assert steps[..0] == [];
      assert Arrivals(steps) == Arrivals(steps[..0]) + if steps[0].Wire? then [steps[0].pkt] else [];
    }
  }

  lemma {:induction false} AcceptedArrive(inputs: seq<Input>)
    ensures Arrivals(Steps(inputs)) == Accepted(inputs)
  {
    if inputs != [] {
      hide StepsOf, FrameOf, Arrivals, PlaintextCount;
      var init, last := inputs[..|inputs|-1], inputs[|inputs|-1];
      AcceptedArrive(init);
      StepsBring(PlaintextCount(init), last);
      ArrivalsConcat(Steps(init), StepsOf(PlaintextCount(init), last));
    } else {
      assert Arrivals([]) == [];
    }
  }

  /** With receive times that never go back, the packet file holds every accepted frame once, in order. */
  lemma PacketFileInOrder(cfg: Settings, inputs: seq<Input>)
    requires EndsStopped(inputs) && SortedBy(Accepted(inputs), Conservation.Received())
    ensures Map(Final(cfg, inputs).pcap, Plain()) == Accepted(inputs)
  {
    hide Run, Greedy, Steps, Accepted, Arrivals;
    StoppedIsClosed(inputs);
    StepsWellFormed(inputs);
    AcceptedArrive(inputs);
    PacketFileIsComplete(Greedy(cfg), cfg.window, Steps(inputs));
  }

  // ---------------------------------------------------------------------------------------------
  // The collector's own files

  /** The display text is beside the point for what a line says of ids. */
  lemma BareShows(line: GenericMap, id: nat)
    ensures Shows(id)(Bare(line)) == Shows(id)(line)
    ensures ShowsAnnotated(id)(Bare(line)) == ShowsAnnotated(id)(line)
  {
    BareField(line, "PacketID");
    BareField(line, "PcapAnnotated");
  }

  lemma CollectorLines(c: PacketCollector, id: nat)
    requires c.Valid()
    ensures c.buf.pcap == Final(c.buf.cfg, c.inputs).pcap
    ensures Count(c.direct + c.buf.lines, Shows(id)) == Count(Lines(c.buf.cfg, c.inputs), Shows(id))
    ensures Count(c.direct + c.buf.lines, ShowsAnnotated(id)) == Count(Lines(c.buf.cfg, c.inputs), ShowsAnnotated(id))
  {
    hide Run, Greedy, Steps, DirectLines, Line, Bare, Map, Count, PlaintextCount, Shows, ShowsAnnotated;
    var exports := Final(c.buf.cfg, c.inputs).exports;
    forall line ensures Shows(id)(Bare(line)) == Shows(id)(line)
                     && ShowsAnnotated(id)(Bare(line)) == ShowsAnnotated(id)(line) {
      BareShows(line, id);
    }
    CountMap(c.buf.lines, Bare, Shows(id), Shows(id));
    CountMap(c.buf.lines, Bare, ShowsAnnotated(id), ShowsAnnotated(id));
    CountConcat(c.direct, c.buf.lines, Shows(id));
    CountConcat(c.direct, c.buf.lines, ShowsAnnotated(id));
    CountConcat(c.direct, Map(exports, Line), Shows(id));
    CountConcat(c.direct, Map(exports, Line), ShowsAnnotated(id));
  }

  /** The files the collector object itself has written once it is stopped, display texts included: every id is on as
      many lines as it was given out, on as many packets as lines that claim one, and on no more than one of either
      before the counter wraps around. */
  lemma CollectorFilesAgree(c: PacketCollector, id: nat)
    requires c.Valid() && EndsStopped(c.inputs)
    ensures Count(c.direct + c.buf.lines, Shows(id)) == Count(AssignedIDs(c.inputs), IsID(id))
    ensures Count(c.buf.pcap, Carries(id, AnyPacket())) == Count(c.direct + c.buf.lines, ShowsAnnotated(id))
    ensures PlaintextCount(c.inputs) <= ID_LIMIT ==>
      && Count(c.direct + c.buf.lines, Shows(id)) == (if id in AssignedIDs(c.inputs) then 1 else 0)
      && Count(c.buf.pcap, Carries(id, AnyPacket())) <= 1
  {
    hide Run, Greedy, Steps, DirectLines, Line, Count, AssignedIDs, PlaintextCount, Lines, Final;
    CollectorLines(c, id);
    OneLinePerRecord(c.buf.cfg, c.inputs, id);
    FilesAgree(c.buf.cfg, c.inputs, id);
    if PlaintextCount(c.inputs) <= ID_LIMIT {
      EachIDOnce(c.buf.cfg, c.inputs, id);
    }
  }
}
