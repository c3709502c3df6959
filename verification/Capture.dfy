/** The packet collector's routing: ids for plaintext records, the buffer for verified ones, the log for the rest. */
module Capture {
  import opened Records
  import opened Timing
  import opened Filters
  import opened Matching
  import opened Exports
  import opened Sequences
  import opened Protocol
  import opened Correlation
  import opened WireBuffer

  const ID_LIMIT: nat := 0x1_0000_0000_0000_0000

  /** What the collector, the buffer's ticker and the end of the capture do, in the order it happens.  A plaintext
      record comes with the display text computed for it on arrival. */
  datatype Input =
    | Received(fields: GenericMap, now: int, clock: Clock, display: string)
    | Ticked(now: int, clock: Clock)
    | Stopped(clock: Clock)
  {
    predicate Plaintext() {
      Received? && IsPlaintext(fields)
    }
  }

  // ---------------------------------------------------------------------------------------------
  // What each input amounts to

  function Tagged(fields: GenericMap, id: nat, display: string): GenericMap {
    EnrichForExport(fields["PacketID" := U64(id)], display)
  }

  function NextID(count: nat): nat {
    (count + 1) % ID_LIMIT
  }

  function PlaintextCount(inputs: seq<Input>): nat {
    Count(inputs, (i: Input) => i.Plaintext())
  }

  /** The id given to the k-th plaintext record, counting from 0. */
  function AssignedIDs(inputs: seq<Input>): seq<nat> {
    Map(Numbers(PlaintextCount(inputs)), NextID)
  }

  function Numbers(n: nat): (r: seq<nat>)
    ensures |r| == n && forall i | 0 <= i < n :: r[i] == i
  {
    seq(n, i requires 0 <= i < n => i)
  }

  /** The frame of a wire record, when it has one that decodes. */
  function Frame(fields: GenericMap): Option<Bytes> {
    var data := Field(fields, "Data");
    if data.Text? then DecodeBase64(data.text) else None
  }

  /** The step of the buffer an input causes, if any, when `count` plaintext records came before it. */
  function StepsOf(count: nat, input: Input): seq<Step> {
    match input
    case Received(fields, now, clock, display) =>
      if IsPlaintext(fields) then
        var m := Tagged(fields, NextID(count), display);
        if TupleVerified(m) then [Event(NewPending(now, m, CaptureTime(m), NextID(count)), clock)] else []
      else if Frame(fields).Some? then [Wire(NewPacket(now, fields, CaptureTime(fields), Frame(fields).value), clock)]
      else []
    case Ticked(now, clock) => [Tick(now, clock)]
    case Stopped(clock) => [Protocol.Close(clock)]
  }

  /** The line an input writes at once, if any. */
  function LinesOf(count: nat, input: Input): seq<GenericMap> {
    if input.Plaintext() && !TupleVerified(Tagged(input.fields, NextID(count), input.display))
    then [UnverifiedRecord(Tagged(input.fields, NextID(count), input.display))] else []
  }

  function Steps(inputs: seq<Input>): seq<Step> {
    if inputs == [] then []
    else
      var init := inputs[..|inputs|-1];
      Steps(init) + StepsOf(PlaintextCount(init), inputs[|inputs|-1])
  }

  function DirectLines(inputs: seq<Input>): seq<GenericMap> {
    if inputs == [] then []
    else
      var init := inputs[..|inputs|-1];
      DirectLines(init) + LinesOf(PlaintextCount(init), inputs[|inputs|-1])
  }

  lemma InputsSnoc(inputs: seq<Input>, input: Input)
    ensures Steps(inputs + [input]) == Steps(inputs) + StepsOf(PlaintextCount(inputs), input)
    ensures DirectLines(inputs + [input]) == DirectLines(inputs) + LinesOf(PlaintextCount(inputs), input)
    ensures PlaintextCount(inputs + [input]) == PlaintextCount(inputs) + if input.Plaintext() then 1 else 0
  {
    hide StepsOf, LinesOf;
    assert (inputs + [input])[..|inputs|] == inputs;
  }

  lemma RunSnoc(cfg: Settings, steps: seq<Step>, step: Step)
    ensures Run(Greedy(cfg), cfg.window, steps + [step])
         == Apply(Greedy(cfg), cfg.window, Run(Greedy(cfg), cfg.window, steps), step)
  {
    hide Apply, Greedy;
    assert (steps + [step])[..|steps|] == steps;
  }

  // ---------------------------------------------------------------------------------------------
  // The collector

  class PacketCollector {
    const buf: WirePacketBuffer
    var plaintextPacketID: nat
    var direct: seq<GenericMap>
    ghost var inputs: seq<Input>

    /** The collector is where its inputs take it. */
    ghost predicate Valid()
      reads this, buf, buf.packets, buf.pending
    {
      && buf.Valid()
      && plaintextPacketID == PlaintextCount(inputs) % ID_LIMIT
      && direct == DirectLines(inputs)
      && buf.Abstract() == Run(Greedy(buf.cfg), buf.cfg.window, Steps(inputs))
    }

    constructor (window: Duration, filters: CaptureFilters)
      ensures Valid() && fresh(buf) && fresh(buf.packets) && fresh(buf.pending)
      ensures inputs == []
    {
      buf := new WirePacketBuffer(window, filters);
      plaintextPacketID := 0;
      direct := [];
      inputs := [];
    }

    method AssignPlaintextPacketID(m: GenericMap) returns (r: GenericMap, id: nat)
      modifies this`plaintextPacketID
      ensures id == (old(plaintextPacketID) + 1) % ID_LIMIT && plaintextPacketID == id
      ensures r == m["PacketID" := U64(id)]
    {
      plaintextPacketID := (plaintextPacketID + 1) % ID_LIMIT;
      id := plaintextPacketID;
      r := m["PacketID" := U64(id)];
    }

    method HandlePlaintextRecord(fields: GenericMap, now: int, clock: Clock) returns (ghost display: string)
      requires Valid() && IsPlaintext(fields)
      modifies this, buf, buf.packets, buf.pending
      ensures Valid() && inputs == old(inputs) + [Received(fields, now, clock, display)]
      ensures plaintextPacketID == (old(plaintextPacketID) + 1) % ID_LIMIT
      ensures var m := EnrichForExport(fields["PacketID" := U64(plaintextPacketID)], display);
        if Field(m, "TupleSource") == Text("kernel") && TupleOf(m).Some? then
          && direct == old(direct)
          && buf.Abstract() == Protocol.HandlePlaintext(
               Greedy(buf.cfg), old(buf.Abstract()),
               NewPending(now, m, CaptureTime(m), plaintextPacketID), buf.cfg.window, clock)
        else direct == old(direct) + [UnverifiedRecord(m)] && buf.Abstract() == old(buf.Abstract())
      ensures buf.packets == old(buf.packets) && (buf.pending == old(buf.pending) || fresh(buf.pending))
    {
      hide Run, Greedy, EnrichForExport, TupleOf, PrepareUnmatched, Protocol.HandlePlaintext, CaptureTime,
           Steps, DirectLines, PlaintextCount, IsPlaintext, Line, Map;
      var m, id := AssignPlaintextPacketID(fields);
      m, display := EnrichPlaintextForExport(m);
      ghost var input := Received(fields, now, clock, display);
      InputsSnoc(inputs, input);
      ghost var before, lines := Steps(inputs), DirectLines(inputs);
      assert before + [] == before && lines + [] == lines;
      inputs := inputs + [input];
      if TupleVerified(m) {
        RunSnoc(buf.cfg, before, Event(NewPending(now, m, CaptureTime(m), id), clock));
        buf.HandlePlaintext(m, id, now, clock);
        return;
      }
      var rec := PrepareUnmatchedPlaintext(m);
      rec := rec["PcapAnnotated" := Bool(false)];
      direct := direct + [rec];
    }

    method HandleWirePacket(fields: GenericMap, now: int, clock: Clock)
      requires Valid() && !IsPlaintext(fields)
      requires "Data" in fields ==> fields["Data"].Text?
      modifies this, buf, buf.packets, buf.pending
      ensures Valid() && inputs == old(inputs) + [Received(fields, now, clock, "")]
      ensures direct == old(direct) && plaintextPacketID == old(plaintextPacketID)
      ensures buf.Abstract() ==
        if "Data" in fields && DecodeBase64(fields["Data"].text).Some? then
          Protocol.Enqueue(
            Greedy(buf.cfg), old(buf.Abstract()),
            NewPacket(now, fields, CaptureTime(fields), DecodeBase64(fields["Data"].text).value), buf.cfg.window, clock)
        else old(buf.Abstract())
      ensures buf.pending == old(buf.pending) && (buf.packets == old(buf.packets) || fresh(buf.packets))
    {
      hide Run, Greedy, Protocol.Enqueue, CaptureTime, Steps, DirectLines, PlaintextCount, IsPlaintext, Line, Map;
      ghost var input := Received(fields, now, clock, "");
      InputsSnoc(inputs, input);
      ghost var before, lines := Steps(inputs), DirectLines(inputs);
      assert before + [] == before && lines + [] == lines;
      inputs := inputs + [input];
      if "Data" !in fields {
        return;
      }
      var ok := buf.Enqueue(fields, fields["Data"].text, now, clock);
      if ok {
        RunSnoc(buf.cfg, before, Wire(NewPacket(now, fields, CaptureTime(fields), Frame(fields).value), clock));
      }
    }

    method Flush(now: int, clock: Clock)
      requires Valid()
      modifies this, buf, buf.packets, buf.pending
      ensures Valid() && inputs == old(inputs) + [Ticked(now, clock)]
      ensures direct == old(direct) && plaintextPacketID == old(plaintextPacketID)
      ensures buf.Abstract() == Protocol.FlushExpired(Greedy(buf.cfg), old(buf.Abstract()), now, buf.cfg.window, clock)
      ensures buf.pending == old(buf.pending) && buf.packets == old(buf.packets)
    {
      hide Run, Greedy, Protocol.FlushExpired, Steps, DirectLines, PlaintextCount, Line, Map;
      assert DirectLines(inputs) + [] == DirectLines(inputs);
      InputsSnoc(inputs, Ticked(now, clock));
      RunSnoc(buf.cfg, Steps(inputs), Tick(now, clock));
      inputs := inputs + [Ticked(now, clock)];
      buf.FlushExpired(now, clock);
    }

    method Stop(clock: Clock)
      requires Valid()
      modifies this, buf, buf.packets, buf.pending
      ensures Valid() && inputs == old(inputs) + [Stopped(clock)]
      ensures direct == old(direct) && plaintextPacketID == old(plaintextPacketID)
      ensures buf.Abstract() == FlushAll(Greedy(buf.cfg), old(buf.Abstract()), clock)
      ensures buf.pending == old(buf.pending) && buf.packets == old(buf.packets)
    {
      hide Run, Greedy, FlushAll, Steps, DirectLines, PlaintextCount, Line, Map;
      assert DirectLines(inputs) + [] == DirectLines(inputs);
      InputsSnoc(inputs, Stopped(clock));
      RunSnoc(buf.cfg, Steps(inputs), Protocol.Close(clock));
      inputs := inputs + [Stopped(clock)];
      buf.Close(clock);
    }
  }
}
