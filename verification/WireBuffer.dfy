/** The correlation buffer itself: two slices compacted in place, an output for packets and one for records. */
module WireBuffer {
  import opened Records
  import opened Timing
  import opened Filters
  import opened Scoring
  import opened Matching
  import opened Exports
  import opened Sequences
  import opened Protocol
  import opened Correlation

  class WirePacketBuffer {
    const cfg: Settings

    // Buffered packets are packets[lo..hi]; pending records are pending[..count].
    var packets: array<WirePacket>
    var lo: nat
    var hi: nat
    var pending: array<PendingPlaintext>
    var count: nat

    // What has been written: packets to the capture file, records to the plaintext log.
    var pcap: seq<WirePacket>
    var lines: seq<GenericMap>
    ghost var exports: seq<Export>

    ghost predicate Valid()
      reads this
    {
      && lo <= hi <= packets.Length
      && count <= pending.Length
      && cfg.window > 0
      && Logged()
    }

    /** The log holds the lines of the exported records, each with some display text. */
    ghost predicate Logged()
      reads this
    {
      Map(lines, Bare) == Map(exports, Line)
    }

    ghost function Abstract(): State
      reads this, packets, pending
      requires Valid()
    {
      State(packets[lo..hi], pending[..count], pcap, exports)
    }

    constructor (window: Duration, filters: CaptureFilters)
      ensures Valid() && fresh(packets) && fresh(pending)
      ensures Abstract() == EMPTY
      ensures cfg == Settings(if window <= 0 then CORRELATION_WINDOW else window, filters)
    {
      cfg := Settings(if window <= 0 then CORRELATION_WINDOW else window, filters);
      packets, lo, hi := new WirePacket[16], 0, 0;
      pending, count := new PendingPlaintext[16], 0;
      pcap, lines, exports := [], [], [];
    }

    // -----------------------------------------------------------------------------------------
    // Outputs

    method WriteBufferedWirePacket(pkt: WirePacket)
      modifies this`pcap
      ensures pcap == old(pcap) + [pkt]
    {
      pcap := pcap + [pkt];
    }

    /** The exporter's callback: adds the display text and writes the line. */
    method FinalizePlaintext(m: GenericMap, ghost e: Export) returns (ghost display: string)
      requires Logged() && Bare(m) == Line(e)
      modifies this`lines, this`exports
      ensures Logged() && exports == old(exports) + [e]
      ensures lines == old(lines) + [EnrichForExport(m, display)]
    {
      hide Line, Bare, EnrichForExport, Map;
      var line;
      line, display := EnrichPlaintextForExport(m);
      EnrichedBare(m, display);
      MapSnoc(lines, line, Bare);
      MapSnoc(exports, e, Line);
      lines := lines + [line];
      exports := exports + [e];
    }

    method FinalizeUnmatched(pt: PendingPlaintext)
      requires Logged()
      modifies this`lines, this`exports
      ensures Logged() && exports == old(exports) + [UnmatchedExport(pt)]
    {
      hide PrepareUnmatched, Bare, Map;
      var rec := pt.original;
      if FieldIs(rec, "TupleSource", "kernel") {
        rec := PrepareUnmatchedPlaintext(rec);
      }
      BareUpdate(rec, "PcapAnnotated", Bool(false));
      rec := rec["PcapAnnotated" := Bool(false)];
      var _ := FinalizePlaintext(rec, UnmatchedExport(pt));
    }

    // -----------------------------------------------------------------------------------------
    // Matching

    /** On success the record comes back as it is to be exported, on failure as it is to be kept. */
    method TryAnnotate(pt: PendingPlaintext, final: bool, r: Reading) returns (ok: bool, pt1: PendingPlaintext)
      requires Valid()
      modifies packets
      ensures var a := AllowedAttempt(Greedy(cfg), old(packets[lo..hi]), pt, final, r);
        && (ok <==> a.chosen.Some?)
        && (ok ==>
              && packets[lo..hi] == Annotate(old(packets[lo..hi]), a.chosen.value, a.pt.id)
              && pt1.(data := a.pt.data) == a.pt
              && Bare(pt1.data) == Line(AnnotatedExport(a.pt, old(packets[lo..hi])[a.chosen.value])))
        && (!ok ==> packets[lo..hi] == old(packets[lo..hi]) && pt1 == a.pt)
    {
      hide Score, TupleOf, Enrich, Overlay, MinAnnotationScore, Greedy, ScanUpTo, Bare, EnrichForExport;
      GreedyIsTryAnnotate(packets[lo..hi], pt, cfg, final, r);
      pt1 := Prepared(pt, cfg.filters);
      var bestIdx, bestScore, ambiguous, multiple := BestWireMatch(packets, lo, hi, pt1, cfg.filters);
      if !HasTuple(pt.original) && multiple {
        pt1 := pt1.(connectionAmbiguous := true);
      }
      ambiguous := ambiguous || pt1.connectionAmbiguous;
      if bestIdx < 0 || ambiguous || bestScore < MinAnnotationScore(pt1.data, cfg.filters) {
        return false, pt1;
      }
      ScanFindsBest(View(packets[lo..hi], pt, cfg.filters), hi - lo);
      var pkt := packets[lo + bestIdx];
      if pkt.annotated {
        return false, pt1;
      }
      if !final && !HasTuple(pt.original) && Sub(r.forRecord, pt.stamp.received) < cfg.window
         && Sub(r.forPacket, pkt.stamp.received) < cfg.window {
        return false, pt1;
      }
      var data := OverlayCorrelatedWire(pt1.data, pkt.fields);
      var shown, display := EnrichPlaintextForExport(data);
      EnrichedBare(data, display);
      packets[lo + bestIdx] := pkt.(annotated := true, packetID := Some(pt.id));
      BareUpdate(shown, "PcapAnnotated", Bool(true));
      pt1 := pt1.(data := shown["PcapAnnotated" := Bool(true)]);
      return true, pt1;
    }

    method MatchPendingAgainstWire(final: bool, clock: Clock, pass: nat)
      requires Valid()
      modifies packets, pending, this`count, this`lines, this`exports
      ensures Valid()
      ensures Abstract() == MatchPending(Greedy(cfg), old(Abstract()), final, clock, pass)
    {
      hide Greedy, Line, Bare, EnrichForExport, Annotate, Map, MatchUpTo;
      ghost var s := Abstract();
      var n := count;
      var kept := 0;
      ghost var p := Pass(s.packets, [], []);
      MatchStart(Greedy(cfg), s.packets, s.pending, final, clock, pass);
      for k := 0 to n
        invariant kept <= k && count == n <= pending.Length
        invariant forall i | k <= i < n :: pending[i] == s.pending[i]
        invariant Logged()
        invariant p == MatchUpTo(Greedy(cfg), s.packets, s.pending, final, clock, pass, k)
        invariant packets[lo..hi] == p.packets && pending[..kept] == p.kept && exports == s.exports + p.exports
      {
        var ok, pt := TryAnnotate(pending[k], final, clock(pass, k));
        ghost var a := AllowedAttempt(Greedy(cfg), p.packets, s.pending[k], final, clock(pass, k));
        MatchStep(Greedy(cfg), s.packets, s.pending, final, clock, pass, k);
        if ok {
          var _ := FinalizePlaintext(pt.data, AnnotatedExport(a.pt, p.packets[a.chosen.value]));
        } else {
          pending[kept] := pt;
          kept := kept + 1;
          assert pending[..kept] == p.kept + [pt];
        }
        p := Advance(p, a);
      }
      count := kept;
    }

    // -----------------------------------------------------------------------------------------
    // Expiry

    method FlushExpiredPackets(now: int)
      requires Valid()
      modifies packets, this`hi, this`pcap
      ensures Valid()
      ensures Abstract() == FlushPackets(old(Abstract()), now, cfg.window)
    {
      hide Line, Bare, Map, Select;
      ghost var all := packets[..];
      ghost var aged := OldPacket(now, cfg.window);
      ghost var gone: seq<WirePacket> := [];
      SelectNone(all[lo..lo], aged, true);
      SelectNone(all[lo..lo], aged, false);
      var end := hi;
      var kept := lo;
      for k := lo to end
        invariant lo <= kept <= k && hi == end <= packets.Length
        invariant forall i | k <= i < end :: packets[i] == all[i]
        invariant packets[lo..kept] == Select(all[lo..k], aged, false)
        invariant gone == Select(all[lo..k], aged, true)
        invariant pcap == old(pcap) + gone
      {
        var pkt := packets[k];
        SelectStep(all, aged, true, lo, k);
        SelectStep(all, aged, false, lo, k);
        if Sub(now, pkt.stamp.received) >= cfg.window {
          WriteBufferedWirePacket(pkt);
          gone := gone + [pkt];
        } else {
          packets[kept] := pkt;
          kept := kept + 1;
          assert packets[lo..kept] == packets[lo..kept-1] + [pkt];
        }
      }
      assert all[lo..end] == old(packets[lo..hi]);
      hi := kept;
    }

    method FlushExpiredRecords(now: int)
      requires Valid()
      modifies pending, this`count, this`lines, this`exports
      ensures Valid()
      ensures Abstract() == FlushRecords(old(Abstract()), now, cfg.window)
    {
      hide Line, Bare, Map, Select;
      ghost var s := Abstract();
      ghost var aged := OldRecord(now, cfg.window);
      ghost var gone := Select(s.pending[0..0], aged, true);
      SelectNone(s.pending[0..0], aged, true);
      SelectNone(s.pending[0..0], aged, false);
      MapConcat(gone, [], Unmatch());
      var n := count;
      var kept := 0;
      for k := 0 to n
        invariant kept <= k && count == n <= pending.Length
        invariant forall i | k <= i < n :: pending[i] == s.pending[i]
        invariant pending[..kept] == Select(s.pending[0..k], aged, false)
        invariant gone == Select(s.pending[0..k], aged, true)
        invariant exports == s.exports + Map(gone, Unmatch())
        invariant Logged()
      {
        var pt := pending[k];
        SelectStep(s.pending, aged, true, 0, k);
        SelectStep(s.pending, aged, false, 0, k);
        if Sub(now, pt.stamp.received) >= cfg.window {
          FinalizeUnmatched(pt);
          MapSnoc(gone, pt, Unmatch());
          gone := gone + [pt];
          continue;
        }
        pending[kept] := pt;
        kept := kept + 1;
        assert pending[..kept] == pending[..kept-1] + [pt];
      }
      assert s.pending[0..n] == s.pending;
      count := kept;
    }

    method FlushExpired(now: int, clock: Clock)
      requires Valid()
      modifies packets, pending, this`hi, this`count, this`pcap, this`lines, this`exports
      ensures Valid()
      ensures Abstract() == Protocol.FlushExpired(Greedy(cfg), old(Abstract()), now, cfg.window, clock)
    {
      hide Line, Bare, Map, MatchPending, FlushPackets, FlushRecords, Greedy;
      if hi > lo {
        MatchPendingAgainstWire(false, clock, 0);
        FlushExpiredPackets(now);
      }
      FlushExpiredRecords(now);
    }

    // -----------------------------------------------------------------------------------------
    // Arrivals

    /** Appends to the slice of packets, moving it to a larger array when there is no room. */
    method AppendPacket(pkt: WirePacket)
      requires Valid()
      modifies this`packets, this`lo, this`hi, packets
      ensures Valid() && (packets == old(packets) || fresh(packets))
      ensures packets[lo..hi] == old(packets[lo..hi]) + [pkt]
    {
      hide Line, Bare, Map;
      if hi == packets.Length {
        var n := hi - lo;
        var larger := new WirePacket[2 * n + 1];
        forall i | 0 <= i < n {
          larger[i] := packets[lo + i];
        }
        assert larger[..n] == packets[lo..hi];
        packets, lo, hi := larger, 0, n;
      }
      packets[hi] := pkt;
      hi := hi + 1;
    }

    method AppendPending(pt: PendingPlaintext)
      requires Valid()
      modifies this`pending, this`count, pending
      ensures Valid() && (pending == old(pending) || fresh(pending))
      ensures pending[..count] == old(pending[..count]) + [pt]
    {
      hide Line, Bare, Map;
      if count == pending.Length {
        var larger := new PendingPlaintext[2 * count + 1];
        forall i | 0 <= i < count {
          larger[i] := pending[i];
        }
        assert larger[..count] == pending[..count];
        pending := larger;
      }
      pending[count] := pt;
      count := count + 1;
    }

    /** Takes in a wire packet; an undecodable one changes nothing. */
    method Enqueue(fields: GenericMap, dataB64: string, now: int, clock: Clock) returns (ok: bool)
      requires Valid()
      modifies this, packets, pending
      ensures Valid() && (packets == old(packets) || fresh(packets)) && pending == old(pending)
      ensures ok <==> DecodeBase64(dataB64).Some?
      ensures Abstract() ==
        if ok then
          Protocol.Enqueue(Greedy(cfg), old(Abstract()),
                           NewPacket(now, fields, CaptureTime(fields), DecodeBase64(dataB64).value), cfg.window, clock)
        else old(Abstract())
    {
      hide Line, Bare, Map, MatchPending, Protocol.FlushExpired, Greedy, CaptureTime;
      var data := DecodeBase64(dataB64);
      if data.None? {
        return false;
      }
      var pkt := NewPacket(now, fields, CaptureTime(fields), data.value);
      FlushExpired(now, clock);
      ghost var s := Abstract();
      AppendPacket(pkt);
      if hi - lo > MAX_BUFFERED {
        WriteBufferedWirePacket(packets[lo]);
        lo := lo + 1;
      }
      assert Abstract() == Admit(s, pkt);
      MatchPendingAgainstWire(false, clock, 1);
      return true;
    }

    method HandlePlaintext(m: GenericMap, id: nat, now: int, clock: Clock)
      requires Valid()
      modifies this, packets, pending
      ensures Valid() && packets == old(packets) && (pending == old(pending) || fresh(pending))
      ensures Abstract() ==
        Protocol.HandlePlaintext(
          Greedy(cfg), old(Abstract()), NewPending(now, m, CaptureTime(m), id), cfg.window, clock)
    {
      hide Line, Bare, Map, MatchPending, Protocol.FlushExpired, Greedy, CaptureTime, EnrichForExport;
      FlushExpired(now, clock);
      ghost var s := Abstract();
      var pt := NewPending(now, m, CaptureTime(m), id);
      var ok, pt1 := TryAnnotate(pt, false, clock(1, 0));
      if ok {
        ghost var a := AllowedAttempt(Greedy(cfg), s.packets, pt, false, clock(1, 0));
        var _ := FinalizePlaintext(pt1.data, AnnotatedExport(a.pt, s.packets[a.chosen.value]));
        return;
      }
      AppendPending(pt1);
    }

    method WriteAllPackets()
      requires lo <= hi <= packets.Length
      modifies this`pcap
      ensures pcap == old(pcap) + packets[lo..hi]
    {
      for k := lo to hi
        invariant pcap == old(pcap) + packets[lo..k]
      {
        WriteBufferedWirePacket(packets[k]);
        assert packets[lo..k+1] == packets[lo..k] + [packets[k]];
      }
    }

    method FinalizeAllUnmatched()
      requires count <= pending.Length && Logged()
      modifies this`lines, this`exports
      ensures Logged() && exports == old(exports) + Map(pending[..count], Unmatch())
    {
      hide Line, Bare, Map;
      MapConcat(pending[..0], [], Unmatch());
      for k := 0 to count
        invariant Logged()
        invariant exports == old(exports) + Map(pending[..k], Unmatch())
      {
        FinalizeUnmatched(pending[k]);
        MapSnoc(pending[..k], pending[k], Unmatch());
        assert pending[..k+1] == pending[..k] + [pending[k]];
      }
    }

    /** The last match, without waiting, then everything goes out. */
    method Close(clock: Clock)
      requires Valid()
      modifies this, packets, pending
      ensures Valid() && packets == old(packets) && pending == old(pending)
      ensures Abstract() == FlushAll(Greedy(cfg), old(Abstract()), clock)
      ensures Abstract().packets == [] && Abstract().pending == []
    {
      hide Line, Bare, MatchPending, Greedy, Map;
      MatchPendingAgainstWire(true, clock, 0);
      WriteAllPackets();
      lo, hi := 0, 0;
      FinalizeAllUnmatched();
      count := 0;
    }
  }
}
