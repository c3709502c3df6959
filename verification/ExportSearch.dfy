/** The search for an export record embedded in a payload, and the peeling of payload layers around it. */
module ExportSearch {
  import opened Records
  import opened JsonScan

  function Ascii(s: string): (r: Bytes)
    ensures |r| == |s|
  {
    seq(|s|, i requires 0 <= i < |s| => (s[i] as int % 256) as byte)
  }

  const MARKERS: seq<Bytes> := [
    Ascii("{\"RecordType\":\"plaintext\""), Ascii("{\"Direction\":\"write\""), Ascii("{\"Direction\":\"read\"")]

  lemma AsciiConcat(a: string, b: string)
    ensures Ascii(a + b) == Ascii(a) + Ascii(b)
  {
  }

  /** Payload of an export record in JSON; empty when the bytes are not such a record or it has no payload. */
  const UnwrapExport: Bytes -> Bytes

  // ---------------------------------------------------------------------------------------------
  // Search

  /** At position `i` the marker begins an object whose payload is something else than the object. */
  predicate Hit(data: Bytes, marker: Bytes, i: nat) {
    && At(data, i, marker)
    && Slice(data, i).Some?
    && UnwrapExport(Slice(data, i).value) !in {[], Slice(data, i).value}
  }

  /** The first position from `start` on where `part` stands. */
  method IndexFrom(data: Bytes, part: Bytes, start: nat) returns (r: Option<nat>)
    requires start <= |data|
    ensures r.Some? ==>
      start <= r.value && At(data, r.value, part) && forall j | start <= j < r.value :: !At(data, j, part)
    ensures r.None? ==> forall j | start <= j :: !At(data, j, part)
  {
    var i := start;
    while i + |part| <= |data|
      invariant start <= i
      invariant forall j | start <= j < i :: !At(data, j, part)
      decreases |data| - i
    {
      if data[i..i + |part|] == part {
        return Some(i);
      }
      i := i + 1;
    }
    return None;
  }

  /** Position `i` and marker `k` are the first hit: no earlier marker hits anywhere, this one nowhere before. */
  predicate FirstHit(data: Bytes, k: nat, i: nat) {
    && k < |MARKERS| && Hit(data, MARKERS[k], i)
    && (forall j, p | 0 <= j < k && 0 <= p <= |data| :: !Hit(data, MARKERS[j], p))
    && (forall p | 0 <= p < i :: !Hit(data, MARKERS[k], p))
  }

  predicate NoHit(data: Bytes) {
    forall k, i | 0 <= k < |MARKERS| && 0 <= i <= |data| :: !Hit(data, MARKERS[k], i)
  }

  lemma HitsAreInside(data: Bytes, marker: Bytes, i: nat)
    requires Hit(data, marker, i)
    ensures i < |data|
  {
  }

  /** The first position from `start` on where the marker hits. */
  function FirstPosition(data: Bytes, marker: Bytes, start: nat): Option<nat>
    decreases |data| - start
  {
    if start >= |data| then None
    else if Hit(data, marker, start) then Some(start)
    else FirstPosition(data, marker, start + 1)
  }

  /** The payload found by the markers from the k-th on; empty when there is none. */
  function ExtractFrom(data: Bytes, k: nat): Bytes
    decreases |MARKERS| - k
  {
    if k >= |MARKERS| then []
    else
      var i := FirstPosition(data, MARKERS[k], 0);
      if i.Some? && Slice(data, i.value).Some? then UnwrapExport(Slice(data, i.value).value)
      else ExtractFrom(data, k + 1)
  }

  function Extract(data: Bytes): Bytes {
    ExtractFrom(data, 0)
  }

  lemma {:induction false} FirstPositionMeaning(data: Bytes, marker: Bytes, start: nat)
    ensures var r := FirstPosition(data, marker, start);
      && (r.Some? ==> start <= r.value && Hit(data, marker, r.value)
                      && forall p | start <= p < r.value :: !Hit(data, marker, p))
      && (r.None? ==> forall p | start <= p :: !Hit(data, marker, p))
    decreases |data| - start
  {
    hide Slice, Hit;
    if start >= |data| {
      forall p | start <= p ensures !Hit(data, marker, p) {
        if Hit(data, marker, p) {
          HitsAreInside(data, marker, p);
        }
      }
    } else if !Hit(data, marker, start) {
      FirstPositionMeaning(data, marker, start + 1);
    }
  }

  lemma {:induction false} ExtractFromHit(data: Bytes, k: nat, i: nat, from: nat)
    requires FirstHit(data, k, i) && from <= k
    ensures ExtractFrom(data, from) == UnwrapExport(Slice(data, i).value)
    decreases k - from
  {
    hide Slice;
    FirstPositionMeaning(data, MARKERS[from], 0);
    if from < k {
      ExtractFromHit(data, k, i, from + 1);
    }
  }

  lemma {:induction false} ExtractFromNoHit(data: Bytes, from: nat)
    requires NoHit(data)
    ensures ExtractFrom(data, from) == []
    decreases |MARKERS| - from
  {
    if from < |MARKERS| {
      FirstPositionMeaning(data, MARKERS[from], 0);
      ExtractFromNoHit(data, from + 1);
    }
  }

  method ExtractEmbeddedExportJSON(data: Bytes) returns (r: Bytes)
    ensures NoHit(data) <==> r == []
    ensures r != [] ==> exists k: nat, i: nat ::
      FirstHit(data, k, i) && r == UnwrapExport(Slice(data, i).value) && r != Slice(data, i).value
    ensures r == Extract(data)
  {
    hide Slice, ExtractFrom;
    for k := 0 to |MARKERS|
      invariant forall j, p | 0 <= j < k && 0 <= p <= |data| :: !Hit(data, MARKERS[j], p)
    {
      var marker := MARKERS[k];
      var searchFrom := 0;
      while true
        invariant 0 <= searchFrom <= |data|
        invariant forall p | 0 <= p < searchFrom :: !Hit(data, marker, p)
        decreases |data| - searchFrom
      {
        var idx := IndexFrom(data, marker, searchFrom);
        if idx.None? {
          break;
        }
        var obj := SliceJSONObject(data, idx.value);
        if obj.None? {
          MarkerInside(data, k, idx.value);
          searchFrom := idx.value + 1;
          continue;
        }
        var inner := UnwrapExport(obj.value);
        if |inner| > 0 && inner != obj.value {
          assert FirstHit(data, k, idx.value);
          ExtractFromHit(data, k, idx.value, 0);
          return inner;
        }
        searchFrom := idx.value + 1;
      }
    }
    ExtractFromNoHit(data, 0);
    return [];
  }

  lemma MarkerInside(data: Bytes, k: nat, i: nat)
    requires k < |MARKERS| && At(data, i, MARKERS[k])
    ensures i < |data|
  {
  }

  /** An object text standing in a payload is cut out whole, whatever surrounds it; so a record that carries a payload
      and starts with a marker is always a hit, and the search never comes back empty-handed. */
  lemma EmbeddedRecordHits(before: Bytes, record: Json, after: Bytes, k: nat)
    requires record.Object? && JsonOK(record)
    requires k < |MARKERS| && MARKERS[k] <= JsonText(record)
    requires UnwrapExport(JsonText(record)) !in {[], JsonText(record)}
    ensures var data := before + JsonText(record) + after;
      && Hit(data, MARKERS[k], |before|)
      && Slice(data, |before|).value == JsonText(record)
      && !NoHit(data)
  {
    var data, text := before + JsonText(record) + after, JsonText(record);
    SliceReturnsObject(before, record, after);
    assert data[|before|..|before| + |text|] == text;
    assert data[|before|..|before| + |MARKERS[k]|] == text[..|MARKERS[k]|];
    assert Hit(data, MARKERS[k], |before|);
  }

  // The markers are how the agent's own records begin.

  /** A text of plain letters as the inside of a JSON string. */
  function Letters(s: string): (r: seq<Item>)
    ensures |r| == |s|
  {
    seq(|s|, i requires 0 <= i < |s| => Char((s[i] as int % 256) as byte))
  }

  lemma {:induction false} LettersText(s: string)
    ensures ItemsText(Letters(s)) == Ascii(s)
  {
    if s != "" {
      LettersText(s[1..]);
      assert Letters(s)[1..] == Letters(s[1..]);
      assert Ascii(s) == [Ascii(s)[0]] + Ascii(s[1..]);
    }
  }

  /** The bytes of the structural characters are those the standard names. */
  lemma StructuralBytes()
    ensures Ascii("\"\\{}[]:,u")
         == [QUOTE, BACKSLASH, OPEN_BRACE, CLOSE_BRACE, OPEN_BRACKET, CLOSE_BRACKET, COLON, COMMA, LETTER_U]
  {
  }

  lemma PairText(key: string, value: string)
    ensures StringText(Letters(key)) + ([COLON] + StringText(Letters(value)))
         == Ascii("\"" + key + "\":\"" + value + "\"")
  {
    LettersText(key);
    LettersText(value);
    StructuralBytes();
    AsciiConcat("\"" + key + "\":\"" + value, "\"");
    AsciiConcat("\"" + key + "\":\"", value);
    AsciiConcat("\"" + key, "\":\"");
    AsciiConcat("\"", key);
    assert Ascii("\"") == [QUOTE] && Ascii("\":\"") == [QUOTE, COLON, QUOTE];
  }

  const FIRST_MEMBERS: seq<(string, string)> := [
    ("RecordType", "plaintext"), ("Direction", "write"), ("Direction", "read")]

  /** Every record written compactly whose first member names its kind or its direction starts with a marker, whatever
      the other members are; so it is found wherever it is embedded. */
  lemma MarkersStartRecords(k: nat, wsAfter: Bytes, wsNext: Bytes, rest: Members)
    requires k < |FIRST_MEMBERS|
    ensures var (key, value) := FIRST_MEMBERS[k];
      MARKERS[k] <=
      JsonText(Object([], Member(Letters(key), [], [], String(Letters(value)), wsAfter, wsNext, rest)))
  {
    var (key, value) := FIRST_MEMBERS[k];
    var pair := StringText(Letters(key)) + ([COLON] + StringText(Letters(value)));
    var tail := wsAfter + Tail(wsNext, MembersText(rest), rest.Member?);
    PairText(key, value);
    CompactMember(key, value, wsAfter, wsNext, rest);
    MarkerWords(k);
    AsciiConcat("{", "\"" + key + "\":\"" + value + "\"");
    StructuralBytes();
    assert Ascii("{") == [OPEN_BRACE];
    hide JsonText, MembersText, StringText, Ascii;
    var text := JsonText(Object([], Member(Letters(key), [], [], String(Letters(value)), wsAfter, wsNext, rest)));
    assert text == [OPEN_BRACE] + pair + (tail + [CLOSE_BRACE]);
    assert MARKERS[k] == [OPEN_BRACE] + pair;
  }

  lemma MarkerWords(k: nat)
    requires k < |FIRST_MEMBERS|
    ensures var (key, value) := FIRST_MEMBERS[k];
      MARKERS[k] == Ascii("{" + ("\"" + key + "\":\"" + value + "\""))
  {
    hide Ascii;
    var (key, value) := FIRST_MEMBERS[k];
    var word := "{" + ("\"" + key + "\":\"" + value + "\"");
    if k == 0 {
      assert word == "{\"RecordType\":\"plaintext\"";
    } else if k == 1 {
      assert word == "{\"Direction\":\"write\"";
    } else {
      assert word == "{\"Direction\":\"read\"";
    }
  }

  /** An object written without space before its first member's value. */
  lemma CompactMember(key: string, value: string, wsAfter: Bytes, wsNext: Bytes, rest: Members)
    ensures var pair := StringText(Letters(key)) + ([COLON] + StringText(Letters(value)));
      var tail := wsAfter + Tail(wsNext, MembersText(rest), rest.Member?);
      JsonText(Object([], Member(Letters(key), [], [], String(Letters(value)), wsAfter, wsNext, rest)))
        == [OPEN_BRACE] + pair + (tail + [CLOSE_BRACE])
  {
    hide StringText, Tail;
    var members := Member(Letters(key), [], [], String(Letters(value)), wsAfter, wsNext, rest);
    var first, second := StringText(Letters(key)), StringText(Letters(value));
    var tail := wsAfter + Tail(wsNext, MembersText(rest), rest.Member?);
    assert MembersText(members) == first + ([] + ([COLON] + ([] + (second + tail))));
    Regroup([OPEN_BRACE], first, [COLON], second, tail, [CLOSE_BRACE]);
  }

  lemma Regroup(open: Bytes, a: Bytes, colon: Bytes, b: Bytes, tail: Bytes, close: Bytes)
    ensures open + ([] + (a + ([] + (colon + ([] + (b + tail)))) + close)) == open + (a + (colon + b)) + (tail + close)
  {
    assert [] + (b + tail) == b + tail;
    assert [] + (colon + (b + tail)) == colon + (b + tail);
    assert a + (colon + (b + tail)) == a + (colon + b) + tail;
    assert [] + (a + (colon + (b + tail)) + close) == a + (colon + b) + (tail + close);
  }

  // ---------------------------------------------------------------------------------------------
  // Leading bytes before application text

  const TEXT_STARTS: seq<Bytes> := [
    Ascii("GET "), Ascii("POST "), Ascii("PUT "), Ascii("HEAD "), Ascii("HTTP/"), Ascii("DELETE "), Ascii("OPTIONS "),
    Ascii("PATCH "), Ascii("CONNECT "), Ascii("TRACE "), Ascii("NETOBSERV-"), Ascii("{")]

  const MAX_SKIP := 8

  predicate IsTextStart(data: Bytes) {
    exists t | t in TEXT_STARTS :: t <= data
  }

  /** The data starts with the letters of the word. */
  predicate StartsWith(data: Bytes, word: string) {
    |word| <= |data| && forall i | 0 <= i < |word| :: data[i] as int == word[i] as int
  }

  lemma AsciiStarts(data: Bytes, word: string)
    requires forall i | 0 <= i < |word| :: word[i] < 128 as char
    ensures Ascii(word) <= data <==> StartsWith(data, word)
  {
    if StartsWith(data, word) {
      assert data[..|word|] == Ascii(word);
    }
    if Ascii(word) <= data {
      forall i | 0 <= i < |word| ensures data[i] as int == word[i] as int {
        assert data[i] == Ascii(word)[i];
      }
    }
  }

  const WORDS: seq<string> := [
    "GET ", "POST ", "PUT ", "HEAD ", "HTTP/", "DELETE ", "OPTIONS ", "PATCH ", "CONNECT ", "TRACE ", "NETOBSERV-", "{"]

  /** Application text starts with an HTTP method or version, the agent's own mark, or an opening brace. */
  lemma TextStartMeaning(data: Bytes)
    ensures IsTextStart(data) <==> exists k | 0 <= k < |WORDS| :: StartsWith(data, WORDS[k])
  {
    hide StartsWith, Ascii;
    forall k | 0 <= k < |WORDS| ensures TEXT_STARTS[k] == Ascii(WORDS[k]) && |TEXT_STARTS| == |WORDS| {}
    forall k | 0 <= k < |WORDS| ensures TEXT_STARTS[k] <= data <==> StartsWith(data, WORDS[k]) {
      AsciiStarts(data, WORDS[k]);
    }
    forall k | 0 <= k < |WORDS| ensures TEXT_STARTS[k] in TEXT_STARTS {}
  }

  function StripFrom(data: Bytes, skip: nat): Bytes
    decreases |data| - skip
  {
    if skip > MAX_SKIP || skip >= |data| then data
    else if IsTextStart(data[skip..]) then data[skip..]
    else StripFrom(data, skip + 1)
  }

  function Strip(data: Bytes): Bytes {
    if data == [] || IsTextStart(data) then data else StripFrom(data, 1)
  }

  /** Application text starts behind `skip` bytes and no earlier. */
  predicate TextStartsAt(data: Bytes, skip: nat) {
    && skip < |data| && skip <= 8 && IsTextStart(data[skip..])
    && forall n | 0 <= n < skip :: !IsTextStart(data[n..])
  }

  lemma {:induction false} StripFromCuts(data: Bytes, skip: nat, from: nat)
    requires TextStartsAt(data, skip) && from <= skip
    ensures StripFrom(data, from) == data[skip..]
    decreases skip - from
  {
    hide IsTextStart;
    if from < skip {
      StripFromCuts(data, skip, from + 1);
    }
  }

  lemma {:induction false} StripFromKeeps(data: Bytes, from: nat)
    requires forall n | from <= n <= MAX_SKIP && n < |data| :: !IsTextStart(data[n..])
    ensures StripFrom(data, from) == data
    decreases |data| - from
  {
    hide IsTextStart;
    if from <= MAX_SKIP && from < |data| {
      StripFromKeeps(data, from + 1);
    }
  }

  lemma StripMeaning(data: Bytes, skip: nat)
    ensures TextStartsAt(data, skip) ==> Strip(data) == data[skip..]
    ensures (forall n: nat :: !TextStartsAt(data, n)) ==> Strip(data) == data
  {
    hide IsTextStart;
    assert data[0..] == data;
    if data != [] && !IsTextStart(data) {
      if TextStartsAt(data, skip) {
        StripFromCuts(data, skip, 1);
      }
      if forall n: nat :: !TextStartsAt(data, n) {
        NoTextStart(data, MAX_SKIP + 1);
        StripFromKeeps(data, 1);
      }
    }
  }

  lemma {:induction false} NoTextStart(data: Bytes, bound: nat)
    requires bound <= MAX_SKIP + 1 && forall n: nat :: !TextStartsAt(data, n)
    ensures forall n | 0 <= n < bound && n < |data| :: !IsTextStart(data[n..])
  {
    hide IsTextStart;
    if bound > 0 {
      NoTextStart(data, bound - 1);
      assert !TextStartsAt(data, bound - 1);
    }
  }

  /** Cuts the shortest prefix of at most eight bytes that application text follows; else returns all. */
  method StripLeadingApplicationPrefix(data: Bytes) returns (r: Bytes)
    ensures forall skip: nat :: TextStartsAt(data, skip) ==> r == data[skip..]
    ensures (forall skip: nat :: !TextStartsAt(data, skip)) ==> r == data
    ensures r == Strip(data)
  {
    hide IsTextStart, Strip, StripFrom;
    forall skip: nat ensures TextStartsAt(data, skip) ==> Strip(data) == data[skip..] {
      StripMeaning(data, skip);
    }
    StripMeaning(data, 0);
    assert data[0..] == data;
    if |data| == 0 || IsTextStart(data) {
      assert |data| > 0 ==> TextStartsAt(data, 0);
      return data;
    }
    var limit := if |data| - 1 < MAX_SKIP then |data| - 1 else MAX_SKIP;
    for skip := 1 to limit + 1
      invariant forall n | 0 <= n < skip :: !IsTextStart(data[n..])
    {
      var rest := data[skip..];
      if IsTextStart(rest) {
        assert TextStartsAt(data, skip);
        return rest;
      }
    }
    return data;
  }

  // ---------------------------------------------------------------------------------------------
  // Peeling layers

  const MAX_LAYERS := 6

  /** Library call: bytes without leading and trailing white space. */
  const TrimSpace: Bytes -> Bytes

  /** The data is, but for white space around it, a record whose payload is something else than the data. */
  predicate IsRecord(data: Bytes) {
    var trimmed := TrimSpace(data);
    trimmed != [] && trimmed[0] == OPEN_BRACE && UnwrapExport(trimmed) !in {[], data}
  }

  function UnwrapRecord(data: Bytes): Bytes {
    var trimmed := TrimSpace(data);
    if trimmed == [] || trimmed[0] != OPEN_BRACE || UnwrapExport(trimmed) == [] then data else UnwrapExport(trimmed)
  }

  /** One layer: the payload of a record that is all of the data, else of one embedded in it, else a stripped prefix. */
  function Layer(data: Bytes): Bytes {
    if UnwrapRecord(data) != data then UnwrapRecord(data)
    else if Extract(data) != [] then Extract(data)
    else Strip(data)
  }

  function Layers(data: Bytes, n: nat): Bytes {
    if n == 0 then data else Layer(Layers(data, n - 1))
  }

  /** What the next layer is: of a record, its payload; else the payload at the first hit; else, when nothing hits, the
      application text behind the shortest prefix; and the data itself when there is none of these. */
  method UnwrapPayloadLayer(data: Bytes) returns (r: Bytes)
    ensures IsRecord(data) ==> r == UnwrapExport(TrimSpace(data))
    ensures !IsRecord(data) ==>
      forall k: nat, i: nat :: FirstHit(data, k, i) ==> r == UnwrapExport(Slice(data, i).value)
    ensures !IsRecord(data) && NoHit(data) ==>
      && (forall skip: nat :: TextStartsAt(data, skip) ==> r == data[skip..])
      && ((forall skip: nat :: !TextStartsAt(data, skip)) ==> r == data)
    ensures !IsRecord(data) && !NoHit(data) ==> exists k: nat, i: nat :: FirstHit(data, k, i)
    ensures r == Layer(data)
  {
    forall k: nat, i: nat | FirstHit(data, k, i)
      ensures Extract(data) == UnwrapExport(Slice(data, i).value) && Extract(data) != [] && !NoHit(data)
    {
      ExtractHit(data, k, i);
    }
    hide Extract, Strip, FirstHit, NoHit, TextStartsAt, Slice;
    var u := UnwrapRecord(data);
    if u != data {
      return u;
    }
    var embedded := ExtractEmbeddedExportJSON(data);
    if |embedded| > 0 {
      return embedded;
    }
    r := StripLeadingApplicationPrefix(data);
  }

  lemma ExtractHit(data: Bytes, k: nat, i: nat)
    requires FirstHit(data, k, i)
    ensures Extract(data) == UnwrapExport(Slice(data, i).value) && Extract(data) != [] && !NoHit(data)
  {
    hide ExtractFrom, Slice, At;
    ExtractFromHit(data, k, i, 0);
    HitsAreInside(data, MARKERS[k], i);
  }

  /** Once a layer changes nothing, neither does any further one. */
  lemma {:induction false} LayersSettle(data: Bytes, n: nat, k: nat)
    requires n <= k && Layer(Layers(data, n)) == Layers(data, n)
    ensures Layers(data, k) == Layers(data, n)
  {
    hide Layer;
    if n < k {
      LayersSettle(data, n, k - 1);
    }
  }

  /** Peels six layers, stopping early once nothing changes any more. */
  method UnwrapPayloadLayers(data: Bytes) returns (r: Bytes)
    ensures r == Layers(data, MAX_LAYERS)
  {
    hide Layer;
    r := data;
    for i := 0 to MAX_LAYERS
      invariant r == Layers(data, i)
    {
      var next := UnwrapPayloadLayer(r);
      if next == r {
        LayersSettle(data, i, MAX_LAYERS);
        return;
      }
      assert Layers(data, i + 1) == next;
      r := next;
    }
  }

  // ---------------------------------------------------------------------------------------------
  // Nested wrappings

  /** A wrapping: an export record, alone or between other bytes, which its k-th marker starts; or a short prefix. */
  datatype Wrapping =
    | Record(before: Bytes, record: Json, after: Bytes, k: nat)
    | Prefixed(prefix: Bytes, text: Bytes)
  {
    function Outer(): Bytes {
      match this
      case Record(before, record, after, _) => before + JsonText(record) + after
      case Prefixed(prefix, text) => prefix + text
    }

    function Inner(): Bytes {
      match this
      case Record(_, record, _, _) => UnwrapExport(JsonText(record))
      case Prefixed(_, text) => text
    }

    /** Nothing else in the outer bytes takes precedence over the wrapping. */
    predicate Effective() {
      match this
      case Record(before, record, after, k) =>
        && record.Object? && JsonOK(record) && UnwrapExport(JsonText(record)) !in {[], JsonText(record)}
        && if IsRecord(Outer()) then TrimSpace(Outer()) == JsonText(record)
           else
             && k < |MARKERS| && MARKERS[k] <= JsonText(record)
             && (forall j, p | 0 <= j < k && 0 <= p <= |Outer()| :: !Hit(Outer(), MARKERS[j], p))
             && (forall p | 0 <= p < |before| :: !Hit(Outer(), MARKERS[k], p))
      case Prefixed(prefix, text) =>
        !IsRecord(Outer()) && NoHit(Outer()) && TextStartsAt(Outer(), |prefix|)
    }
  }

  /** The payload of a record embedded in a frame is the frame's next layer, when no earlier hit stands in the frame. */
  lemma EmbeddedRecordIsNextLayer(before: Bytes, record: Json, after: Bytes, k: nat)
    requires record.Object? && JsonOK(record)
    requires k < |MARKERS| && MARKERS[k] <= JsonText(record)
    requires UnwrapExport(JsonText(record)) !in {[], JsonText(record)}
    requires var data := before + JsonText(record) + after;
      && !IsRecord(data)
      && (forall j, p | 0 <= j < k && 0 <= p <= |data| :: !Hit(data, MARKERS[j], p))
      && (forall p | 0 <= p < |before| :: !Hit(data, MARKERS[k], p))
    ensures Layer(before + JsonText(record) + after) == UnwrapExport(JsonText(record))
  {
    hide Slice, JsonText, Hit, Extract, Strip;
    EmbeddedRecordHits(before, record, after, k);
    ExtractHit(before + JsonText(record) + after, k, |before|);
  }

  /** The next layer of a wrapping is what it wraps. */
  lemma LayerUnwraps(w: Wrapping)
    requires w.Effective()
    ensures Layer(w.Outer()) == w.Inner()
  {
    hide Slice, JsonText, Hit, Extract, Strip, TextStartsAt, NoHit, FirstHit;
    var data := w.Outer();
    match w
    case Record(before, record, after, k) =>
      if !IsRecord(data) {
        EmbeddedRecordIsNextLayer(before, record, after, k);
      }
    case Prefixed(prefix, text) =>
      ExtractNothing(data);
      StripMeaning(data, |prefix|);
      assert data[|prefix|..] == text;
  }

  lemma ExtractNothing(data: Bytes)
    requires NoHit(data)
    ensures Extract(data) == []
  {
    ExtractFromNoHit(data, 0);
  }

  /** Nothing is left to peel. */
  ghost predicate LaidBare(data: Bytes) {
    !IsRecord(data) && NoHit(data) && forall skip: nat :: !TextStartsAt(data, skip) || skip == 0
  }

  lemma BareIsSettled(data: Bytes)
    requires LaidBare(data)
    ensures Layer(data) == data
  {
    hide Extract, Strip, IsTextStart, NoHit;
    ExtractNothing(data);
    StripMeaning(data, 0);
    assert data[0..] == data;
  }

  /** What shows after `n` wrappings, counted from outside, are taken off. */
  function After(wrappings: seq<Wrapping>, bare: Bytes, n: nat): Bytes {
    if n < |wrappings| then wrappings[n].Outer() else bare
  }

  ghost predicate Nested(wrappings: seq<Wrapping>, bare: Bytes) {
    && (forall i | 0 <= i < |wrappings| ::
          wrappings[i].Effective() && wrappings[i].Inner() == After(wrappings, bare, i + 1))
    && LaidBare(bare)
  }

  lemma NestedLayer(wrappings: seq<Wrapping>, bare: Bytes, n: nat)
    requires Nested(wrappings, bare)
    ensures Layer(After(wrappings, bare, n)) == After(wrappings, bare, n + 1)
  {
    hide Layer, LaidBare, Wrapping.Outer, Wrapping.Inner, Wrapping.Effective;
    if n < |wrappings| {
      LayerUnwraps(wrappings[n]);
    } else {
      BareIsSettled(bare);
    }
  }

  lemma {:induction false} LayersUnwrap(wrappings: seq<Wrapping>, bare: Bytes, n: nat)
    requires Nested(wrappings, bare)
    ensures Layers(After(wrappings, bare, 0), n) == After(wrappings, bare, n)
  {
    hide Layer, Nested, After;
    if n > 0 {
      LayersUnwrap(wrappings, bare, n - 1);
      NestedLayer(wrappings, bare, n - 1);
    }
  }

  /** Bytes wrapped at most six deep, in whatever mixture of whole records, embedded records and prefixes, are laid
      bare; of deeper nestings six wrappings are taken off. */
  lemma WrappedIsLaidBare(wrappings: seq<Wrapping>, bare: Bytes)
    requires Nested(wrappings, bare)
    ensures Layers(After(wrappings, bare, 0), MAX_LAYERS)
         == if |wrappings| <= 6 then bare else wrappings[6].Outer()
  {
    hide Nested, Layers;
    LayersUnwrap(wrappings, bare, MAX_LAYERS);
  }
}
