/** The live packet table: buffers that are sorted and cut on every append, merged and cut again for display.

    Sorting stands for the library's unstable sort: nothing is used of it but that the result is a permutation
    in ascending order. */
module FlowDisplay {
  import opened Records
  import opened Sequences

  type Row = GenericMap

  const WIRE_KEEP_COUNT := 200
  const PLAINTEXT_KEEP_COUNT := 300
  const KEEP_COUNT := 100

  // ---------------------------------------------------------------------------------------------
  // Order of rows

  function Number(m: Row, key: string): real {
    var v := Field(m, key);
    if v.Float? then v.number else 0.0
  }

  /** A field that is present but not a number would stop the program. */
  predicate Displayable(m: Row) {
    forall key | key in {"TimeFlowStartMs", "Time"} && key in m :: m[key].Float?
  }

  function TimeMs(m: Row): real {
    if Number(m, "TimeFlowStartMs") > 0.0 then Number(m, "TimeFlowStartMs") else Number(m, "Time") * 1000.0
  }

  function IndexOf(m: Row): int {
    var v := Field(m, "Index");
    if v.Int? then v.n else 0
  }

  /** Where a row stands in the table. */
  datatype Rank = Rank(time: real, index: int) {
    predicate Less(other: Rank) {
      time < other.time || (time == other.time && index < other.index)
    }
  }

  function RankOf(m: Row): Rank {
    Rank(TimeMs(m), IndexOf(m))
  }

  predicate Before(a: Row, b: Row) {
    RankOf(a).Less(RankOf(b))
  }

  /** The row's time in milliseconds: its start time, when it has one, else its time in seconds. */
  ghost predicate IsAt(m: Row, ms: real) {
    || (Field(m, "TimeFlowStartMs") == Float(ms) && ms > 0.0)
    || ((forall x :: Field(m, "TimeFlowStartMs") == Float(x) ==> x <= 0.0) && Field(m, "Time") == Float(ms / 1000.0))
  }

  /** Rows are ordered by time, whatever unit they give it in, and rows of one time by index. */
  lemma BeforeMeaning(a: Row, b: Row, x: real, y: real, i: int, j: int)
    requires IsAt(a, x) && IsAt(b, y) && Field(a, "Index") == Int(i) && Field(b, "Index") == Int(j)
    ensures Before(a, b) <==> x < y || (x == y && i < j)
  {
    IsAtMeaning(a, x);
    IsAtMeaning(b, y);
  }

  lemma IsAtMeaning(m: Row, ms: real)
    requires IsAt(m, ms)
    ensures TimeMs(m) == ms
  {
  }

  ghost predicate Ascending(rows: seq<Row>) {
    forall i, j | 0 <= i < j < |rows| :: !Before(rows[j], rows[i])
  }

  /** No two different rows share an index. */
  ghost predicate Indexed(rows: seq<Row>) {
    forall x, y | x in rows && y in rows && IndexOf(x) == IndexOf(y) :: x == y
  }

  // ---------------------------------------------------------------------------------------------
  // Sorting

  function Insert(rows: seq<Row>, m: Row): (r: seq<Row>)
    ensures |r| == |rows| + 1
  {
    if rows == [] || !Before(m, rows[|rows|-1]) then rows + [m]
    else Insert(rows[..|rows|-1], m) + [rows[|rows|-1]]
  }

  function Sorted(rows: seq<Row>): (r: seq<Row>)
    ensures |r| == |rows|
  {
    if rows == [] then [] else Insert(Sorted(rows[..|rows|-1]), rows[|rows|-1])
  }

  lemma AscendingSnoc(rows: seq<Row>, m: Row)
    requires Ascending(rows) && forall x | x in rows :: !Before(m, x)
    ensures Ascending(rows + [m])
  {
    hide Before;
  }

  lemma {:induction false} InsertKeepsRows(rows: seq<Row>, m: Row)
    ensures multiset(Insert(rows, m)) == multiset(rows) + multiset{m}
  {
    hide Before;
    if rows != [] && Before(m, rows[|rows|-1]) {
      var init, last := rows[..|rows|-1], rows[|rows|-1];
      assert rows == init + [last];
      InsertKeepsRows(init, m);
    }
  }

  lemma LastIsGreatest(rows: seq<Row>, x: Row)
    requires Ascending(rows) && x in rows
    ensures !Before(rows[|rows|-1], x)
  {
    hide RankOf;
    var i :| 0 <= i < |rows| && rows[i] == x;
  }

  lemma {:induction false} InsertAscending(rows: seq<Row>, m: Row)
    requires Ascending(rows)
    ensures Ascending(Insert(rows, m)) && multiset(Insert(rows, m)) == multiset(rows) + multiset{m}
  {
    hide Insert, Ascending;
    InsertKeepsRows(rows, m);
    if rows == [] {
      AscendingSnoc([], m);
      InsertEmpty(m);
    } else {
      var init, last := rows[..|rows|-1], rows[|rows|-1];
      assert rows == init + [last];
      InsertInside(init, last, m);
      if Before(m, last) {
        AscendingInit(rows);
        InsertAscending(init, m);
        forall x | x in Insert(init, m) ensures !Before(last, x) {
          InsertKeepsRows(init, m);
          assert x in multiset(Insert(init, m));
          if x != m {
            LastIsGreatest(rows, x);
          }
        }
        AscendingSnoc(Insert(init, m), last);
      } else {
        forall x | x in rows ensures !Before(m, x) {
          LastIsGreatest(rows, x);
        }
        AscendingSnoc(rows, m);
      }
    }
  }

  lemma InsertEmpty(m: Row)
    ensures Insert([], m) == [] + [m]
  {
  }

  lemma AscendingInit(rows: seq<Row>)
    requires Ascending(rows) && rows != []
    ensures Ascending(rows[..|rows|-1])
  {
    hide Before;
  }

  lemma {:induction false} SortedAscending(rows: seq<Row>)
    ensures Ascending(Sorted(rows)) && multiset(Sorted(rows)) == multiset(rows)
  {
    if rows != [] {
      var init := rows[..|rows|-1];
      assert rows == init + [rows[|rows|-1]];
      SortedAscending(init);
      InsertAscending(Sorted(init), rows[|rows|-1]);
    }
  }

  lemma FirstIsLeast(s: seq<Row>, t: seq<Row>)
    requires multiset(s) == multiset(t) && Ascending(s) && s != []
    ensures t != [] && t[0] in s && s[0] in t && !Before(t[0], s[0])
  {
    hide Before;
    assert s[0] in multiset(t);
    assert t[0] in multiset(s);
    var i :| 0 <= i < |s| && s[i] == t[0];
    IrreflexiveBefore(s[0]);
  }

  lemma IrreflexiveBefore(a: Row)
    ensures !Before(a, a)
  {
  }

  lemma {:induction false} AscendingUnique(s: seq<Row>, t: seq<Row>)
    requires multiset(s) == multiset(t) && Ascending(s) && Ascending(t) && Indexed(s)
    ensures s == t
  {
    hide Before, IndexOf;
    if s == [] {
      assert |multiset(t)| == 0;
    } else {
      FirstIsLeast(s, t);
      FirstIsLeast(t, s);
      RankDecides(s[0], t[0]);
      hide Ascending, Indexed;
      RestAscending(s);
      RestAscending(t);
      AscendingUnique(s[1..], t[1..]);
      assert s == [s[0]] + s[1..] && t == [t[0]] + t[1..];
    }
  }

  lemma RestAscending(s: seq<Row>)
    requires s != [] && Ascending(s)
    ensures Ascending(s[1..]) && multiset(s[1..]) == multiset(s) - multiset{s[0]}
    ensures Indexed(s) ==> Indexed(s[1..])
  {
    hide Before, IndexOf;
    assert s == [s[0]] + s[1..];
  }

  lemma RankDecides(a: Row, b: Row)
    requires !Before(a, b) && !Before(b, a)
    ensures IndexOf(a) == IndexOf(b)
  {
  }

  /** However rows with distinct indices are sorted, the result is the same. */
  lemma SortIsUnique(rows: seq<Row>, r: seq<Row>)
    requires multiset(r) == multiset(rows) && Ascending(r) && Indexed(rows)
    ensures r == Sorted(rows)
  {
    SortedAscending(rows);
    forall x | x in r ensures x in rows {
      assert x in multiset(r);
    }
    AscendingUnique(r, Sorted(rows));
  }

  lemma {:induction false} SortedFixed(rows: seq<Row>)
    requires Ascending(rows)
    ensures Sorted(rows) == rows
  {
    if rows != [] {
      hide Before;
      var init, m := rows[..|rows|-1], rows[|rows|-1];
      SortedFixed(init);
      assert rows == init + [m];
      if init != [] {
        assert !Before(rows[|rows|-1], rows[|init|-1]);
      }
    }
  }

  lemma SortedCommutes(u: seq<Row>, v: seq<Row>)
    requires Indexed(u + v)
    ensures Sorted(u + v) == Sorted(v + u)
  {
    SortedAscending(v + u);
    SortIsUnique(u + v, Sorted(v + u));
  }

  /** Library call: sorts by time, then index. */
  method SortPacketFlows(rows: seq<Row>) returns (r: seq<Row>)
    ensures Ascending(r) && multiset(r) == multiset(rows)
  {
    SortedAscending(rows);
    r := Sorted(rows);
  }

  // ---------------------------------------------------------------------------------------------
  // The newest rows

  function Last(rows: seq<Row>, n: int): seq<Row> {
    if n <= 0 then [] else if |rows| <= n then rows else rows[|rows|-n..]
  }

  /** The `n` newest rows of a history, in ascending order. */
  function Newest(history: seq<Row>, n: int): seq<Row> {
    Last(Sorted(history), n)
  }

  lemma LastSnoc(rows: seq<Row>, m: Row, n: int)
    requires n >= 1
    ensures Last(rows + [m], n) == Last(rows, n - 1) + [m]
  {
  }

  lemma LastLast(rows: seq<Row>, n: int, k: int)
    requires k <= n
    ensures Last(Last(rows, n), k) == Last(rows, k)
  {
  }

  lemma LastAscending(rows: seq<Row>, n: int)
    requires Ascending(rows)
    ensures Ascending(Last(rows, n)) && forall x | x in Last(rows, n) :: x in rows
  {
    hide Before;
  }

  lemma InsertInside(init: seq<Row>, last: Row, m: Row)
    ensures Insert(init + [last], m) == if Before(m, last) then Insert(init, m) + [last] else init + [last] + [m]
  {
    assert (init + [last])[..|init|] == init;
  }

  /** To know the newest rows after an insertion it is enough to know the newest before it. */
  lemma {:induction false} InsertLast(rows: seq<Row>, m: Row, n: int)
    ensures Last(Insert(rows, m), n) == Last(Insert(Last(rows, n), m), n)
  {
    hide Before, Insert;
    if n > 0 && rows != [] {
      hide Last;
      var init, last := rows[..|rows|-1], rows[|rows|-1];
      var short := Last(init, n - 1);
      assert rows == init + [last];
      LastSnoc(init, last, n);
      InsertInside(init, last, m);
      InsertInside(short, last, m);
      if Before(m, last) {
        InsertLast(init, m, n - 1);
        LastSnoc(Insert(init, m), last, n);
        LastSnoc(Insert(short, m), last, n);
      } else {
        LastSnoc(rows, m, n);
        LastSnoc(Last(rows, n), m, n);
        LastLast(rows, n, n - 1);
      }
    }
  }

  lemma NewestAscending(history: seq<Row>, n: int)
    ensures Ascending(Newest(history, n)) && forall x | x in Newest(history, n) :: x in history
  {
    hide Sorted, Before, Last;
    SortedAscending(history);
    LastAscending(Sorted(history), n);
    forall x | x in Newest(history, n) ensures x in history {
      assert x in multiset(Sorted(history));
    }
  }

  // The newest rows by their meaning: a row is among them when fewer than n rows rank after it.

  function RanksAfter(m: Row): Row -> bool {
    (other: Row) => Before(m, other)
  }

  lemma {:induction false} InsertCount(rows: seq<Row>, m: Row, f: Row -> bool)
    ensures Count(Insert(rows, m), f) == Count(rows, f) + if f(m) then 1 else 0
  {
    hide Before;
    if rows == [] || !Before(m, rows[|rows|-1]) {
      CountSnoc(rows, m, f);
    } else {
      var init, last := rows[..|rows|-1], rows[|rows|-1];
      InsertCount(init, m, f);
      CountSnoc(Insert(init, m), last, f);
    }
  }

  lemma {:induction false} SortedCount(rows: seq<Row>, f: Row -> bool)
    ensures Count(Sorted(rows), f) == Count(rows, f)
  {
    if rows != [] {
      var init := rows[..|rows|-1];
      SortedCount(init, f);
      InsertCount(Sorted(init), rows[|rows|-1], f);
    }
  }

  lemma {:induction false} LastByRank(rows: seq<Row>, m: Row, n: int)
    requires Ascending(rows) && Indexed(rows) && m in rows
    ensures m in Last(rows, n) <==> Count(rows, RanksAfter(m)) < n
  {
    hide Before, IndexOf;
    var init, last := rows[..|rows|-1], rows[|rows|-1];
    assert rows == init + [last];
    if m == last {
      forall x | x in rows ensures !RanksAfter(m)(x) {
        var i :| 0 <= i < |rows| && rows[i] == x;
        IrreflexiveBefore(m);
      }
      CountNone(rows, RanksAfter(m));
    } else {
      var i :| 0 <= i < |init| && init[i] == m;
      assert !Before(rows[|rows|-1], rows[i]);
      if !Before(m, last) {
        RankDecides(m, last);
      }
      LastByRank(init, m, n - 1);
      if n >= 1 {
        LastSnoc(init, last, n);
      }
    }
  }

  lemma NewestByRank(history: seq<Row>, m: Row, n: int)
    requires Indexed(history)
    ensures m in Newest(history, n) <==> m in history && Count(history, RanksAfter(m)) < n
  {
    hide Before, IndexOf, Sorted, Last;
    NewestAscending(history, n);
    SortedAscending(history);
    SortedCount(history, RanksAfter(m));
    if m in history {
      assert m in multiset(Sorted(history));
      forall x | x in Sorted(history) ensures x in history {
        assert x in multiset(history);
      }
      IndexedSubset(history, Sorted(history));
      LastByRank(Sorted(history), m, n);
    }
  }

  /** Rows later than this one, or of the same time and numbered later. */
  function Later(m: Row): Row -> bool {
    (other: Row) => TimeMs(other) > TimeMs(m) || (TimeMs(other) == TimeMs(m) && IndexOf(other) > IndexOf(m))
  }

  /** The newest rows, without reference to any sorting: those that fewer than `n` rows are later than. */
  lemma NewestMeaning(history: seq<Row>, m: Row, n: int)
    requires Indexed(history)
    ensures m in Newest(history, n) <==> m in history && Count(history, Later(m)) < n
  {
    hide TimeMs, IndexOf, Newest, Count, Indexed;
    NewestByRank(history, m, n);
    CountAgrees(history, RanksAfter(m), Later(m));
  }

  /** Appending to a cut buffer and cutting again keeps it the newest of the whole history. */
  lemma NewestStreams(history: seq<Row>, m: Row, n: int)
    ensures Newest(history + [m], n) == Last(Sorted(Newest(history, n) + [m]), n)
  {
    hide Before, Last, Insert;
    var kept := Newest(history, n);
    NewestAscending(history, n);
    SortedFixed(kept);
    assert (history + [m])[..|history|] == history && (kept + [m])[..|kept|] == kept;
    InsertLast(Sorted(history), m, n);
  }

  /** Cutting the first of two parts to its `n` newest rows does not change the `n` newest of both. */
  lemma {:induction false} CutFirst(u: seq<Row>, v: seq<Row>, n: int)
    ensures Newest(u + v, n) == Newest(Newest(u, n) + v, n)
  {
    hide Before, Insert, Last;
    var cut := Newest(u, n);
    NewestAscending(u, n);
    if v == [] {
      SortedFixed(cut);
      LastLast(Sorted(u), n, n);
      assert u + v == u && cut + v == cut;
    } else {
      var init, m := v[..|v|-1], v[|v|-1];
      CutFirst(u, init, n);
      assert (u + v)[..|u + v|-1] == u + init && (cut + v)[..|cut + v|-1] == cut + init;
      InsertLast(Sorted(u + init), m, n);
      InsertLast(Sorted(cut + init), m, n);
    }
  }

  lemma IndexedMore(rows: seq<Row>, m: Row, more: seq<Row>)
    requires Indexed(rows) && (forall x | x in rows :: IndexOf(x) < IndexOf(m))
    requires forall x | x in more :: x in rows || x == m
    ensures Indexed(more)
  {
  }

  lemma IndexedSubset(rows: seq<Row>, part: seq<Row>)
    requires Indexed(rows) && forall x | x in part :: x in rows
    ensures Indexed(part)
  {
  }

  /** Two histories cut to `a` and `b` rows still show the newest `n` of both, for `n` up to `a` and `b`. */
  lemma MergeNewest(wire: seq<Row>, plain: seq<Row>, a: int, b: int, n: int)
    requires Indexed(wire + plain) && n <= a && n <= b
    ensures Newest(Newest(wire, a) + Newest(plain, b), n) == Newest(wire + plain, n)
  {
    hide Before, Sorted, Last, IndexOf;
    var w, p := Newest(wire, a), Newest(plain, b);
    NewestAscending(wire, a);
    NewestAscending(plain, b);
    // Either side may be replaced by its n newest rows, and those are the same before and after the cut.
    CutFirst(w, p, n);
    SortedFixed(w);
    LastLast(Sorted(wire), a, n);
    CutFirst(wire, p, n);
    IndexedSubset(wire + plain, wire + p);
    SortedCommutes(wire, p);
    CutFirst(p, wire, n);
    SortedFixed(p);
    LastLast(Sorted(plain), b, n);
    CutFirst(plain, wire, n);
    SortedCommutes(wire, plain);
  }

  // ---------------------------------------------------------------------------------------------
  // What the table shows

  /** The table over two histories, through the two cut buffers. */
  function Shown(wire: seq<Row>, plain: seq<Row>, showCount: int): seq<Row> {
    Newest(Newest(wire, WIRE_KEEP_COUNT) + Newest(plain, PLAINTEXT_KEEP_COUNT), showCount)
  }

  /** Histories as they are filed with TLS capture on: frames on one side, plaintext on the other. */
  ghost predicate Filed(wire: seq<Row>, plain: seq<Row>) {
    && Indexed(wire + plain)
    && (forall x | x in wire :: "Data" in x && !IsPlaintext(x) && Displayable(x))
    && (forall x | x in plain :: IsPlaintext(x) && Displayable(x))
  }

  lemma FiledMore(wire: seq<Row>, plain: seq<Row>, m: Row)
    requires Filed(wire, plain) && Displayable(m) && forall x | x in wire + plain :: IndexOf(x) < IndexOf(m)
    ensures IsPlaintext(m) ==> Filed(wire, plain + [m]) && Indexed(plain + [m])
    ensures !IsPlaintext(m) && "Data" in m ==> Filed(wire + [m], plain) && Indexed(wire + [m])
  {
    hide IndexOf, Indexed, IsPlaintext, Displayable;
    IndexedMore(wire + plain, m, plain + [m]);
    IndexedMore(wire + plain, m, wire + (plain + [m]));
    IndexedMore(wire + plain, m, wire + [m]);
    IndexedMore(wire + plain, m, (wire + [m]) + plain);
  }

  function SampleRow(i: int): Row {
    map["Time" := Float(i as real), "Index" := Int(i), "Data" := Text("")]
  }

  function Sample(n: nat): (rows: seq<Row>)
    ensures |rows| == n
  {
    seq(n, i => SampleRow(i))
  }

  lemma SampleFiled(n: nat)
    ensures Filed(Sample(n), [])
  {
    assert Sample(n) + [] == Sample(n);
    forall x, y | x in Sample(n) && y in Sample(n) && IndexOf(x) == IndexOf(y) ensures x == y {
      var i :| 0 <= i < n && SampleRow(i) == x;
      var j :| 0 <= j < n && SampleRow(j) == y;
    }
  }

  /** One frame too many, and the table falls short. */
  lemma ShownCanFallShort(showCount: int)
    requires showCount > 200
    ensures var rows := Sample(201);
      Filed(rows, []) && Shown(rows, [], showCount) != Newest(rows + [], showCount)
  {
    var rows := Sample(WIRE_KEEP_COUNT + 1);
    SampleFiled(WIRE_KEEP_COUNT + 1);
    assert rows + [] == rows;
    assert |Newest(rows, WIRE_KEEP_COUNT)| == WIRE_KEEP_COUNT;
    assert |Newest([], PLAINTEXT_KEEP_COUNT)| == 0;
  }

  /** The table is the newest rows of everything accepted, for all histories, exactly when no more rows are asked
      for than the smaller buffer keeps. */
  lemma ShownIsFaithful(showCount: int)
    ensures (forall wire, plain | Filed(wire, plain) ::
               Shown(wire, plain, showCount) == Newest(wire + plain, showCount))
       <==> showCount <= 200
  {
    hide Sorted, Last, Indexed;
    if showCount <= WIRE_KEEP_COUNT {
      forall wire, plain | Filed(wire, plain)
        ensures Shown(wire, plain, showCount) == Newest(wire + plain, showCount)
      {
        MergeNewest(wire, plain, WIRE_KEEP_COUNT, PLAINTEXT_KEEP_COUNT, showCount);
      }
    } else {
      ShownCanFallShort(showCount);
    }
  }

  function SamplePlaintext(n: nat): (rows: seq<Row>)
    ensures |rows| == n
  {
    seq(n, i => SampleRow(i)["RecordType" := Text("plaintext")])
  }

  lemma SamplePlaintextFiled(n: nat)
    ensures Filed([], SamplePlaintext(n))
  {
    assert [] + SamplePlaintext(n) == SamplePlaintext(n);
    forall x, y | x in SamplePlaintext(n) && y in SamplePlaintext(n) && IndexOf(x) == IndexOf(y) ensures x == y {
      var i :| 0 <= i < n && SampleRow(i)["RecordType" := Text("plaintext")] == x;
      var j :| 0 <= j < n && SampleRow(j)["RecordType" := Text("plaintext")] == y;
    }
  }

  lemma NewestOfNewest(history: seq<Row>, a: int, n: int)
    ensures Newest([] + Newest(history, a), n) == Last(Newest(history, a), n)
    ensures n <= a ==> Newest([] + Newest(history, a), n) == Newest(history, n)
  {
    hide Before, Last, Sorted;
    assert [] + Newest(history, a) == Newest(history, a);
    NewestAscending(history, a);
    SortedFixed(Newest(history, a));
    if n <= a {
      LastLast(Sorted(history), a, n);
    }
  }

  /** With plaintext alone the limit is what its buffer keeps. */
  lemma PlaintextShownIsFaithful(showCount: int)
    ensures (forall plain | Filed([], plain) :: Shown([], plain, showCount) == Newest(plain, showCount))
       <==> showCount <= 300
  {
    hide Sorted;
    assert Newest([], WIRE_KEEP_COUNT) == [];
    if showCount <= PLAINTEXT_KEEP_COUNT {
      forall plain | Filed([], plain) ensures Shown([], plain, showCount) == Newest(plain, showCount) {
        NewestOfNewest(plain, PLAINTEXT_KEEP_COUNT, showCount);
      }
    } else {
      var rows := SamplePlaintext(PLAINTEXT_KEEP_COUNT + 1);
      SamplePlaintextFiled(PLAINTEXT_KEEP_COUNT + 1);
      NewestOfNewest(rows, PLAINTEXT_KEEP_COUNT, showCount);
      assert |Shown([], rows, showCount)| == PLAINTEXT_KEEP_COUNT < |Newest(rows, showCount)|;
    }
  }

  /** The table over the one buffer that is used without TLS capture. */
  function ShownAlone(flows: seq<Row>, showCount: int): seq<Row> {
    Last(Newest(flows, KEEP_COUNT), showCount)
  }

  /** A history as that buffer takes it: rows of any kind. */
  ghost predicate Mixed(flows: seq<Row>) {
    Indexed(flows) && forall x | x in flows :: Displayable(x)
  }

  /** Without TLS capture the limit is what that buffer keeps. */
  lemma ShownAloneIsFaithful(showCount: int)
    ensures (forall flows | Mixed(flows) :: ShownAlone(flows, showCount) == Newest(flows, showCount))
       <==> showCount <= 100
  {
    hide Sorted;
    if showCount <= KEEP_COUNT {
      forall flows | Mixed(flows) ensures ShownAlone(flows, showCount) == Newest(flows, showCount) {
        LastLast(Sorted(flows), KEEP_COUNT, showCount);
      }
    } else {
      var rows := Sample(KEEP_COUNT + 1);
      SampleFiled(KEEP_COUNT + 1);
      assert rows + [] == rows && Mixed(rows);
      assert |ShownAlone(rows, showCount)| == KEEP_COUNT < |Newest(rows, showCount)|;
    }
  }

  // ---------------------------------------------------------------------------------------------
  // The buffers

  class LiveTable {
    const tlsCapture: bool
    var paused: bool
    var showCount: int
    var flowIndex: nat
    var lastFlows: seq<Row>
    var lastWirePackets: seq<Row>
    var lastPlaintextFlows: seq<Row>

    // Every row accepted since the buffer it went to was last cleared, in order of acceptance.
    ghost var flows: seq<Row>
    ghost var wire: seq<Row>
    ghost var plain: seq<Row>

    ghost predicate Valid()
      reads this
    {
      && Mixed(flows) && Filed(wire, plain)
      && (forall x | x in flows + wire + plain :: IndexOf(x) < flowIndex)
      && lastFlows == Newest(flows, KEEP_COUNT)
      && lastWirePackets == Newest(wire, WIRE_KEEP_COUNT)
      && lastPlaintextFlows == Newest(plain, PLAINTEXT_KEEP_COUNT)
    }

    constructor (tlsCapture: bool, showCount: int)
      ensures Valid() && flows == wire == plain == []
      ensures this.tlsCapture == tlsCapture && this.showCount == showCount && !paused
    {
      this.tlsCapture, this.showCount, paused, flowIndex := tlsCapture, showCount, false, 0;
      lastFlows, lastWirePackets, lastPlaintextFlows := [], [], [];
      flows, wire, plain := [], [], [];
    }

    method ClearPacketCaptureBuffers()
      requires Valid()
      modifies this`lastWirePackets, this`lastPlaintextFlows, this`wire, this`plain
      ensures Valid() && wire == plain == []
    {
      hide Before, IndexOf, IsPlaintext, Displayable;
      assert forall x | x in flows :: x in flows + old(wire) + old(plain);
      lastWirePackets, lastPlaintextFlows := [], [];
      wire, plain := [], [];
    }

    static method AppendToTimeSortedBuffer(buf: seq<Row>, m: Row, maxLen: nat, ghost history: seq<Row>)
      returns (r: seq<Row>)
      requires buf == Newest(history, maxLen) && Indexed(history + [m])
      ensures r == Newest(history + [m], maxLen)
    {
      hide Sorted, Before, IndexOf;
      NewestAscending(history, maxLen);
      IndexedSubset(history + [m], buf + [m]);
      NewestStreams(history, m, maxLen);
      var rows := SortPacketFlows(buf + [m]);
      SortIsUnique(buf + [m], rows);
      r := rows;
      if |r| > maxLen {
        r := r[|r| - maxLen..];
      }
    }

    /** Accepts a row unless the display is paused, gives it the next index and files it by kind. */
    method AppendFlow(m: Row)
      requires Valid() && Displayable(m)
      modifies this`flowIndex, this`lastFlows, this`lastWirePackets, this`lastPlaintextFlows,
               this`flows, this`wire, this`plain
      ensures Valid()
      ensures paused ==> unchanged(this)
      ensures !paused ==> flowIndex == old(flowIndex) + 1
      ensures !paused ==>
        var row := m["Index" := Int(old(flowIndex))];
        if tlsCapture && IsPlaintext(row) then
          plain == old(plain) + [row] && wire == old(wire) && flows == old(flows)
        else if tlsCapture && "Data" in row then
          wire == old(wire) + [row] && plain == old(plain) && flows == old(flows)
        else
          flows == old(flows) + [row] && wire == old(wire) && plain == old(plain)
    {
      hide Newest, Before, IsPlaintext, Indexed, Filed;
      if paused {
        return;
      }
      var row := m["Index" := Int(flowIndex)];
      assert IndexOf(row) == flowIndex;
      hide IndexOf;
      if tlsCapture && (IsPlaintext(row) || "Data" in row) {
        FiledMore(wire, plain, row);
      }
      flowIndex := flowIndex + 1;
      if tlsCapture && IsPlaintext(row) {
        lastPlaintextFlows := AppendToTimeSortedBuffer(lastPlaintextFlows, row, PLAINTEXT_KEEP_COUNT, plain);
        plain := plain + [row];
      } else if tlsCapture && "Data" in row {
        lastWirePackets := AppendToTimeSortedBuffer(lastWirePackets, row, WIRE_KEEP_COUNT, wire);
        wire := wire + [row];
      } else {
        IndexedMore(flows, row, flows + [row]);
        lastFlows := AppendToTimeSortedBuffer(lastFlows, row, KEEP_COUNT, flows);
        flows := flows + [row];
      }
    }

    method PacketCaptureFlowSnapshot() returns (rows: seq<Row>)
      requires Valid()
      ensures tlsCapture ==> rows == Sorted(Newest(wire, WIRE_KEEP_COUNT) + Newest(plain, PLAINTEXT_KEEP_COUNT))
      ensures !tlsCapture ==> rows == Newest(flows, KEEP_COUNT)
    {
      hide Sorted, Before, IndexOf, Last;
      if tlsCapture {
        var merged := lastWirePackets + lastPlaintextFlows;
        NewestAscending(wire, WIRE_KEEP_COUNT);
        NewestAscending(plain, PLAINTEXT_KEEP_COUNT);
        IndexedSubset(wire + plain, merged);
        rows := SortPacketFlows(merged);
        SortIsUnique(merged, rows);
        return;
      }
      rows := lastFlows;
    }

    /** Cuts to the newest rows; the rows come in any order, and stay in it when there are no more than wanted. */
    static method TrimFlowsToShowCount(rows: seq<Row>, limit: int) returns (r: seq<Row>)
      ensures limit <= 0 ==> r == []
      ensures 0 < limit && |rows| <= limit ==> r == rows
      ensures 0 < limit < |rows| ==> exists sorted: seq<Row> ::
        Ascending(sorted) && multiset(sorted) == multiset(rows) && r == Last(sorted, limit)
      ensures 0 < limit < |rows| && Indexed(rows) ==> r == Newest(rows, limit)
    {
      hide Before, IndexOf, Sorted;
      if limit <= 0 {
        return [];
      }
      if |rows| <= limit {
        return rows;
      }
      var sorted := SortPacketFlows(rows);
      assert Indexed(rows) ==> sorted == Sorted(rows) by {
        if Indexed(rows) {
          SortIsUnique(rows, sorted);
        }
      }
      assert |sorted| == |multiset(rows)| == |rows|;
      r := sorted[|sorted| - limit..];
      assert r == Last(sorted, limit);
    }

    /** The rows of the table; with TLS capture on, those of both histories, else those of the one buffer. */
    method GetFlows() returns (rows: seq<Row>)
      requires Valid()
      ensures tlsCapture ==> rows == Shown(wire, plain, showCount)
      ensures tlsCapture && showCount <= 200 ==> rows == Newest(wire + plain, showCount)
      ensures !tlsCapture ==> rows == ShownAlone(flows, showCount)
      ensures !tlsCapture && showCount <= 100 ==> rows == Newest(flows, showCount)
    {
      hide Sorted, Before, IndexOf;
      rows := PacketCaptureFlowSnapshot();
      NewestAscending(wire, WIRE_KEEP_COUNT);
      NewestAscending(plain, PLAINTEXT_KEEP_COUNT);
      NewestAscending(flows, KEEP_COUNT);
      var merged := Newest(wire, WIRE_KEEP_COUNT) + Newest(plain, PLAINTEXT_KEEP_COUNT);
      IndexedSubset(wire + plain, merged);
      SortedAscending(merged);
      forall x | x in rows ensures x in if tlsCapture then merged else flows {
        if tlsCapture {
          assert x in multiset(Sorted(merged));
        }
      }
      IndexedSubset(if tlsCapture then merged else flows, rows);
      SortedFixed(rows);
      rows := TrimFlowsToShowCount(rows, showCount);
      if tlsCapture && showCount <= WIRE_KEEP_COUNT {
        MergeNewest(wire, plain, WIRE_KEEP_COUNT, PLAINTEXT_KEEP_COUNT, showCount);
      }
      if !tlsCapture && showCount <= KEEP_COUNT {
        LastLast(Sorted(flows), KEEP_COUNT, showCount);
      }
    }
  }
}
