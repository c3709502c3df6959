/** Generic records, endpoints and connection tuples.

    A record is a map from field names to tagged values, as decoded from the agent's JSON or written by
    the tool itself.  Library code that is not part of the model (address parsing, lower-casing, payload
    decoding, frame decoding) appears as constants of function type: nothing is known of them beyond
    their type, so every result holds whatever they compute. */
module Records {

  datatype Option<+T> = None | Some(value: T)

  newtype byte = b: int | 0 <= b < 256
  type Bytes = seq<byte>

  type Port = n: int | 0 <= n <= 65535

  datatype Value =
    | Null
    | Text(text: string)
    | Float(number: real)
    | U16(port: Port)
    | Int(n: int)
    | Int64(n64: int)
    | U64(u: nat)
    | Bool(flag: bool)
    | Other(encoded: string)

  type GenericMap = map<string, Value>

  // ---------------------------------------------------------------------------------------------
  // Library functions

  /** An address parser followed by printing: the canonical text of an address, which parses to itself. */
  ghost predicate IsAddressParser(f: string -> Option<string>) {
    && f("127.0.0.1") == Some("127.0.0.1") && f("0.0.0.0") == Some("0.0.0.0") && f("::") == Some("::")
    && f("").None?
    && forall s :: f(s).Some? ==> f(f(s).value) == f(s)
  }

  type AddressParser = f: string -> Option<string> | IsAddressParser(f)
    witness (s: string) => if s in {"127.0.0.1", "0.0.0.0", "::"} then Some(s) else None

  const ParseIP: AddressParser

  /** The text of a parsed address. */
  type Address = s: string | ParseIP(s) == Some(s) witness "127.0.0.1"

  const NetContains: (string, Address) -> bool
  const ToLower: string -> string
  const DecodeBase64: string -> Option<Bytes>
  /** Length of the TCP payload of a frame, None when the frame has no readable TCP layer. */
  const TCPPayloadLen: Bytes -> Option<nat>
  /** Application bytes of a record, from its Plaintext and PlaintextPreview fields. */
  const PayloadBytes: (Value, Value) -> Bytes

  // ---------------------------------------------------------------------------------------------
  // Fields

  function Field(m: GenericMap, key: string): Value {
    if key in m then m[key] else Null
  }

  predicate FieldIs(m: GenericMap, key: string, text: string) {
    Field(m, key) == Text(text)
  }

  predicate HasPrefix(s: string, prefix: string) {
    |prefix| <= |s| && forall i :: 0 <= i < |prefix| ==> s[i] == prefix[i]
  }

  // ---------------------------------------------------------------------------------------------
  // Addresses

  /** A usable address: it parses and is not the unspecified one. */
  function ValidIP(v: Value): Option<Address> {
    if !v.Text? || v.text == "" || v.text == "0.0.0.0" || v.text == "::" then None
    else match ParseIP(v.text)
      case None => None
      case Some(ip) => if ip == "0.0.0.0" || ip == "::" then None else Some(ip)
  }

  lemma ValidIPCanonical(v: Value)
    requires ValidIP(v).Some?
    ensures ValidIP(v).value != "" && ValidIP(Text(ValidIP(v).value)) == ValidIP(v)
  {
  }

  /** A text is a usable address exactly when it parses, to anything but the unspecified addresses; nothing else is. */
  lemma ValidIPMeaning(v: Value, ip: Address)
    ensures ValidIP(v) == Some(ip) <==> v.Text? && ParseIP(v.text) == Some(ip) && ip != "0.0.0.0" && ip != "::"
  {
  }

  function Addr(m: GenericMap, key: string): Option<Address> {
    ValidIP(Field(m, key))
  }

  // ---------------------------------------------------------------------------------------------
  // Ports

  /** Conversion of a floating-point number to an integer, which truncates toward zero. */
  function Truncate(r: real): int {
    if r >= 0.0 then r.Floor else -((-r).Floor)
  }

  function PortInRange(v: int): Option<Port> {
    if 0 <= v <= 65535 then Some(v) else None
  }

  predicate IsSpace(c: char) {
    var u := c as int;
    || 0x09 <= u <= 0x0D || u == 0x20 || u == 0x85 || u == 0xA0 || u == 0x1680
    || 0x2000 <= u <= 0x200A || u == 0x2028 || u == 0x2029 || u == 0x202F || u == 0x205F || u == 0x3000
  }

  /** White space is what the Unicode property of that name lists. */
  lemma SpaceMeaning(c: char)
    ensures IsSpace(c) <==> c as int in {
      0x09, 0x0A, 0x0B, 0x0C, 0x0D, 0x20, 0x85, 0xA0, 0x1680, 0x2000, 0x2001, 0x2002, 0x2003, 0x2004, 0x2005, 0x2006,
      0x2007, 0x2008, 0x2009, 0x200A, 0x2028, 0x2029, 0x202F, 0x205F, 0x3000}
  {
  }

  function TrimLeft(s: string): string {
    if s != "" && IsSpace(s[0]) then TrimLeft(s[1..]) else s
  }

  function TrimRight(s: string): string {
    if s != "" && IsSpace(s[|s|-1]) then TrimRight(s[..|s|-1]) else s
  }

  function BeforeParen(s: string): string {
    if s == "" || s[0] == '(' then "" else [s[0]] + BeforeParen(s[1..])
  }

  predicate IsDigit(c: char) {
    '0' <= c <= '9'
  }

  function DecimalValue(s: string): nat
    requires forall c :: c in s ==> IsDigit(c)
  {
    if s == "" then 0 else
      var last := s[|s|-1];
      assert last in s && IsDigit(last);
      10 * DecimalValue(s[..|s|-1]) + (last as int - '0' as int)
  }

  /** Accepts decoder-style port texts such as "443(https)". */
  function ParsePortString(s: string): Option<Port> {
    var digits := TrimRight(TrimLeft(BeforeParen(s)));
    if digits != "" && forall c :: c in digits ==> IsDigit(c) then PortInRange(DecimalValue(digits)) else None
  }

  function PortOf(v: Value): Option<Port> {
    match v
    case Text(s) => ParsePortString(s)
    case Float(x) => PortInRange(Truncate(x))
    case U16(p) => Some(p)
    case Int(n) => PortInRange(n)
    case Int64(n) => PortInRange(n)
    case _ => None
  }

  function PortAt(m: GenericMap, key: string): Option<Port> {
    PortOf(Field(m, key))
  }

  /** Numbers are ports when they are in range after their fraction is dropped; of the other values only texts are. */
  lemma PortOfNumber(v: Value, p: Port)
    ensures v.Float? ==> (PortOf(v) == Some(p) <==> if p == 0 then -1.0 < v.number < 1.0
                                                    else p as real <= v.number < p as real + 1.0)
    ensures v == Int(p) || v == Int64(p) || v == U16(p) ==> PortOf(v) == Some(p)
    ensures v.Int? && !(0 <= v.n <= 65535) ==> PortOf(v).None?
    ensures v.Int64? && !(0 <= v.n64 <= 65535) ==> PortOf(v).None?
    ensures v.Null? || v.Bool? || v.U64? || v.Other? ==> PortOf(v).None?
  {
  }

  // Which texts are ports: digits of a value in range, with space around them and anything in parentheses behind.

  predicate Blank(s: string) {
    forall c :: c in s ==> IsSpace(c)
  }

  predicate Digits(s: string) {
    forall c :: c in s ==> IsDigit(c)
  }

  /** `left`, `digits` and `right` make up the text before its first parenthesis, if it has one. */
  predicate ReadsAs(s: string, left: string, digits: string, right: string) {
    && Blank(left) && Blank(right) && digits != "" && Digits(digits)
    && left + digits + right <= s
    && (left + digits + right == s || s[|left + digits + right|] == '(')
  }

  lemma {:induction false} BeforeParenPrefix(s: string)
    ensures BeforeParen(s) <= s && '(' !in BeforeParen(s)
    ensures BeforeParen(s) == s || s[|BeforeParen(s)|] == '('
  {
    if s != "" && s[0] != '(' {
      BeforeParenPrefix(s[1..]);
      assert s == [s[0]] + s[1..];
    }
  }

  lemma {:induction false} BeforeParenOf(part: string, s: string)
    requires '(' !in part && part <= s && (part == s || s[|part|] == '(')
    ensures BeforeParen(s) == part
  {
    if part != "" {
      assert part[0] in part;
      BeforeParenOf(part[1..], s[1..]);
    }
  }

  lemma {:induction false} TrimLeftMeaning(s: string) returns (left: string)
    ensures s == left + TrimLeft(s) && Blank(left)
    ensures TrimLeft(s) == "" || !IsSpace(TrimLeft(s)[0])
  {
    left := "";
    if s != "" && IsSpace(s[0]) {
      var rest := TrimLeftMeaning(s[1..]);
      left := [s[0]] + rest;
      assert s == [s[0]] + s[1..];
    }
  }

  lemma {:induction false} TrimRightMeaning(s: string) returns (right: string)
    ensures s == TrimRight(s) + right && Blank(right)
    ensures TrimRight(s) == "" || !IsSpace(TrimRight(s)[|TrimRight(s)|-1])
  {
    right := "";
    if s != "" && IsSpace(s[|s|-1]) {
      var rest := TrimRightMeaning(s[..|s|-1]);
      right := rest + [s[|s|-1]];
      assert s == s[..|s|-1] + [s[|s|-1]];
    }
  }

  lemma {:induction false} TrimLeftOf(left: string, s: string)
    requires Blank(left) && (s == "" || !IsSpace(s[0]))
    ensures TrimLeft(left + s) == s
  {
    if left == "" {
      assert left + s == s;
    } else {
      assert left[0] in left;
      TrimLeftOf(left[1..], s);
      assert (left + s)[1..] == left[1..] + s;
    }
  }

  lemma {:induction false} TrimRightOf(s: string, right: string)
    requires Blank(right) && (s == "" || !IsSpace(s[|s|-1]))
    ensures TrimRight(s + right) == s
  {
    if right == "" {
      assert s + right == s;
    } else {
      assert right[|right|-1] in right;
      TrimRightOf(s, right[..|right|-1]);
      assert (s + right)[..|s + right|-1] == s + right[..|right|-1];
    }
  }

  lemma ParsePortReads(s: string, left: string, digits: string, right: string)
    requires ReadsAs(s, left, digits, right)
    ensures ParsePortString(s) == PortInRange(DecimalValue(digits))
  {
    assert digits[0] in digits && digits[|digits|-1] in digits;
    BeforeParenOf(left + digits + right, s);
    assert left + digits + right == left + (digits + right);
    assert (digits + right)[0] == digits[0];
    TrimLeftOf(left, digits + right);
    TrimRightOf(digits, right);
  }

  lemma ParsePortSplits(s: string) returns (left: string, digits: string, right: string)
    requires ParsePortString(s).Some?
    ensures ReadsAs(s, left, digits, right)
  {
    hide IsSpace, IsDigit;
    BeforeParenPrefix(s);
    left := TrimLeftMeaning(BeforeParen(s));
    right := TrimRightMeaning(TrimLeft(BeforeParen(s)));
    digits := TrimRight(TrimLeft(BeforeParen(s)));
    hide TrimLeft, TrimRight, BeforeParen;
    assert BeforeParen(s) == left + digits + right;
  }

  /** A text is a port exactly when it reads as digits of that value. */
  lemma ParsePortMeaning(s: string, p: Port)
    ensures ParsePortString(s) == Some(p) <==>
      exists left, digits, right :: ReadsAs(s, left, digits, right) && DecimalValue(digits) == p
  {
    hide ParsePortString, Blank, IsDigit;
    if ParsePortString(s) == Some(p) {
      var left, digits, right := ParsePortSplits(s);
      ParsePortReads(s, left, digits, right);
    }
    if left, digits, right :| ReadsAs(s, left, digits, right) && DecimalValue(digits) == p {
      ParsePortReads(s, left, digits, right);
    }
  }

  // A port printed in decimal, possibly followed by a service name in parentheses, reads back as itself.

  function Decimal(n: nat): (s: string)
    ensures s != "" && forall c :: c in s ==> IsDigit(c)
  {
    var last := [(n % 10 + '0' as int) as char];
    if n < 10 then last else Decimal(n / 10) + last
  }

  lemma {:induction false} DecimalRoundTrip(n: nat)
    ensures DecimalValue(Decimal(n)) == n
  {
    if n >= 10 {
      DecimalRoundTrip(n / 10);
      var s := Decimal(n);
      assert s[..|s|-1] == Decimal(n / 10);
    } else {
      assert Decimal(n)[..0] == "";
    }
  }

  lemma {:induction false} BeforeParenOfDigits(digits: string, rest: string)
    requires forall c :: c in digits ==> IsDigit(c)
    requires rest == "" || rest[0] == '('
    ensures BeforeParen(digits + rest) == digits
  {
    if digits == "" {
      assert digits + rest == rest;
    } else {
      BeforeParenOfDigits(digits[1..], rest);
      assert digits[0] in digits;
      assert (digits + rest)[1..] == digits[1..] + rest;
    }
  }

  lemma PortTextRoundTrip(p: Port, rest: string)
    requires rest == "" || rest[0] == '('
    ensures ParsePortString(Decimal(p) + rest) == Some(p)
  {
    var digits := Decimal(p);
    BeforeParenOfDigits(digits, rest);
    assert digits[0] in digits && digits[|digits|-1] in digits;
    DecimalRoundTrip(p);
  }

  // ---------------------------------------------------------------------------------------------
  // Tuples

  datatype FlowTuple = FlowTuple(srcIP: Address, srcPort: Port, dstIP: Address, dstPort: Port) {
    function Reverse(): FlowTuple {
      FlowTuple(dstIP, dstPort, srcIP, srcPort)
    }
  }

  function TupleOf(m: GenericMap): Option<FlowTuple> {
    match (Addr(m, "SrcAddr"), PortAt(m, "SrcPort"), Addr(m, "DstAddr"), PortAt(m, "DstPort"))
    case (Some(src), Some(sport), Some(dst), Some(dport)) => Some(FlowTuple(src, sport, dst, dport))
    case _ => None
  }

  predicate HasTuple(m: GenericMap) {
    TupleOf(m).Some?
  }

  /** Two tuples name one connection, seen from either end. */
  predicate SameConnection(a: FlowTuple, b: FlowTuple) {
    a == b || a == b.Reverse()
  }

  function SetTuple(m: GenericMap, t: FlowTuple): GenericMap {
    m["SrcAddr" := Text(t.srcIP)]["DstAddr" := Text(t.dstIP)]
     ["SrcPort" := U16(t.srcPort)]["DstPort" := U16(t.dstPort)]["Proto" := Float(6.0)]
  }

  lemma SetTupleReadsBack(m: GenericMap, t: FlowTuple)
    requires ValidIP(Text(t.srcIP)) == Some(t.srcIP) && ValidIP(Text(t.dstIP)) == Some(t.dstIP)
    ensures TupleOf(SetTuple(m, t)) == Some(t)
  {
  }

  /** The tuple depends on four fields only. */
  lemma TupleFromFields(a: GenericMap, b: GenericMap)
    requires Field(a, "SrcAddr") == Field(b, "SrcAddr") && Field(a, "SrcPort") == Field(b, "SrcPort")
    requires Field(a, "DstAddr") == Field(b, "DstAddr") && Field(a, "DstPort") == Field(b, "DstPort")
    ensures TupleOf(a) == TupleOf(b)
  {
  }

  /** A record as it comes from the agent, with addresses as text and ports as numbers, shows its tuple. */
  lemma TupleReadsJSON(m: GenericMap, t: FlowTuple)
    requires Field(m, "SrcAddr") == Text(t.srcIP) && Field(m, "SrcPort") == Float(t.srcPort as real)
    requires Field(m, "DstAddr") == Text(t.dstIP) && Field(m, "DstPort") == Float(t.dstPort as real)
    ensures TupleOf(m) == Some(t) <==>
      t.srcIP != "0.0.0.0" && t.srcIP != "::" && t.dstIP != "0.0.0.0" && t.dstIP != "::"
  {
    ValidIPMeaning(Text(t.srcIP), t.srcIP);
    ValidIPMeaning(Text(t.dstIP), t.dstIP);
    PortOfNumber(Field(m, "SrcPort"), t.srcPort);
    PortOfNumber(Field(m, "DstPort"), t.dstPort);
  }

  /** The tuple of a record whose endpoints are local-first, turned into network direction. */
  function NetworkTuple(m: GenericMap): Option<FlowTuple> {
    match TupleOf(m)
    case None => None
    case Some(t) => Some(if FieldIs(m, "Direction", "read") then t.Reverse() else t)
  }

  // ---------------------------------------------------------------------------------------------
  // Record kinds

  predicate IsPlaintext(m: GenericMap) {
    FieldIs(m, "RecordType", "plaintext")
  }

  /** Only a tuple taken from the socket during the TLS call proves connection identity. */
  predicate TupleVerified(m: GenericMap) {
    FieldIs(m, "TupleSource", "kernel") && HasTuple(m)
  }
}
