/**
 * The page tokens of orm/cursor.go: a versioned binary layout of varints and
 * length-prefixed strings, written out in unpadded base64url (section 5 of
 * RFC 4648). Go strings are sequences of bytes, tokens included.
 */
module CursorToken {
  import opened Basics

  type byte = x: int | 0 <= x < 256

  type Bytes = seq<byte>

  const UINT64_RANGE: int := 0x1_0000_0000_0000_0000
  const INT64_MIN: int := -0x8000_0000_0000_0000
  const INT64_MAX: int := 0x7fff_ffff_ffff_ffff
  const INT32_MIN: int := -0x8000_0000
  const INT32_MAX: int := 0x7fff_ffff
  const UINT32_MAX: int := 0xffff_ffff

  // ----------------------------------------------------------------- varints

  /** Seven bits a byte, least significant first; the high bit says there is more. */
  function PutUvarint(x: nat): Bytes {
    if x < 128 then [x] else [x % 128 + 128] + PutUvarint(x / 128)
  }

  /** What a uint64 has room for above the bits of the first i bytes. */
  function Room(i: nat): nat {
    match i
    case 0 => 0x1_0000_0000_0000_0000
    case 1 => 0x200_0000_0000_0000
    case 2 => 0x4_0000_0000_0000
    case 3 => 0x800_0000_0000
    case 4 => 0x10_0000_0000
    case 5 => 0x2000_0000
    case 6 => 0x40_0000
    case 7 => 0x8000
    case 8 => 0x100
    case 9 => 2
    case _ => 0
  }

  lemma RoomShrinks(i: nat)
    requires i < 9
    ensures Room(i) == 128 * Room(i + 1)
  {
  }

  /** A value and the number of bytes it took. */
  datatype Number = Number(value: nat, size: nat)

  /** The bytes from index i of a uvarint on; nothing if b ends too early or the value overflows. */
  function GetUvarintFrom(b: Bytes, i: nat): (r: Option<Number>)
    ensures r.Some? ==> 1 <= r.value.size <= |b| && r.value.value < Room(i)
    decreases b
  {
    if b == [] || i >= 10 then None
    else if b[0] < 128 then (if i == 9 && b[0] > 1 then None else Some(Number(b[0], 1)))
    else
      match GetUvarintFrom(b[1..], i + 1)
      case None => None
      case Some(n) => Some(Number(b[0] - 128 + 128 * n.value, n.size + 1))
  }

  function GetUvarint(b: Bytes): (r: Option<Number>)
    ensures r.Some? ==> 1 <= r.value.size <= |b| && r.value.value < UINT64_RANGE
  {
    GetUvarintFrom(b, 0)
  }

  lemma {:induction false} UvarintFromRoundTrip(x: nat, i: nat, rest: Bytes)
    requires x < Room(i)
    ensures GetUvarintFrom(PutUvarint(x) + rest, i) == Some(Number(x, |PutUvarint(x)|))
  {
    var b := PutUvarint(x) + rest;
    if x >= 128 {
      RoomShrinks(i);
      UvarintFromRoundTrip(x / 128, i + 1, rest);
      assert b[1..] == PutUvarint(x / 128) + rest;
    }
  }

  /** Any uint64, whatever follows it. */
  lemma UvarintRoundTrip(x: nat, rest: Bytes)
    requires x < UINT64_RANGE
    ensures GetUvarint(PutUvarint(x) + rest) == Some(Number(x, |PutUvarint(x)|))
  {
    UvarintFromRoundTrip(x, 0, rest);
  }

  /** Zigzag: small magnitudes become small numbers, the sign the lowest bit. */
  function ZigZag(x: int): nat {
    if x >= 0 then 2 * x else -2 * x - 1
  }

  function UnZigZag(u: nat): int {
    if u % 2 == 0 then u / 2 else -(u / 2) - 1
  }

  lemma ZigZagRoundTrip(x: int, u: nat)
    ensures UnZigZag(ZigZag(x)) == x && ZigZag(UnZigZag(u)) == u
    ensures ZigZag(x) < UINT64_RANGE <==> INT64_MIN <= x <= INT64_MAX
  {
  }

  /** A conversion to int32 keeps the low 32 bits. */
  function ToInt32(x: int): int {
    var low := x % 0x1_0000_0000;
    if low <= INT32_MAX then low else low - 0x1_0000_0000
  }

  // --------------------------------------------------------------- base64url

  /** A-Z, a-z, 0-9, - and _ */
  function Letter(d: nat): byte
    requires d < 64
  {
    if d < 26 then 65 + d else if d < 52 then 71 + d else if d < 62 then d - 4 else if d == 62 then 45 else 95
  }

  function Digit(c: byte): (d: Option<nat>)
    ensures d.Some? ==> d.value < 64
  {
    if 65 <= c <= 90 then Some(c - 65)
    else if 97 <= c <= 122 then Some(c - 71)
    else if 48 <= c <= 57 then Some(c + 4)
    else if c == 45 then Some(62)
    else if c == 95 then Some(63)
    else None
  }

  lemma DigitOfLetter(d: nat)
    requires d < 64
    ensures Digit(Letter(d)) == Some(d) && !IsNewline(Letter(d))
  {
  }

  predicate IsNewline(c: byte) {
    c == 10 || c == 13
  }

  type digit = x: int | 0 <= x < 64

  /** Three bytes are four digits; what is left over is two or three. */
  function ToDigits(b: Bytes): seq<digit> {
    if |b| == 0 then []
    else if |b| == 1 then [b[0] / 4, b[0] % 4 * 16]
    else if |b| == 2 then [b[0] / 4, b[0] % 4 * 16 + b[1] / 16, b[1] % 16 * 4]
    else FourDigits(b[0], b[1], b[2]) + ToDigits(b[3..])
  }

  /** The bytes of four digits; bits beyond the last whole byte are not looked at. */
  function Byte1(a: digit, b: digit): byte {
    (a as int) * 4 + (b as int) / 16
  }

  function Byte2(b: digit, c: digit): byte {
    (b as int) % 16 * 16 + (c as int) / 4
  }

  function Byte3(c: digit, d: digit): byte {
    (c as int) % 4 * 64 + (d as int)
  }

  /** A single digit left over is an error. */
  function FromDigits(d: seq<digit>): Option<Bytes> {
    if |d| == 0 then Some([])
    else if |d| == 1 then None
    else if |d| == 2 then Some([Byte1(d[0], d[1])])
    else if |d| == 3 then Some([Byte1(d[0], d[1]), Byte2(d[1], d[2])])
    else
      match FromDigits(d[4..])
      case None => None
      case Some(rest) => Some([Byte1(d[0], d[1]), Byte2(d[1], d[2]), Byte3(d[2], d[3])] + rest)
  }

  lemma BytesOfDigits(x: byte, y: byte, z: byte)
    ensures Byte1(x / 4, x % 4 * 16 + y / 16) == x
    ensures Byte2(x % 4 * 16 + y / 16, y % 16 * 4 + z / 64) == y
    ensures Byte3(y % 16 * 4 + z / 64, z % 64) == z
  {
  }

  lemma FromFourDigits(d: seq<digit>, first: Bytes, rest: Bytes)
    requires |d| >= 4 && FromDigits(d[4..]) == Some(rest)
    requires first == [Byte1(d[0], d[1]), Byte2(d[1], d[2]), Byte3(d[2], d[3])]
    ensures FromDigits(d) == Some(first + rest)
  {
  }

  function FourDigits(x: byte, y: byte, z: byte): seq<digit> {
    [x / 4, x % 4 * 16 + y / 16, y % 16 * 4 + z / 64, z % 64]
  }

  lemma OneByteRoundTrip(x: byte)
    ensures FromDigits(ToDigits([x])) == Some([x])
  {
  }

  lemma TwoBytesRoundTrip(x: byte, y: byte)
    ensures FromDigits(ToDigits([x, y])) == Some([x, y])
  {
    BytesOfDigits(x, y, 0);
    var d: seq<digit> := [x / 4, x % 4 * 16 + y / 16, y % 16 * 4];
    assert ToDigits([x, y]) == d;
    FromThreeDigits(d, x, y);
  }

  lemma FromThreeDigits(d: seq<digit>, x: byte, y: byte)
    requires |d| == 3 && Byte1(d[0], d[1]) == x && Byte2(d[1], d[2]) == y
    ensures FromDigits(d) == Some([x, y])
  {
  }

  lemma FourRoundTrip(x: byte, y: byte, z: byte, d: seq<digit>, rest: Bytes)
    requires FromDigits(d) == Some(rest)
    ensures FromDigits(FourDigits(x, y, z) + d) == Some([x, y, z] + rest)
  {
    BytesOfDigits(x, y, z);
    var all := FourDigits(x, y, z) + d;
    assert all[4..] == d;
    FromFourDigits(all, [x, y, z], rest);
  }

  lemma ThreeBytesFirst(x: byte, y: byte, z: byte, rest: Bytes)
    ensures ToDigits([x, y, z] + rest) == FourDigits(x, y, z) + ToDigits(rest)
  {
    assert ([x, y, z] + rest)[3..] == rest;
  }

  lemma DigitsStep(x: byte, y: byte, z: byte, rest: Bytes)
    requires FromDigits(ToDigits(rest)) == Some(rest)
    ensures FromDigits(ToDigits([x, y, z] + rest)) == Some([x, y, z] + rest)
  {
    ThreeBytesFirst(x, y, z, rest);
    FourRoundTrip(x, y, z, ToDigits(rest), rest);
  }

  lemma {:induction false} DigitsRoundTrip(b: Bytes)
    ensures FromDigits(ToDigits(b)) == Some(b)
  {
    if |b| == 1 {
      OneByteRoundTrip(b[0]);
      assert b == [b[0]];
    } else if |b| == 2 {
      TwoBytesRoundTrip(b[0], b[1]);
      assert b == [b[0], b[1]];
    } else if |b| >= 3 {
      DigitsRoundTrip(b[3..]);
      assert b == [b[0], b[1], b[2]] + b[3..];
      DigitsStep(b[0], b[1], b[2], b[3..]);
    }
  }

  function Letters(d: seq<digit>): Bytes {
    seq(|d|, i requires 0 <= i < |d| => Letter(d[i]))
  }

  function Digits(text: Bytes): Option<seq<digit>> {
    if text == [] then Some([])
    else
      match Digit(text[0])
      case None => None
      case Some(d) =>
        match Digits(text[1..])
        case None => None
        case Some(ds) => Some([d] + ds)
  }

  lemma {:induction false} LettersRoundTrip(d: seq<digit>)
    ensures Digits(Letters(d)) == Some(d)
  {
    if d != [] {
      DigitOfLetter(d[0]);
      assert Letters(d)[1..] == Letters(d[1..]);
      LettersRoundTrip(d[1..]);
      assert [d[0]] + d[1..] == d;
    }
  }

  function ToBase64(b: Bytes): Bytes {
    Letters(ToDigits(b))
  }

  /** Newlines are skipped wherever they stand. */
  function FromBase64(text: Bytes): Option<Bytes> {
    match Digits(Filter(text, (c: byte) => !IsNewline(c)))
    case None => None
    case Some(ds) => FromDigits(ds)
  }

  lemma {:induction false} NoNewlineToSkip(d: seq<digit>)
    ensures Filter(Letters(d), (c: byte) => !IsNewline(c)) == Letters(d)
  {
    if d != [] {
      assert Letters(d)[1..] == Letters(d[1..]);
      DigitOfLetter(d[0]);
      NoNewlineToSkip(d[1..]);
    }
  }

  lemma Base64RoundTrip(b: Bytes)
    ensures FromBase64(ToBase64(b)) == Some(b)
  {
    NoNewlineToSkip(ToDigits(b));
    LettersRoundTrip(ToDigits(b));
    DigitsRoundTrip(b);
  }

  // ------------------------------------------------------------------ tokens

  /** The value types a cursor can have; floats are their bit patterns. */
  datatype Kind = KString | KBytes | KInt64 | KInt32 | KFloat64 | KFloat32 | KBool

  datatype CursorValue =
    | StringValue(text: Bytes)
    | BytesValue(bytes: Bytes)
    | Int64Value(i64: int)
    | Int32Value(i32: int)
    | Float64Value(bits64: nat)
    | Float32Value(bits32: nat)
    | BoolValue(b: bool)

  /** A typed column: the Go type V is part of it. */
  datatype Column = Column(table: Bytes, name: Bytes, kind: Kind)

  datatype CursorKey = CursorKey(column: Column, value: CursorValue, desc: bool)

  /** The Go value fits its type, and a string's length fits into 64 bits. */
  predicate HasKind(v: CursorValue, k: Kind) {
    match v
    case StringValue(s) => k == KString && |s| < UINT64_RANGE
    case BytesValue(b) => k == KBytes && |b| < UINT64_RANGE
    case Int64Value(i) => k == KInt64 && INT64_MIN <= i <= INT64_MAX
    case Int32Value(i) => k == KInt32 && INT32_MIN <= i <= INT32_MAX
    case Float64Value(bits) => k == KFloat64 && bits < UINT64_RANGE
    case Float32Value(bits) => k == KFloat32 && bits <= UINT32_MAX
    case BoolValue(_) => k == KBool
  }

  predicate WellTyped(k: CursorKey) {
    && HasKind(k.value, k.column.kind)
    && |k.column.table| < UINT64_RANGE && |k.column.name| < UINT64_RANGE
  }

  const VERSION: byte := 1

  /** cursorTagFor: s, b, i, 4, d, f, o */
  function Tag(k: Kind): byte {
    match k
    case KString => 115
    case KBytes => 98
    case KInt64 => 105
    case KInt32 => 52
    case KFloat64 => 100
    case KFloat32 => 102
    case KBool => 111
  }

  /** The letters that stand for the types in tokens. */
  lemma TagsAreLetters()
    ensures [Tag(KString) as char, Tag(KBytes) as char, Tag(KInt64) as char, Tag(KInt32) as char, Tag(KFloat64) as char,
             Tag(KFloat32) as char, Tag(KBool) as char] == "sbi4dfo"
  {
  }

  lemma TagsDiffer(k: Kind, l: Kind)
    ensures Tag(k) == Tag(l) ==> k == l
  {
  }

  function PutString(s: Bytes): Bytes {
    PutUvarint(|s|) + s
  }

  datatype Read = Read(text: Bytes, rest: Bytes)

  /** readCursorString: a length that runs past the end is refused. */
  function GetString(b: Bytes): Option<Read> {
    match GetUvarint(b)
    case None => None
    case Some(n) =>
      var rest := b[n.size..];
      if n.value > |rest| then None else Some(Read(rest[..n.value], rest[n.value..]))
  }

  lemma StringRoundTrip(s: Bytes, rest: Bytes)
    requires |s| < UINT64_RANGE
    ensures GetString(PutString(s) + rest) == Some(Read(s, rest))
  {
    UvarintRoundTrip(|s|, s + rest);
    var b := PutString(s) + rest;
    var size := |PutUvarint(|s|)|;
    assert b == PutUvarint(|s|) + (s + rest);
    assert b[size..] == s + rest;
    assert (s + rest)[..|s|] == s && (s + rest)[|s|..] == rest;
  }

  /** encodeCursorValue, after the tag. */
  function PutValue(v: CursorValue): Bytes {
    match v
    case StringValue(s) => PutString(s)
    case BytesValue(b) => PutString(b)
    case Int64Value(i) => PutUvarint(ZigZag(i))
    case Int32Value(i) => PutUvarint(ZigZag(i))
    case Float64Value(bits) => PutUvarint(bits)
    case Float32Value(bits) => PutUvarint(bits)
    case BoolValue(b) => if b then [1] else [0]
  }

  /** decodeCursorValue for the tag of k; numbers do not mind bytes behind them. */
  function GetValue(k: Kind, payload: Bytes): Option<CursorValue> {
    match k
    case KString =>
      (match GetString(payload)
       case None => None
       case Some(r) => if r.rest != [] then None else Some(StringValue(r.text)))
    case KBytes =>
      (match GetString(payload)
       case None => None
       case Some(r) => if r.rest != [] then None else Some(BytesValue(r.text)))
    case KInt64 =>
      (match GetUvarint(payload)
       case None => None
       case Some(n) => Some(Int64Value(UnZigZag(n.value))))
    case KInt32 =>
      (match GetUvarint(payload)
       case None => None
       case Some(n) => Some(Int32Value(ToInt32(UnZigZag(n.value)))))
    case KFloat64 =>
      (match GetUvarint(payload)
       case None => None
       case Some(n) => Some(Float64Value(n.value)))
    case KFloat32 =>
      (match GetUvarint(payload)
       case None => None
       case Some(n) => if n.value > UINT32_MAX then None else Some(Float32Value(n.value)))
    case KBool => if |payload| != 1 then None else Some(BoolValue(payload[0] == 1))
  }

  lemma NumberAlone(x: nat)
    requires x < UINT64_RANGE
    ensures GetUvarint(PutUvarint(x)) == Some(Number(x, |PutUvarint(x)|))
  {
    UvarintRoundTrip(x, []);
    assert PutUvarint(x) + [] == PutUvarint(x);
  }

  lemma StringAlone(s: Bytes)
    requires |s| < UINT64_RANGE
    ensures GetString(PutString(s)) == Some(Read(s, []))
  {
    StringRoundTrip(s, []);
    assert PutString(s) + [] == PutString(s);
  }

  /** Any integer is accepted for an int32, and comes out as the int32 that has its low 32 bits. */
  lemma LongIntegersWrap(i: int)
    requires INT64_MIN <= i <= INT64_MAX
    ensures var v := GetValue(KInt32, PutUvarint(ZigZag(i)));
            && v.Some? && v.value.Int32Value? && INT32_MIN <= v.value.i32 <= INT32_MAX
            && (v.value.i32 - i) % 0x1_0000_0000 == 0
            && (INT32_MIN <= i <= INT32_MAX ==> v.value.i32 == i)
  {
    ZigZagRoundTrip(i, 0);
    NumberAlone(ZigZag(i));
  }

  /** Bits that do not fit are no float32. */
  lemma LongBitsAreRefused(bits: nat)
    requires bits < UINT64_RANGE
    ensures GetValue(KFloat32, PutUvarint(bits)) == if bits < 0x1_0000_0000 then Some(Float32Value(bits)) else None
    ensures GetValue(KFloat64, PutUvarint(bits)) == Some(Float64Value(bits))
  {
    NumberAlone(bits);
  }

  lemma ValueRoundTrip(v: CursorValue, k: Kind)
    requires HasKind(v, k)
    ensures GetValue(k, PutValue(v)) == Some(v)
  {
    match v
    case StringValue(s) => StringAlone(s);
    case BytesValue(b) => StringAlone(b);
    case Int64Value(i) =>
      ZigZagRoundTrip(i, 0);
      NumberAlone(ZigZag(i));
    case Int32Value(i) =>
      ZigZagRoundTrip(i, 0);
      NumberAlone(ZigZag(i));
    case Float64Value(bits) => NumberAlone(bits);
    case Float32Value(bits) => NumberAlone(bits);
    case BoolValue(_) =>
  }

  /** Whatever bytes a value is read from, it is a value of its type. */
  lemma ValueHasKind(k: Kind, payload: Bytes)
    requires |payload| < UINT64_RANGE && GetValue(k, payload).Some?
    ensures HasKind(GetValue(k, payload).value, k)
  {
    match k
    case KInt64 =>
      ZigZagRoundTrip(0, GetUvarint(payload).value.value);
      ZigZagRoundTrip(UnZigZag(GetUvarint(payload).value.value), 0);
    case _ =>
  }

  datatype DecodeError =
    | InvalidToken
    | UnsupportedVersion(version: byte)
    | BadTableName
    | BadColumnName
    | WrongColumn(table: Bytes, name: Bytes)
    | NoValue
    | WrongType(tag: byte)
    | CorruptValue

  function Header(k: CursorKey, tail: Bytes): Bytes {
    [VERSION, if k.desc then 1 else 0] + (PutString(k.column.table) + (PutString(k.column.name) + tail))
  }

  /** CursorKey.Encode, before base64. */
  function Layout(k: CursorKey): Bytes {
    Header(k, [Tag(k.column.kind)] + PutValue(k.value))
  }

  function Encode(k: CursorKey): Bytes {
    ToBase64(Layout(k))
  }

  /** The value, of the type asked for or not at all. */
  function ParseValue(b: Bytes, col: Column, desc: bool): Result<CursorKey, DecodeError> {
    if b == [] then Err(NoValue)
    else if b[0] != Tag(col.kind) then Err(WrongType(b[0]))
    else
      match GetValue(col.kind, b[1..])
      case None => Err(CorruptValue)
      case Some(v) => Ok(CursorKey(col, v, desc))
  }

  function ParseColumn(table: Bytes, b: Bytes, col: Column, desc: bool): Result<CursorKey, DecodeError> {
    match GetString(b)
    case None => Err(BadColumnName)
    case Some(name) =>
      if table != col.table || name.text != col.name then Err(WrongColumn(table, name.text))
      else ParseValue(name.rest, col, desc)
  }

  /** DecodeCursor on the decoded bytes. */
  function Parse(raw: Bytes, col: Column): Result<CursorKey, DecodeError> {
    if |raw| < 2 || raw[0] != VERSION then Err(UnsupportedVersion(if |raw| > 0 then raw[0] else 0))
    else
      match GetString(raw[2..])
      case None => Err(BadTableName)
      case Some(table) => ParseColumn(table.text, table.rest, col, raw[1] % 2 == 1)
  }

  /** DecodeCursor; no token is no cursor yet. */
  function Decode(token: Bytes, col: Column): Result<Option<CursorKey>, DecodeError> {
    if token == [] then Ok(None)
    else
      match FromBase64(token)
      case None => Err(InvalidToken)
      case Some(raw) =>
        match Parse(raw, col)
        case Err(e) => Err(e)
        case Ok(k) => Ok(Some(k))
  }

  /** The first page has no token, and every other token is a cursor or an error. */
  lemma NoTokenIsNoCursor(token: Bytes, col: Column)
    ensures Decode(token, col) == Ok(None) <==> token == []
  {
  }

  lemma OneLayout(k: CursorKey)
    requires k == CursorKey(Column([116], [99], KInt64), Int64Value(1), false)
    ensures Layout(k) == [1, 0, 1] + ([116, 1, 99] + [105, 2])
  {
    assert PutUvarint(1) == [1] && PutUvarint(2) == [2];
    assert PutString([116]) == [1, 116] && PutString([99]) == [1, 99];
  }

  lemma OneTokenDigits()
    ensures FourDigits(1, 0, 1) == [0, 16, 0, 1] && FourDigits(116, 1, 99) == [29, 0, 5, 35] && ToDigits([105, 2]) == [26, 16, 8]
  {
  }

  lemma LettersAppend(d: seq<digit>, e: seq<digit>)
    ensures Letters(d + e) == Letters(d) + Letters(e)
  {
  }

  lemma OneTokenLetters()
    ensures Letters([0, 16, 0, 1]) == [65, 81, 65, 66] && Letters([29, 0, 5, 35]) == [100, 65, 70, 106]
    ensures Letters([26, 16, 8]) == [97, 81, 73]
  {
  }

  /** A token to the letter: AQABdAFjaQI, for column c of table t, value 1, ascending. */
  lemma OneToken()
    ensures var k := CursorKey(Column([116], [99], KInt64), Int64Value(1), false);
            Encode(k) == [65, 81, 65, 66] + ([100, 65, 70, 106] + [97, 81, 73])
  {
    OneLayout(CursorKey(Column([116], [99], KInt64), Int64Value(1), false));
    ThreeBytesFirst(1, 0, 1, [116, 1, 99] + [105, 2]);
    ThreeBytesFirst(116, 1, 99, [105, 2]);
    OneTokenDigits();
    LettersAppend([0, 16, 0, 1], [29, 0, 5, 35] + [26, 16, 8]);
    LettersAppend([29, 0, 5, 35], [26, 16, 8]);
    OneTokenLetters();
  }

  lemma HeaderShape(k: CursorKey, tail: Bytes)
    ensures |Header(k, tail)| >= 2 && Header(k, tail)[0] == VERSION && Header(k, tail)[1] == (if k.desc then 1 else 0)
    ensures Header(k, tail)[2..] == PutString(k.column.table) + (PutString(k.column.name) + tail)
  {
    DropTwo(VERSION, if k.desc then 1 else 0, PutString(k.column.table) + (PutString(k.column.name) + tail));
  }

  lemma DropTwo(a: byte, b: byte, rest: Bytes)
    ensures |[a, b] + rest| >= 2 && ([a, b] + rest)[0] == a && ([a, b] + rest)[1] == b && ([a, b] + rest)[2..] == rest
  {
  }

  lemma DropOne(a: byte, rest: Bytes)
    ensures [a] + rest != [] && ([a] + rest)[0] == a && ([a] + rest)[1..] == rest
  {
  }

  lemma HeaderAppend(k: CursorKey, tail: Bytes, junk: Bytes)
    ensures Header(k, tail) + junk == Header(k, tail + junk)
  {
    AppendInside([VERSION, if k.desc then 1 else 0], PutString(k.column.table), PutString(k.column.name), tail, junk);
  }

  lemma AppendInside(a: Bytes, b: Bytes, c: Bytes, d: Bytes, e: Bytes)
    ensures (a + (b + (c + d))) + e == a + (b + (c + (d + e)))
  {
  }

  lemma ParseColumnHeader(k: CursorKey, tail: Bytes, col: Column)
    requires WellTyped(k)
    ensures ParseColumn(k.column.table, PutString(k.column.name) + tail, col, k.desc) ==
              if k.column.table != col.table || k.column.name != col.name then Err(WrongColumn(k.column.table, k.column.name))
              else ParseValue(tail, col, k.desc)
  {
    StringRoundTrip(k.column.name, tail);
  }

  /** What follows a header decides the rest of the parse. */
  lemma ParseHeader(k: CursorKey, tail: Bytes, col: Column)
    requires WellTyped(k)
    ensures Parse(Header(k, tail), col) ==
              if k.column.table != col.table || k.column.name != col.name then Err(WrongColumn(k.column.table, k.column.name))
              else ParseValue(tail, col, k.desc)
  {
    var names := PutString(k.column.table) + (PutString(k.column.name) + tail);
    HeaderShape(k, tail);
    StringRoundTrip(k.column.table, PutString(k.column.name) + tail);
    ParseColumnHeader(k, tail, col);
    ParseRaw(Header(k, tail), names, k.desc, k.column.table, PutString(k.column.name) + tail, col);
  }

  lemma ParseRaw(raw: Bytes, names: Bytes, desc: bool, table: Bytes, rest: Bytes, col: Column)
    requires |raw| >= 2 && raw[0] == VERSION && raw[1] == (if desc then 1 else 0) && raw[2..] == names
    requires GetString(names) == Some(Read(table, rest))
    ensures Parse(raw, col) == ParseColumn(table, rest, col, desc)
  {
  }

  /** A token of bytes that start with the version decodes as those bytes parse. */
  lemma DecodeOfBytes(raw: Bytes, col: Column)
    requires raw != []
    ensures Decode(ToBase64(raw), col) ==
              match Parse(raw, col)
              case Err(e) => Err(e)
              case Ok(k) => Ok(Some(k))
  {
    Base64RoundTrip(raw);
    assert ToBase64(raw) != [] by {
      assert |ToDigits(raw)| > 0;
    }
  }

  /**
   * What any well-typed cursor's token decodes to against any column: the same
   * cursor for its own column and type, and the specific error otherwise.
   */
  lemma DecodeOfEncode(k: CursorKey, col: Column)
    requires WellTyped(k)
    ensures Decode(Encode(k), col) ==
              if k.column.table != col.table || k.column.name != col.name then Err(WrongColumn(k.column.table, k.column.name))
              else if k.column.kind != col.kind then Err(WrongType(Tag(k.column.kind)))
              else Ok(Some(k))
  {
    var tail := [Tag(k.column.kind)] + PutValue(k.value);
    DecodeOfBytes(Layout(k), col);
    ParseHeader(k, tail, col);
    TagsDiffer(k.column.kind, col.kind);
    ValueRoundTrip(k.value, k.column.kind);
    assert tail[1..] == PutValue(k.value);
  }

  /** Different cursors have different tokens, even for different columns and types. */
  lemma EncodeIsInjective(k: CursorKey, l: CursorKey)
    requires WellTyped(k) && WellTyped(l) && Encode(k) == Encode(l)
    ensures k == l
  {
    DecodeOfEncode(k, k.column);
    DecodeOfEncode(l, k.column);
  }

  lemma {:induction false} FromDigitsLength(d: seq<digit>)
    requires FromDigits(d).Some?
    ensures |FromDigits(d).value| <= |d|
  {
    if |d| >= 4 {
      FromDigitsLength(d[4..]);
    }
  }

  lemma {:induction false} DigitsLength(text: Bytes)
    requires Digits(text).Some?
    ensures |Digits(text).value| == |text|
  {
    if text != [] {
      DigitsLength(text[1..]);
    }
  }

  lemma {:induction false} FilterLength(text: Bytes)
    ensures |Filter(text, (c: byte) => !IsNewline(c))| <= |text|
  {
    if text != [] {
      FilterLength(text[1..]);
    }
  }

  /**
   * Whatever token is accepted, made by Encode or not, gives a cursor on the
   * very column asked for, with a value of its type, that round-trips in turn.
   */
  lemma AcceptedIsWellTyped(token: Bytes, col: Column)
    requires |token| < UINT64_RANGE && |col.table| < UINT64_RANGE && |col.name| < UINT64_RANGE
    ensures match Decode(token, col)
            case Ok(Some(k)) => k.column == col && WellTyped(k) && Decode(Encode(k), col) == Ok(Some(k))
            case _ => true
  {
    if Decode(token, col).Ok? && Decode(token, col).value.Some? {
      var text := Filter(token, (c: byte) => !IsNewline(c));
      FilterLength(token);
      DigitsLength(text);
      FromDigitsLength(Digits(text).value);
      var raw := FromBase64(token).value;
      var name := GetString(GetString(raw[2..]).value.rest).value;
      ValueHasKind(col.kind, name.rest[1..]);
      DecodeOfEncode(Decode(token, col).value.value, col);
    }
  }

  /** Newlines put into a token anywhere, say by a mail program, do no harm. */
  lemma NewlinesDoNoHarm(front: Bytes, back: Bytes, c: byte, col: Column)
    requires IsNewline(c) && front + back != []
    ensures Decode(front + [c] + back, col) == Decode(front + back, col)
  {
    var keep := (x: byte) => !IsNewline(x);
    FilterConcat(front + [c], back, keep);
    FilterConcat(front, [c], keep);
    FilterConcat(front, back, keep);
    assert [c][1..] == [] && Filter([c], keep) == [];
    assert Filter(front, keep) + [] == Filter(front, keep);
  }

  lemma JunkTail(k: CursorKey, junk: Bytes)
    ensures var tail := [Tag(k.column.kind)] + PutValue(k.value) + junk;
            tail != [] && tail[0] == Tag(k.column.kind) && tail[1..] == PutValue(k.value) + junk
  {
    DropOne(Tag(k.column.kind), PutValue(k.value) + junk);
    assert [Tag(k.column.kind)] + PutValue(k.value) + junk == [Tag(k.column.kind)] + (PutValue(k.value) + junk);
  }

  /** The number that stands for a value, if one does. */
  function AsNumber(v: CursorValue): Option<nat> {
    match v
    case Int64Value(i) => Some(ZigZag(i))
    case Int32Value(i) => Some(ZigZag(i))
    case Float64Value(bits) => Some(bits)
    case Float32Value(bits) => Some(bits)
    case _ => None
  }

  lemma NumberWithJunk(v: CursorValue, k: Kind, junk: Bytes)
    requires HasKind(v, k) && AsNumber(v).Some?
    ensures GetValue(k, PutValue(v) + junk) == Some(v)
  {
    match v
    case Int64Value(i) =>
      ZigZagRoundTrip(i, 0);
      UvarintRoundTrip(ZigZag(i), junk);
    case Int32Value(i) =>
      ZigZagRoundTrip(i, 0);
      UvarintRoundTrip(ZigZag(i), junk);
    case Float64Value(bits) => UvarintRoundTrip(bits, junk);
    case Float32Value(bits) => UvarintRoundTrip(bits, junk);
  }

  /** Tokens are not unique: bytes behind an integer or a float change nothing. */
  lemma BytesBehindNumberAreIgnored(k: CursorKey, junk: Bytes)
    requires WellTyped(k) && AsNumber(k.value).Some?
    ensures Decode(ToBase64(Layout(k) + junk), k.column) == Ok(Some(k))
  {
    var tail := [Tag(k.column.kind)] + PutValue(k.value);
    HeaderAppend(k, tail, junk);
    DecodeOfBytes(Layout(k) + junk, k.column);
    ParseHeader(k, tail + junk, k.column);
    NumberWithJunk(k.value, k.column.kind, junk);
    JunkTail(k, junk);
  }

  /** But nothing may stand behind a string. */
  lemma BytesBehindStringAreRefused(k: CursorKey, junk: Bytes)
    requires WellTyped(k) && k.value.StringValue? && junk != []
    ensures Decode(ToBase64(Layout(k) + junk), k.column) == Err(CorruptValue)
  {
    var tail := [Tag(k.column.kind)] + PutValue(k.value);
    HeaderAppend(k, tail, junk);
    DecodeOfBytes(Layout(k) + junk, k.column);
    ParseHeader(k, tail + junk, k.column);
    StringRoundTrip(k.value.text, junk);
    JunkTail(k, junk);
  }

  // -------------------------------------------------- tokens that are no cursors

  /** What is not base64url, and what is not of the one version there is, is refused as such. */
  lemma ForeignTokensAreRefused(token: Bytes, raw: Bytes, col: Column)
    requires token != [] && FromBase64(token) == None && raw != []
    ensures Decode(token, col) == Err(InvalidToken)
    ensures |raw| < 2 || raw[0] != 1 ==> Decode(ToBase64(raw), col) == Err(UnsupportedVersion(raw[0]))
  {
    DecodeOfBytes(raw, col);
  }

  /** A token that breaks off before its table or its column is refused as such. */
  lemma BrokenNamesAreRefused(dir: byte, table: Bytes, rest: Bytes, col: Column)
    requires GetString(rest) == None && |table| < UINT64_RANGE
    ensures Decode(ToBase64([1, dir] + rest), col) == Err(BadTableName)
    ensures Decode(ToBase64([1, dir] + (PutString(table) + rest)), col) == Err(BadColumnName)
  {
    DropTwo(1, dir, rest);
    DecodeOfBytes([1, dir] + rest, col);
    DropTwo(1, dir, PutString(table) + rest);
    DecodeOfBytes([1, dir] + (PutString(table) + rest), col);
    StringRoundTrip(table, rest);
  }

  /**
   * With both names there, they decide first; then there must be a value, of the
   * column's type, that can be read. The lowest bit of the direction counts.
   */
  lemma WholeTokensAreRead(dir: byte, table: Bytes, name: Bytes, tail: Bytes, col: Column)
    requires |table| < UINT64_RANGE && |name| < UINT64_RANGE
    ensures Decode(ToBase64([1, dir] + (PutString(table) + (PutString(name) + tail))), col) ==
              if table != col.table || name != col.name then Err(WrongColumn(table, name))
              else if tail == [] then Err(NoValue)
              else if tail[0] != Tag(col.kind) then Err(WrongType(tail[0]))
              else match GetValue(col.kind, tail[1..])
                   case None => Err(CorruptValue)
                   case Some(v) => Ok(Some(CursorKey(col, v, dir % 2 == 1)))
  {
    DropTwo(1, dir, PutString(table) + (PutString(name) + tail));
    DecodeOfBytes([1, dir] + (PutString(table) + (PutString(name) + tail)), col);
    StringRoundTrip(table, PutString(name) + tail);
    StringRoundTrip(name, tail);
  }

  /** A bool is one byte, and 1 alone is true. */
  lemma OneByteIsBool(payload: Bytes)
    ensures GetValue(KBool, payload) == if |payload| != 1 then None else Some(BoolValue(payload == [1]))
  {
  }
}
