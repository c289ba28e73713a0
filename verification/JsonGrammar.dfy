/** What the recursive-descent parser of `src/json.rs` accepts, as functions of the input
    and an offset. `JsonParser` proves the parser's methods equal to these functions. */
module JsonGrammar {
  import opened Bytes
  import opened Text
  import opened Json

  datatype ErrorKind =
    | UnexpectedToken | UnexpectedEnd | TrailingData | ExpectedLiteral
    | ExpectedString | UnterminatedString | ControlCharacter | InvalidUtf8
    | UnterminatedEscape | InvalidEscape | ShortUnicodeEscape | InvalidHexDigit
    | LoneHighSurrogate | InvalidLowSurrogate | UnpairedLowSurrogate | InvalidScalar
    | LeadingZero | NoDigits | NotAnInteger | OutOfRange
    | ExpectedCommaOrBracket | ExpectedColon | DuplicateKey | ExpectedCommaOrBrace

  datatype JsonError = JsonError(offset: nat, kind: ErrorKind)

  /** A parsed value and the offset behind it, or the error the parser stops with. */
  datatype Outcome<+T> = Ok(value: T, next: nat) | Err(error: JsonError) {
    predicate IsFailure() { Err? }
    function PropagateFailure<U>(): Outcome<U> requires Err? { Err(error) }
    function Extract(): (T, nat) requires Ok? { (value, next) }

    /** Acceptance consumes input and stays inside it; an error points into the input. */
    ghost predicate Consumes(i: nat, length: nat) {
      match this
      case Ok(_, next) => i < next <= length
      case Err(error) => error.offset <= length
    }
  }

  function Fail<T>(offset: nat, kind: ErrorKind): Outcome<T> {
    Err(JsonError(offset, kind))
  }

  const END: int := -1

  /** `Parser::byte`. */
  function ByteAt(p: seq<Byte>, i: nat): int {
    if i < |p| then p[i] else END
  }

  predicate IsSpace(b: int) {
    b == 32 || b == 10 || b == 13 || b == 9
  }

  predicate DigitAt(p: seq<Byte>, i: nat) {
    48 <= ByteAt(p, i) <= 57
  }

  function SkipSpace(p: seq<Byte>, i: nat): (j: nat)
    requires i <= |p|
    ensures i <= j <= |p|
    decreases |p| - i
  {
    if IsSpace(ByteAt(p, i)) then SkipSpace(p, i + 1) else i
  }

  function Literal(p: seq<Byte>, i: nat, text: seq<Byte>): Outcome<()>
  {
    if At(p, i, text) then Ok((), i + |text|) else Fail(i, ExpectedLiteral)
  }

  /** The value of a hexadecimal digit of either case, `END` for any other octet. */
  function HexValue(b: int): int {
    if 48 <= b <= 57 then b - 48
    else if 97 <= b <= 102 then b - 87
    else if 65 <= b <= 70 then b - 55
    else END
  }

  predicate HexAt(p: seq<Byte>, i: nat, n: nat) {
    forall k :: i <= k < i + n ==> HexValue(ByteAt(p, k)) != END
  }

  function HexNumber(p: seq<Byte>, i: nat, n: nat): nat
    requires HexAt(p, i, n)
  {
    if n == 0 then 0 else HexNumber(p, i, n - 1) * 16 + HexValue(ByteAt(p, i + n - 1))
  }

  function HexQuad(p: seq<Byte>, i: nat): (r: Outcome<nat>)
    requires i <= |p|
    ensures r.Consumes(i, |p|)
  {
    if i + 4 > |p| then Fail(i, ShortUnicodeEscape)
    else if !HexAt(p, i, 4) then Fail(i, InvalidHexDigit)
    else Ok(HexNumber(p, i, 4), i + 4)
  }

  /** After the backslash and the `u`: one code unit, or a surrogate pair. */
  function UnicodeEscape(p: seq<Byte>, i: nat): (r: Outcome<char>)
    requires i <= |p|
    ensures r.Consumes(i, |p|)
  {
    var (first, j) :- HexQuad(p, i);
    if 0xD800 <= first <= 0xDBFF then
      if !At(p, j, [BACKSLASH, 117]) then Fail(j, LoneHighSurrogate)
      else
        var (second, k) :- HexQuad(p, j + 2);
        if !(0xDC00 <= second <= 0xDFFF) then Fail(k, InvalidLowSurrogate)
        else ScalarAt(0x1_0000 + (first - 0xD800) * 0x400 + (second - 0xDC00), k)
    else if 0xDC00 <= first <= 0xDFFF then Fail(j, UnpairedLowSurrogate)
    else ScalarAt(first, j)
  }

  /** `char::from_u32`. */
  function ScalarAt(v: nat, next: nat): Outcome<char> {
    if IsScalar(v) then Ok(v as char, next) else Fail(next, InvalidScalar)
  }

  /** After the backslash. */
  function Escape(p: seq<Byte>, i: nat): (r: Outcome<char>)
    requires i <= |p|
    ensures r.Consumes(i, |p|)
  {
    match ByteAt(p, i)
    case -1 => Fail(i, UnterminatedEscape)
    case 34 => Ok('\"', i + 1)
    case 92 => Ok('\\', i + 1)
    case 47 => Ok('/', i + 1)
    case 98 => Ok(8 as char, i + 1)
    case 102 => Ok(12 as char, i + 1)
    case 110 => Ok('\n', i + 1)
    case 114 => Ok('\r', i + 1)
    case 116 => Ok('\t', i + 1)
    case 117 => UnicodeEscape(p, i + 1)
    case _ => Fail(i + 1, InvalidEscape)
  }

  /** One character of a string literal, neither its end nor the end of input. */
  function StringChar(p: seq<Byte>, i: nat): (r: Outcome<char>)
    requires i < |p| && p[i] != QUOTE
    ensures r.Consumes(i, |p|)
  {
    if p[i] == BACKSLASH then Escape(p, i + 1)
    else if p[i] < 32 then Fail(i, ControlCharacter)
    else
      match Decode(p, i)
      case None => Fail(i, InvalidUtf8)
      case Some(c) => EncodeDecoded(p, i); Ok(c, i + |Encode(c)|)
  }

  function StringTail(p: seq<Byte>, i: nat, output: string): (r: Outcome<string>)
    requires i <= |p|
    ensures r.Consumes(i, |p|)
    decreases |p| - i
  {
    if i == |p| then Fail(i, UnterminatedString)
    else if p[i] == QUOTE then Ok(output, i + 1)
    else
      var (c, j) :- StringChar(p, i);
      StringTail(p, j, output + [c])
  }

  function StringLiteral(p: seq<Byte>, i: nat): (r: Outcome<string>)
    requires i <= |p|
    ensures r.Consumes(i, |p|)
  {
    if ByteAt(p, i) != QUOTE then Fail(i, ExpectedString) else StringTail(p, i + 1, "")
  }

  function DigitsEnd(p: seq<Byte>, i: nat): (j: nat)
    requires i <= |p|
    ensures i <= j <= |p|
    ensures forall k :: i <= k < j ==> IsDigit(p[k])
    decreases |p| - i
  {
    if DigitAt(p, i) then DigitsEnd(p, i + 1) else i
  }

  /** Where the digits of a number end, given that they start at `i`. */
  function NumberEnd(p: seq<Byte>, i: nat): (r: Outcome<()>)
    requires i <= |p|
    ensures r.Consumes(i, |p|)
    ensures r.Ok? ==> forall k :: i <= k < r.next ==> IsDigit(p[k])
  {
    if ByteAt(p, i) == 48 then
      if DigitAt(p, i + 1) then Fail(i + 1, LeadingZero) else Ok((), i + 1)
    else if DigitAt(p, i) then Ok((), DigitsEnd(p, i))
    else Fail(i, NoDigits)
  }

  function NumberLiteral(p: seq<Byte>, i: nat): (r: Outcome<int>)
    requires i <= |p|
    ensures r.Consumes(i, |p|)
    ensures r.Ok? ==> I128_MIN <= r.value <= I128_MAX
  {
    var negative := ByteAt(p, i) == MINUS;
    var start := if negative then i + 1 else i;
    var (_, end) :- NumberEnd(p, start);
    if ByteAt(p, end) in {46, 101, 69} then Fail(end, NotAnInteger)
    else
      var magnitude: int := NumberOf(p[start..end]);
      var n: int := if negative then -magnitude else magnitude;
      if I128_MIN <= n <= I128_MAX then Ok(n, end) else Fail(end, OutOfRange)
  }

  predicate HasKey(ms: seq<Member>, key: string) {
    exists k :: 0 <= k < |ms| && ms[k].key == key
  }

  /** `BTreeMap::insert` of a key that is not there yet. */
  function InsertMember(ms: seq<Member>, m: Member): seq<Member> {
    if ms == [] then [m]
    else if KeyLess(m.key, ms[0].key) then [m] + ms
    else [ms[0]] + InsertMember(ms[1..], m)
  }

  function ParseValue(p: seq<Byte>, start: nat): (r: Outcome<Value>)
    requires start <= |p|
    ensures r.Consumes(start, |p|)
    decreases |p| - start, 1
  {
    var i := SkipSpace(p, start);
    match ByteAt(p, i)
    case 110 => var (_, j) :- Literal(p, i, NULL); Ok(Null, j)
    case 116 => var (_, j) :- Literal(p, i, TRUE); Ok(Bool(true), j)
    case 102 => var (_, j) :- Literal(p, i, FALSE); Ok(Bool(false), j)
    case 34 => var (s, j) :- StringLiteral(p, i); Ok(String(s), j)
    case 91 =>
      var j := SkipSpace(p, i + 1);
      if ByteAt(p, j) == CLOSE_BRACKET then Ok(Array([]), j + 1) else ParseItems(p, j, [])
    case 123 =>
      var j := SkipSpace(p, i + 1);
      if ByteAt(p, j) == CLOSE_BRACE then Ok(Object([]), j + 1) else ParseMembers(p, j, [])
    case -1 => Fail(i, UnexpectedEnd)
    case b =>
      if b == MINUS || DigitAt(p, i) then var (n, j) :- NumberLiteral(p, i); Ok(Number(n), j)
      else Fail(i, UnexpectedToken)
  }

  /** The loop of `parse_array`, with `values` collected so far. */
  function ParseItems(p: seq<Byte>, i: nat, values: seq<Value>): (r: Outcome<Value>)
    requires i <= |p|
    ensures r.Consumes(i, |p|)
    decreases |p| - i, 2
  {
    var (v, j) :- ParseValue(p, i);
    var k := SkipSpace(p, j);
    if ByteAt(p, k) == COMMA then ParseItems(p, k + 1, values + [v])
    else if ByteAt(p, k) == CLOSE_BRACKET then Ok(Array(values + [v]), k + 1)
    else Fail(k, ExpectedCommaOrBracket)
  }

  /** A key, a colon and a value. */
  function ParseMember(p: seq<Byte>, start: nat): (r: Outcome<Member>)
    requires start <= |p|
    ensures r.Consumes(start, |p|)
    decreases |p| - start, 2
  {
    var (key, i) :- StringLiteral(p, SkipSpace(p, start));
    var j := SkipSpace(p, i);
    if ByteAt(p, j) != COLON then Fail(j, ExpectedColon)
    else
      var (v, k) :- ParseValue(p, j + 1);
      Ok(Member(key, v), k)
  }

  /** The loop of `parse_object`, with the map `values` collected so far. */
  function ParseMembers(p: seq<Byte>, i: nat, values: seq<Member>): (r: Outcome<Value>)
    requires i <= |p|
    ensures r.Consumes(i, |p|)
    decreases |p| - i, 3
  {
    var (m, j) :- ParseMember(p, i);
    if HasKey(values, m.key) then Fail(j, DuplicateKey)
    else
      var k := SkipSpace(p, j);
      if ByteAt(p, k) == COMMA then ParseMembers(p, k + 1, InsertMember(values, m))
      else if ByteAt(p, k) == CLOSE_BRACE then Ok(Object(InsertMember(values, m)), k + 1)
      else Fail(k, ExpectedCommaOrBrace)
  }

  /** `parse`: one value and nothing behind it but space. */
  function Parse(p: seq<Byte>): Outcome<Value> {
    var (v, i) :- ParseValue(p, 0);
    var j := SkipSpace(p, i);
    if j == |p| then Ok(v, j) else Fail(j, TrailingData)
  }
}
