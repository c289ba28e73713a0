/** JSON values and their printed form (`src/json.rs`). */
module Json {
  import opened Bytes
  import opened Text
  import Order

  const I128_MIN: int := -0x8000_0000_0000_0000_0000_0000_0000_0000
  const I128_MAX: int := 0x7FFF_FFFF_FFFF_FFFF_FFFF_FFFF_FFFF_FFFF

  datatype Value =
    | Null
    | Bool(b: bool)
    | Number(n: int)
    | String(s: string)
    | Array(items: seq<Value>)
    | Object(members: seq<Member>)

  /** One entry of a `BTreeMap<String, Value>`; an object lists its entries in key order. */
  datatype Member = Member(key: string, value: Value)

  predicate CharLeq(a: char, b: char) { a <= b }

  /** `Ord` of `String`: UTF-8 preserves the order of scalar values. */
  predicate KeyLess(a: string, b: string) {
    a != b && Order.LexLeq(a, b, CharLeq)
  }

  ghost predicate SortedKeys(ms: seq<Member>) {
    forall i, j :: 0 <= i < j < |ms| ==> KeyLess(ms[i].key, ms[j].key)
  }

  /** The values the source's types admit: 128-bit numbers, maps with distinct sorted keys. */
  ghost predicate WellFormed(v: Value) {
    match v
    case Number(n) => I128_MIN <= n <= I128_MAX
    case Array(items) => forall i :: 0 <= i < |items| ==> WellFormed(items[i])
    case Object(ms) => SortedKeys(ms) && forall i :: 0 <= i < |ms| ==> WellFormed(ms[i].value)
    case _ => true
  }

  lemma KeyLessTransitive(a: string, b: string, c: string)
    requires KeyLess(a, b) && KeyLess(b, c)
    ensures KeyLess(a, c)
  {
    Order.LexTransitive(a, b, c, CharLeq);
    if a == c {
      Order.LexAntisymmetric(a, b, CharLeq);
    }
  }

  lemma KeyLessTotal(a: string, b: string)
    ensures KeyLess(a, b) || KeyLess(b, a) || a == b
    ensures !(KeyLess(a, b) && KeyLess(b, a))
  {
    Order.LexTotal(a, b, CharLeq);
    if KeyLess(a, b) && KeyLess(b, a) {
      Order.LexAntisymmetric(a, b, CharLeq);
    }
  }

  const NULL: seq<Byte> := [110, 117, 108, 108]
  const TRUE: seq<Byte> := [116, 114, 117, 101]
  const FALSE: seq<Byte> := [102, 97, 108, 115, 101]
  const QUOTE: Byte := 34
  const BACKSLASH: Byte := 92
  const COMMA: Byte := 44
  const COLON: Byte := 58
  const MINUS: Byte := 45
  const OPEN_BRACKET: Byte := 91
  const CLOSE_BRACKET: Byte := 93
  const OPEN_BRACE: Byte := 123
  const CLOSE_BRACE: Byte := 125

  /** How `write_string` renders one character. */
  function EscapeChar(c: char): (s: seq<Byte>)
    ensures s != []
  {
    if c == '\"' then [BACKSLASH, QUOTE]
    else if c == '\\' then [BACKSLASH, BACKSLASH]
    else if c as int == 8 then [BACKSLASH, 98]
    else if c as int == 12 then [BACKSLASH, 102]
    else if c == '\n' then [BACKSLASH, 110]
    else if c == '\r' then [BACKSLASH, 114]
    else if c == '\t' then [BACKSLASH, 116]
    else if c as int < 0x20 then
      [BACKSLASH, 117, 48, 48, HexByte(c as int / 16), HexByte(c as int % 16)]
    else Encode(c)
  }

  function EscapeChars(s: string): seq<Byte> {
    if s == [] then [] else EscapeChar(s[0]) + EscapeChars(s[1..])
  }

  function PrintString(s: string): seq<Byte> {
    [QUOTE] + EscapeChars(s) + [QUOTE]
  }

  /** `i128::to_string`. */
  function PrintNumber(n: int): seq<Byte> {
    if n < 0 then [MINUS] + Digits(-n) else Digits(n)
  }

  /** `Value::to_json`. */
  function Print(v: Value): seq<Byte>
    decreases v, 2
  {
    match v
    case Null => NULL
    case Bool(b) => if b then TRUE else FALSE
    case Number(n) => PrintNumber(n)
    case String(s) => PrintString(s)
    case Array(items) => [OPEN_BRACKET] + PrintItems(items) + [CLOSE_BRACKET]
    case Object(ms) => [OPEN_BRACE] + PrintMembers(ms) + [CLOSE_BRACE]
  }

  /** The elements in order, separated by commas. */
  function PrintItems(items: seq<Value>): seq<Byte>
    decreases items, 1
  {
    if items == [] then []
    else if |items| == 1 then Print(items[0])
    else Print(items[0]) + [COMMA] + PrintItems(items[1..])
  }

  function PrintMembers(ms: seq<Member>): seq<Byte>
    decreases ms, 1
  {
    if ms == [] then []
    else if |ms| == 1 then PrintMember(ms[0])
    else PrintMember(ms[0]) + [COMMA] + PrintMembers(ms[1..])
  }

  function PrintMember(m: Member): seq<Byte>
    decreases m, 0
  {
    PrintString(m.key) + [COLON] + Print(m.value)
  }
}
