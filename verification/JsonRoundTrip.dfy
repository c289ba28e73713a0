/** Parsing undoes printing, and accepts only well-formed values (`src/json.rs`). */
module JsonRoundTrip {
  import opened Bytes
  import opened Text
  import opened Json
  import opened JsonGrammar

  /** A printed number ends here: what follows cannot continue it. */
  ghost predicate Delimited(p: seq<Byte>, i: nat) {
    !DigitAt(p, i) && ByteAt(p, i) !in {46, 101, 69}
  }

  lemma EscapedChar(p: seq<Byte>, i: nat, c: char)
    requires At(p, i, EscapeChar(c))
    ensures i < |p| && p[i] != QUOTE
    ensures StringChar(p, i) == Ok(c, i + |EscapeChar(c)|)
  {
    var e := EscapeChar(c);
    AtIndex(p, i, e, 0);
    if e[0] == BACKSLASH {
      AtIndex(p, i, e, 1);
      if e[1] == 117 {
        AtIndex(p, i, e, 2);
        AtIndex(p, i, e, 3);
        AtIndex(p, i, e, 4);
        AtIndex(p, i, e, 5);
        assert HexAt(p, i + 2, 4);
        HexQuadValue(p, i + 2);
      }
    } else {
      DecodeEncoded(p, i, c);
    }
  }

  lemma HexQuadValue(p: seq<Byte>, i: nat)
    requires HexAt(p, i, 4)
    ensures HexNumber(p, i, 4) == HexValue(ByteAt(p, i)) * 4096 + HexValue(ByteAt(p, i + 1)) * 256
                                  + HexValue(ByteAt(p, i + 2)) * 16 + HexValue(ByteAt(p, i + 3))
  {
    assert HexNumber(p, i, 1) == HexValue(ByteAt(p, i));
    assert HexNumber(p, i, 2) == HexNumber(p, i, 1) * 16 + HexValue(ByteAt(p, i + 1));
    assert HexNumber(p, i, 3) == HexNumber(p, i, 2) * 16 + HexValue(ByteAt(p, i + 2));
  }

  /** The printed body of a string, closing quote included, reads back as that string. */
  lemma {:induction false} PrintedChars(p: seq<Byte>, i: nat, s: string, output: string)
    requires At(p, i, EscapeChars(s) + [QUOTE])
    ensures i <= |p| && StringTail(p, i, output) == Ok(output + s, i + |EscapeChars(s)| + 1)
    decreases s
  {
    hide StringChar, EscapeChar;
    if s == [] {
      AtIndex(p, i, [QUOTE], 0);
      assert EscapeChars(s) + [QUOTE] == [QUOTE];
      assert output + s == output;
    } else {
      var first, rest := EscapeChar(s[0]), EscapeChars(s[1..]) + [QUOTE];
      assert EscapeChars(s) + [QUOTE] == first + rest;
      AtConcat(p, i, first, rest);
      EscapedChar(p, i, s[0]);
      PrintedChars(p, i + |first|, s[1..], output + [s[0]]);
      assert output + [s[0]] + s[1..] == output + s;
    }
  }

  lemma PrintedString(p: seq<Byte>, i: nat, s: string)
    requires At(p, i, PrintString(s))
    ensures i < |p| && p[i] == QUOTE
    ensures StringLiteral(p, i) == Ok(s, i + |PrintString(s)|)
  {
    assert PrintString(s) == [QUOTE] + (EscapeChars(s) + [QUOTE]);
    AtCons(p, i, QUOTE, EscapeChars(s) + [QUOTE]);
    PrintedChars(p, i + 1, s, "");
    assert "" + s == s;
  }

  /** The digits of a number end where they were printed to end. */
  lemma {:induction false} DigitsEndAt(p: seq<Byte>, i: nat, end: nat)
    requires i <= end <= |p| && !DigitAt(p, end)
    requires forall k :: i <= k < end ==> IsDigit(p[k])
    ensures DigitsEnd(p, i) == end
    decreases end - i
  {
    if i < end {
      assert IsDigit(p[i]);
      DigitsEndAt(p, i + 1, end);
    }
  }

  lemma PrintedDigits(p: seq<Byte>, i: nat, n: nat)
    requires At(p, i, Digits(n)) && Delimited(p, i + |Digits(n)|)
    ensures i < |p| && p[i] != MINUS
    ensures NumberEnd(p, i) == Ok((), i + |Digits(n)|)
    ensures NumberOf(p[i..i + |Digits(n)|]) == n
  {
    hide Digits, NumberOf;
    var d := Digits(n);
    forall k | i <= k < i + |d| ensures IsDigit(p[k]) {
      AtIndex(p, i, d, k - i);
      assert IsDigit(d[k - i]);
    }
    assert IsDigit(p[i]);
    AtIndex(p, i, d, 0);
    NumberOfDigits(n);
    DigitsEndAt(p, i, i + |d|);
  }

  lemma PrintedNumber(p: seq<Byte>, i: nat, n: int)
    requires I128_MIN <= n <= I128_MAX
    requires At(p, i, PrintNumber(n)) && Delimited(p, i + |PrintNumber(n)|)
    ensures i < |p| && (p[i] == MINUS || IsDigit(p[i]))
    ensures NumberLiteral(p, i) == Ok(n, i + |PrintNumber(n)|)
  {
    hide Digits, NumberOf, NumberEnd, At;
    if n < 0 {
      AtConcat(p, i, [MINUS], Digits(-n));
      AtIndex(p, i, [MINUS], 0);
      PrintedDigits(p, i + 1, -n);
    } else {
      PrintedDigits(p, i, n);
      AtIndex(p, i, Digits(n), 0);
      assert IsDigit(Digits(n)[0]);
    }
  }

  /** Inserting a greatest key appends it. */
  lemma {:induction false} InsertGreatest(ms: seq<Member>, m: Member)
    requires forall k :: 0 <= k < |ms| ==> KeyLess(ms[k].key, m.key)
    ensures !HasKey(ms, m.key) && InsertMember(ms, m) == ms + [m]
  {
    if ms != [] {
      KeyLessTotal(ms[0].key, m.key);
      InsertGreatest(ms[1..], m);
    }
  }

  lemma PrintStart(v: Value)
    ensures Print(v) != [] && !IsSpace(Print(v)[0])
    ensures Print(v)[0] != CLOSE_BRACKET && Print(v)[0] != CLOSE_BRACE
  {
    if v.Number? && v.n >= 0 {
      assert IsDigit(Digits(v.n)[0]);
    }
  }

  /** Any printed value, wherever it stands, parses back to itself and to its own end. */
  lemma {:induction false} PrintedValue(p: seq<Byte>, i: nat, v: Value)
    requires WellFormed(v)
    requires At(p, i, Print(v)) && Delimited(p, i + |Print(v)|)
    ensures i < |p| && p[i] == Print(v)[0]
    ensures ParseValue(p, i) == Ok(v, i + |Print(v)|)
    decreases v, 1
  {
    hide ParseItems, ParseMembers;
    PrintStart(v);
    AtIndex(p, i, Print(v), 0);
    match v
    case Null =>
    case Bool(_) =>
    case Number(n) => PrintedNumber(p, i, n);
    case String(s) => PrintedString(p, i, s);
    case Array(items) => PrintedArray(p, i, v);
    case Object(ms) => PrintedObject(p, i, v);
  }

  // One step of the parser at a delimiter.

  lemma ArrayOpens(p: seq<Byte>, i: nat)
    requires i + 1 < |p| && p[i] == OPEN_BRACKET
    ensures p[i + 1] == CLOSE_BRACKET ==> ParseValue(p, i) == Ok(Array([]), i + 2)
    ensures p[i + 1] != CLOSE_BRACKET && !IsSpace(p[i + 1]) ==> ParseValue(p, i) == ParseItems(p, i + 1, [])
  {
    hide ParseItems, ParseMembers, StringLiteral, NumberLiteral, Literal;
  }

  lemma ObjectOpens(p: seq<Byte>, i: nat)
    requires i + 1 < |p| && p[i] == OPEN_BRACE
    ensures p[i + 1] == CLOSE_BRACE ==> ParseValue(p, i) == Ok(Object([]), i + 2)
    ensures p[i + 1] == QUOTE ==> ParseValue(p, i) == ParseMembers(p, i + 1, [])
  {
    hide ParseItems, ParseMembers, StringLiteral, NumberLiteral, Literal;
  }

  lemma ItemsNext(p: seq<Byte>, i: nat, values: seq<Value>, v: Value, j: nat)
    requires i <= |p| && ParseValue(p, i) == Ok(v, j) && j < |p|
    ensures p[j] == COMMA ==> ParseItems(p, i, values) == ParseItems(p, j + 1, values + [v])
    ensures p[j] == CLOSE_BRACKET ==> ParseItems(p, i, values) == Ok(Array(values + [v]), j + 1)
  {
    hide ParseValue;
  }

  lemma MembersNext(p: seq<Byte>, i: nat, values: seq<Member>, m: Member, j: nat)
    requires i <= |p| && ParseMember(p, i) == Ok(m, j) && j < |p| && !HasKey(values, m.key)
    ensures p[j] == COMMA ==> ParseMembers(p, i, values) == ParseMembers(p, j + 1, InsertMember(values, m))
    ensures p[j] == CLOSE_BRACE ==> ParseMembers(p, i, values) == Ok(Object(InsertMember(values, m)), j + 1)
  {
    hide ParseMember, HasKey, InsertMember;
  }

  /** A body between two delimiters. */
  lemma Bracketed(p: seq<Byte>, i: nat, open: Byte, body: seq<Byte>, close: Byte)
    requires At(p, i, [open] + body + [close])
    ensures i + 1 + |body| < |p| && p[i] == open && At(p, i + 1, body) && p[i + 1 + |body|] == close
  {
    AtConcat(p, i, [open] + body, [close]);
    AtCons(p, i, open, body);
    AtIndex(p, i + 1 + |body|, [close], 0);
  }

  lemma {:induction false} PrintedArray(p: seq<Byte>, i: nat, v: Value)
    requires v.Array? && WellFormed(v)
    requires At(p, i, Print(v))
    ensures i < |p| && ParseValue(p, i) == Ok(v, i + |Print(v)|)
    decreases v, 0
  {
    hide ParseItems, ParseValue, At;
    var body := PrintItems(v.items);
    Bracketed(p, i, OPEN_BRACKET, body, CLOSE_BRACKET);
    ArrayOpens(p, i);
    if v.items != [] {
      PrintedItems(p, i + 1, v.items, []);
      assert [] + v.items == v.items;
    }
  }

  lemma {:induction false} PrintedObject(p: seq<Byte>, i: nat, v: Value)
    requires v.Object? && WellFormed(v)
    requires At(p, i, Print(v))
    ensures i < |p| && ParseValue(p, i) == Ok(v, i + |Print(v)|)
    decreases v, 0
  {
    hide ParseMembers, ParseValue, At, SortedKeys;
    var body := PrintMembers(v.members);
    Bracketed(p, i, OPEN_BRACE, body, CLOSE_BRACE);
    ObjectOpens(p, i);
    if v.members != [] {
      assert [] + v.members == v.members;
      PrintedMembers(p, i + 1, v.members, []);
    }
  }

  lemma {:induction false} PrintedItems(p: seq<Byte>, i: nat, items: seq<Value>, values: seq<Value>)
    requires items != [] && forall k :: 0 <= k < |items| ==> WellFormed(items[k])
    requires At(p, i, PrintItems(items)) && ByteAt(p, i + |PrintItems(items)|) == CLOSE_BRACKET
    ensures i < |p| && !IsSpace(p[i]) && p[i] != CLOSE_BRACKET
    ensures ParseItems(p, i, values) == Ok(Array(values + items), i + |PrintItems(items)| + 1)
    decreases items, 0
  {
    hide ParseValue, Print, WellFormed, ParseItems, At;
    var first := Print(items[0]);
    PrintStart(items[0]);
    if |items| == 1 {
      PrintedValue(p, i, items[0]);
      ItemsNext(p, i, values, items[0], i + |first|);
      assert values + [items[0]] == values + items;
    } else {
      AtSeparated(p, i, first, COMMA, PrintItems(items[1..]));
      PrintedValue(p, i, items[0]);
      ItemsNext(p, i, values, items[0], i + |first|);
      PrintedItems(p, i + |first| + 1, items[1..], values + [items[0]]);
      assert values + [items[0]] + items[1..] == values + items;
    }
  }

  lemma {:induction false} PrintedMember(p: seq<Byte>, i: nat, m: Member)
    requires WellFormed(m.value)
    requires At(p, i, PrintMember(m)) && Delimited(p, i + |PrintMember(m)|)
    ensures i < |p| && p[i] == QUOTE
    ensures ParseMember(p, i) == Ok(m, i + |PrintMember(m)|)
    decreases m, 0
  {
    hide ParseValue, StringLiteral, PrintString, Print, WellFormed;
    AtSeparated(p, i, PrintString(m.key), COLON, Print(m.value));
    PrintedString(p, i, m.key);
    PrintedValue(p, i + |PrintString(m.key)| + 1, m.value);
  }

  lemma {:induction false} PrintedMembers(p: seq<Byte>, i: nat, ms: seq<Member>, values: seq<Member>)
    requires ms != [] && forall k :: 0 <= k < |ms| ==> WellFormed(ms[k].value)
    requires SortedKeys(values + ms)
    requires At(p, i, PrintMembers(ms)) && ByteAt(p, i + |PrintMembers(ms)|) == CLOSE_BRACE
    ensures i < |p| && p[i] == QUOTE
    ensures ParseMembers(p, i, values) == Ok(Object(values + ms), i + |PrintMembers(ms)| + 1)
    decreases ms, 0
  {
    hide ParseMember, PrintMember, WellFormed, InsertMember, HasKey, ParseMembers, At, SortedKeys;
    var first := PrintMember(ms[0]);
    GreaterThanBefore(values, ms);
    InsertGreatest(values, ms[0]);
    if |ms| == 1 {
      PrintedMember(p, i, ms[0]);
      MembersNext(p, i, values, ms[0], i + |first|);
      assert values + [ms[0]] == values + ms;
    } else {
      AtSeparated(p, i, first, COMMA, PrintMembers(ms[1..]));
      PrintedMember(p, i, ms[0]);
      MembersNext(p, i, values, ms[0], i + |first|);
      assert values + [ms[0]] + ms[1..] == values + ms;
      PrintedMembers(p, i + |first| + 1, ms[1..], values + [ms[0]]);
    }
  }

  lemma GreaterThanBefore(values: seq<Member>, ms: seq<Member>)
    requires SortedKeys(values + ms) && ms != []
    ensures forall k :: 0 <= k < |values| ==> KeyLess(values[k].key, ms[0].key)
  {
    hide KeyLess;
    forall k | 0 <= k < |values| ensures KeyLess(values[k].key, ms[0].key) {
      assert values[k] == (values + ms)[k] && ms[0] == (values + ms)[|values|];
    }
  }

  /** `parse(&value.to_json()) == Ok(value)` for every value of the source's type. */
  lemma RoundTrip(v: Value)
    requires WellFormed(v)
    ensures Parse(Print(v)) == Ok(v, |Print(v)|)
  {
    hide ParseValue, Print, WellFormed;
    assert Print(v)[0..|Print(v)|] == Print(v);
    PrintedValue(Print(v), 0, v);
  }

  /** Different values print differently. */
  lemma PrintInjective(v: Value, w: Value)
    requires WellFormed(v) && WellFormed(w) && Print(v) == Print(w)
    ensures v == w
  {
    RoundTrip(v);
    RoundTrip(w);
  }

  lemma {:induction false} InsertPermutes(ms: seq<Member>, m: Member)
    ensures multiset(InsertMember(ms, m)) == multiset(ms) + multiset{m}
  {
    hide KeyLess;
    if ms != [] {
      assert ms == [ms[0]] + ms[1..];
      if !KeyLess(m.key, ms[0].key) {
        InsertPermutes(ms[1..], m);
      }
    }
  }

  /** One member before others with greater keys. */
  lemma ConsSorted(m: Member, ms: seq<Member>)
    requires SortedKeys(ms) && forall k :: 0 <= k < |ms| ==> KeyLess(m.key, ms[k].key)
    ensures SortedKeys([m] + ms)
  {
    hide KeyLess;
  }

  lemma TailSorted(ms: seq<Member>, key: string)
    requires ms != [] && SortedKeys(ms) && !HasKey(ms, key)
    ensures SortedKeys(ms[1..]) && !HasKey(ms[1..], key)
    ensures forall k :: 0 <= k < |ms[1..]| ==> KeyLess(ms[0].key, ms[1..][k].key)
  {
    hide KeyLess;
    forall k | 0 <= k < |ms[1..]| ensures ms[1..][k].key != key && KeyLess(ms[0].key, ms[1..][k].key) {
      assert ms[1..][k] == ms[k + 1];
    }
  }

  lemma {:induction false} InsertKeeps(ms: seq<Member>, m: Member)
    requires SortedKeys(ms) && !HasKey(ms, m.key)
    ensures SortedKeys(InsertMember(ms, m))
  {
    hide SortedKeys, KeyLess;
    if ms == [] {
      ConsSorted(m, []);
      assert [m] + [] == [m];
    } else {
      TailSorted(ms, m.key);
      if KeyLess(m.key, ms[0].key) {
        FirstIsLeast(ms);
        forall k | 0 <= k < |ms| ensures KeyLess(m.key, ms[k].key) {
          if k > 0 {
            KeyLessTransitive(m.key, ms[0].key, ms[k].key);
          }
        }
        ConsSorted(m, ms);
      } else {
        var rest := InsertMember(ms[1..], m);
        InsertKeeps(ms[1..], m);
        InsertPermutes(ms[1..], m);
        assert ms[0].key != m.key;
        KeyLessTotal(m.key, ms[0].key);
        forall k | 0 <= k < |rest| ensures KeyLess(ms[0].key, rest[k].key) {
          assert rest[k] in multiset(rest);
          assert rest[k] == m || rest[k] in ms[1..];
        }
        ConsSorted(ms[0], rest);
      }
    }
  }

  lemma FirstIsLeast(ms: seq<Member>)
    requires SortedKeys(ms)
    ensures forall k :: 0 < k < |ms| ==> KeyLess(ms[0].key, ms[k].key)
  {
    hide KeyLess;
  }

  /** Whatever is accepted is a value of the source's type: numbers fit 128 bits and the
      keys of every object are distinct and sorted. */
  lemma {:induction false} AcceptedValue(p: seq<Byte>, i: nat)
    requires i <= |p| && ParseValue(p, i).Ok?
    ensures WellFormed(ParseValue(p, i).value)
    decreases |p| - i, 1
  {
    var j := SkipSpace(p, i);
    var b := ByteAt(p, j);
    if b == OPEN_BRACKET {
      var k := SkipSpace(p, j + 1);
      if ByteAt(p, k) != CLOSE_BRACKET {
        AcceptedItems(p, k, []);
      }
    } else if b == OPEN_BRACE {
      var k := SkipSpace(p, j + 1);
      if ByteAt(p, k) != CLOSE_BRACE {
        AcceptedMembers(p, k, []);
      }
    }
  }

  lemma {:induction false} AcceptedItems(p: seq<Byte>, i: nat, values: seq<Value>)
    requires i <= |p| && ParseItems(p, i, values).Ok?
    requires forall k :: 0 <= k < |values| ==> WellFormed(values[k])
    ensures WellFormed(ParseItems(p, i, values).value)
    decreases |p| - i, 2
  {
    hide ParseValue, SkipSpace;
    AcceptedValue(p, i);
    var Ok(v, j) := ParseValue(p, i);
    var k := SkipSpace(p, j);
    if ByteAt(p, k) == COMMA {
      AcceptedItems(p, k + 1, values + [v]);
    }
  }

  lemma {:induction false} AcceptedMembers(p: seq<Byte>, i: nat, values: seq<Member>)
    requires i <= |p| && ParseMembers(p, i, values).Ok?
    requires SortedKeys(values) && forall m :: m in values ==> WellFormed(m.value)
    ensures WellFormed(ParseMembers(p, i, values).value)
    decreases |p| - i, 3
  {
    hide ParseMember, HasKey, SortedKeys, SkipSpace, InsertMember;
    var Ok(m, j) := ParseMember(p, i);
    AcceptedMember(p, i);
    InsertedWellFormed(values, m);
    var k := SkipSpace(p, j);
    if ByteAt(p, k) == COMMA {
      AcceptedMembers(p, k + 1, InsertMember(values, m));
    }
  }

  lemma InsertedWellFormed(values: seq<Member>, m: Member)
    requires SortedKeys(values) && forall x :: x in values ==> WellFormed(x.value)
    requires !HasKey(values, m.key) && WellFormed(m.value)
    ensures SortedKeys(InsertMember(values, m))
    ensures forall x :: x in InsertMember(values, m) ==> WellFormed(x.value)
  {
    hide SortedKeys, WellFormed, HasKey, InsertMember;
    InsertKeeps(values, m);
    InsertPermutes(values, m);
    forall x | x in InsertMember(values, m) ensures WellFormed(x.value) {
      assert x in multiset(InsertMember(values, m));
      assert x == m || x in values;
    }
  }

  lemma {:induction false} AcceptedMember(p: seq<Byte>, i: nat)
    requires i <= |p| && ParseMember(p, i).Ok?
    ensures WellFormed(ParseMember(p, i).value.value)
    decreases |p| - i, 2
  {
    hide ParseValue, StringLiteral;
    AcceptedValue(p, SkipSpace(p, StringLiteral(p, SkipSpace(p, i)).next) + 1);
  }

  /** Printing what was parsed and parsing again changes nothing. */
  lemma Reparse(p: seq<Byte>)
    requires Parse(p).Ok?
    ensures WellFormed(Parse(p).value)
    ensures Parse(Print(Parse(p).value)) == Ok(Parse(p).value, |Print(Parse(p).value)|)
  {
    AcceptedValue(p, 0);
    RoundTrip(Parse(p).value);
  }
}
