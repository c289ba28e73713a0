/** The recursive-descent parser and the printer of `src/json.rs`, in place: one cursor
    that every method advances and one output buffer that every method extends. */
module JsonParser {
  import opened Bytes
  import opened Text
  import opened Json
  import G = JsonGrammar
  import opened JsonRoundTrip

  datatype Result<+T> = Success(value: T) | Failure(error: G.JsonError)

  class Parser {
    const input: seq<Byte>
    var offset: nat

    constructor (input: seq<Byte>)
      ensures this.input == input && offset == 0
    {
      this.input := input;
      offset := 0;
    }

    ghost predicate Valid()
      reads this
    {
      offset <= |input|
    }

    /** The method ended as the grammar says, with the cursor where the grammar puts it. */
    ghost predicate Ended<T>(r: Result<T>, o: G.Outcome<T>)
      reads this
    {
      match o
      case Ok(v, next) => r == Success(v) && offset == next
      case Err(error) => r == Failure(error) && offset == error.offset
    }

    function Byte(): int
      reads this
    {
      G.ByteAt(input, offset)
    }

    function Error(kind: G.ErrorKind): G.JsonError
      reads this
    {
      G.JsonError(offset, kind)
    }

    method SkipWhitespace()
      requires Valid()
      modifies this
      ensures Valid() && offset == G.SkipSpace(input, old(offset))
    {
      while G.IsSpace(Byte())
        invariant Valid()
        invariant G.SkipSpace(input, offset) == G.SkipSpace(input, old(offset))
        decreases |input| - offset
      {
        offset := offset + 1;
      }
    }

    method Literal(text: seq<Byte>) returns (r: Result<()>)
      requires Valid()
      modifies this
      ensures Valid() && Ended(r, G.Literal(input, old(offset), text))
    {
      if At(input, offset, text) {
        offset := offset + |text|;
        r := Success(());
      } else {
        r := Failure(Error(G.ExpectedLiteral));
      }
    }

    method ParseHexQuad() returns (r: Result<nat>)
      requires Valid()
      modifies this
      ensures Valid() && Ended(r, G.HexQuad(input, old(offset)))
    {
      var end := offset + 4;
      if end > |input| {
        return Failure(Error(G.ShortUnicodeEscape));
      }
      var value: nat := 0;
      for k := 0 to 4
        invariant offset == old(offset)
        invariant G.HexAt(input, offset, k) && value == G.HexNumber(input, offset, k)
      {
        var digit := G.HexValue(input[offset + k]);
        if digit == G.END {
          assert G.HexValue(G.ByteAt(input, offset + k)) == G.END;
          return Failure(Error(G.InvalidHexDigit));
        }
        value := value * 16 + digit;
      }
      offset := end;
      r := Success(value);
    }

    method ParseUnicodeEscape() returns (r: Result<char>)
      requires Valid()
      modifies this
      ensures Valid() && Ended(r, G.UnicodeEscape(input, old(offset)))
    {
      var first := ParseHexQuad();
      if first.Failure? {
        return Failure(first.error);
      }
      var scalar := first.value;
      if 0xD800 <= first.value <= 0xDBFF {
        if !At(input, offset, [BACKSLASH, 117]) {
          return Failure(Error(G.LoneHighSurrogate));
        }
        offset := offset + 2;
        var second := ParseHexQuad();
        if second.Failure? {
          return Failure(second.error);
        }
        if !(0xDC00 <= second.value <= 0xDFFF) {
          return Failure(Error(G.InvalidLowSurrogate));
        }
        scalar := 0x1_0000 + (first.value - 0xD800) * 0x400 + (second.value - 0xDC00);
      } else if 0xDC00 <= first.value <= 0xDFFF {
        return Failure(Error(G.UnpairedLowSurrogate));
      }
      if IsScalar(scalar) {
        r := Success(scalar as char);
      } else {
        r := Failure(Error(G.InvalidScalar));
      }
    }

    method ParseEscape() returns (r: Result<char>)
      requires Valid()
      modifies this
      ensures Valid() && Ended(r, G.Escape(input, old(offset)))
    {
      var escape := Byte();
      if escape == G.END {
        return Failure(Error(G.UnterminatedEscape));
      }
      offset := offset + 1;
      match escape {
        case 34 => r := Success('\"');
        case 92 => r := Success('\\');
        case 47 => r := Success('/');
        case 98 => r := Success(8 as char);
        case 102 => r := Success(12 as char);
        case 110 => r := Success('\n');
        case 114 => r := Success('\r');
        case 116 => r := Success('\t');
        case 117 => r := ParseUnicodeEscape();
        case _ => r := Failure(Error(G.InvalidEscape));
      }
    }

    method ParseString() returns (r: Result<string>)
      requires Valid()
      modifies this
      ensures Valid() && Ended(r, G.StringLiteral(input, old(offset)))
    {
      hide G.Escape, Decode, Encode;
      if Byte() != QUOTE {
        return Failure(Error(G.ExpectedString));
      }
      offset := offset + 1;
      var output := "";
      while true
        invariant Valid()
        invariant G.StringTail(input, offset, output) == G.StringTail(input, old(offset) + 1, "")
        decreases |input| - offset
      {
        if offset == |input| {
          return Failure(Error(G.UnterminatedString));
        }
        var byte := input[offset];
        if byte == QUOTE {
          offset := offset + 1;
          return Success(output);
        } else if byte == BACKSLASH {
          offset := offset + 1;
          var c := ParseEscape();
          if c.Failure? {
            return Failure(c.error);
          }
          output := output + [c.value];
        } else if byte < 32 {
          return Failure(Error(G.ControlCharacter));
        } else {
          var c := Decode(input, offset);
          if c.None? {
            return Failure(Error(G.InvalidUtf8));
          }
          EncodeDecoded(input, offset);
          output := output + [c.value];
          offset := offset + |Encode(c.value)|;
        }
      }
    }

    method ParseNumber() returns (r: Result<int>)
      requires Valid()
      modifies this
      ensures Valid() && Ended(r, G.NumberLiteral(input, old(offset)))
    {
      var negative := Byte() == MINUS;
      if negative {
        offset := offset + 1;
      }
      var start := offset;
      if Byte() == 48 {
        offset := offset + 1;
        if G.DigitAt(input, offset) {
          return Failure(Error(G.LeadingZero));
        }
      } else if G.DigitAt(input, offset) {
        while G.DigitAt(input, offset)
          invariant start <= offset && Valid()
          invariant G.DigitsEnd(input, offset) == G.DigitsEnd(input, start)
          decreases |input| - offset
        {
          offset := offset + 1;
        }
      } else {
        return Failure(Error(G.NoDigits));
      }
      assert G.NumberEnd(input, start) == G.Ok((), offset);
      if Byte() in {46, 101, 69} {
        return Failure(Error(G.NotAnInteger));
      }
      var magnitude: int := NumberOf(input[start..offset]);
      var n: int := if negative then -magnitude else magnitude;
      if I128_MIN <= n <= I128_MAX {
        r := Success(n);
      } else {
        r := Failure(Error(G.OutOfRange));
      }
    }

    method ParseValue() returns (r: Result<Value>)
      requires Valid()
      modifies this
      ensures Valid() && Ended(r, G.ParseValue(input, old(offset)))
      decreases |input| - offset, 1
    {
      hide G.ParseItems, G.ParseMembers, G.SkipSpace, G.StringLiteral, G.NumberLiteral;
      SkipWhitespace();
      match Byte() {
        case 110 =>
          var l := Literal(NULL);
          r := if l.Success? then Success(Null) else Failure(l.error);
        case 116 =>
          var l := Literal(TRUE);
          r := if l.Success? then Success(Bool(true)) else Failure(l.error);
        case 102 =>
          var l := Literal(FALSE);
          r := if l.Success? then Success(Bool(false)) else Failure(l.error);
        case 34 =>
          var s := ParseString();
          r := if s.Success? then Success(String(s.value)) else Failure(s.error);
        case 91 =>
          r := ParseArray();
        case 123 =>
          r := ParseObject();
        case -1 =>
          r := Failure(Error(G.UnexpectedEnd));
        case b =>
          if b == MINUS || G.DigitAt(input, offset) {
            var n := ParseNumber();
            r := if n.Success? then Success(Number(n.value)) else Failure(n.error);
          } else {
            r := Failure(Error(G.UnexpectedToken));
          }
      }
    }

    method ParseArray() returns (r: Result<Value>)
      requires Valid() && Byte() == OPEN_BRACKET
      modifies this
      ensures Valid()
      ensures var j := G.SkipSpace(input, old(offset) + 1);
              Ended(r, if G.ByteAt(input, j) == CLOSE_BRACKET then G.Ok(Array([]), j + 1)
                       else G.ParseItems(input, j, []))
      decreases |input| - offset, 0
    {
      hide G.ParseValue, G.SkipSpace;
      offset := offset + 1;
      var values: seq<Value> := [];
      SkipWhitespace();
      if Byte() == CLOSE_BRACKET {
        offset := offset + 1;
        return Success(Array(values));
      }
      ghost var first := offset;
      while true
        invariant Valid() && offset > old(offset)
        invariant G.ParseItems(input, offset, values) == G.ParseItems(input, first, [])
        decreases |input| - offset
      {
        var v := ParseValue();
        if v.Failure? {
          return Failure(v.error);
        }
        values := values + [v.value];
        SkipWhitespace();
        if Byte() == COMMA {
          offset := offset + 1;
        } else if Byte() == CLOSE_BRACKET {
          offset := offset + 1;
          return Success(Array(values));
        } else {
          return Failure(Error(G.ExpectedCommaOrBracket));
        }
      }
    }

    method ParseMember() returns (r: Result<Member>)
      requires Valid()
      modifies this
      ensures Valid() && Ended(r, G.ParseMember(input, old(offset)))
      decreases |input| - offset, 2
    {
      hide G.ParseValue, G.StringLiteral, G.SkipSpace;
      SkipWhitespace();
      var key := ParseString();
      if key.Failure? {
        return Failure(key.error);
      }
      SkipWhitespace();
      if Byte() != COLON {
        return Failure(Error(G.ExpectedColon));
      }
      offset := offset + 1;
      var v := ParseValue();
      if v.Failure? {
        return Failure(v.error);
      }
      r := Success(Member(key.value, v.value));
    }

    method ParseObject() returns (r: Result<Value>)
      requires Valid() && Byte() == OPEN_BRACE
      modifies this
      ensures Valid()
      ensures var j := G.SkipSpace(input, old(offset) + 1);
              Ended(r, if G.ByteAt(input, j) == CLOSE_BRACE then G.Ok(Object([]), j + 1)
                       else G.ParseMembers(input, j, []))
      decreases |input| - offset, 0
    {
      hide G.ParseMember, G.InsertMember, G.HasKey, G.SkipSpace;
      offset := offset + 1;
      var values: seq<Member> := [];
      SkipWhitespace();
      if Byte() == CLOSE_BRACE {
        offset := offset + 1;
        return Success(Object(values));
      }
      ghost var first := offset;
      while true
        invariant Valid() && offset > old(offset)
        invariant G.ParseMembers(input, offset, values) == G.ParseMembers(input, first, [])
        decreases |input| - offset
      {
        var m := ParseMember();
        if m.Failure? {
          return Failure(m.error);
        }
        if G.HasKey(values, m.value.key) {
          return Failure(Error(G.DuplicateKey));
        }
        values := G.InsertMember(values, m.value);
        SkipWhitespace();
        if Byte() == COMMA {
          offset := offset + 1;
        } else if Byte() == CLOSE_BRACE {
          offset := offset + 1;
          return Success(Object(values));
        } else {
          return Failure(Error(G.ExpectedCommaOrBrace));
        }
      }
    }
  }

  /** `parse`. What it accepts is well-formed, and it accepts every printed value. */
  method Parse(input: seq<Byte>) returns (r: Result<Value>)
    ensures match G.Parse(input)
            case Ok(v, _) => r == Success(v) && WellFormed(v)
            case Err(error) => r == Failure(error)
    ensures forall v :: WellFormed(v) && input == Print(v) ==> r == Success(v)
  {
    hide G.ParseValue;
    forall v | WellFormed(v) && input == Print(v) ensures G.Parse(input) == G.Ok(v, |input|) {
      RoundTrip(v);
    }
    if G.Parse(input).Ok? {
      Reparse(input);
    }
    var parser := new Parser(input);
    r := parser.ParseValue();
    if r.Success? {
      parser.SkipWhitespace();
      if parser.offset != |input| {
        r := Failure(parser.Error(G.TrailingData));
      }
    }
  }

  class Writer {
    var output: seq<Byte>

    constructor ()
      ensures output == []
    {
      output := [];
    }

    method WriteString(s: string)
      modifies this
      ensures output == old(output) + PrintString(s)
    {
      hide EscapeChar;
      output := output + [QUOTE];
      ghost var before := output;
      ghost var written: seq<Byte> := [];
      for i := 0 to |s|
        invariant written + EscapeChars(s[i..]) == EscapeChars(s)
        invariant output == before + written
      {
        var e := EscapeChar(s[i]);
        assert s[i..][1..] == s[i + 1..];
        Assoc(written, e, EscapeChars(s[i + 1..]));
        Assoc(before, written, e);
        written := written + e;
        output := output + e;
      }
      assert written == EscapeChars(s);
      Assoc(old(output), [QUOTE], written);
      Assoc(old(output), [QUOTE] + written, [QUOTE]);
      output := output + [QUOTE];
    }

    method WriteJson(v: Value)
      modifies this
      ensures output == old(output) + Print(v)
      decreases v, 1
    {
      match v {
        case Null => output := output + NULL;
        case Bool(b) => output := output + (if b then TRUE else FALSE);
        case Number(n) => output := output + PrintNumber(n);
        case String(s) => WriteString(s);
        case Array(items) => WriteItems(items);
        case Object(ms) => WriteMembers(ms);
      }
    }

    method WriteItems(items: seq<Value>)
      modifies this
      ensures output == old(output) + ([OPEN_BRACKET] + PrintItems(items) + [CLOSE_BRACKET])
      decreases items, 0
    {
      hide Print;
      output := output + [OPEN_BRACKET];
      ghost var before := output;
      for i := 0 to |items|
        invariant output == before + ItemsUpTo(items, i)
      {
        if i != 0 {
          output := output + [COMMA];
        }
        assert output == before + (ItemsUpTo(items, i) + Comma(i));
        Assoc(before, ItemsUpTo(items, i) + Comma(i), Print(items[i]));
        WriteJson(items[i]);
      }
      AllItems(items, |items|);
      Assoc(old(output), [OPEN_BRACKET], PrintItems(items));
      Assoc(old(output), [OPEN_BRACKET] + PrintItems(items), [CLOSE_BRACKET]);
      output := output + [CLOSE_BRACKET];
    }

    method WriteMembers(ms: seq<Member>)
      modifies this
      ensures output == old(output) + ([OPEN_BRACE] + PrintMembers(ms) + [CLOSE_BRACE])
      decreases ms, 0
    {
      hide PrintMember;
      output := output + [OPEN_BRACE];
      ghost var before := output;
      for i := 0 to |ms|
        invariant output == before + MembersUpTo(ms, i)
      {
        if i != 0 {
          output := output + [COMMA];
        }
        assert output == before + (MembersUpTo(ms, i) + Comma(i));
        Assoc(before, MembersUpTo(ms, i) + Comma(i), PrintMember(ms[i]));
        WriteMember(ms[i]);
      }
      AllMembers(ms, |ms|);
      Assoc(old(output), [OPEN_BRACE], PrintMembers(ms));
      Assoc(old(output), [OPEN_BRACE] + PrintMembers(ms), [CLOSE_BRACE]);
      output := output + [CLOSE_BRACE];
    }

    method WriteMember(m: Member)
      modifies this
      ensures output == old(output) + PrintMember(m)
      decreases m, 2
    {
      hide Print, PrintString;
      WriteString(m.key);
      output := output + [COLON];
      Assoc(old(output), PrintString(m.key), [COLON]);
      WriteJson(m.value);
      Assoc(old(output), PrintString(m.key) + [COLON], Print(m.value));
    }
  }

  function Comma(i: nat): seq<Byte> { if i == 0 then [] else [COMMA] }

  /** What the array loop has written before element `n`. */
  ghost function ItemsUpTo(items: seq<Value>, n: nat): seq<Byte>
    requires n <= |items|
  {
    if n == 0 then [] else ItemsUpTo(items, n - 1) + Comma(n - 1) + Print(items[n - 1])
  }

  lemma {:induction false} AllItems(items: seq<Value>, n: nat)
    requires n <= |items|
    ensures PrintItems(items) == ItemsUpTo(items, n) + (if n == |items| then [] else Comma(n) + PrintItems(items[n..]))
  {
    hide Print;
    if n == 0 {
      assert items[0..] == items;
    } else {
      AllItems(items, n - 1);
      assert items[n - 1..][0] == items[n - 1] && items[n - 1..][1..] == items[n..];
      var head, e, rest := ItemsUpTo(items, n - 1) + Comma(n - 1), Print(items[n - 1]), PrintItems(items[n..]);
      var tail := if n == |items| then [] else [COMMA] + rest;
      assert PrintItems(items[n - 1..]) == e + tail by {
        assert e + [COMMA] + rest == e + ([COMMA] + rest);
      }
      hide PrintItems;
      Assoc(ItemsUpTo(items, n - 1), Comma(n - 1), e + tail);
      Assoc(head, e, tail);
    }
  }

  ghost function MembersUpTo(ms: seq<Member>, n: nat): seq<Byte>
    requires n <= |ms|
  {
    if n == 0 then [] else MembersUpTo(ms, n - 1) + Comma(n - 1) + PrintMember(ms[n - 1])
  }

  lemma {:induction false} AllMembers(ms: seq<Member>, n: nat)
    requires n <= |ms|
    ensures PrintMembers(ms) == MembersUpTo(ms, n) + (if n == |ms| then [] else Comma(n) + PrintMembers(ms[n..]))
  {
    hide PrintMember;
    if n == 0 {
      assert ms[0..] == ms;
    } else {
      AllMembers(ms, n - 1);
      assert ms[n - 1..][0] == ms[n - 1] && ms[n - 1..][1..] == ms[n..];
      var head, e, rest := MembersUpTo(ms, n - 1) + Comma(n - 1), PrintMember(ms[n - 1]), PrintMembers(ms[n..]);
      var tail := if n == |ms| then [] else [COMMA] + rest;
      assert PrintMembers(ms[n - 1..]) == e + tail by {
        assert e + [COMMA] + rest == e + ([COMMA] + rest);
      }
      hide PrintMembers;
      Assoc(MembersUpTo(ms, n - 1), Comma(n - 1), e + tail);
      Assoc(head, e, tail);
    }
  }

  /** `to_json`: the written text parses back to the value. */
  method ToJson(v: Value) returns (text: seq<Byte>)
    ensures text == Print(v)
    ensures WellFormed(v) ==> G.Parse(text) == G.Ok(v, |text|)
  {
    var writer := new Writer();
    writer.WriteJson(v);
    text := writer.output;
    assert [] + Print(v) == Print(v);
    if WellFormed(v) {
      RoundTrip(v);
    }
  }
}
