/** The parser class with its cursor, and the serializer with its loops. Each method is proved to compute
    the function of the same part of the language in `JsonReader` or `JsonPrinter`. */
module JsonCursor {
  import opened Common
  import opened JsonValue
  import opened JsonReader
  import opened JsonPrinter

  lemma NotPrefix(p: string, s: string, i: nat)
    requires i < |p| && (i < |s| ==> p[i] != s[i])
    ensures !(p <= s)
  {
  }

  class JsonParser {
    const text: string
    const stod: Stod
    var pos: nat

    constructor (text: string, stod: Stod)
      ensures this.text == text && this.stod == stod && pos == 0
    {
      this.text, this.stod, pos := text, stod, 0;
    }

    ghost predicate Valid()
      reads this
    {
      pos <= |text|
    }

    /** The outcome of a method (`None` when it throws) and the unread text are those of `r`. */
    ghost predicate Agrees<T>(outcome: Option<T>, r: Result<T>)
      requires Valid()
      reads this
    {
      match r
      case Fail => outcome.None?
      case Done(v, rest) => outcome == Some(v) && text[pos..] == rest
    }

    method SkipWhitespace()
      requires Valid()
      modifies this
      ensures Valid() && old(pos) <= pos && text[pos..] == SkipSpace(text[old(pos)..])
    {
      while pos < |text| && IsSpace(text[pos])
        invariant old(pos) <= pos <= |text|
        invariant SkipSpace(text[pos..]) == SkipSpace(text[old(pos)..])
      {
        assert text[pos..][1..] == text[pos + 1..];
        pos := pos + 1;
      }
    }

    method SkipDigitChars()
      requires Valid()
      modifies this
      ensures Valid() && old(pos) <= pos && text[pos..] == SkipDigits(text[old(pos)..])
    {
      while pos < |text| && IsDigit(text[pos])
        invariant old(pos) <= pos <= |text|
        invariant SkipDigits(text[pos..]) == SkipDigits(text[old(pos)..])
      {
        assert text[pos..][1..] == text[pos + 1..];
        pos := pos + 1;
      }
    }

    method Peek() returns (c: Option<char>)
      requires Valid()
      ensures c == if pos < |text| then Some(text[pos..][0]) else None
    {
      c := if pos < |text| then Some(text[pos]) else None;
    }

    method Consume() returns (c: Option<char>)
      requires Valid()
      modifies this
      ensures Valid() && old(pos) <= pos
      ensures Agrees(c, var s := text[old(pos)..]; if s == "" then Fail else Done(s[0], s[1..]))
    {
      if pos >= |text| {
        return None;
      }
      assert text[pos..][1..] == text[pos + 1..];
      pos := pos + 1;
      return Some(text[pos - 1]);
    }

    method ExpectChar(c: char) returns (ok: Option<()>)
      requires Valid()
      modifies this
      ensures Valid() && old(pos) <= pos
      ensures Agrees(ok, match Expect(c, text[old(pos)..]) case None => Fail case Some(rest) => Done((), rest))
    {
      SkipWhitespace();
      var next :- Peek();
      if next == c {
        var taken := Consume();
        return Some(());
      } else {
        return None;
      }
    }

    method ParseString() returns (r: Option<string>)
      requires Valid()
      modifies this
      ensures Valid() && old(pos) <= pos
      ensures Agrees(r, ReadString(text[old(pos)..]))
    {
      var _ :- ExpectChar('\"');
      var s := "";
      ghost var start := text[pos..];
      var next :- Peek();
      while next != '\"'
        invariant old(pos) <= pos < |text| && next == text[pos]
        invariant ReadChars(text[pos..], s) == ReadChars(start, "")
        decreases |text| - pos
      {
        ghost var here := text[pos..];
        var c := Consume();
        if c == Some('\\') {
          var e :- Consume();
          assert here[2..] == text[pos..];
          var u :- Escape(e);
          s := s + [u];
        } else {
          s := s + [c.value];
        }
        next :- Peek();
      }
      var closed := ExpectChar('\"');
      return if closed.Some? then Some(s) else None;
    }

    /** The switch over escape letters. */
    method Escape(e: char) returns (c: Option<char>)
      ensures c == Unescape(e)
    {
      if e == '\"' || e == '\\' || e == '/' {
        return Some(e);
      } else if e == 'b' {
        return Some(8 as char);
      } else if e == 'f' {
        return Some(12 as char);
      } else if e == 'n' {
        return Some('\n');
      } else if e == 'r' {
        return Some('\r');
      } else if e == 't' {
        return Some('\t');
      } else {
        return None;
      }
    }

    /** The exponent part of parse_number; the result says whether there was one. */
    method ScanExponent() returns (found: Option<bool>)
      requires Valid()
      modifies this
      ensures Valid() && old(pos) <= pos
      ensures Agrees(found, var s := text[old(pos)..];
                            match SkipExponent(s) case None => Fail case Some(rest) => Done(rest != s, rest))
    {
      ghost var s := text[pos..];
      var next :- Peek();
      if next == 'e' || next == 'E' {
        var mark := Consume();
        next :- Peek();
        if next == '+' || next == '-' {
          var sign := Consume();
          assert s[2..] == text[pos..];
        }
        SkipDigitChars();
        return Some(true);
      }
      return Some(false);
    }

    /** The part of parse_number that moves the cursor. */
    method ScanNumeral() returns (isDouble: Option<bool>)
      requires Valid()
      modifies this
      ensures Valid() && old(pos) <= pos
      ensures Agrees(isDouble, ScanNumber(text[old(pos)..]))
    {
      var next :- Peek();
      if next == '-' {
        var sign := Consume();
      }
      SkipDigitChars();
      var double := false;
      next :- Peek();
      if next == '.' {
        double := true;
        var point := Consume();
        SkipDigitChars();
      }
      var exponent :- ScanExponent();
      return Some(double || exponent);
    }

    method ParseNumber() returns (r: Option<Json>)
      requires Valid()
      modifies this
      ensures Valid() && old(pos) <= pos
      ensures Agrees(r, ReadNumber(stod, text[old(pos)..]))
    {
      var start := pos;
      var isDouble :- ScanNumeral();
      var numeral := text[start..pos];
      ghost var s := text[start..];
      assert numeral == s[..|s| - |text[pos..]|];
      NumeralIsSignedDigits(s);
      if isDouble {
        var d :- stod(numeral);
        return Some(Dbl(d));
      } else {
        var n :- Stoll(numeral);
        return Some(Int(n));
      }
    }

    method ParseLiteral(literal: string, v: Json) returns (r: Option<Json>)
      requires Valid()
      modifies this
      ensures Valid() && old(pos) <= pos
      ensures Agrees(r, ReadLiteral(literal, v, text[old(pos)..]))
    {
      ghost var s := text[pos..];
      for i := 0 to |literal|
        invariant pos == old(pos) + i <= |text|
        invariant literal[..i] == s[..i]
      {
        if pos >= |text| || text[pos] != literal[i] {
          NotPrefix(literal, s, i);
          return None;
        }
        assert s[i] == text[pos];
        pos := pos + 1;
      }
      assert s[|literal|..] == text[pos..];
      assert literal[..|literal|] == literal;
      return Some(v);
    }

    method ParseArray() returns (r: Option<Json>)
      requires Valid()
      modifies this
      ensures Valid() && old(pos) <= pos
      ensures Agrees(r, ReadArray(stod, text[old(pos)..]))
      decreases |text| - pos, 1
    {
      var _ :- ExpectChar('[');
      var arr: seq<Json> := [];
      SkipWhitespace();
      var next :- Peek();
      if next != ']' {
        ghost var start := text[pos..];
        var more := true;
        while more
          invariant old(pos) < pos <= |text|
          invariant more ==> ReadItems(stod, text[pos..], arr) == ReadItems(stod, start, [])
          invariant !more ==> pos < |text| && text[pos] == ']' &&
                              ReadItems(stod, start, []) == Done(Arr(arr), text[pos..][1..])
          decreases more, |text| - pos
        {
          var v :- ParseValue();
          arr := arr + [v];
          SkipWhitespace();
          next :- Peek();
          if next == ',' {
            var comma := Consume();
          } else if next == ']' {
            more := false;
          } else {
            return None;
          }
        }
      }
      var closed := ExpectChar(']');
      return if closed.Some? then Some(Arr(arr)) else None;
    }

    /** A key and the colon after it. */
    method ParseKey() returns (r: Option<string>)
      requires Valid()
      modifies this
      ensures Valid() && old(pos) <= pos
      ensures var key := ReadString(text[old(pos)..]);
              if key.Done? && Expect(':', key.rest).Some?
              then r == Some(key.value) && text[pos..] == Expect(':', key.rest).value && old(pos) < pos
              else r == None
    {
      var key :- ParseString();
      var _ :- ExpectChar(':');
      return Some(key);
    }

    method ParseObject() returns (r: Option<Json>)
      requires Valid()
      modifies this
      ensures Valid() && old(pos) <= pos
      ensures Agrees(r, ReadObject(stod, text[old(pos)..]))
      decreases |text| - pos, 1
    {
      var _ :- ExpectChar('{');
      var obj: seq<Member> := [];
      SkipWhitespace();
      var next :- Peek();
      if next != '}' {
        ghost var start := text[pos..];
        var more := true;
        while more
          invariant old(pos) < pos <= |text|
          invariant more ==> ReadMembers(stod, text[pos..], obj) == ReadMembers(stod, start, [])
          invariant !more ==> pos < |text| && text[pos] == '}' &&
                              ReadMembers(stod, start, []) == Done(Obj(obj), text[pos..][1..])
          decreases more, |text| - pos
        {
          var key :- ParseKey();
          var v :- ParseValue();
          obj := Put(obj, key, v);
          SkipWhitespace();
          next :- Peek();
          if next == ',' {
            var comma := Consume();
          } else if next == '}' {
            more := false;
          } else {
            return None;
          }
        }
      }
      var closed := ExpectChar('}');
      return if closed.Some? then Some(Obj(obj)) else None;
    }

    method ParseValue() returns (r: Option<Json>)
      requires Valid()
      modifies this
      ensures Valid() && old(pos) <= pos && (r.Some? ==> old(pos) < pos)
      ensures Agrees(r, ReadValue(stod, text[old(pos)..]))
      decreases |text| - pos, 2
    {
      SkipWhitespace();
      ghost var t := text[pos..];
      var c :- Peek();
      if c == '\"' {
        var s :- ParseString();
        r := Some(Str(s));
      } else if c == '-' || IsDigit(c) {
        r := ParseNumber();
      } else if c == '[' {
        r := ParseArray();
      } else if c == '{' {
        r := ParseObject();
      } else if c == 't' {
        r := ParseLiteral("true", Bool(true));
      } else if c == 'f' {
        r := ParseLiteral("false", Bool(false));
      } else if c == 'n' {
        r := ParseLiteral("null", Null);
      } else {
        r := None;
      }
      assert SkipSpace(t) == t;
    }

    /** Parses the text from the cursor to its end, as one document. */
    method ParseDocument() returns (r: Option<Json>)
      requires Valid()
      modifies this
      ensures Valid()
      ensures r == Parse(stod, text[old(pos)..])
      ensures r.Some? ==> pos == |text|
    {
      var v :- ParseValue();
      SkipWhitespace();
      if pos != |text| {
        return None;
      }
      return Some(v);
    }
  }

  // ----- the serializer -----

  method Serialize(dtos: Dtos, v: Json, level: nat) returns (result: string)
    ensures result == Print(dtos, v, level)
    decreases v, 1
  {
    match v
    case Null => result := "null";
    case Bool(b) => result := if b then "true" else "false";
    case Int(n) => result := IntText(n);
    case Dbl(d) => result := TrimDouble(DoubleString(dtos(d)));
    case Str(s) => result := SerializeString(s);
    case Arr(items) => result := SerializeArray(dtos, items, level);
    case Obj(ms) => result := SerializeObject(dtos, ms, level);
  }

  method SerializeString(s: string) returns (result: string)
    ensures result == "\"" + EscapeString(s) + "\""
  {
    result := "\"";
    for i := 0 to |s|
      invariant result + EscapeString(s[i..]) == "\"" + EscapeString(s)
    {
      Assoc(result, EscapeChar(s[i]), EscapeString(s[i + 1..]));
      assert s[i..][1..] == s[i + 1..];
      result := result + (if s[i] == '\"' then "\\\"" else if s[i] == '\\' then "\\\\" else [s[i]]);
    }
    result := result + "\"";
  }

  lemma Concat4(a: string, b: string, c: string, d: string)
    ensures a + (b + c + d) == ((a + b) + c) + d
  {
  }

  method SerializeArray(dtos: Dtos, items: seq<Json>, level: nat) returns (result: string)
    ensures result == Print(dtos, Arr(items), level)
    decreases items, 0
  {
    result := "[\n";
    var first := true;
    for i := 0 to |items|
      invariant first == (i == 0)
      invariant result + PrintItems(dtos, items[i..], level, first) == "[\n" + PrintItems(dtos, items, level, true)
    {
      assert items[i..][1..] == items[i + 1..];
      var item := Serialize(dtos, items[i], level + 1);
      var line := Indent(level) + "  " + item;
      Concat4(result, Separator(first), line, PrintItems(dtos, items[i + 1..], level, false));
      result := result + (if first then "" else ",\n");
      result := result + line;
      first := false;
    }
    result := result + "\n" + Indent(level) + "]";
  }

  method SerializeObject(dtos: Dtos, ms: seq<Member>, level: nat) returns (result: string)
    ensures result == Print(dtos, Obj(ms), level)
    decreases ms, 0
  {
    result := "{\n";
    var first := true;
    for i := 0 to |ms|
      invariant first == (i == 0)
      invariant result + PrintMembers(dtos, ms[i..], level, first) == "{\n" + PrintMembers(dtos, ms, level, true)
    {
      assert ms[i..][1..] == ms[i + 1..];
      var value := Serialize(dtos, ms[i].value, level + 1);
      var line := Indent(level) + "  \"" + ms[i].key + "\": " + value;
      Concat4(result, Separator(first), line, PrintMembers(dtos, ms[i + 1..], level, false));
      result := result + (if first then "" else ",\n");
      result := result + line;
      first := false;
    }
    result := result + "\n" + Indent(level) + "}";
  }
}
