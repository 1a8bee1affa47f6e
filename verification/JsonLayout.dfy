/** Where serialize_json puts newlines and spaces, as a law on the printed text alone: what may follow a
    character that is outside strings, given how many brackets are open there. */
module JsonLayout {
  import opened Common
  import opened JsonValue
  import opened JsonGrammar
  import opened JsonPrinter
  import opened JsonReread

  // ----- reading the text from the left -----

  /** Open brackets, and whether the text stands inside a string, after a backslash. */
  datatype Place = Place(depth: int, quoted: bool, escaped: bool)

  predicate Opens(c: char) {
    c == '[' || c == '{'
  }

  predicate Closes(c: char) {
    c == ']' || c == '}'
  }

  function Next(p: Place, c: char): Place {
    if p.quoted && p.escaped then p.(escaped := false)
    else if p.quoted then p.(quoted := c != '\"', escaped := c == '\\')
    else Place(p.depth + (if Opens(c) then 1 else if Closes(c) then -1 else 0), c == '\"', false)
  }

  /** Where the text stands after `s`. */
  function After(p: Place, s: string): Place
    decreases |s|
  {
    if s == "" then p else After(Next(p, s[0]), s[1..])
  }

  function Outside(depth: int): Place {
    Place(depth, false, false)
  }

  // ----- the rules -----

  /** The number of spaces at the start of `t`. */
  function Spaces(t: string): (k: nat)
    ensures k <= |t|
  {
    if t != "" && t[0] == ' ' then 1 + Spaces(t[1..]) else 0
  }

  /** A new line at depth `d` starts with two spaces for each open bracket, not counting one that it closes. In
      an empty list or object it is empty. */
  predicate Line(d: int, t: string) {
    var k := Spaces(t);
    k < |t| && (if Closes(t[k]) then k == 2 * (d - 1) else if t[k] == '\n' then k == 0 else k == 2 * d)
  }

  /** A newline, spaces and a closing bracket. */
  predicate Closing(t: string) {
    && t != "" && t[0] == '\n'
    && var k := Spaces(t[1..]); 1 + k < |t| && Closes(t[1 + k])
  }

  /** A character that is neither whitespace nor a closing bracket. */
  predicate Solid(t: string) {
    t != "" && !IsSpace(t[0]) && !Closes(t[0])
  }

  /** The text `t` may follow `c`, if it is outside strings and `d` brackets are then open: a newline stands
      after an opening bracket, after a comma and before a closing bracket, one space stands after a colon, and
      there is no other whitespace except at the start of a line. */
  predicate Follows(d: int, c: char, t: string) {
    if Opens(c) || c == ',' then t != "" && t[0] == '\n'
    else if c == ':' then t != "" && t[0] == ' ' && Solid(t[1..])
    else if c == '\n' then Line(d, t) && (t[0] == '\n' ==> Closing(t))
    else if c == ' ' then t != "" && (t[0] == ' ' || !IsSpace(t[0]))
    else !IsSpace(c) && (t == "" || Solid(t) || Closing(t))
  }

  /** All of `s` keeps the rules, and it ends outside strings at depth `end`. */
  predicate Laid(p: Place, s: string, end: int)
    decreases |s|
  {
    if s == "" then p == Outside(end) else
    var q := Next(p, s[0]);
    (q.quoted || Follows(q.depth, s[0], s[1..])) && Laid(q, s[1..], end)
  }

  lemma {:induction false} LaidEverywhere(p: Place, s: string, end: int, i: nat)
    requires Laid(p, s, end) && i < |s|
    ensures var q := After(p, s[..i + 1]); !q.quoted ==> Follows(q.depth, s[i], s[i + 1..])
    decreases |s|
  {
    var q := Next(p, s[0]);
    if i == 0 {
      assert s[..1][1..] == "";
      assert After(p, s[..1]) == After(q, "");
    } else {
      LaidEverywhere(q, s[1..], end, i - 1);
      assert s[..i + 1][1..] == s[1..][..i] && s[1..][i..] == s[i + 1..];
    }
  }

  lemma {:induction false} LaidEnds(p: Place, s: string, end: int)
    requires Laid(p, s, end)
    ensures After(p, s) == Outside(end)
    decreases |s|
  {
    if s != "" {
      LaidEnds(Next(p, s[0]), s[1..], end);
    }
  }

  // ----- texts that keep the rules -----

  /** What may follow a value. */
  predicate Ends(t: string) {
    t == "" || t[0] == ',' || Closing(t)
  }

  lemma LaidStep(p: Place, c: char, t: string, end: int)
    requires Laid(Next(p, c), t, end) && (Next(p, c).quoted || Follows(Next(p, c).depth, c, t))
    ensures Laid(p, [c] + t, end)
  {
    assert ([c] + t)[1..] == t;
  }

  predicate Atomic(c: char) {
    !IsSpace(c) && !Opens(c) && !Closes(c) && c != ',' && c != ':' && c != '\"'
  }

  lemma {:induction false} AtomLaid(a: string, d: int, rest: string, end: int)
    requires (forall i :: 0 <= i < |a| ==> Atomic(a[i])) && Ends(rest) && Laid(Outside(d), rest, end)
    ensures Laid(Outside(d), a + rest, end)
    decreases |a|
  {
    if a == "" {
      assert a + rest == rest;
    } else {
      AtomLaid(a[1..], d, rest, end);
      var t := a[1..] + rest;
      assert a + rest == [a[0]] + t;
      assert t == rest || (t[0] == a[1] && Solid(t));
      LaidStep(Outside(d), a[0], t, end);
    }
  }

  lemma {:induction false} CharsLaid(s: string, d: int, rest: string, end: int)
    requires Laid(Place(d, true, false), rest, end)
    ensures Laid(Place(d, true, false), EscapeString(s) + rest, end)
    decreases |s|
  {
    if s == "" {
      assert EscapeString(s) + rest == rest;
    } else {
      var t := EscapeString(s[1..]) + rest;
      CharsLaid(s[1..], d, rest, end);
      Assoc(EscapeChar(s[0]), EscapeString(s[1..]), rest);
      CharLaid(s[0], d, t, end);
    }
  }

  lemma CharLaid(c: char, d: int, t: string, end: int)
    requires Laid(Place(d, true, false), t, end)
    ensures Laid(Place(d, true, false), EscapeChar(c) + t, end)
  {
    var p := Place(d, true, false);
    if c == '\"' || c == '\\' {
      LaidStep(Place(d, true, true), c, t, end);
      LaidStep(p, '\\', [c] + t, end);
      assert EscapeChar(c) + t == ['\\'] + ([c] + t);
    } else {
      LaidStep(p, c, t, end);
    }
  }

  /** A string in quotation marks. */
  lemma QuotedLaid(s: string, d: int, rest: string, end: int)
    requires (rest == "" || Solid(rest) || Closing(rest)) && Laid(Outside(d), rest, end)
    ensures Laid(Outside(d), "\"" + (EscapeString(s) + ("\"" + rest)), end)
  {
    LaidStep(Place(d, true, false), '\"', rest, end);
    CharsLaid(s, d, "\"" + rest, end);
    LaidStep(Outside(d), '\"', EscapeString(s) + ("\"" + rest), end);
  }

  predicate Blank(b: string) {
    forall i :: 0 <= i < |b| ==> b[i] == ' '
  }

  lemma {:induction false} BlankLaid(b: string, d: int, t: string, end: int)
    requires Blank(b) && t != "" && !IsSpace(t[0]) && Laid(Outside(d), t, end)
    ensures Laid(Outside(d), b + t, end) && Spaces(b + t) == |b|
    decreases |b|
  {
    if b == "" {
      assert b + t == t;
    } else {
      BlankLaid(b[1..], d, t, end);
      assert b + t == [' '] + (b[1..] + t);
      LaidStep(Outside(d), ' ', b[1..] + t, end);
    }
  }

  /** An indented line. */
  lemma LineLaid(level: nat, t: string, end: int)
    requires Solid(t) && Laid(Outside(level + 1), t, end)
    ensures Laid(Outside(level + 1), "\n" + (Pad(level) + t), end)
  {
    BlankLaid(Pad(level), level + 1, t, end);
    LaidStep(Outside(level + 1), '\n', Pad(level) + t, end);
  }

  lemma CloseLaid(level: nat, bracket: char, rest: string, end: int)
    requires Closes(bracket) && Ends(rest) && Laid(Outside(level), rest, end)
    ensures Laid(Outside(level + 1), Close(level, [bracket], rest), end) && Closing(Close(level, [bracket], rest))
  {
    LaidStep(Outside(level + 1), bracket, rest, end);
    var t := [bracket] + rest;
    BlankLaid(Indent(level), level + 1, t, end);
    LaidStep(Outside(level + 1), '\n', Indent(level) + t, end);
    assert Close(level, [bracket], rest)[1..] == Indent(level) + t;
  }

  /** An opening bracket and what stands on the lines after it. */
  lemma OpenLaid(level: nat, bracket: char, inner: string, end: int)
    requires Opens(bracket) && Laid(Outside(level + 1), "\n" + inner, end)
    ensures Laid(Outside(level), [bracket] + ("\n" + inner), end)
  {
    LaidStep(Outside(level), bracket, "\n" + inner, end);
  }

  /** A comma and the lines after it. */
  lemma CommaLaid(level: nat, inner: string, end: int)
    requires Laid(Outside(level + 1), "\n" + inner, end)
    ensures Laid(Outside(level + 1), "," + ("\n" + inner), end)
  {
    LaidStep(Outside(level + 1), ',', "\n" + inner, end);
  }

  lemma EmptyLaid(level: nat, close: string, end: int)
    requires Closing(close) && Laid(Outside(level + 1), close, end)
    ensures Laid(Outside(level + 1), "\n" + close, end)
  {
    assert Spaces(close) == 0;
    LaidStep(Outside(level + 1), '\n', close, end);
  }

  // ----- printed values -----

  lemma NumberIsAtomic(dtos: Dtos, v: Json, level: nat)
    requires v.Null? || v.Bool? || v.Int? || v.Dbl?
    ensures forall i :: 0 <= i < |Print(dtos, v, level)| ==> Atomic(Print(dtos, v, level)[i])
  {
    match v
    case Null =>
    case Bool(_) =>
    case Int(n) =>
    case Dbl(d) => DoubleIsAtomic(dtos(d));
  }

  lemma DoubleIsAtomic(t: PrintedDouble)
    ensures var s := TrimDouble(DoubleString(t)); forall i :: 0 <= i < |s| ==> Atomic(s[i])
  {
    var s := DoubleString(t);
    assert forall i :: 0 <= i < |s| ==> Atomic(s[i]);
    if t.Fixed? {
      assert '.' in s;
      var _ := TrimDropsZeros(s);
      var kept := TrimDouble(s);
      assert forall i :: 0 <= i < |kept| ==> kept[i] == s[i];
    }
  }

  lemma {:induction false} ValueLaid(dtos: Dtos, v: Json, level: nat, rest: string, end: int)
    requires PlainKeys(v) && Ends(rest) && Laid(Outside(level), rest, end)
    ensures Laid(Outside(level), Print(dtos, v, level) + rest, end)
    decreases v, 2
  {
    match v
    case Str(s) =>
      QuotedLaid(s, level, rest, end);
      assert "\"" + EscapeString(s) + "\"" + rest == "\"" + (EscapeString(s) + ("\"" + rest));
    case Arr(items) =>
      var close := Close(level, "]", rest);
      CloseLaid(level, ']', rest, end);
      ItemsLaid(dtos, items, level, close, end);
      OpenLaid(level, '[', PrintItems(dtos, items, level, true) + close, end);
      ArrayText(dtos, items, level, rest);
    case Obj(ms) =>
      var close := Close(level, "}", rest);
      CloseLaid(level, '}', rest, end);
      MembersLaid(dtos, ms, level, close, end);
      OpenLaid(level, '{', PrintMembers(dtos, ms, level, true) + close, end);
      ObjectText(dtos, ms, level, rest);
    case _ =>
      NumberIsAtomic(dtos, v, level);
      AtomLaid(Print(dtos, v, level), level, rest, end);
  }

  lemma {:induction false} ItemsLaid(dtos: Dtos, items: seq<Json>, level: nat, close: string, end: int)
    requires PlainKeysItems(items) && Closing(close) && Laid(Outside(level + 1), close, end)
    ensures Laid(Outside(level + 1), "\n" + (PrintItems(dtos, items, level, true) + close), end)
    decreases items, 1
  {
    if items == [] {
      EmptyLaid(level, close, end);
      assert PrintItems(dtos, items, level, true) + close == close;
    } else {
      var later := LaterItems(dtos, items[1..], level, close);
      if items[1..] == [] {
        assert later == close;
      } else {
        ItemsLaid(dtos, items[1..], level, close, end);
        FirstItem(dtos, items[1..], level, close);
        CommaLaid(level, PrintItems(dtos, items[1..], level, true) + close, end);
      }
      ItemLaid(dtos, items[0], level, later, end);
      FirstItem(dtos, items, level, close);
    }
  }

  lemma {:induction false} ItemLaid(dtos: Dtos, v: Json, level: nat, later: string, end: int)
    requires PlainKeys(v) && Ends(later) && Laid(Outside(level + 1), later, end)
    ensures Laid(Outside(level + 1), "\n" + (Pad(level) + (Print(dtos, v, level + 1) + later)), end)
    decreases v, 3
  {
    ValueLaid(dtos, v, level + 1, later, end);
    PrintStarts(dtos, v, level + 1, later);
    LineLaid(level, Print(dtos, v, level + 1) + later, end);
  }

  /** Key, colon and value. */
  lemma {:induction false} MemberLaid(dtos: Dtos, m: Member, level: nat, later: string, end: int)
    requires Plain(m.key) && PlainKeys(m.value) && Ends(later) && Laid(Outside(level + 1), later, end)
    ensures Laid(Outside(level + 1), "\n" + MemberLine(dtos, m, level, later), end)
    decreases m, 3
  {
    var d, value := level + 1, Print(dtos, m.value, level + 1) + later;
    ValueLaid(dtos, m.value, d, later, end);
    PrintStarts(dtos, m.value, d, later);
    LaidStep(Outside(d), ' ', value, end);
    LaidStep(Outside(d), ':', " " + value, end);
    PlainIsUnescaped(m.key);
    QuotedLaid(m.key, d, ":" + (" " + value), end);
    LineLaid(level, "\"" + (m.key + ("\"" + (":" + (" " + value)))), end);
  }

  lemma {:induction false} MembersLaid(dtos: Dtos, ms: seq<Member>, level: nat, close: string, end: int)
    requires PlainKeysMembers(ms) && Closing(close) && Laid(Outside(level + 1), close, end)
    ensures Laid(Outside(level + 1), "\n" + (PrintMembers(dtos, ms, level, true) + close), end)
    decreases ms, 1
  {
    if ms == [] {
      EmptyLaid(level, close, end);
      assert PrintMembers(dtos, ms, level, true) + close == close;
    } else {
      var later := LaterMembers(dtos, ms[1..], level, close);
      if ms[1..] == [] {
        assert later == close;
      } else {
        MembersLaid(dtos, ms[1..], level, close, end);
        FirstMember(dtos, ms[1..], level, close);
        CommaLaid(level, PrintMembers(dtos, ms[1..], level, true) + close, end);
      }
      MemberLaid(dtos, ms[0], level, later, end);
      FirstMember(dtos, ms, level, close);
    }
  }

  /** Printed text starts without whitespace, every character of it that is outside strings is followed by what
      the rules of the layout allow, and it closes as many brackets as it opens. */
  lemma PrintedLayout(dtos: Dtos, v: Json, level: nat, i: nat)
    requires PlainKeys(v) && i < |Print(dtos, v, level)|
    ensures var s := Print(dtos, v, level);
            var p := After(Outside(level), s[..i + 1]);
            && (!p.quoted ==> Follows(p.depth, s[i], s[i + 1..]))
            && Solid(s) && After(Outside(level), s) == Outside(level)
  {
    var s := Print(dtos, v, level);
    PrintStarts(dtos, v, level, "");
    ValueLaid(dtos, v, level, "", level);
    assert s + "" == s;
    LaidEverywhere(Outside(level), s, level, i);
    LaidEnds(Outside(level), s, level);
  }

  // ----- the order of members -----

  lemma {:induction false} SplitMembers(dtos: Dtos, ms: seq<Member>, level: nat, first: bool, i: nat)
    requires i < |ms|
    ensures PrintMembers(dtos, ms, level, first) ==
            PrintMembers(dtos, ms[..i], level, first) +
            (Separator(first && i == 0) + PrintMember(dtos, ms[i], level) +
             PrintMembers(dtos, ms[i + 1..], level, false))
    decreases i
  {
    if i == 0 {
      assert ms[..0] == [];
    } else {
      SplitMembers(dtos, ms[1..], level, false, i - 1);
      assert ms[..i][1..] == ms[1..][..i - 1] && ms[1..][i..] == ms[i + 1..];
      Assoc(Separator(first) + PrintMember(dtos, ms[0], level), PrintMembers(dtos, ms[1..][..i - 1], level, false),
        Separator(false) + PrintMember(dtos, ms[i], level) + PrintMembers(dtos, ms[i + 1..], level, false));
    }
  }

  /** The text of two members, with what stands before, between and after them. */
  lemma TwoMembers(dtos: Dtos, ms: seq<Member>, level: nat, i: nat, j: nat)
    returns (before: string, mid: string, after: string)
    requires i < j < |ms|
    ensures PrintMembers(dtos, ms, level, true) ==
            before + (PrintMember(dtos, ms[i], level) + (mid + (PrintMember(dtos, ms[j], level) + after)))
  {
    var x, y := PrintMember(dtos, ms[i], level), PrintMember(dtos, ms[j], level);
    var later := ms[i + 1..];
    SplitMembers(dtos, ms, level, true, i);
    SplitMembers(dtos, later, level, false, j - i - 1);
    var a, b := PrintMembers(dtos, ms[..i], level, true), PrintMembers(dtos, later[..j - i - 1], level, false);
    after := PrintMembers(dtos, later[j - i..], level, false);
    before, mid := a + Separator(i == 0), b + Separator(false);
    Regroup(a, Separator(i == 0), x, PrintMembers(dtos, later, level, false));
    Regroup(b, Separator(false), y, after);
  }

  lemma Regroup(a: string, b: string, c: string, d: string)
    ensures a + (b + c + d) == (a + b) + (c + d)
  {
  }

  /** The members of an object are printed in lexicographic order of their keys. */
  lemma MembersInKeyOrder(dtos: Dtos, ms: seq<Member>, level: nat, i: nat, j: nat)
    returns (before: string, mid: string, after: string)
    requires Legal(Obj(ms)) && i < j < |ms|
    ensures Precedes(ms[i].key, ms[j].key)
    ensures Print(dtos, Obj(ms), level) ==
            "{\n" +
            (before + (PrintMember(dtos, ms[i], level) + (mid + (PrintMember(dtos, ms[j], level) + after)))) +
            "\n" + Indent(level) + "}"
  {
    SortedIsLexicographic(ms);
    before, mid, after := TwoMembers(dtos, ms, level, i, j);
  }
}
