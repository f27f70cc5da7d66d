// The parser as it runs: methods that share one cursor, proved against what a
// text means, and the printer's loops.

module JsonParser {
  import opened Json

  datatype Outcome = Value(v: JObject) | Thrown | CommentMet

  datatype Look = Char(c: char) | EndThrown | CommentLook

  /* ---- runs of backslashes ---- */

  // The number of backslashes right before position k.
  ghost function Run(t: string, k: nat): nat
    requires k <= |t|
  {
    if k > 0 && t[k - 1] == '\\' then 1 + Run(t, k - 1) else 0
  }

  // Counting backwards and reading forwards agree on every text.
  lemma {:induction false} RunParity(t: string, k: nat)
    requires k <= |t|
    ensures Escaped(t, k) <==> Run(t, k) % 2 == 1
  {
    if k > 0 { RunParity(t, k - 1); }
  }

  lemma NoRun(t: string, k: nat)
    requires k <= |t| && (k > 0 ==> t[k - 1] != '\\')
    ensures Run(t, k) == 0
  {
  }

  lemma CloseIs(t: string, k: nat)
    requires k < |t| && Closes(t, k) && forall j :: 0 <= j < k ==> !Closes(t, j)
    ensures CloseFrom(t, 0) == k
  {
  }

  lemma CloseIsNot(t: string)
    requires forall j :: 0 <= j < |t| ==> !Closes(t, j)
    ensures CloseFrom(t, 0) == |t|
  {
  }

  lemma FractionAt(t: string, k: nat, m: nat)
    requires k == Span(t) > 0 && k < |t| && t[k] == '.' && m == Span(t[k + 1..])
    ensures Json.ParseNumber(t) ==
            if m == 0 then Rejected else Parsed(Double(t[..k + 1 + m]), t[k + 1 + m..])
  {
    hide Decimal, ToInt, Span;
  }

  lemma NoNumber(t: string)
    requires t == [] || !IsDigit(t[0])
    ensures Json.ParseNumber(t) == Rejected
  {
  }

  lemma IntegerAt(t: string, k: nat)
    requires k == Span(t) > 0 && (k < |t| ==> t[k] != '.')
    ensures Json.ParseNumber(t) == Parsed(Int(ToInt(Decimal(t[..k]))), t[k..])
  {
    hide Decimal, ToInt, Span;
  }

  class Parser {
    var str: string
    var idx: nat

    ghost predicate Valid()
      reads this
    {
      idx <= |str|
    }

    // The text still to be read.
    ghost function Rest(): string
      requires Valid()
      reads this
    {
      str[idx..]
    }

    ghost predicate Agrees(out: Outcome, r: Result)
      reads this
    {
      && Valid()
      && match r
         case Parsed(v, rest) => out == Value(v) && Rest() == rest
         case Rejected => out == Thrown
         case Commented => out == CommentMet
    }

    constructor ()
      ensures str == "" && idx == 0
    {
      str, idx := "", 0;
    }

    method Init(src: string)
      modifies this
      ensures str == TrimRight(src) && idx == 0
    {
      str, idx := src, 0;
      while |str| > 0 && IsSpace(str[|str| - 1])
        invariant TrimRight(str) == TrimRight(src) && idx == 0
        decreases |str|
      {
        str := str[..|str| - 1];
      }
    }

    // The character under the cursor; the terminating zero at the end.
    function Peek(): char
      requires Valid()
      reads this
    {
      if idx < |str| then str[idx] else '\0'
    }

    method SkipSpaces()
      requires Valid()
      modifies this`idx
      ensures Valid() && idx >= old(idx) && Rest() == SkipSpace(old(Rest()))
    {
      while IsSpace(Peek())
        invariant Valid() && idx >= old(idx) && SkipSpace(Rest()) == SkipSpace(old(Rest()))
        decreases |str| - idx
      {
        Advance();
      }
    }

    predicate AtComment()
      requires Valid()
      reads this
    {
      idx + 2 <= |str| && str[idx] == '/' && str[idx + 1] == '/'
    }

    // str_.find('\n', idx_)
    method FindLineEnd() returns (pos: nat)
      requires Valid()
      ensures idx <= pos <= |str| && pos - idx == LineEnd(Rest())
    {
      pos := idx;
      while pos < |str| && str[pos] != '\n'
        invariant idx <= pos <= |str| && pos - idx + LineEnd(str[pos..]) == LineEnd(Rest())
      {
        assert str[pos..][1..] == str[pos + 1..];
        pos := pos + 1;
      }
    }

    // Whole lines of comment, and the white space after each.
    method SkipComment() returns (closed: bool)
      requires Valid()
      modifies this`idx
      ensures Valid() && idx >= old(idx)
      ensures closed <==> !SkipComments(old(Rest())).OpenComment?
      ensures closed ==> !AtComment() && SkipComments(Rest()) == SkipComments(old(Rest()))
    {
      hide SkipSpace, LineEnd;
      while AtComment()
        invariant Valid() && idx >= old(idx) && SkipComments(Rest()) == SkipComments(old(Rest()))
        decreases |str| - idx
      {
        var next := FindLineEnd();
        if next == |str| { return false; }
        assert Rest()[next - idx + 1..] == str[next + 1..];
        idx := next + 1;
        SkipSpaces();
      }
      return true;
    }

    // At the very end after a comment the original returns the terminating
    // zero instead, which every caller rejects.
    method GetNextToken() returns (look: Look)
      requires Valid()
      modifies this`idx
      ensures Valid() && idx >= old(idx)
      ensures match NextToken(old(Rest()))
              case Tok(u) => Rest() == u && look == Char(u[0])
              case NoToken => look == EndThrown
              case OpenComment => look == CommentLook
    {
      hide SkipSpace, LineEnd;
      SkipSpaces();
      var closed := SkipComment();
      if !closed { return CommentLook; }
      if idx >= |str| { return EndThrown; }
      return Char(str[idx]);
    }

    method ParseNumber() returns (out: Outcome)
      requires Valid()
      modifies this`idx
      ensures Agrees(out, Json.ParseNumber(old(Rest())))
      ensures idx >= old(idx)
    {
      hide Decimal, ToInt, Span, Json.ParseNumber;
      var begin := idx;
      ghost var t := Rest();
      if !IsDigit(Peek()) {
        NoNumber(t);
        return Thrown;
      }
      SkipDigits();
      ghost var k := Span(t);
      assert Rest() == t[k..] && str[begin..idx] == t[..k];
      if Peek() != '.' {
        IntegerAt(t, k);
        return Value(Int(ToInt(Decimal(str[begin..idx]))));
      }
      out := ParseFraction(begin, t, k);
    }

    method ParseFraction(begin: nat, ghost t: string, ghost k: nat) returns (out: Outcome)
      requires Valid() && begin <= idx && t == str[begin..] && k == idx - begin == Span(t) > 0 && Peek() == '.'
      modifies this`idx
      ensures Agrees(out, Json.ParseNumber(t)) && idx >= old(idx)
    {
      hide Decimal, ToInt, Span, Json.ParseNumber;
      idx := idx + 1;
      assert Rest() == t[k + 1..];
      FractionAt(t, k, Span(Rest()));
      if !IsDigit(Peek()) { return Thrown; }
      SkipDigits();
      assert Rest() == t[idx - begin..] && str[begin..idx] == t[..idx - begin];
      return Value(Double(str[begin..idx]));
    }

    method SkipDigits()
      requires Valid()
      modifies this`idx
      ensures Valid() && idx == old(idx) + Span(old(Rest()))
    {
      while IsDigit(Peek())
        invariant Valid() && idx >= old(idx)
        invariant idx + Span(Rest()) == old(idx) + Span(old(Rest()))
        decreases |str| - idx
      {
        Advance();
      }
    }

    // str_.find('"', from)
    method FindQuote(from: nat) returns (pos: nat)
      requires from <= |str|
      ensures from <= pos <= |str| && (pos < |str| ==> str[pos] == '"')
      ensures forall j :: from <= j < pos ==> str[j] != '"'
    {
      pos := from;
      while pos < |str| && str[pos] != '"'
        invariant from <= pos <= |str| && forall j :: from <= j < pos ==> str[j] != '"'
      {
        pos := pos + 1;
      }
    }

    // An even number of backslashes ends at pos. The opening quote, right
    // before start, stops the count.
    method IsEscConsume(pos: nat, ghost start: nat) returns (even: bool)
      requires 0 < start <= pos < |str| && str[start - 1] == '"'
      ensures even <==> Run(str[start..], pos + 1 - start) % 2 == 0
    {
      ghost var t := str[start..];
      var p := pos;
      while str[p] == '\\'
        invariant start - 1 <= p <= pos
        invariant Run(t, pos + 1 - start) == pos - p + Run(t, p + 1 - start)
        decreases p
      {
        p := p - 1;
      }
      even := (pos - p) % 2 == 0;
    }

    // The closing quote of the string that starts at start, or the end.
    method FindClose(start: nat) returns (pos: nat)
      requires 0 < start <= |str| && str[start - 1] == '"'
      ensures start <= pos <= |str| && pos - start == CloseFrom(str[start..], 0)
    {
      hide Run, CloseFrom, Escaped;
      ghost var t := str[start..];
      pos := FindQuote(start);
      while pos < |str|
        invariant start <= pos <= |str| && (pos < |str| ==> t[pos - start] == '"')
        invariant forall j :: 0 <= j < pos - start ==> !Closes(t, j)
        decreases |str| - pos
      {
        RunParity(t, pos - start);
        if str[pos - 1] != '\\' {
          NoRun(t, pos - start);
          break;
        }
        var even := IsEscConsume(pos - 1, start);
        if even { break; }
        pos := FindQuote(pos + 1);
      }
      if pos < |str| { CloseIs(t, pos - start); } else { CloseIsNot(t); }
    }

    method ParseString() returns (out: Outcome)
      requires Valid() && idx < |str| && str[idx] == '"'
      modifies this`idx
      ensures Agrees(out, Json.ParseString(old(Rest())))
      ensures idx >= old(idx)
    {
      hide CloseFrom;
      idx := idx + 1;
      var start := idx;
      ghost var t := str[start..];
      assert old(Rest())[1..] == t;
      var pos := FindClose(start);
      if pos == |str| { return Thrown; }
      idx := pos + 1;
      assert str[start..pos] == t[..pos - start] && Rest() == t[pos - start + 1..];
      return Value(Str(str[start..pos]));
    }

    method Advance()
      requires Valid() && idx < |str|
      modifies this`idx
      ensures Valid() && idx == old(idx) + 1 && Rest() == old(Rest())[1..]
    {
      idx := idx + 1;
    }

    method ParseNull() returns (out: Outcome)
      requires Valid()
      modifies this`idx
      ensures Agrees(out, if "null" <= old(Rest()) then Parsed(Null, old(Rest())[4..]) else Rejected)
      ensures idx >= old(idx)
    {
      if idx + 4 <= |str| && str[idx..idx + 4] == "null" {
        idx := idx + 4;
        return Value(Null);
      }
      return Thrown;
    }

    method ParseBool() returns (out: Outcome)
      requires Valid()
      modifies this`idx
      ensures Agrees(out, if "true" <= old(Rest()) then Parsed(Bool(true), old(Rest())[4..])
                          else if "false" <= old(Rest()) then Parsed(Bool(false), old(Rest())[5..])
                          else Rejected)
      ensures idx >= old(idx)
    {
      if idx + 4 <= |str| && str[idx..idx + 4] == "true" {
        idx := idx + 4;
        return Value(Bool(true));
      }
      if idx + 5 <= |str| && str[idx..idx + 5] == "false" {
        idx := idx + 5;
        return Value(Bool(false));
      }
      return Thrown;
    }

    method Parse() returns (out: Outcome)
      requires Valid()
      modifies this`idx
      ensures Agrees(out, ParseAt(old(Rest())))
      ensures idx >= old(idx)
      decreases |str| - idx, 4
    {
      hide Json.ParseNumber, Json.ParseString, Json.ParseList, Json.ParseDict, NextToken;
      var look := GetNextToken();
      match look
      case EndThrown => return Thrown;
      case CommentLook => return CommentMet;
      case Char(c) =>
        if c == 'n' { out := ParseNull(); }
        else if c == 't' || c == 'f' { out := ParseBool(); }
        else if c == '-' || IsDigit(c) { out := ParseNumber(); }
        else if c == '"' { out := ParseString(); }
        else if c == '[' { out := ParseList(); }
        else if c == '{' { out := ParseDict(); }
        else { out := Thrown; }
    }

    method ParseList() returns (out: Outcome)
      requires Valid() && idx < |str|
      modifies this`idx
      ensures Agrees(out, Json.ParseList(old(Rest())))
      ensures idx >= old(idx)
      decreases |str| - idx, 3
    {
      hide ParseAt, NextToken;
      ghost var r := Json.ParseList(Rest());
      var arr: seq<JObject> := [];
      Advance();
      var look := GetNextToken();
      if look.EndThrown? { return Thrown; }
      if look.CommentLook? { return CommentMet; }
      if look.c == ']' {
        Advance();
        return Value(List(arr));
      }
      while true
        invariant Valid() && idx > old(idx) && r == ParseItems(Rest(), arr)
        decreases |str| - idx
      {
        var v := Parse();
        if !v.Value? { return v; }
        look := GetNextToken();
        if look.EndThrown? { return Thrown; }
        if look.CommentLook? { return CommentMet; }
        arr := arr + [v.v];
        if look.c != ']' && look.c != ',' { return Thrown; }
        Advance();
        if look.c == ']' { break; }
      }
      return Value(List(arr));
    }

    // The key and the value of one entry; bad is a failure unless it is a value.
    method ParseMember() returns (bad: Outcome, key: string, value: JObject)
      requires Valid()
      modifies this`idx
      ensures Valid() && idx >= old(idx)
      ensures match Json.ParseMember(old(Rest()))
              case Member(k, v, rest) => bad == Value(v) && key == k && value == v && Rest() == rest
              case NotMember(why) => bad == if why.Commented? then CommentMet else Thrown
      decreases |str| - idx, 5
    {
      hide ParseAt, NextToken;
      key, value := "", Null;
      bad := Parse();
      if !bad.Value? { return; }
      if !bad.v.Str? { return Thrown, key, value; }
      key := bad.v.s;
      var look := GetNextToken();
      if look.EndThrown? { return Thrown, key, value; }
      if look.CommentLook? { return CommentMet, key, value; }
      if look.c != ':' { return Thrown, key, value; }
      Advance();
      bad := Parse();
      if bad.Value? { value := bad.v; }
    }

    method ParseDict() returns (out: Outcome)
      requires Valid() && idx < |str|
      modifies this`idx
      ensures Agrees(out, Json.ParseDict(old(Rest())))
      ensures idx >= old(idx)
      decreases |str| - idx, 3
    {
      hide Json.ParseMember, NextToken, Assign;
      ghost var r := Json.ParseDict(Rest());
      var dict: seq<(string, JObject)> := [];
      Advance();
      var look := GetNextToken();
      if look.EndThrown? { return Thrown; }
      if look.CommentLook? { return CommentMet; }
      if look.c == '}' {
        Advance();
        return Value(Dict(dict));
      }
      while true
        invariant Valid() && idx > old(idx) && r == ParseEntries(Rest(), dict)
        decreases |str| - idx
      {
        var bad, key, v := ParseMember();
        if !bad.Value? { return bad; }
        look := GetNextToken();
        if look.EndThrown? { return Thrown; }
        if look.CommentLook? { return CommentMet; }
        dict := Assign(dict, key, v);
        if look.c != '}' && look.c != ',' { return Thrown; }
        Advance();
        if look.c == '}' { break; }
      }
      return Value(Dict(dict));
    }
  }

  method FromString(content: string) returns (out: Outcome)
    ensures match Json.FromString(content)
            case Parsed(v, _) => out == Value(v)
            case Rejected => out == Thrown
            case Commented => out == CommentMet
  {
    var instance := new Parser();
    instance.Init(content);
    assert instance.Rest() == instance.str;
    out := instance.Parse();
  }

  // JObject::ToString.
  method ToString(v: JObject) returns (os: string)
    requires Plain(v)
    ensures os == Print(v)
    decreases v
  {
    match v
    case Null => os := "null";
    case Bool(b) => os := if b then "true" else "false";
    case Int(n) => os := if n < 0 then "-" + Digits(-n) else Digits(n);
    case Str(s) => os := "\"" + s + "\"";
    case List(items) => os := ListToString(items);
    case Dict(entries) => os := DictToString(entries);
  }

  // A comma after every item but the last.
  method ListToString(list: seq<JObject>) returns (os: string)
    requires Plain(List(list))
    ensures os == Print(List(list))
    decreases list
  {
    hide Plain, PrintItems;
    assert forall i :: 0 <= i < |list| ==> Plain(list[i]) by { PlainParts(List(list)); }
    os := "[";
    assert list[0..] == list;
    for i := 0 to |list|
      invariant os + PrintItems(list[i..]) == "[" + PrintItems(list)
    {
      var item := ToString(list[i]);
      ItemsStep(list, i);
      os := os + item;
      if i != |list| - 1 { os := os + ","; }
    }
    ItemsStep(list, |list|);
    os := os + "]";
  }

  lemma ItemsStep(list: seq<JObject>, i: nat)
    requires i <= |list| && forall j :: 0 <= j < |list| ==> Plain(list[j])
    ensures PrintItems(list[i..]) ==
            if i == |list| then "" else Print(list[i]) + (if i != |list| - 1 then "," else "") + PrintItems(list[i + 1..])
  {
    hide Plain, Print;
    if i < |list| { assert list[i..][0] == list[i] && list[i..][1..] == list[i + 1..]; }
  }

  lemma PlainParts(v: JObject)
    requires Plain(v)
    ensures v.List? ==> forall i :: 0 <= i < |v.items| ==> Plain(v.items[i])
    ensures v.Dict? ==> forall i :: 0 <= i < |v.entries| ==> Plain(v.entries[i].1)
  {
  }

  // What is still to be written from entry i on, its comma included.
  ghost function Remaining(d: seq<(string, JObject)>, i: nat): string
    requires i <= |d| && forall j :: 0 <= j < |d| ==> Plain(d[j].1)
  {
    (if 0 < i < |d| then "," else "") + PrintEntries(d[i..])
  }

  lemma RemainingStep(d: seq<(string, JObject)>, i: nat)
    requires i < |d| && forall j :: 0 <= j < |d| ==> Plain(d[j].1)
    ensures Remaining(d, i) == (if i != 0 then "," else "") + PrintEntry(d[i]) + Remaining(d, i + 1)
  {
    hide Plain, PrintEntry;
    assert d[i..][0] == d[i] && d[i..][1..] == d[i + 1..];
  }

  lemma RemainingEnd(d: seq<(string, JObject)>)
    requires forall j :: 0 <= j < |d| ==> Plain(d[j].1)
    ensures Remaining(d, |d|) == ""
  {
  }

  // A comma before every entry but the first.
  method DictToString(dict: seq<(string, JObject)>) returns (os: string)
    requires Plain(Dict(dict))
    ensures os == Print(Dict(dict))
    decreases dict
  {
    hide Plain, PrintEntries;
    assert forall i :: 0 <= i < |dict| ==> Plain(dict[i].1) by { PlainParts(Dict(dict)); }
    os := "{";
    assert dict[0..] == dict;
    for i := 0 to |dict|
      invariant os + Remaining(dict, i) == "{" + PrintEntries(dict)
    {
      RemainingStep(dict, i);
      if i != 0 { os := os + ","; }
      var item := ToString(dict[i].1);
      os := os + ("\"" + dict[i].0 + "\":" + item);
    }
    RemainingEnd(dict);
    os := os + "}";
  }
}
