// Parsing undoes printing: exactly when, and for which values.

module JsonRoundTrip {
  import Lex
  import opened Json

  /* ---- what every parsed value is like ---- */

  predicate IsInt32(n: int) {
    -0x8000_0000 <= n < 0x8000_0000
  }

  predicate Clean(v: JObject)
    decreases v
  {
    match v
    case Int(n) => IsInt32(n)
    case Str(s) => WellEscaped(s)
    case List(items) => forall i :: 0 <= i < |items| ==> Clean(items[i])
    case Dict(d) => SortedKeys(d) && forall i :: 0 <= i < |d| ==> WellEscaped(d[i].0) && Clean(d[i].1)
    case _ => true
  }

  predicate NonNegative(v: JObject)
    decreases v
  {
    match v
    case Int(n) => n >= 0
    case List(items) => forall i :: 0 <= i < |items| ==> NonNegative(items[i])
    case Dict(d) => forall i :: 0 <= i < |d| ==> NonNegative(d[i].1)
    case _ => true
  }

  predicate CleanEntries(d: seq<(string, JObject)>) {
    SortedKeys(d) && forall i :: 0 <= i < |d| ==> WellEscaped(d[i].0) && Clean(d[i].1)
  }

  /* ---- escapes ---- */

  lemma {:induction false} EscapedPrefix(s: string, t: string, k: nat)
    requires k <= |s| && s <= t
    ensures Escaped(s, k) == Escaped(t, k)
  {
    if k > 0 { EscapedPrefix(s, t, k - 1); }
  }

  lemma ClosesPrefix(s: string, t: string)
    requires s <= t
    ensures forall k :: 0 <= k < |s| ==> Closes(s, k) == Closes(t, k)
    ensures Escaped(s, |s|) == Escaped(t, |s|)
  {
    forall k | 0 <= k <= |s| ensures Escaped(s, k) == Escaped(t, k) { EscapedPrefix(s, t, k); }
  }

  // A quoted string is read back exactly when it is well escaped.
  lemma StringExact(s: string, b: string)
    ensures ParseString("\"" + s + "\"" + b) == Parsed(Str(s), b) <==> WellEscaped(s)
  {
    hide Escaped;
    var u := s + "\"" + b;
    assert ("\"" + s + "\"" + b)[1..] == u;
    ClosesPrefix(s, u);
    var k := CloseFrom(u, 0);
    assert Closes(u, |s|) == !Escaped(s, |s|);
    assert |u[..k]| == |s| ==> k == |s|;
    assert u[..|s|] == s && u[|s| + 1..] == b;
  }

  lemma ParsedStringClean(u: string, k: nat)
    requires k < |u| && k == CloseFrom(u, 0)
    ensures WellEscaped(u[..k])
  {
    ClosesPrefix(u[..k], u);
  }

  /* ---- keys ---- */

  lemma CodesInjective(a: string, b: string)
    requires Codes(a) == Codes(b)
    ensures a == b
  {
    forall i | 0 <= i < |a| ensures a[i] == b[i] { assert Codes(a)[i] == Codes(b)[i]; }
  }

  lemma BeforeTotal(a: string, b: string)
    ensures a == b || Before(a, b) || Before(b, a)
  {
    Lex.LessTotal(Codes(a), Codes(b));
    if Codes(a) == Codes(b) { CodesInjective(a, b); }
  }

  lemma BeforeTransitive(a: string, b: string, c: string)
    requires Before(a, b) && Before(b, c)
    ensures Before(a, c)
  {
    Lex.LessTransitive(Codes(a), Codes(b), Codes(c));
  }

  lemma BeforeAsymmetric(a: string, b: string)
    requires Before(a, b)
    ensures a != b && !Before(b, a)
  {
    Lex.LessIrreflexive(Codes(a));
    if Before(b, a) { BeforeTransitive(a, b, a); }
  }

  // The first character in which two keys differ decides their order.
  lemma BeforeExact(a: string, b: string)
    ensures Before(a, b) <==>
            exists n :: 0 <= n <= |a| && n < |b| && a[..n] == b[..n] && (n == |a| || a[n] < b[n])
  {
    hide Lex.Less;
    var x, y := Codes(a), Codes(b);
    Lex.LessExact(x, y);
    if Before(a, b) {
      var n: nat :| Lex.ComesFirstAt(x, y, n);
      forall i | 0 <= i < n ensures a[i] == b[i] { assert x[..n][i] == y[..n][i]; }
      assert a[..n] == b[..n];
    }
    if n :| 0 <= n <= |a| && n < |b| && a[..n] == b[..n] && (n == |a| || a[n] < b[n]) {
      forall i | 0 <= i < n ensures x[i] == y[i] { assert a[..n][i] == b[..n][i]; }
      assert Lex.ComesFirstAt(x, y, n);
    }
  }

  // dict[k] = v keeps the keys sorted and adds nothing but k.
  lemma {:induction false} AssignSorted(d: seq<(string, JObject)>, k: string, v: JObject)
    requires SortedKeys(d)
    ensures SortedKeys(Assign(d, k, v))
    ensures forall e :: e in Assign(d, k, v) ==> e == (k, v) || e in d
  {
    hide Before;
    if d == [] {
    } else if Before(k, d[0].0) {
      forall i | 0 < i < |d| ensures Before(k, d[i].0) { BeforeTransitive(k, d[0].0, d[i].0); }
    } else if d[0].0 == k {
      assert d == [d[0]] + d[1..];
    } else {
      BeforeTotal(k, d[0].0);
      AssignSorted(d[1..], k, v);
      assert forall e :: e in d[1..] ==> e in d;
      var r := Assign(d[1..], k, v);
      forall i | 0 <= i < |r| ensures Before(d[0].0, r[i].0) {
        assert r[i] in r;
        if r[i] != (k, v) {
          var j :| 0 <= j < |d[1..]| && d[1..][j] == r[i];
          assert d[j + 1] == r[i];
        }
      }
    }
  }

  // It is map update: k now has v, and every other entry is as it was.
  lemma {:induction false} AssignIsUpdate(d: seq<(string, JObject)>, k: string, v: JObject, e: (string, JObject))
    requires SortedKeys(d)
    ensures e in Assign(d, k, v) <==> e == (k, v) || (e in d && e.0 != k)
  {
    hide Before;
    if d != [] {
      assert d == [d[0]] + d[1..];
      if Before(k, d[0].0) {
        forall i | 0 <= i < |d| ensures d[i].0 != k {
          if i > 0 { BeforeTransitive(k, d[0].0, d[i].0); }
          BeforeAsymmetric(k, d[i].0);
        }
      } else if d[0].0 == k {
        forall i | 0 < i < |d| ensures d[i].0 != k { BeforeAsymmetric(k, d[i].0); }
        assert e in d[1..] ==> exists i :: 0 < i < |d| && d[i] == e;
      } else {
        AssignIsUpdate(d[1..], k, v, e);
      }
    }
  }

  lemma AssignClean(d: seq<(string, JObject)>, k: string, v: JObject)
    requires CleanEntries(d) && WellEscaped(k) && Clean(v)
    ensures CleanEntries(Assign(d, k, v))
  {
    hide WellEscaped, Clean, SortedKeys;
    AssignSorted(d, k, v);
    var r := Assign(d, k, v);
    forall i | 0 <= i < |r| ensures WellEscaped(r[i].0) && Clean(r[i].1) { assert r[i] in r; }
  }

  lemma {:induction false} AssignLast(d: seq<(string, JObject)>, k: string, v: JObject)
    requires forall i :: 0 <= i < |d| ==> Before(d[i].0, k)
    ensures Assign(d, k, v) == d + [(k, v)]
  {
    hide Before;
    if d != [] {
      BeforeAsymmetric(d[0].0, k);
      AssignLast(d[1..], k, v);
    }
  }

  /* ---- every parsed value is clean ---- */

  lemma {:induction false} ParsedClean(t: string)
    ensures ParseAt(t).Parsed? ==> Clean(ParseAt(t).value)
    decreases |t|, 2
  {
    hide WellEscaped, ToInt, Decimal;
    match NextToken(t)
    case NoToken =>
    case OpenComment =>
    case Tok(u) =>
      if u[0] == '-' || IsDigit(u[0]) {
        NumberClean(u);
      } else if u[0] == '"' {
        var k := CloseFrom(u[1..], 0);
        if k < |u[1..]| { ParsedStringClean(u[1..], k); }
      } else if u[0] == '[' {
        match NextToken(u[1..])
        case NoToken =>
        case OpenComment =>
        case Tok(w) => if w[0] != ']' { ItemsClean(w, []); }
      } else if u[0] == '{' {
        match NextToken(u[1..])
        case NoToken =>
        case OpenComment =>
        case Tok(w) => if w[0] != '}' { EntriesClean(w, []); }
      }
  }

  lemma NumberClean(u: string)
    ensures ParseNumber(u).Parsed? ==> Clean(ParseNumber(u).value)
  {
  }

  lemma {:induction false} ItemsClean(t: string, items: seq<JObject>)
    requires forall i :: 0 <= i < |items| ==> Clean(items[i])
    ensures ParseItems(t, items).Parsed? ==> Clean(ParseItems(t, items).value)
    decreases |t|, 3
  {
    ParsedClean(t);
    match ParseAt(t)
    case Rejected =>
    case Commented =>
    case Parsed(v, u) =>
      match NextToken(u)
      case NoToken =>
      case OpenComment =>
      case Tok(w) => if w[0] == ',' { ItemsClean(w[1..], items + [v]); }
  }

  lemma {:induction false} MemberClean(t: string)
    ensures ParseMember(t).Member? ==> WellEscaped(ParseMember(t).key) && Clean(ParseMember(t).value)
    decreases |t|, 3
  {
    hide WellEscaped;
    ParsedClean(t);
    match ParseAt(t)
    case Rejected =>
    case Commented =>
    case Parsed(key, u) =>
      match NextToken(u)
      case NoToken =>
      case OpenComment =>
      case Tok(w) => if w[0] == ':' { ParsedClean(w[1..]); }
  }

  lemma {:induction false} EntriesClean(t: string, d: seq<(string, JObject)>)
    requires CleanEntries(d)
    ensures ParseEntries(t, d).Parsed? ==> Clean(ParseEntries(t, d).value)
    decreases |t|, 4
  {
    hide WellEscaped, ParseMember;
    MemberClean(t);
    match ParseMember(t)
    case NotMember(_) =>
    case Member(key, v, u) =>
      AssignClean(d, key, v);
      match NextToken(u)
      case NoToken =>
      case OpenComment =>
      case Tok(w) => if w[0] == ',' { EntriesClean(w[1..], Assign(d, key, v)); }
  }

  /* ---- printing, then parsing ---- */

  // What may follow a printed value: nothing that would continue a number.
  predicate Follows(b: string) {
    b == [] || (!IsDigit(b[0]) && b[0] != '.')
  }

  predicate Starts(t: string) {
    t != [] && !IsSpace(t[0]) && t[0] !in {'/', ']', '}', ',', ':'}
  }

  lemma StartsToken(t: string)
    requires Starts(t)
    ensures NextToken(t) == Tok(t)
  {
  }

  lemma {:induction false} DigitsAreDigits(n: nat)
    ensures forall i :: 0 <= i < |Digits(n)| ==> IsDigit(Digits(n)[i])
    ensures Decimal(Digits(n)) == n
  {
    if n >= 10 {
      DigitsAreDigits(n / 10);
      assert Digits(n)[..|Digits(n)| - 1] == Digits(n / 10);
    }
  }

  lemma {:induction false} SpanIs(ds: string, b: string)
    requires (forall i :: 0 <= i < |ds| ==> IsDigit(ds[i])) && (b == [] || !IsDigit(b[0]))
    ensures Span(ds + b) == |ds|
  {
    if ds == [] {
      assert ds + b == b;
    } else {
      SpanIs(ds[1..], b);
      assert (ds + b)[1..] == ds[1..] + b;
    }
  }

  // Which branch of the parser a text takes.
  lemma Branches(t: string)
    requires Starts(t)
    ensures t[0] == '-' || IsDigit(t[0]) ==> ParseAt(t) == ParseNumber(t)
    ensures t[0] == '"' ==> ParseAt(t) == ParseString(t)
    ensures t[0] == '[' && Starts(t[1..]) ==> ParseAt(t) == ParseItems(t[1..], [])
    ensures t[0] == '{' && Starts(t[1..]) ==> ParseAt(t) == ParseEntries(t[1..], [])
  {
    hide ParseNumber, ParseString, ParseItems, ParseEntries, NextToken;
    StartsToken(t);
    if Starts(t[1..]) { StartsToken(t[1..]); }
  }

  lemma NumberRoundTrip(n: nat, b: string)
    requires Follows(b)
    ensures ParseNumber(Digits(n) + b) == Parsed(Int(ToInt(n)), b)
  {
    hide Digits, Decimal;
    var ds := Digits(n);
    DigitsAreDigits(n);
    SpanIs(ds, b);
    assert (ds + b)[..|ds|] == ds && (ds + b)[|ds|..] == b;
  }

  lemma PrintStarts(v: JObject, b: string)
    requires Plain(v)
    ensures Starts(Print(v) + b)
  {
    match v
    case Int(n) => if n >= 0 { DigitsAreDigits(n); assert IsDigit(Digits(n)[0]); }
    case _ =>
  }

  lemma WordsThenParse(b: string)
    ensures ParseAt("null" + b) == Parsed(Null, b)
    ensures ParseAt("true" + b) == Parsed(Bool(true), b)
    ensures ParseAt("false" + b) == Parsed(Bool(false), b)
  {
    StartsToken("null" + b);
    StartsToken("true" + b);
    StartsToken("false" + b);
    assert ("null" + b)[4..] == b && ("true" + b)[4..] == b && ("false" + b)[5..] == b;
  }

  lemma EmptyBrackets(b: string)
    ensures ParseAt("[]" + b) == Parsed(List([]), b)
    ensures ParseAt("{}" + b) == Parsed(Dict([]), b)
  {
    StartsToken("[]" + b);
    StartsToken("{}" + b);
    assert ("[]" + b)[1..] == "]" + b && ("{}" + b)[1..] == "}" + b;
    ClosingToken(']', b);
    ClosingToken('}', b);
  }

  lemma ClosingToken(c: char, b: string)
    requires c in {']', '}', ',', ':'}
    ensures NextToken([c] + b) == Tok([c] + b) && ([c] + b)[1..] == b
  {
  }

  lemma {:induction false} PrintThenParse(v: JObject, b: string)
    requires Plain(v) && Clean(v) && Follows(b)
    ensures ParseAt(Print(v) + b) == if NonNegative(v) then Parsed(v, b) else Rejected
    decreases v, 0
  {
    hide ParseAt, ParseItems, ParseEntries, Digits, WellEscaped;
    var t := Print(v) + b;
    match v
    case Null => WordsThenParse(b);
    case Bool(_) => WordsThenParse(b);
    case Int(n) => IntThenParse(n, b);
    case Str(s) => KeyThenParse(s, b);
    case List(items) => ListThenParse(items, b);
    case Dict(d) => DictThenParse(d, b);
  }

  // The text of a list and of a dictionary, up to what follows.
  lemma ListText(items: seq<JObject>, b: string)
    requires Plain(List(items))
    ensures Print(List(items)) + b == if items == [] then "[]" + b else "[" + (PrintItems(items) + ("]" + b))
  {
    hide PrintItems;
    if items == [] { assert PrintItems(items) == "" by { NothingPrinted(); } }
  }

  lemma DictText(d: seq<(string, JObject)>, b: string)
    requires Plain(Dict(d))
    ensures Print(Dict(d)) + b == if d == [] then "{}" + b else "{" + (PrintEntries(d) + ("}" + b))
  {
    hide PrintEntries;
    if d == [] { assert PrintEntries(d) == "" by { NothingPrinted(); } }
  }

  lemma NothingPrinted()
    ensures PrintItems([]) == "" && PrintEntries([]) == ""
  {
  }

  lemma {:induction false} ListThenParse(items: seq<JObject>, b: string)
    requires Plain(List(items)) && Clean(List(items)) && Follows(b)
    ensures ParseAt(Print(List(items)) + b) == if NonNegative(List(items)) then Parsed(List(items), b) else Rejected
    decreases items, 1
  {
    ListText(items, b);
    hide ParseAt, ParseItems, PrintItems, Print;
    if items == [] {
      EmptyBrackets(b);
    } else {
      ItemsStart(items, "]" + b);
      Opens(PrintItems(items) + ("]" + b));
      PrintThenParseItems([], items, b);
      assert [] + items == items;
    }
  }

  lemma DictParts(d: seq<(string, JObject)>)
    ensures Clean(Dict(d)) ==> CleanEntries(d)
    ensures Plain(Dict(d)) ==> forall i :: 0 <= i < |d| ==> Plain(d[i].1)
    ensures NonNegative(Dict(d)) <==> forall i :: 0 <= i < |d| ==> NonNegative(d[i].1)
  {
    hide WellEscaped, SortedKeys;
  }

  lemma {:induction false} DictThenParse(d: seq<(string, JObject)>, b: string)
    requires Plain(Dict(d)) && Clean(Dict(d)) && Follows(b)
    ensures ParseAt(Print(Dict(d)) + b) == if NonNegative(Dict(d)) then Parsed(Dict(d), b) else Rejected
    decreases d, 1
  {
    DictText(d, b);
    DictParts(d);
    hide ParseAt, ParseEntries, PrintEntries, Print, CleanEntries, Clean, Plain, NonNegative, Starts;
    if d == [] {
      EmptyBrackets(b);
    } else {
      var u := PrintEntries(d) + ("}" + b);
      assert Starts(u) by { EntriesStart(d, "}" + b); }
      assert ParseAt("{" + u) == ParseEntries(u, []) by { Opens(u); }
      assert [] + d == d;
      PrintThenParseEntries([], d, b);
    }
  }

  lemma Opens(u: string)
    requires Starts(u)
    ensures ParseAt("[" + u) == ParseItems(u, [])
    ensures ParseAt("{" + u) == ParseEntries(u, [])
  {
    hide ParseAt, ParseItems, ParseEntries;
    assert ("[" + u)[1..] == u && ("{" + u)[1..] == u;
    Branches("[" + u);
    Branches("{" + u);
  }

  lemma DigitsThenParse(n: nat, b: string)
    requires Follows(b)
    ensures ParseAt(Digits(n) + b) == Parsed(Int(ToInt(n)), b)
  {
    hide ParseAt, ParseNumber, Digits, ToInt;
    var t := Digits(n) + b;
    DigitsAreDigits(n);
    assert IsDigit(Digits(n)[0]) && t[0] == Digits(n)[0];
    NumberRoundTrip(n, b);
    Branches(t);
  }

  lemma MinusRejected(u: string)
    ensures ParseAt("-" + u) == Rejected
  {
    hide ParseAt;
    Branches("-" + u);
  }

  lemma IntThenParse(n: int, b: string)
    requires IsInt32(n) && Follows(b)
    ensures ParseAt(Print(Int(n)) + b) == if n >= 0 then Parsed(Int(n), b) else Rejected
  {
    hide ParseAt, Digits;
    if n >= 0 {
      DigitsThenParse(n, b);
    } else {
      MinusRejected(Digits(-n) + b);
      assert Print(Int(n)) + b == "-" + (Digits(-n) + b);
    }
  }

  lemma ItemsStart(items: seq<JObject>, b: string)
    requires items != [] && forall i :: 0 <= i < |items| ==> Plain(items[i])
    ensures Starts(PrintItems(items) + b)
  {
    PrintStarts(items[0], []);
  }

  lemma EntriesStart(d: seq<(string, JObject)>, b: string)
    requires d != [] && forall i :: 0 <= i < |d| ==> Plain(d[i].1)
    ensures Starts(PrintEntries(d) + b)
  {
  }

  lemma {:induction false} PrintThenParseItems(done: seq<JObject>, items: seq<JObject>, b: string)
    requires items != [] && forall i :: 0 <= i < |items| ==> Plain(items[i]) && Clean(items[i])
    ensures ParseItems(PrintItems(items) + ("]" + b), done) ==
            if forall i :: 0 <= i < |items| ==> NonNegative(items[i]) then Parsed(List(done + items), b) else Rejected
    decreases items, 0
  {
    hide ParseAt, Print, NextToken;
    var v := items[0];
    if |items| == 1 {
      PrintThenParse(v, "]" + b);
      assert PrintItems(items) + ("]" + b) == Print(v) + ("]" + b);
      ClosingToken(']', b);
      assert items == [v];
    } else {
      var rest := PrintItems(items[1..]) + ("]" + b);
      PrintThenParse(v, "," + rest);
      assert PrintItems(items) + ("]" + b) == Print(v) + ("," + rest);
      ClosingToken(',', rest);
      PrintThenParseItems(done + [v], items[1..], b);
      assert done + items == done + [v] + items[1..];
      assert items == [v] + items[1..];
    }
  }

  lemma KeyThenParse(k: string, b: string)
    requires WellEscaped(k)
    ensures ParseAt("\"" + k + "\"" + b) == Parsed(Str(k), b)
  {
    hide ParseAt, WellEscaped, ParseString;
    StringExact(k, b);
    Branches("\"" + k + "\"" + b);
  }

  // A key, a colon, a value, and what follows them.
  lemma {:induction false} EntryThenParse(done: seq<(string, JObject)>, e: (string, JObject), c: char, b: string)
    requires WellEscaped(e.0) && Plain(e.1) && Clean(e.1) && c in {'}', ','}
    ensures ParseEntries(PrintEntry(e) + ([c] + b), done) ==
            if !NonNegative(e.1) then Rejected
            else if c == '}' then Parsed(Dict(Assign(done, e.0, e.1)), b)
            else ParseEntries(b, Assign(done, e.0, e.1))
    decreases e, 0
  {
    hide ParseAt, Print, NextToken, WellEscaped, Clean, Plain, NonNegative, Assign;
    var value := Print(e.1) + ([c] + b);
    KeyThenParse(e.0, [':'] + value);
    ClosingToken(':', value);
    PrintThenParse(e.1, [c] + b);
    ClosingToken(c, b);
    assert PrintEntry(e) + ([c] + b) == "\"" + e.0 + "\"" + ([':'] + value);
  }

  lemma {:induction false} PrintThenParseEntries(done: seq<(string, JObject)>, d: seq<(string, JObject)>, b: string)
    requires d != [] && CleanEntries(done + d) && forall i :: 0 <= i < |d| ==> Plain(d[i].1)
    ensures ParseEntries(PrintEntries(d) + ("}" + b), done) ==
            if forall i :: 0 <= i < |d| ==> NonNegative(d[i].1) then Parsed(Dict(done + d), b) else Rejected
    decreases d, 0
  {
    hide ParseAt, ParseEntries, PrintEntry, WellEscaped, Clean, Before, NonNegative, Assign;
    var e := d[0];
    var all := done + d;
    assert all[|done|] == e;
    forall i | 0 <= i < |done| ensures Before(done[i].0, e.0) { assert all[i] == done[i]; }
    AssignLast(done, e.0, e.1);
    if |d| == 1 {
      EntryThenParse(done, e, '}', b);
      assert PrintEntries(d) + ("}" + b) == PrintEntry(e) + (['}'] + b);
      assert d == [e] && done + [(e.0, e.1)] == done + d;
    } else {
      var rest := PrintEntries(d[1..]) + ("}" + b);
      EntryThenParse(done, e, ',', rest);
      assert PrintEntries(d) + ("}" + b) == PrintEntry(e) + ([','] + rest);
      assert done + [(e.0, e.1)] + d[1..] == all;
      PrintThenParseEntries(done + [(e.0, e.1)], d[1..], b);
      assert d == [e] + d[1..];
    }
  }

  /* ---- main results ---- */

  // For every value without doubles: parsing the printed text gives the value
  // back and stops right behind it, exactly when the value's strings are well
  // escaped, its dictionaries sorted and its integers non-negative.
  lemma RoundTripExact(v: JObject, b: string)
    requires Plain(v) && Follows(b)
    ensures ParseAt(Print(v) + b) == Parsed(v, b) <==> Clean(v) && NonNegative(v)
  {
    hide ParseAt, Print, Clean;
    ParsedClean(Print(v) + b);
    if Clean(v) { PrintThenParse(v, b); }
  }

  predicate AllSpace(t: string) {
    forall i :: 0 <= i < |t| ==> IsSpace(t[i])
  }

  lemma {:induction false} SkipsSpace(pre: string, t: string)
    requires AllSpace(pre)
    ensures SkipSpace(pre + t) == SkipSpace(t)
  {
    if pre == [] {
      assert pre + t == t;
    } else {
      SkipsSpace(pre[1..], t);
      assert (pre + t)[1..] == pre[1..] + t;
    }
  }

  lemma {:induction false} TrimsSpace(t: string, post: string)
    requires AllSpace(post) && t != [] && !IsSpace(t[|t| - 1])
    ensures TrimRight(t + post) == t
  {
    if post == [] {
      assert t + post == t;
    } else {
      var front := post[..|post| - 1];
      TrimsSpace(t, front);
      assert (t + post)[..|t + post| - 1] == t + front;
    }
  }

  lemma PrintEnds(v: JObject)
    requires Plain(v)
    ensures Print(v) != [] && !IsSpace(Print(v)[|Print(v)| - 1])
  {
    match v
    case Int(n) =>
      var m := if n < 0 then -n else n;
      DigitsAreDigits(m);
      assert IsDigit(Digits(m)[|Digits(m)| - 1]);
    case _ =>
  }

  // Whole texts, with any white space around the value.
  lemma WholeText(v: JObject, pre: string, post: string)
    requires Plain(v) && Clean(v) && NonNegative(v) && AllSpace(pre) && AllSpace(post)
    ensures FromString(pre + Print(v) + post) == Parsed(v, "")
  {
    hide Print, Clean, IsSpace, SkipSpace, TrimRight;
    var t := pre + Print(v);
    PrintEnds(v);
    assert t[|t| - 1] == Print(v)[|Print(v)| - 1];
    TrimsSpace(t, post);
    SkipsSpace(pre, Print(v));
    PrintThenParse(v, "");
    assert Print(v) + "" == Print(v);
  }

  // Printing what was parsed and parsing that again changes nothing, exactly
  // when there is no negative number in it.
  lemma ReprintStable(t: string)
    requires ParseAt(t).Parsed? && Plain(ParseAt(t).value)
    ensures FromString(Print(ParseAt(t).value)) == Parsed(ParseAt(t).value, "") <==> NonNegative(ParseAt(t).value)
  {
    hide ParseAt, Print, TrimRight;
    var v := ParseAt(t).value;
    ParsedClean(t);
    PrintEnds(v);
    TrimsSpace(Print(v), "");
    PrintThenParse(v, "");
    assert Print(v) + "" == Print(v);
  }

  // A number that does not fit may come back negative, and what is printed for
  // it is then rejected.
  lemma OverflowIsNotStable(n: nat)
    requires ToInt(n) < 0
    ensures ParseAt(Digits(n)) == Parsed(Int(ToInt(n)), "") && FromString(Print(Int(ToInt(n)))) == Rejected
  {
    hide Digits, ParseAt;
    var t, v := Digits(n), Int(ToInt(n));
    assert t + "" == t && Print(v) + "" == Print(v);
    DigitsThenParse(n, "");
    IntThenParse(v.n, "");
    PrintEnds(v);
    TrimsSpace(Print(v), "");
  }

  // A number is read as the 32-bit integer that differs from it, cut off at the
  // largest long, by a multiple of 2^32.
  lemma ToIntWraps(n: nat)
    ensures IsInt32(ToInt(n))
    ensures ((if n > LONG_MAX then LONG_MAX else n) - ToInt(n)) % 0x1_0000_0000 == 0
  {
  }

  function Tens(k: nat): nat {
    if k == 0 then 1 else 10 * Tens(k - 1)
  }

  // The first digit counts for as many tens as digits follow it.
  lemma {:induction false} DecimalFront(ds: string)
    requires ds != [] && forall i :: 0 <= i < |ds| ==> IsDigit(ds[i])
    ensures Decimal(ds) == (ds[0] as int - '0' as int) * Tens(|ds| - 1) + Decimal(ds[1..])
  {
    var n := |ds| - 1;
    if n > 0 {
      var front := ds[..n];
      DecimalFront(front);
      assert front[1..] == ds[1..][..n - 1];
      var d, t := ds[0] as int - '0' as int, Tens(n - 1);
      assert 10 * (d * t) == d * (10 * t);
    }
  }

  lemma NotSpace(t: string)
    requires t != [] && !IsSpace(t[0])
    ensures SkipSpace(t) == t
  {
  }

  // A comment in front of a value makes no difference.
  lemma CommentsAreSkipped(line: string, t: string)
    requires '\n' !in line
    ensures ParseAt("//" + line + "\n" + t) == ParseAt(t)
  {
    hide SkipSpace, ParseNumber, ParseString, ParseList, ParseDict;
    var c := "//" + line + "\n" + t;
    assert SkipSpace(c) == c by { NotSpace(c); }
    assert NextToken(c) == NextToken(t) by {
      var k := 2 + |line|;
      assert c[k] == '\n' && forall i :: 0 <= i < k ==> c[i] != '\n';
      assert c[k + 1..] == t;
    }
  }

  // A comment that no line end closes is met as such.
  lemma OpenCommentIsMet(line: string)
    requires '\n' !in line
    ensures ParseAt("//" + line) == Commented
  {
    var c := "//" + line;
    hide SkipSpace, LineEnd;
    assert SkipSpace(c) == c by { NotSpace(c); }
    assert forall i :: 0 <= i < |c| ==> c[i] != '\n';
  }
}
