// JSON values, their printed form, and what the parser makes of a text.

module Json {
  import Lex

  datatype JObject =
    | Null
    | Bool(b: bool)
    | Int(n: int)                                    // int32_t
    | Double(lexeme: string)
    | Str(s: string)                                 // escapes are kept as written
    | List(items: seq<JObject>)
    | Dict(entries: seq<(string, JObject)>)          // std::map: strictly increasing keys

  /* ---- keys ---- */

  function Codes(s: string): seq<int> {
    seq(|s|, i requires 0 <= i < |s| => s[i] as int)
  }

  predicate Before(a: string, b: string) {
    Lex.Less(Codes(a), Codes(b))
  }

  predicate SortedKeys(d: seq<(string, JObject)>) {
    forall i, j :: 0 <= i < j < |d| ==> Before(d[i].0, d[j].0)
  }

  // dict[k] = v
  function Assign(d: seq<(string, JObject)>, k: string, v: JObject): seq<(string, JObject)> {
    if d == [] || Before(k, d[0].0) then [(k, v)] + d
    else if d[0].0 == k then [(k, v)] + d[1..]
    else [d[0]] + Assign(d[1..], k, v)
  }

  /* ---- printing ---- */

  function Digits(n: nat): (r: string)
    ensures r != []
  {
    if n < 10 then [('0' as int + n) as char] else Digits(n / 10) + [('0' as int + n % 10) as char]
  }

  // No double anywhere: how a double is written is not modelled.
  predicate Plain(v: JObject)
    decreases v
  {
    match v
    case Double(_) => false
    case List(items) => forall i :: 0 <= i < |items| ==> Plain(items[i])
    case Dict(d) => forall i :: 0 <= i < |d| ==> Plain(d[i].1)
    case _ => true
  }

  function Print(v: JObject): string
    requires Plain(v)
    decreases v, 0
  {
    match v
    case Null => "null"
    case Bool(b) => if b then "true" else "false"
    case Int(n) => if n < 0 then "-" + Digits(-n) else Digits(n)
    case Str(s) => "\"" + s + "\""
    case List(items) => "[" + PrintItems(items) + "]"
    case Dict(entries) => "{" + PrintEntries(entries) + "}"
  }

  function PrintItems(items: seq<JObject>): string
    requires forall i :: 0 <= i < |items| ==> Plain(items[i])
    decreases items
  {
    if items == [] then ""
    else Print(items[0]) + (if |items| == 1 then "" else "," + PrintItems(items[1..]))
  }

  function PrintEntry(e: (string, JObject)): string
    requires Plain(e.1)
    decreases e, 1
  {
    "\"" + e.0 + "\":" + Print(e.1)
  }

  function PrintEntries(entries: seq<(string, JObject)>): string
    requires forall i :: 0 <= i < |entries| ==> Plain(entries[i].1)
    decreases entries
  {
    if entries == [] then ""
    else PrintEntry(entries[0]) + (if |entries| == 1 then "" else "," + PrintEntries(entries[1..]))
  }

  /* ---- tokens ---- */

  predicate IsSpace(c: char) {
    c in {' ', '\t', '\n', '\r', '\U{0B}', '\U{0C}'}
  }

  predicate IsDigit(c: char) {
    '0' <= c <= '9'
  }

  function SkipSpace(t: string): (r: string)
    ensures |r| <= |t|
  {
    if t != [] && IsSpace(t[0]) then SkipSpace(t[1..]) else t
  }

  datatype Token =
    | Tok(rest: string)
    | NoToken
    | OpenComment                                    // a comment without an end of line

  predicate IsComment(t: string) {
    |t| >= 2 && t[0] == '/' && t[1] == '/'
  }

  // The first end of line, or the end.
  function LineEnd(t: string): (k: nat)
    ensures k <= |t| && (k < |t| ==> t[k] == '\n') && forall i :: 0 <= i < k ==> t[i] != '\n'
  {
    if t == [] || t[0] == '\n' then 0 else 1 + LineEnd(t[1..])
  }

  // Lines of comment, and the white space after them.
  function SkipComments(t: string): (r: Token)
    ensures r.Tok? ==> r.rest != [] && |r.rest| <= |t|
    decreases |t|
  {
    if t == [] then NoToken
    else if !IsComment(t) then Tok(t)
    else
      var k := LineEnd(t);
      if k == |t| then OpenComment else SkipComments(SkipSpace(t[k + 1..]))
  }

  function NextToken(t: string): (r: Token)
    ensures r.Tok? ==> r.rest != [] && |r.rest| <= |t|
  {
    SkipComments(SkipSpace(t))
  }

  /* ---- strings ---- */

  // Left to right: is the character at k escaped?
  function Escaped(t: string, k: nat): bool
    requires k <= |t|
  {
    k > 0 && t[k - 1] == '\\' && !Escaped(t, k - 1)
  }

  predicate Closes(t: string, k: nat)
    requires k < |t|
  {
    t[k] == '"' && !Escaped(t, k)
  }

  // The first unescaped quote from k on, or the end.
  function CloseFrom(t: string, k: nat): (r: nat)
    requires k <= |t|
    ensures k <= r <= |t|
    ensures r < |t| ==> Closes(t, r)
    ensures forall j :: k <= j < r ==> !Closes(t, j)
    decreases |t| - k
  {
    if k == |t| || Closes(t, k) then k else CloseFrom(t, k + 1)
  }

  predicate WellEscaped(s: string) {
    !Escaped(s, |s|) && forall k :: 0 <= k < |s| ==> !Closes(s, k)
  }

  /* ---- numbers ---- */

  function Span(t: string): (k: nat)
    ensures k <= |t| && (forall i :: 0 <= i < k ==> IsDigit(t[i])) && (k < |t| ==> !IsDigit(t[k]))
  {
    if t != [] && IsDigit(t[0]) then 1 + Span(t[1..]) else 0
  }

  function Decimal(ds: string): nat
    requires forall i :: 0 <= i < |ds| ==> IsDigit(ds[i])
  {
    if ds == [] then 0
    else
      assert IsDigit(ds[|ds| - 1]);
      10 * Decimal(ds[..|ds| - 1]) + (ds[|ds| - 1] as int - '0' as int)
  }

  const LONG_MAX: int := 0x7FFF_FFFF_FFFF_FFFF

  // strtol saturates; the cast to int keeps the low 32 bits.
  function ToInt(n: nat): int {
    var m := (if n > LONG_MAX then LONG_MAX else n) % 0x1_0000_0000;
    if m >= 0x8000_0000 then m - 0x1_0000_0000 else m
  }

  /* ---- parsing: the value at the start of a text, and the text after it ---- */

  datatype Result =
    | Parsed(value: JObject, rest: string)
    | Rejected                                       // an exception
    | Commented                                      // an open comment: the original starts over

  function ParseNumber(t: string): (r: Result)
    ensures r.Parsed? ==> |r.rest| < |t|
  {
    var k := Span(t);
    if k == 0 then Rejected
    else if k == |t| || t[k] != '.' then Parsed(Int(ToInt(Decimal(t[..k]))), t[k..])
    else
      var m := Span(t[k + 1..]);
      if m == 0 then Rejected else Parsed(Double(t[..k + 1 + m]), t[k + 1 + m..])
  }

  function ParseString(t: string): (r: Result)
    requires t != []
    ensures r.Parsed? ==> |r.rest| < |t|
  {
    var u := t[1..];
    var k := CloseFrom(u, 0);
    if k == |u| then Rejected else Parsed(Str(u[..k]), u[k + 1..])
  }

  function ParseAt(t: string): (r: Result)
    ensures r.Parsed? ==> |r.rest| < |t|
    decreases |t|, 2
  {
    match NextToken(t)
    case NoToken => Rejected
    case OpenComment => Commented
    case Tok(u) =>
      if u[0] == 'n' then (if "null" <= u then Parsed(Null, u[4..]) else Rejected)
      else if u[0] == 't' || u[0] == 'f' then
        if "true" <= u then Parsed(Bool(true), u[4..])
        else if "false" <= u then Parsed(Bool(false), u[5..])
        else Rejected
      else if u[0] == '-' || IsDigit(u[0]) then ParseNumber(u)
      else if u[0] == '"' then ParseString(u)
      else if u[0] == '[' then ParseList(u)
      else if u[0] == '{' then ParseDict(u)
      else Rejected
  }

  function ParseList(t: string): (r: Result)
    requires t != []
    ensures r.Parsed? ==> |r.rest| < |t|
    decreases |t|, 1
  {
    match NextToken(t[1..])
    case NoToken => Rejected
    case OpenComment => Commented
    case Tok(u) => if u[0] == ']' then Parsed(List([]), u[1..]) else ParseItems(u, [])
  }

  function ParseDict(t: string): (r: Result)
    requires t != []
    ensures r.Parsed? ==> |r.rest| < |t|
    decreases |t|, 1
  {
    match NextToken(t[1..])
    case NoToken => Rejected
    case OpenComment => Commented
    case Tok(u) => if u[0] == '}' then Parsed(Dict([]), u[1..]) else ParseEntries(u, [])
  }

  function ParseItems(t: string, items: seq<JObject>): (r: Result)
    ensures r.Parsed? ==> |r.rest| < |t|
    decreases |t|, 3
  {
    match ParseAt(t)
    case Rejected => Rejected
    case Commented => Commented
    case Parsed(v, u) =>
      match NextToken(u)
      case NoToken => Rejected
      case OpenComment => Commented
      case Tok(w) =>
        if w[0] == ']' then Parsed(List(items + [v]), w[1..])
        else if w[0] == ',' then ParseItems(w[1..], items + [v])
        else Rejected
  }

  datatype Member = Member(key: string, value: JObject, rest: string) | NotMember(why: Result)

  // A string, a colon and a value.
  function ParseMember(t: string): (r: Member)
    ensures r.Member? ==> |r.rest| < |t|
    ensures r.NotMember? ==> !r.why.Parsed?
    decreases |t|, 3
  {
    match ParseAt(t)
    case Rejected => NotMember(Rejected)
    case Commented => NotMember(Commented)
    case Parsed(key, u) =>
      if !key.Str? then NotMember(Rejected)
      else
        match NextToken(u)
        case NoToken => NotMember(Rejected)
        case OpenComment => NotMember(Commented)
        case Tok(w) =>
          if w[0] != ':' then NotMember(Rejected)
          else
            match ParseAt(w[1..])
            case Rejected => NotMember(Rejected)
            case Commented => NotMember(Commented)
            case Parsed(v, rest) => Member(key.s, v, rest)
  }

  function ParseEntries(t: string, d: seq<(string, JObject)>): (r: Result)
    ensures r.Parsed? ==> |r.rest| < |t|
    decreases |t|, 4
  {
    match ParseMember(t)
    case NotMember(why) => why
    case Member(key, v, u) =>
      match NextToken(u)
      case NoToken => Rejected
      case OpenComment => Commented
      case Tok(w) =>
        if w[0] == '}' then Parsed(Dict(Assign(d, key, v)), w[1..])
        else if w[0] == ',' then ParseEntries(w[1..], Assign(d, key, v))
        else Rejected
  }

  function TrimRight(t: string): string {
    if t != [] && IsSpace(t[|t| - 1]) then TrimRight(t[..|t| - 1]) else t
  }

  // The whole text; what is left after the value is not looked at.
  function FromString(t: string): Result {
    ParseAt(TrimRight(t))
  }
}
