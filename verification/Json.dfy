// JSON trees in src/cJSON.c: the printed forms and the recursive descent parser on values.
module Json {
  import opened JsonStrings

  // An int in C.
  type cint = n: int | -0x8000_0000 <= n < 0x8000_0000

  // An array and an object keep their children as a linked list; a child of an object has a key.
  datatype Json =
    | Null
    | False
    | True
    | Number(n: cint)
    | Str(s: Text)
    | Array(items: Items)
    | Object(members: Members)

  datatype Items = NoItems | Item(value: Json, next: Items)

  datatype Members = NoMembers | Member(key: Text, value: Json, next: Members)

  const TAB: cbyte := 9
  const NEWLINE: cbyte := 10
  const RETURN: cbyte := 13
  const SPACE: cbyte := 32
  const COMMA: cbyte := 44
  const MINUS: cbyte := 45
  const DOT: cbyte := 46
  const ZERO: cbyte := 48
  const COLON: cbyte := 58
  const OPEN_BRACKET: cbyte := 91
  const CLOSE_BRACKET: cbyte := 93
  const OPEN_BRACE: cbyte := 123
  const CLOSE_BRACE: cbyte := 125
  const NULL_WORD: Text := [110, 117, 108, 108]
  const FALSE_WORD: Text := [102, 97, 108, 115, 101]
  const TRUE_WORD: Text := [116, 114, 117, 101]

  predicate IsInt(n: int) {
    -0x8000_0000 <= n < 0x8000_0000
  }

  // ----- printing -----

  function Digits(n: nat): (s: Text)
    ensures s != []
  {
    if n < 10 then [ZERO + n] else Digits(n / 10) + [ZERO + n % 10]
  }

  // "%d"
  function PrintNumber(n: int): (s: Text)
    ensures s != []
  {
    if n < 0 then [MINUS] + Digits(-n) else Digits(n)
  }

  // The number of numbers of at most k digits.
  function Pow10(k: nat): nat {
    if k == 0 then 1 else 10 * Pow10(k - 1)
  }

  lemma {:induction false} DigitsSize(n: nat, k: nat)
    requires k > 0 && n < Pow10(k)
    ensures |Digits(n)| <= k
  {
    if n >= 10 {
      DigitsSize(n / 10, k - 1);
    }
  }

  // An int and its NUL take at most 12 bytes.
  lemma NumberSize(n: cint)
    ensures |PrintNumber(n)| + 1 <= 12
  {
    hide Digits;
    assert Pow10(10) == 10_000_000_000;
    DigitsSize(if n < 0 then -(n as int) else n as int, 10);
  }

  function Tabs(n: int): (s: Text)
    ensures |s| == if n > 0 then n else 0
  {
    if n <= 0 then [] else [TAB] + Tabs(n - 1)
  }

  // s in the formatted print, nothing in the unformatted one
  function If(fmt: bool, s: Text): Text {
    if fmt then s else []
  }

  function Print(v: Json, depth: nat, fmt: bool): Text {
    match v
    case Null => NULL_WORD
    case False => FALSE_WORD
    case True => TRUE_WORD
    case Number(n) => PrintNumber(n)
    case Str(s) => PrintString(s)
    case Array(items) => [OPEN_BRACKET] + PrintItems(items, depth + 1, fmt) + [CLOSE_BRACKET]
    case Object(NoMembers) => [OPEN_BRACE] + If(fmt, [NEWLINE] + Tabs(depth - 1)) + [CLOSE_BRACE]
    case Object(members) =>
      [OPEN_BRACE] + If(fmt, [NEWLINE]) + PrintMembers(members, depth + 1, fmt) + If(fmt, Tabs(depth)) + [CLOSE_BRACE]
  }

  function PrintItems(items: Items, depth: nat, fmt: bool): Text {
    match items
    case NoItems => []
    case Item(v, NoItems) => Print(v, depth, fmt)
    case Item(v, next) => Print(v, depth, fmt) + [COMMA] + If(fmt, [SPACE]) + PrintItems(next, depth, fmt)
  }

  function PrintMembers(members: Members, depth: nat, fmt: bool): Text {
    match members
    case NoMembers => []
    case Member(key, v, next) =>
      If(fmt, Tabs(depth)) + PrintString(key) + [COLON] + If(fmt, [TAB]) + Print(v, depth, fmt) +
      (if next.Member? then [COMMA] else []) + If(fmt, [NEWLINE]) + PrintMembers(next, depth, fmt)
  }

  // ----- parsing -----

  function Skip(s: Text): (t: Text)
    ensures |t| <= |s|
    ensures t == [] || t[0] > 32
  {
    if s != [] && s[0] <= 32 then Skip(s[1..]) else s
  }

  predicate StartsWith(s: Text, word: Text) {
    |word| <= |s| && s[..|word|] == word
  }

  predicate At(s: Text, c: cbyte) {
    s != [] && s[0] == c
  }

  predicate IsDigit(c: cbyte) {
    48 <= c <= 57
  }

  function ReadDigits(s: Text, n: nat): (r: (nat, Text))
    ensures |r.1| <= |s|
    decreases |s|
  {
    if s != [] && IsDigit(s[0]) then ReadDigits(s[1..], 10 * n + (s[0] as int - 48)) else (n, s)
  }

  // A fraction or an exponent follows.
  predicate Inexact(s: Text) {
    (At(s, DOT) && |s| >= 2 && IsDigit(s[1])) || At(s, 101) || At(s, 69)
  }

  // A zero, then the digits.
  function ReadNat(t: Text): (r: (nat, Text))
    ensures |r.1| <= |t| && (t != [] && IsDigit(t[0]) ==> |r.1| < |t|)
  {
    var u := if At(t, ZERO) then t[1..] else t;
    if u != [] && 49 <= u[0] <= 57 then ReadDigits(u[1..], u[0] as int - 48) else (0, u)
  }

  // The sign and the number; Outside unless the number is an int.
  function ParseNumber(s: Text): (p: Parse<cint>)
    requires At(s, MINUS) || (s != [] && IsDigit(s[0]))
    ensures p.Parsed? ==> |p.rest| < |s|
  {
    var (n, r) := ReadNat(if At(s, MINUS) then s[1..] else s);
    var value: int := if At(s, MINUS) then 0 - n else n;
    if Inexact(r) || !IsInt(value) then Outside else Parsed(value, r)
  }

  function Map<T, U>(p: Parse<T>, f: T -> U): Parse<U> {
    match p
    case Parsed(x, r) => Parsed(f(x), r)
    case Failed => Failed
    case Outside => Outside
  }

  function ParseValue(s: Text): (p: Parse<Json>)
    ensures p.Parsed? ==> |p.rest| < |s|
    decreases |s|, 0
  {
    if StartsWith(s, NULL_WORD) then Parsed(Null, s[4..])
    else if StartsWith(s, FALSE_WORD) then Parsed(False, s[5..])
    else if StartsWith(s, TRUE_WORD) then Parsed(True, s[4..])
    else if At(s, QUOTE) then Map(ParseString(s), x => Str(x))
    else if At(s, MINUS) || (s != [] && IsDigit(s[0])) then Map(ParseNumber(s), x => Number(x))
    else if At(s, OPEN_BRACKET) then
      var t := Skip(s[1..]);
      if At(t, CLOSE_BRACKET) then Parsed(Array(NoItems), t[1..]) else Map(ParseItems(t), x => Array(x))
    else if At(s, OPEN_BRACE) then
      var t := Skip(s[1..]);
      if At(t, CLOSE_BRACE) then Parsed(Object(NoMembers), t[1..]) else Map(ParseMembers(t), x => Object(x))
    else Failed
  }

  // The elements of an array and its closing bracket.
  function ParseItems(s: Text): (p: Parse<Items>)
    ensures p.Parsed? ==> |p.rest| < |s|
    decreases |s|, 1
  {
    match ParseValue(Skip(s))
    case Failed => Failed
    case Outside => Outside
    case Parsed(v, r) =>
      var t := Skip(r);
      if At(t, COMMA) then Map(ParseItems(t[1..]), next => Item(v, next))
      else if At(t, CLOSE_BRACKET) then Parsed(Item(v, NoItems), t[1..])
      else Failed
  }

  // The members of an object and its closing brace.
  function ParseMembers(s: Text): (p: Parse<Members>)
    ensures p.Parsed? ==> |p.rest| < |s|
    decreases |s|, 1
  {
    match ParseString(Skip(s))
    case Failed => Failed
    case Outside => Outside
    case Parsed(key, r) =>
      var t := Skip(r);
      if !At(t, COLON) then Failed
      else
        match ParseValue(Skip(t[1..]))
        case Failed => Failed
        case Outside => Outside
        case Parsed(v, r') =>
          var u := Skip(r');
          if At(u, COMMA) then Map(ParseMembers(u[1..]), next => Member(key, v, next))
          else if At(u, CLOSE_BRACE) then Parsed(Member(key, v, NoMembers), u[1..])
          else Failed
  }

  // cJSON_ParseWithOpts
  function ParseText(s: Text, requireEnd: bool): Parse<Json> {
    match ParseValue(Skip(s))
    case Parsed(v, r) =>
      if !requireEnd then Parsed(v, r) else if Skip(r) == [] then Parsed(v, []) else Failed
    case other => other
  }

  // ----- parsing a printed number -----

  lemma {:induction false} FirstDigit(n: nat)
    ensures IsDigit(Digits(n)[0]) && (n > 0 ==> Digits(n)[0] > 48)
  {
    if n >= 10 {
      FirstDigit(n / 10);
    }
  }

  // What follows cannot be taken for more of a number.
  predicate Ends(w: Text) {
    w == [] || !(IsDigit(w[0]) || w[0] == DOT || w[0] == 101 || w[0] == 69)
  }

  // ----- parsing a printed tree -----

  lemma ParseAt(s: Text, c: cbyte)
    requires At(s, c) && (c == QUOTE || c == MINUS || IsDigit(c) || c == OPEN_BRACKET || c == OPEN_BRACE)
    ensures !StartsWith(s, NULL_WORD) && !StartsWith(s, FALSE_WORD) && !StartsWith(s, TRUE_WORD)
  {
    assert s[..1][0] == s[0];
    assert |s| >= 4 ==> s[..4][0] == s[0];
    assert |s| >= 5 ==> s[..5][0] == s[0];
  }

  lemma WordRoundTrip(v: Json, word: Text, tail: Text)
    requires (v == Null && word == NULL_WORD) || (v == False && word == FALSE_WORD) || (v == True && word == TRUE_WORD)
    ensures ParseValue(word + tail) == Parsed(v, tail)
  {
    var s := word + tail;
    assert s[..|word|] == word && s[|word|..] == tail && s[0] == word[0];
    assert |s| >= 4 ==> s[..4][0] == s[0];
    assert |s| >= 5 ==> s[..5][0] == s[0];
  }

  lemma ParseArray(w: Text)
    ensures ParseValue([OPEN_BRACKET] + w) ==
            if At(Skip(w), CLOSE_BRACKET) then Parsed(Array(NoItems), Skip(w)[1..])
            else Map(ParseItems(Skip(w)), x => Array(x))
  {
    hide ParseItems, Skip;
    var s := [OPEN_BRACKET] + w;
    ParseAt(s, OPEN_BRACKET);
    assert s[1..] == w;
  }

  lemma ArrayShape(items: Items, depth: nat, fmt: bool, tail: Text)
    ensures Print(Array(items), depth, fmt) + tail
            == [OPEN_BRACKET] + (PrintItems(items, depth + 1, fmt) + ([CLOSE_BRACKET] + tail))
  {
    hide PrintItems;
    assert Print(Array(items), depth, fmt) == [OPEN_BRACKET] + PrintItems(items, depth + 1, fmt) + [CLOSE_BRACKET];
  }

  lemma ItemsShape(items: Items, depth: nat, fmt: bool, w: Text)
    requires items.Item?
    ensures PrintItems(items, depth, fmt) + w ==
            Print(items.value, depth, fmt) +
            if items.next == NoItems then w else [COMMA] + (If(fmt, [SPACE]) + (PrintItems(items.next, depth, fmt) + w))
  {
    hide Print, If;
    if items.next.Item? {
      var (a, b, c) := (Print(items.value, depth, fmt), If(fmt, [SPACE]), PrintItems(items.next, depth, fmt));
      hide PrintItems;
      assert a + [COMMA] + b + c + w == a + ([COMMA] + (b + (c + w)));
    }
  }

  // Leading whitespace does not matter.
  lemma ItemsSkip(s: Text, t: Text)
    requires Skip(s) == Skip(t)
    ensures ParseItems(s) == ParseItems(t)
  {
    hide ParseValue;
  }

  lemma ObjectShape(members: Members, depth: nat, fmt: bool, tail: Text)
    requires members.Member?
    ensures Print(Object(members), depth, fmt) + tail ==
            [OPEN_BRACE]
              + (If(fmt, [NEWLINE])
                 + (PrintMembers(members, depth + 1, fmt) + (If(fmt, Tabs(depth)) + ([CLOSE_BRACE] + tail))))
  {
    hide PrintMembers, Tabs, If;
    assert Print(Object(members), depth, fmt) ==
           [OPEN_BRACE] + If(fmt, [NEWLINE]) + PrintMembers(members, depth + 1, fmt) + If(fmt, Tabs(depth))
             + [CLOSE_BRACE];
  }

  lemma EmptyShape(depth: nat, fmt: bool, tail: Text)
    ensures Print(Object(NoMembers), depth, fmt) + tail ==
            [OPEN_BRACE] + (If(fmt, [NEWLINE]) + (If(fmt, Tabs(depth - 1)) + ([CLOSE_BRACE] + tail)))
  {
    hide Tabs;
    assert Print(Object(NoMembers), depth, fmt) == [OPEN_BRACE] + If(fmt, [NEWLINE] + Tabs(depth - 1)) + [CLOSE_BRACE];
  }

  lemma ParseObject(w: Text)
    ensures ParseValue([OPEN_BRACE] + w) ==
            if At(Skip(w), CLOSE_BRACE) then Parsed(Object(NoMembers), Skip(w)[1..])
            else Map(ParseMembers(Skip(w)), x => Object(x))
  {
    hide ParseMembers, Skip;
    var s := [OPEN_BRACE] + w;
    ParseAt(s, OPEN_BRACE);
    assert s[1..] == w;
  }

  lemma SkipTwice(s: Text)
    ensures Skip(Skip(s)) == Skip(s)
  {
  }

  // One member and what follows it.
  function MemberThen(key: Text, v: Json, depth: nat, fmt: bool, w: Text): Text {
    If(fmt, Tabs(depth)) + (PrintString(key) + ([COLON] + (If(fmt, [TAB]) + (Print(v, depth, fmt) + w))))
  }

  lemma MembersShape(members: Members, depth: nat, fmt: bool, w: Text)
    requires members.Member?
    ensures PrintMembers(members, depth, fmt) + w ==
            MemberThen(members.key, members.value, depth, fmt,
                       (if members.next.Member? then [COMMA] else [])
                         + (If(fmt, [NEWLINE]) + (PrintMembers(members.next, depth, fmt) + w)))
  {
    hide Print, PrintString, Tabs, If;
    var (a, b, c) := (If(fmt, Tabs(depth)), PrintString(members.key), If(fmt, [TAB]));
    var d := Print(members.value, depth, fmt);
    var (e, f) := (if members.next.Member? then [COMMA] else [], If(fmt, [NEWLINE]));
    Nested(a, b, c, d, e, f, PrintMembers(members.next, depth, fmt), w);
  }

  lemma Nested(a: Text, b: Text, c: Text, d: Text, e: Text, f: Text, g: Text, w: Text)
    ensures a + b + [COLON] + c + d + e + f + g + w == a + (b + ([COLON] + (c + (d + (e + (f + (g + w)))))))
  {
  }

  lemma MembersSkip(s: Text, t: Text)
    requires Skip(s) == Skip(t)
    ensures ParseMembers(s) == ParseMembers(t)
  {
    hide ParseValue, ParseString;
  }

}
