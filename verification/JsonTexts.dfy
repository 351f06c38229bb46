// The JSON texts of a tree, with any spacing and any spelling of its strings,
// and what the parser makes of them.
module JsonTexts {
  import opened Types
  import opened JsonStrings
  import opened Json

  // ----- string literals -----

  // A character of a string literal (section 7 of RFC 8259): a byte as it is, a
  // short escape, or a code point in hexadecimal digits, of one or two escapes.
  // Void is one or two escapes for no character: zero, the second half of a
  // surrogate pair, or a first half in front of another escape.
  datatype Char =
    | Raw(b: cbyte)
    | Short(letter: cbyte)
    | Coded(uc: nat, hs: seq<Text>)
    | Void(ns: seq<nat>, hs: seq<Text>)

  // c is the hexadecimal digit of value n, in either case.
  predicate DigitOf(c: cbyte, n: nat) {
    n < 16 && if n < 10 then c == 48 + n else c == 55 + n || c == 87 + n
  }

  predicate FourDigits(h: Text, n: nat) {
    && n < 65536 && |h| == 4 && DigitOf(h[0], n / 4096) && DigitOf(h[1], n / 256 % 16)
    && DigitOf(h[2], n / 16 % 16) && DigitOf(h[3], n % 16)
  }

  predicate CharSound(c: Char) {
    match c
    case Raw(b) => b >= 32 && b != 34 && b != 92
    case Short(letter) => letter in {34, 92, 47, 98, 102, 110, 114, 116}
    case Coded(uc, hs) =>
      && CodePoint(uc)
      && if uc < 0x1_0000 then |hs| == 1 && FourDigits(hs[0], uc)
         else && |hs| == 2 && FourDigits(hs[0], 0xD800 + (uc - 0x1_0000) / 0x400)
              && FourDigits(hs[1], 0xDC00 + (uc - 0x1_0000) % 0x400)
    case Void(ns, hs) =>
      && 1 <= |ns| == |hs| <= 2 && (forall i :: 0 <= i < |hs| ==> FourDigits(hs[i], ns[i]))
      && if |hs| == 1 then ns[0] == 0 || 0xDC00 <= ns[0] < 0xE000
         else 0xD800 <= ns[0] < 0xDC00 && !(0xDC00 <= ns[1] < 0xE000)
  }

  // \u and these digits
  function OneEscape(h: Text): Text {
    [92, 117] + h
  }

  function Escapes(hs: seq<Text>): Text {
    if |hs| == 1 then OneEscape(hs[0]) else if |hs| == 2 then OneEscape(hs[0]) + OneEscape(hs[1]) else []
  }

  function CharText(c: Char): Text {
    match c
    case Raw(b) => [b]
    case Short(letter) => [92, letter]
    case Coded(_, hs) => Escapes(hs)
    case Void(_, hs) => Escapes(hs)
  }

  // The bytes a character stands for; a code point stands for its UTF-8 sequence.
  function CharBytes(c: Char): Text
    requires CharSound(c)
  {
    match c
    case Raw(b) => [b]
    case Short(letter) =>
      [if letter == 98 then 8 else if letter == 102 then 12 else if letter == 110 then 10 else if letter == 114 then 13
       else if letter == 116 then 9 else letter]
    case Coded(uc, _) => Utf8(uc)
    case Void(_, _) => []
  }

  function CharTexts(cs: seq<Char>): Text {
    if cs == [] then [] else CharText(cs[0]) + CharTexts(cs[1..])
  }

  predicate CharsSound(cs: seq<Char>) {
    forall i :: 0 <= i < |cs| ==> CharSound(cs[i])
  }

  function AllBytes(cs: seq<Char>): Text
    requires CharsSound(cs)
  {
    if cs == [] then [] else CharBytes(cs[0]) + AllBytes(cs[1..])
  }

  // t is a literal for the string x.
  ghost predicate StringText(t: Text, x: Text) {
    exists cs :: CharsSound(cs) && t == [34] + CharTexts(cs) + [34] && x == AllBytes(cs)
  }

  lemma DigitValue(c: cbyte, n: nat)
    requires DigitOf(c, n)
    ensures HexValue(c) == Some(n)
  {
  }

  lemma FourDigitsValue(h: Text, n: nat)
    requires FourDigits(h, n)
    ensures Hex4(h) == n && Hexadecimal(h) && |h| == 4
  {
    hide HexValue, DigitOf;
    DigitValue(h[0], n / 4096);
    DigitValue(h[1], n / 256 % 16);
    DigitValue(h[2], n / 16 % 16);
    DigitValue(h[3], n % 16);
    Nibbles(n);
  }

  lemma CodedSpells(uc: nat, hs: seq<Text>)
    requires CharSound(Coded(uc, hs))
    ensures Spells(hs, uc) && CharText(Coded(uc, hs)) == Spelling(hs)
  {
    hide FourDigits, Hex4;
    if uc < 0x1_0000 {
      FourDigitsValue(hs[0], uc);
      assert hs[1..] == [];
    } else {
      FourDigitsValue(hs[0], 0xD800 + (uc - 0x1_0000) / 0x400);
      FourDigitsValue(hs[1], 0xDC00 + (uc - 0x1_0000) % 0x400);
      assert hs[1..] == [hs[1]] && hs[1..][1..] == [];
      assert Spelling(hs[1..]) == [92, 117] + hs[1];
      Associate([92, 117] + hs[0], [92, 117], hs[1], []);
    }
  }

  lemma VoidUnit(ns: seq<nat>, hs: seq<Text>, w: Text)
    requires CharSound(Void(ns, hs))
    ensures var s := Escapes(hs) + w;
            && !AtEnd(s) && UnitOf(s) == Some(Unit([], |Escapes(hs)|)) && s[|Escapes(hs)|..] == w
  {
    hide FourDigits, Hex4;
    var s := Escapes(hs) + w;
    FourDigitsValue(hs[0], ns[0]);
    assert s[2..6] == hs[0];
    if |hs| == 2 {
      FourDigitsValue(hs[1], ns[1]);
      assert s[8..12] == hs[1];
    }
  }

  // The second pass at one character.
  lemma CharUnit(c: Char, w: Text)
    requires CharSound(c)
    ensures var s := CharText(c) + w;
            && !AtEnd(s) && UnitOf(s) == Some(Unit(CharBytes(c), |CharText(c)|)) && s[|CharText(c)|..] == w
  {
    match c {
      case Raw(_) =>
      case Short(_) =>
      case Coded(uc, hs) =>
        CodedHexes(c);
        EscapesAre(hs, w);
        CodedSpells(uc, hs);
        CodePointRead(hs, uc, w);
        assert (CharText(c) + w)[0] == 92;
        hide Utf8, FourDigits, UnitOf, Spelling, CharText;
      case Void(ns, hs) => VoidUnit(ns, hs, w);
    }
  }

  // The first character of section 7 of RFC 8259 has n bytes.
  lemma CharactersAt(s: Text, n: nat, w: Text)
    requires s != [] && s[0] != QUOTE && 0 < n == CharSize(s) && s[n..] == w && Characters(w).Some?
    ensures Characters(s) == Some(n + Characters(w).value)
  {
    hide CharSize;
  }

  lemma RawCharacters(c: Char, w: Text)
    requires CharSound(c) && c.Raw? && Characters(w).Some?
    ensures Characters(CharText(c) + w) == Some(|CharText(c)| + Characters(w).value)
  {
    var s := [c.b] + w;
    assert s[0] == c.b && s[1..] == w && CharSize(s) == 1;
    hide CharSize, Characters;
    CharactersAt(s, 1, w);
  }

  lemma ShortCharacters(c: Char, w: Text)
    requires CharSound(c) && c.Short? && Characters(w).Some?
    ensures Characters(CharText(c) + w) == Some(|CharText(c)| + Characters(w).value)
  {
    var s := [92, c.letter] + w;
    assert s[0] == 92 && s[1] == c.letter && s[2..] == w && CharSize(s) == 2;
    hide CharSize, Characters;
    CharactersAt(s, 2, w);
  }

  lemma IsEscapes(c: Char)
    requires c.Coded? || c.Void?
    ensures CharText(c) == Escapes(c.hs)
  {
  }

  lemma CodedCharacters(c: Char, w: Text)
    requires CharSound(c) && (c.Coded? || c.Void?) && Characters(w).Some?
    ensures Characters(CharText(c) + w) == Some(|CharText(c)| + Characters(w).value)
  {
    hide *;
    CodedHexes(c);
    IsEscapes(c);
    EscapesCharacters(c.hs, w);
  }

  // The characters of section 7 of RFC 8259 at one of ours, which may be two of them.
  lemma CharCharacters(c: Char, w: Text)
    requires CharSound(c) && Characters(w).Some?
    ensures Characters(CharText(c) + w) == Some(|CharText(c)| + Characters(w).value)
  {
    hide *;
    if c.Raw? {
      RawCharacters(c, w);
    } else if c.Short? {
      ShortCharacters(c, w);
    } else {
      CodedCharacters(c, w);
    }
  }

  lemma EscapesAre(hs: seq<Text>, w: Text)
    requires 1 <= |hs| <= 2 && forall i :: 0 <= i < |hs| ==> |hs[i]| == 4
    ensures |Escapes(hs)| == 6 * |hs|
    ensures |hs| == 1 ==> Escapes(hs) + w == OneEscape(hs[0]) + w
    ensures |hs| == 2 ==> Escapes(hs) + w == OneEscape(hs[0]) + (OneEscape(hs[1]) + w)
  {
  }

  lemma EscapesCharacters(hs: seq<Text>, w: Text)
    requires 1 <= |hs| <= 2 && Characters(w).Some? && forall i :: 0 <= i < |hs| ==> |hs[i]| == 4 && Hexadecimal(hs[i])
    ensures Characters(Escapes(hs) + w) == Some(|Escapes(hs)| + Characters(w).value)
  {
    hide *;
    EscapesAre(hs, w);
    EscapeCharacters(hs[|hs| - 1], w);
    if |hs| == 2 {
      EscapeCharacters(hs[0], OneEscape(hs[1]) + w);
    }
  }

  lemma Associate(a: Text, b: Text, c: Text, d: Text)
    ensures a + b + c + d == a + (b + c + d)
  {
  }

  lemma CodedHexes(c: Char)
    requires CharSound(c) && (c.Coded? || c.Void?)
    ensures 1 <= |c.hs| <= 2 && forall i :: 0 <= i < |c.hs| ==> |c.hs[i]| == 4 && Hexadecimal(c.hs[i])
  {
    hide Hexadecimal, FourDigits;
    if c.Coded? {
      CodedSpells(c.uc, c.hs);
    }
    forall i | 0 <= i < |c.hs| ensures |c.hs[i]| == 4 && Hexadecimal(c.hs[i]) {
      var n :| FourDigits(c.hs[i], n);
      FourDigitsValue(c.hs[i], n);
    }
  }

  lemma EscapeSize(h: Text, w: Text)
    requires |h| == 4 && Hexadecimal(h)
    ensures var s := OneEscape(h) + w; s != [] && s[0] != QUOTE && CharSize(s) == 6 && s[6..] == w
  {
    var s := OneEscape(h) + w;
    assert s[2..6] == h;
    hide Hexadecimal;
  }

  lemma EscapeCharacters(h: Text, w: Text)
    requires |h| == 4 && Hexadecimal(h) && Characters(w).Some?
    ensures Characters(OneEscape(h) + w) == Some(6 + Characters(w).value)
  {
    hide *;
    EscapeSize(h, w);
    CharactersAt(OneEscape(h) + w, 6, w);
  }
  lemma FirstChar(cs: seq<Char>, w: Text)
    requires CharsSound(cs) && cs != []
    ensures CharSound(cs[0]) && CharsSound(cs[1..])
    ensures CharTexts(cs) + w == CharText(cs[0]) + (CharTexts(cs[1..]) + w)
    ensures |CharTexts(cs)| == |CharText(cs[0])| + |CharTexts(cs[1..])|
    ensures AllBytes(cs) == CharBytes(cs[0]) + AllBytes(cs[1..])
  {
    hide CharSound, CharText, CharBytes;
  }

  lemma NoChars(w: Text)
    requires w != [] && w[0] == QUOTE
    ensures CharTexts([]) + w == w && |CharTexts([])| == 0 && AllBytes([]) == [] && Characters(w) == Some(0)
            && Unescape(w) == Done([], w)
  {
  }

  lemma {:induction false} CharsCounted(cs: seq<Char>, w: Text)
    requires CharsSound(cs) && w != [] && w[0] == QUOTE
    ensures Characters(CharTexts(cs) + w) == Some(|CharTexts(cs)|)
  {
    hide *;
    NoChars(w);
    if cs != [] {
      FirstChar(cs, w);
      CharsCounted(cs[1..], w);
      CharCharacters(cs[0], CharTexts(cs[1..]) + w);
    }
  }

  lemma UnitUnescaped(c: Char, u: Text, out: Text, w: Text)
    requires CharSound(c) && Unescape(u) == Done(out, w)
    ensures Unescape(CharText(c) + u) == Done(CharBytes(c) + out, w)
  {
    CharUnit(c, u);
    hide CharSound, CharText, CharBytes, UnitOf, Unescape;
    UnescapeTurn(CharText(c) + u);
  }

  lemma {:induction false} CharsUnescaped(cs: seq<Char>, w: Text)
    requires CharsSound(cs) && w != [] && w[0] == QUOTE
    ensures Unescape(CharTexts(cs) + w) == Done(AllBytes(cs), w)
  {
    hide *;
    NoChars(w);
    if cs != [] {
      FirstChar(cs, w);
      CharsUnescaped(cs[1..], w);
      UnitUnescaped(cs[0], CharTexts(cs[1..]) + w, AllBytes(cs[1..]), w);
    }
  }

  // Every literal for a string is read as that string, up to its closing quote.
  lemma StringRead(t: Text, x: Text, tail: Text)
    requires StringText(t, x)
    ensures ParseString(t + tail) == Parsed(x, tail)
    ensures t != [] && t[0] == QUOTE
  {
    var cs :| CharsSound(cs) && t == [34] + CharTexts(cs) + [34] && x == AllBytes(cs);
    hide *;
    var (s, n) := (CharTexts(cs) + ([34] + tail), |CharTexts(cs)|);
    CharsCounted(cs, [34] + tail);
    CharsUnescaped(cs, [34] + tail);
    LiteralParsed(s);
    Quoted(CharTexts(cs), tail);
  }

  lemma Quoted(a: Text, tail: Text)
    ensures QUOTE == 34
    ensures [34] + a + [34] + tail == [34] + (a + ([34] + tail))
    ensures (a + ([34] + tail))[|a| + 1..] == tail
  {
  }

  // ----- printed strings are literals, and there is no shorter one -----

  // The character that is printed for a byte.
  function Printed(c: cbyte): (x: Char)
    ensures CharSound(x) && CharBytes(x) == [c] && CharText(x) == Escape(c)
  {
    if c == 34 || c == 92 then Short(c)
    else if c >= 32 then Raw(c)
    else if c == 8 then Short(98)
    else if c == 12 then Short(102)
    else if c == 10 then Short(110)
    else if c == 13 then Short(114)
    else if c == 9 then Short(116)
    else Coded(c, [[48, 48, 48 + c / 16, if c % 16 < 10 then 48 + c % 16 else 87 + c % 16]])
  }

  lemma {:induction false} PrintedChars(s: Text) returns (cs: seq<Char>)
    ensures CharsSound(cs) && CharTexts(cs) == Escaped(s) && AllBytes(cs) == s
  {
    if s == [] {
      cs := [];
    } else {
      var ds := PrintedChars(s[1..]);
      cs := [Printed(s[0])] + ds;
      hide Printed, CharSound;
      assert cs[1..] == ds;
    }
  }

  // What is printed for a string is a literal for it.
  lemma PrintedIsText(s: Text)
    ensures StringText(PrintString(s), s)
  {
    var cs := PrintedChars(s);
    assert PrintString(s) == [34] + CharTexts(cs) + [34];
  }

  // A character takes at least what is printed for its bytes.
  lemma CharTakes(c: Char)
    requires CharSound(c)
    ensures |CharText(c)| >= |Escaped(CharBytes(c))|
  {
    match c {
      case Raw(b) => EscapedOne(b);
      case Short(_) => EscapedOne(CharBytes(c)[0]);
      case Coded(uc, _) =>
        CodedHexes(c);
        EscapesAre(c.hs, []);
        hide Escape, CharText, CharSound;
        if uc < 0x80 {
          EscapedOne(uc);
        } else {
          HighBytes(Utf8(uc));
        }
      case Void(_, _) =>
    }
  }

  lemma {:induction false} HighBytes(s: Text)
    requires forall i :: 0 <= i < |s| ==> s[i] >= 0x80
    ensures Escaped(s) == s
  {
    if s != [] {
      HighBytes(s[1..]);
    }
  }

  lemma {:induction false} CharsSize(cs: seq<Char>)
    requires CharsSound(cs)
    ensures |CharTexts(cs)| >= |Escaped(AllBytes(cs))|
  {
    if cs != [] {
      CharsSize(cs[1..]);
      CharTakes(cs[0]);
      EscapedConcat(CharBytes(cs[0]), AllBytes(cs[1..]));
      hide CharText, CharBytes, CharSound;
    }
  }

  // No literal for a string is shorter than the one that is printed.
  lemma PrintedShortest(t: Text, x: Text)
    requires StringText(t, x)
    ensures |t| >= |PrintString(x)|
  {
    var cs :| CharsSound(cs) && t == [34] + CharTexts(cs) + [34] && x == AllBytes(cs);
    CharsSize(cs);
  }

  // ----- numbers -----

  predicate AllDigits(ds: Text) {
    forall i :: 0 <= i < |ds| ==> 48 <= ds[i] <= 57
  }

  // The value of decimal digits.
  function Decimal(ds: Text): (n: nat)
    requires AllDigits(ds)
  {
    if ds == [] then 0 else 10 * Decimal(ds[..|ds| - 1]) + (ds[|ds| - 1] as int - 48)
  }

  // Digits without a leading zero.
  predicate NatText(ds: Text, n: nat) {
    ds != [] && AllDigits(ds) && (ds[0] == 48 ==> |ds| == 1) && n == Decimal(ds)
  }

  // An integer of section 6 of RFC 8259: a minus perhaps, and digits without a leading zero.
  predicate NumberText(t: Text, n: int) {
    t != [] && if t[0] == 45 then n <= 0 && NatText(t[1..], -n) else n >= 0 && NatText(t, n)
  }

  lemma {:induction false} DigitsRead(ds: Text, w: Text)
    requires AllDigits(ds)
    ensures ReadDigits(ds + w, 0) == ReadDigits(w, Decimal(ds))
  {
    if ds == [] {
      assert ds + w == w;
    } else {
      var (es, d) := (ds[..|ds| - 1], ds[|ds| - 1]);
      DigitsRead(es, [d] + w);
      assert ds + w == es + ([d] + w) && ([d] + w)[1..] == w;
    }
  }

  lemma NatRead(ds: Text, n: nat, tail: Text)
    requires NatText(ds, n) && Ends(tail)
    ensures ReadNat(ds + tail) == (n, tail)
  {
    var s := ds + tail;
    assert s[0] == ds[0];
    DigitsRead(ds, tail);
    if ds[0] == 48 {
      assert s[1..] == tail && ds == [48] && ds[..0] == [];
    } else {
      hide Decimal;
      assert ReadDigits(s, 0) == ReadDigits(s[1..], s[0] as int - 48);
      assert ReadDigits(tail, n) == (n, tail);
    }
  }

  // An integer in the range of int is read as its value, up to where it ends; one beyond it is not read.
  lemma NumberRead(t: Text, n: int, tail: Text)
    requires NumberText(t, n) && Ends(tail)
    ensures t[0] == MINUS || IsDigit(t[0])
    ensures ParseNumber(t + tail) == if IsInt(n) then Parsed(n, tail) else Outside
  {
    var s := t + tail;
    assert s[0] == t[0];
    if t[0] == MINUS {
      assert s[1..] == t[1..] + tail;
      NatRead(t[1..], -n, tail);
    } else {
      NatRead(t, n, tail);
    }
    hide NatText, ReadNat;
  }

  lemma {:induction false} PrintedDigits(n: nat)
    ensures NatText(Digits(n), n)
  {
    FirstDigit(n);
    if n < 10 {
      assert Digits(n)[..0] == [];
    } else {
      PrintedDigits(n / 10);
      FirstDigit(n / 10);
      assert Digits(n)[..|Digits(n)| - 1] == Digits(n / 10);
    }
  }

  // What is printed for an int is its decimal form.
  lemma PrintedNumber(n: cint)
    ensures NumberText(PrintNumber(n), n)
  {
    var m: int := if n < 0 then -(n as int) else n as int;
    PrintedDigits(m);
    FirstDigit(m);
    assert n < 0 ==> PrintNumber(n)[1..] == Digits(m);
  }

  // ----- texts of a tree -----

  // White space, and whatever else the parser skips.
  predicate Blanks(w: Text) {
    forall i :: 0 <= i < |w| ==> w[i] <= 32
  }

  // t is a text for v, with nothing in front or behind.
  ghost predicate ValueText(t: Text, v: Json)
    decreases v, 0
  {
    match v
    case Null => t == [110, 117, 108, 108]
    case False => t == [102, 97, 108, 115, 101]
    case True => t == [116, 114, 117, 101]
    case Number(n) => NumberText(t, n)
    case Str(x) => StringText(t, x)
    case Array(NoItems) => exists w :: Blanks(w) && t == [91] + w + [93]
    case Array(items) => exists w :: ItemsText(w, items) && t == [91] + w + [93]
    case Object(NoMembers) => exists w :: Blanks(w) && t == [123] + w + [125]
    case Object(members) => exists w :: MembersText(w, members) && t == [123] + w + [125]
  }

  // A value with any blanks around it.
  ghost predicate ItemText(t: Text, v: Json)
    decreases v, 1
  {
    exists a, u, z :: Blanks(a) && ValueText(u, v) && Blanks(z) && t == a + u + z
  }

  // Values with a comma between them.
  ghost predicate ItemsText(t: Text, items: Items)
    decreases items, 0
  {
    items.Item? &&
    exists h :: ItemText(h, items.value) &&
      if items.next.NoItems? then t == h else exists r :: ItemsText(r, items.next) && t == h + [44] + r
  }

  // A key and a value with a colon between them, and any blanks around all three.
  ghost predicate MemberText(t: Text, key: Text, v: Json)
    decreases v, 2
  {
    exists a, k, b, c, u, z :: MemberOf(t, key, v, a, k, b, c, u, z)
  }

  ghost predicate MemberOf(t: Text, key: Text, v: Json, a: Text, k: Text, b: Text, c: Text, u: Text, z: Text)
    decreases v, 1
  {
    && Blanks(a) && StringText(k, key) && Blanks(b) && Blanks(c) && ValueText(u, v) && Blanks(z)
    && t == a + k + b + [58] + c + u + z
  }

  // Such pairs with a comma between them.
  ghost predicate MembersText(t: Text, members: Members)
    decreases members, 0
  {
    members.Member? &&
    exists h :: MemberText(h, members.key, members.value) &&
      if members.next.NoMembers? then t == h else exists r :: MembersText(r, members.next) && t == h + [44] + r
  }

  lemma ItemParts(t: Text, v: Json) returns (a: Text, u: Text, z: Text)
    requires ItemText(t, v)
    ensures Blanks(a) && ValueText(u, v) && Blanks(z) && t == a + u + z
  {
    a, u, z :| Blanks(a) && ValueText(u, v) && Blanks(z) && t == a + u + z;
  }

  lemma ItemsParts(t: Text, items: Items) returns (h: Text, r: Text)
    requires ItemsText(t, items)
    ensures items.Item? && ItemText(h, items.value)
    ensures items.next.NoItems? ==> t == h
    ensures items.next.Item? ==> ItemsText(r, items.next) && t == h + [44] + r
  {
    h :| ItemText(h, items.value) &&
      if items.next.NoItems? then t == h else exists r :: ItemsText(r, items.next) && t == h + [44] + r;
    r := [];
    if items.next.Item? {
      r :| ItemsText(r, items.next) && t == h + [44] + r;
    }
  }

  lemma MemberParts(t: Text, key: Text, v: Json) returns (a: Text, k: Text, b: Text, c: Text, u: Text, z: Text)
    requires MemberText(t, key, v)
    ensures Blanks(a) && StringText(k, key) && Blanks(b) && Blanks(c) && ValueText(u, v) && Blanks(z)
    ensures t == a + k + b + [58] + c + u + z
  {
    a, k, b, c, u, z :| MemberOf(t, key, v, a, k, b, c, u, z);
    hide StringText, ValueText, Blanks;
  }

  lemma MembersParts(t: Text, members: Members) returns (h: Text, r: Text)
    requires MembersText(t, members)
    ensures members.Member? && MemberText(h, members.key, members.value)
    ensures members.next.NoMembers? ==> t == h
    ensures members.next.Member? ==> MembersText(r, members.next) && t == h + [44] + r
  {
    h :| MemberText(h, members.key, members.value) &&
      if members.next.NoMembers? then t == h else exists r :: MembersText(r, members.next) && t == h + [44] + r;
    r := [];
    if members.next.Member? {
      r :| MembersText(r, members.next) && t == h + [44] + r;
    }
  }

  // ----- every text of a tree is parsed as that tree -----

  lemma {:induction false} BlankSkip(w: Text, x: Text)
    requires Blanks(w)
    ensures Skip(w + x) == Skip(x)
  {
    if w == [] {
      assert w + x == x;
    } else {
      assert (w + x)[1..] == w[1..] + x;
      BlankSkip(w[1..], x);
    }
  }

  // The text of a value starts with a byte that is not skipped and closes nothing.
  predicate Starts(t: Text) {
    t != [] && t[0] > 32 && t[0] != 93 && t[0] != 125
  }

  lemma TextStarts(t: Text, v: Json)
    requires ValueText(t, v)
    ensures Starts(t)
  {
    match v {
      case Str(x) => StringRead(t, x, []);
      case _ =>
    }
    hide StringText, ItemsText, MembersText, Decimal;
  }

  lemma StartSkip(u: Text, y: Text)
    requires Starts(u)
    ensures Skip(u + y) == u + y && u + y != [] && !At(u + y, CLOSE_BRACKET) && !At(u + y, CLOSE_BRACE)
  {
    assert (u + y)[0] == u[0];
  }

  // What follows a value inside a list ends it.
  lemma EndsAfter(z: Text, c: cbyte, w: Text)
    requires Blanks(z) && (c == 44 || c == 93 || c == 125)
    ensures Ends(z + ([c] + w)) && Skip(z + ([c] + w)) == [c] + w && ([c] + w)[1..] == w
  {
    BlankSkip(z, [c] + w);
    assert z == [] ==> z + ([c] + w) == [c] + w;
  }

  lemma ItemStep(v: Json, a: Text, u: Text, y: Text, next: Items, tail: Text)
    requires Blanks(a) && Starts(u) && ParseValue(u + y) == Parsed(v, y)
    ensures At(Skip(y), COMMA) && ParseItems(Skip(y)[1..]) == Parsed(next, tail)
            ==> ParseItems(a + (u + y)) == Parsed(Item(v, next), tail)
    ensures At(Skip(y), CLOSE_BRACKET) ==> ParseItems(a + (u + y)) == Parsed(Item(v, NoItems), Skip(y)[1..])
  {
    BlankSkip(a, u + y);
    StartSkip(u, y);
    hide ParseValue, Skip, Blanks, Starts;
  }

  lemma MemberStep(key: Text, v: Json, a: Text, k: Text, b: Text, c: Text, u: Text, y: Text, next: Members, tail: Text)
    requires Blanks(a) && StringText(k, key) && Blanks(b) && Blanks(c) && Starts(u) && ParseValue(u + y) == Parsed(v, y)
    ensures var s := a + (k + (b + ([58] + (c + (u + y)))));
            && At(Skip(s), QUOTE)
            && (At(Skip(y), COMMA) && ParseMembers(Skip(y)[1..]) == Parsed(next, tail)
                ==> ParseMembers(s) == Parsed(Member(key, v, next), tail))
            && (At(Skip(y), CLOSE_BRACE) ==> ParseMembers(s) == Parsed(Member(key, v, NoMembers), Skip(y)[1..]))
  {
    var w := c + (u + y);
    var x := b + ([58] + w);
    StringRead(k, key, x);
    BlankSkip(a, k + x);
    BlankSkip(b, [58] + w);
    BlankSkip(c, u + y);
    StartSkip(u, y);
    assert ([58] + w)[1..] == w && (k + x)[0] == 34;
    assert Skip([58] + w) == [58] + w && Skip(k + x) == k + x;
    hide ParseValue, ParseString, Skip, Blanks, Starts, StringText;
  }

  lemma {:induction false} ValueRead(t: Text, v: Json, tail: Text)
    requires ValueText(t, v) && Ends(tail)
    ensures ParseValue(t + tail) == Parsed(v, tail)
    decreases v, 0
  {
    match v {
      case Null => WordRoundTrip(v, NULL_WORD, tail);
      case False => WordRoundTrip(v, FALSE_WORD, tail);
      case True => WordRoundTrip(v, TRUE_WORD, tail);
      case Number(n) =>
        NumberRead(t, n, tail);
        assert (t + tail)[0] == t[0];
        ParseAt(t + tail, t[0]);
      case Str(x) =>
        StringRead(t, x, tail);
        ParseAt(t + tail, QUOTE);
      case Array(items) => ArrayRead(t, v, items, tail);
      case Object(members) => ObjectRead(t, v, members, tail);
    }
  }

  // The brackets and braces around a list.
  lemma Enclosed(a: cbyte, w: Text, b: cbyte, tail: Text)
    ensures [a] + w + [b] + tail == [a] + (w + ([b] + tail))
    ensures At([b] + tail, b) && ([b] + tail)[1..] == tail
    ensures 91 == OPEN_BRACKET && 93 == CLOSE_BRACKET && 123 == OPEN_BRACE && 125 == CLOSE_BRACE
    ensures 44 == COMMA && COMMA != CLOSE_BRACKET && COMMA != CLOSE_BRACE && QUOTE != CLOSE_BRACE
  {
  }

  lemma {:induction false} ArrayRead(t: Text, v: Json, items: Items, tail: Text)
    requires ValueText(t, v) && v == Array(items)
    ensures ParseValue(t + tail) == Parsed(v, tail)
    decreases items, 2
  {
    if items == NoItems {
      var w :| Blanks(w) && t == [91] + w + [93];
      hide *;
      Enclosed(91, w, 93, tail);
      ParseArray(w + ([93] + tail));
      EndsAfter(w, 93, tail);
    } else {
      var w :| ItemsText(w, items) && t == [91] + w + [93];
      hide *;
      var x := w + ([93] + tail);
      Enclosed(91, w, 93, tail);
      ParseArray(x);
      ItemsRead(w, items, tail);
      SkipTwice(x);
      ItemsSkip(Skip(x), x);
      MapIs(items, tail, y => Array(y));
    }
  }

  lemma MapIs<T, U>(x: T, r: Text, f: T -> U)
    ensures Map(Parsed(x, r), f) == Parsed(f(x), r)
  {
  }

  lemma ItemsJoin(a: Text, u: Text, z: Text, r: Text, w: Text)
    ensures a + u + z + w == a + (u + (z + w))
    ensures a + u + z + [44] + r + w == a + (u + (z + ([44] + (r + w))))
  {
  }

  lemma {:induction false} ItemsRead(t: Text, items: Items, tail: Text)
    requires ItemsText(t, items)
    ensures ParseItems(t + ([93] + tail)) == Parsed(items, tail)
    ensures !At(Skip(t + ([93] + tail)), CLOSE_BRACKET)
    decreases items, 1
  {
    hide *;
    var h, r := ItemsParts(t, items);
    var a, u, z := ItemParts(h, items.value);
    var (v, next, closing) := (items.value, items.next, [93] + tail);
    var y := if next.NoItems? then z + closing else z + ([44] + (r + closing));
    ItemsJoin(a, u, z, r, closing);
    Enclosed(91, [], 93, tail);
    Enclosed(91, [], 44, r + closing);
    EndsAfter(z, 93, tail);
    EndsAfter(z, 44, r + closing);
    TextStarts(u, v);
    ValueRead(u, v, y);
    ItemStep(v, a, u, y, next, tail);
    BlankSkip(a, u + y);
    StartSkip(u, y);
    if next.Item? {
      ItemsRead(r, next, tail);
    }
  }

  lemma {:induction false} ObjectRead(t: Text, v: Json, members: Members, tail: Text)
    requires ValueText(t, v) && v == Object(members)
    ensures ParseValue(t + tail) == Parsed(v, tail)
    decreases members, 2
  {
    if members == NoMembers {
      var w :| Blanks(w) && t == [123] + w + [125];
      hide *;
      Enclosed(123, w, 125, tail);
      ParseObject(w + ([125] + tail));
      EndsAfter(w, 125, tail);
    } else {
      var w :| MembersText(w, members) && t == [123] + w + [125];
      hide *;
      var x := w + ([125] + tail);
      Enclosed(123, w, 125, tail);
      ParseObject(x);
      MembersRead(w, members, tail);
      SkipTwice(x);
      MembersSkip(Skip(x), x);
      MapIs(members, tail, y => Object(y));
    }
  }

  lemma MembersJoin(a: Text, k: Text, b: Text, c: Text, u: Text, z: Text, r: Text, w: Text)
    ensures a + k + b + [58] + c + u + z + w == a + (k + (b + ([58] + (c + (u + (z + w))))))
    ensures a + k + b + [58] + c + u + z + [44] + r + w
            == a + (k + (b + ([58] + (c + (u + (z + ([44] + (r + w))))))))
  {
  }

  lemma QuoteOpens(s: Text)
    requires At(s, QUOTE)
    ensures !At(s, CLOSE_BRACE)
  {
  }

  lemma {:induction false} MembersRead(t: Text, members: Members, tail: Text)
    requires MembersText(t, members)
    ensures ParseMembers(t + ([125] + tail)) == Parsed(members, tail)
    ensures !At(Skip(t + ([125] + tail)), CLOSE_BRACE)
    decreases members, 1
  {
    hide *;
    var h, r := MembersParts(t, members);
    var a, k, b, c, u, z := MemberParts(h, members.key, members.value);
    var (key, v, next, closing) := (members.key, members.value, members.next, [125] + tail);
    var y := if next.NoMembers? then z + closing else z + ([44] + (r + closing));
    MembersJoin(a, k, b, c, u, z, r, closing);
    Enclosed(123, [], 125, tail);
    Enclosed(123, [], 44, r + closing);
    EndsAfter(z, 125, tail);
    EndsAfter(z, 44, r + closing);
    TextStarts(u, v);
    ValueRead(u, v, y);
    MemberStep(key, v, a, k, b, c, u, y, next, tail);
    QuoteOpens(Skip(a + (k + (b + ([58] + (c + (u + y)))))));
    if next.Member? {
      MembersRead(r, next, tail);
    }
  }

  lemma BlankEnds(z: Text)
    requires Blanks(z)
    ensures Ends(z) && Skip(z) == []
  {
    BlankSkip(z, []);
    assert z + [] == z;
  }

  lemma ParseTextIs(t: Text, u: Text, v: Json, z: Text)
    requires Skip(t) == u && ParseValue(u) == Parsed(v, z) && Skip(z) == []
    ensures ParseText(t, true) == Parsed(v, []) && ParseText(t, false) == Parsed(v, z)
  {
    hide ParseValue, Skip;
  }

  // Every text of a tree, with any blanks around it, is parsed as that tree.
  lemma TextRead(t: Text, v: Json) returns (z: Text)
    requires ItemText(t, v)
    ensures ParseText(t, true) == Parsed(v, [])
    ensures ParseText(t, false) == Parsed(v, z) && Blanks(z)
  {
    hide *;
    var a, u, y := ItemParts(t, v);
    z := y;
    TextStarts(u, v);
    BlankEnds(z);
    ValueRead(u, v, z);
    BlankSkip(a, u + z);
    StartSkip(u, z);
    assert a + u + z == a + (u + z);
    ParseTextIs(t, u + z, v, z);
  }

  // ----- nothing else is parsed -----

  // A zero perhaps, and digits that start with another.
  predicate LooseNat(u: Text, n: nat) {
    var ds := if u != [] && u[0] == 48 then u[1..] else u;
    AllDigits(ds) && (ds != [] ==> ds[0] != 48) && n == Decimal(ds)
  }

  // A minus perhaps, and such digits; not nothing at all, but more than section 6 of RFC 8259 allows.
  predicate LooseNumber(t: Text, n: int) {
    t != [] && if t[0] == 45 then n <= 0 && LooseNat(t[1..], -n) else n >= 0 && LooseNat(t, n)
  }

  // s starts with a text of v, and rest is behind it; strings are taken as the parser takes them.
  ghost predicate Accepted(s: Text, v: Json, rest: Text)
    decreases v, 0
  {
    match v
    case Null => s == [110, 117, 108, 108] + rest
    case False => s == [102, 97, 108, 115, 101] + rest
    case True => s == [116, 114, 117, 101] + rest
    case Number(n) => exists t :: s == t + rest && LooseNumber(t, n)
    case Str(x) => ParseString(s) == Parsed(x, rest)
    case Array(NoItems) => exists w :: Blanks(w) && s == [91] + w + [93] + rest
    case Array(items) => s != [] && s[0] == 91 && ItemsAccepted(s[1..], items, rest)
    case Object(NoMembers) => exists w :: Blanks(w) && s == [123] + w + [125] + rest
    case Object(members) => s != [] && s[0] == 123 && MembersAccepted(s[1..], members, rest)
  }

  // Blanks, a text of v, blanks, and then y.
  ghost predicate ItemAccepted(s: Text, v: Json, y: Text)
    decreases v, 1
  {
    exists a, u, z :: Blanks(a) && Blanks(z) && s == a + u && Accepted(u, v, z + y)
  }

  ghost predicate ItemsAccepted(s: Text, items: Items, rest: Text)
    decreases items, 0
  {
    items.Item? &&
    exists y :: ItemAccepted(s, items.value, y) && y != [] &&
      if items.next.NoItems? then y == [93] + rest else y[0] == 44 && ItemsAccepted(y[1..], items.next, rest)
  }

  // Blanks, a string, blanks, a colon, and then what ItemAccepted says.
  ghost predicate MemberAccepted(s: Text, key: Text, v: Json, y: Text)
    decreases v, 2
  {
    exists a, k, b, w ::
      Blanks(a) && Blanks(b) && s == a + k && ParseString(k) == Parsed(key, b + [58] + w) && ItemAccepted(w, v, y)
  }

  ghost predicate MembersAccepted(s: Text, members: Members, rest: Text)
    decreases members, 0
  {
    members.Member? &&
    exists y :: MemberAccepted(s, members.key, members.value, y) && y != [] &&
      if members.next.NoMembers? then y == [125] + rest else y[0] == 44 && MembersAccepted(y[1..], members.next, rest)
  }

  lemma {:induction false} SkipSplits(s: Text) returns (a: Text)
    ensures Blanks(a) && s == a + Skip(s)
  {
    if s != [] && s[0] <= 32 {
      var b := SkipSplits(s[1..]);
      a := [s[0]] + b;
    } else {
      a := [];
    }
  }

  lemma {:induction false} DigitsTaken(s: Text, es: Text) returns (ds: Text)
    requires AllDigits(es)
    ensures AllDigits(ds) && AllDigits(es + ds)
    ensures s == ds + ReadDigits(s, Decimal(es)).1 && Decimal(es + ds) == ReadDigits(s, Decimal(es)).0
    decreases |s|
  {
    if s != [] && IsDigit(s[0]) {
      var fs := es + [s[0]];
      assert fs[..|fs| - 1] == es;
      var gs := DigitsTaken(s[1..], fs);
      ds := [s[0]] + gs;
      assert es + ds == fs + gs;
    } else {
      ds := [];
      assert es + ds == es;
    }
  }

  lemma OneDigit(c: cbyte)
    requires 48 <= c <= 57
    ensures AllDigits([c]) && Decimal([c]) == c as int - 48
  {
    assert [c][..0] == [];
  }

  // The digits behind a zero.
  lemma DigitsOf(v: Text) returns (ds: Text)
    ensures AllDigits(ds) && (ds != [] ==> ds[0] != 48)
    ensures var (n, r) := if v != [] && 49 <= v[0] <= 57 then ReadDigits(v[1..], v[0] as int - 48) else (0, v);
            Decimal(ds) == n && v == ds + r
    ensures v != [] && 49 <= v[0] <= 57 ==> ds != []
  {
    ds := [];
    if v != [] && 49 <= v[0] <= 57 {
      OneDigit(v[0]);
      hide Decimal, ReadDigits;
      var es := DigitsTaken(v[1..], [v[0]]);
      ds := [v[0]] + es;
      assert v == [v[0]] + v[1..];
    } else {
      assert [] + v == v;
    }
  }

  lemma NatTaken(t: Text) returns (u: Text)
    ensures LooseNat(u, ReadNat(t).0) && t == u + ReadNat(t).1
    ensures t != [] && IsDigit(t[0]) ==> u != []
  {
    hide Decimal, ReadDigits, AllDigits;
    if At(t, ZERO) {
      var ds := DigitsOf(t[1..]);
      u := [48] + ds;
      assert u[1..] == ds && t == [48] + t[1..];
    } else {
      u := DigitsOf(t);
    }
  }

  lemma NumberIs(s: Text)
    requires (At(s, MINUS) || (s != [] && IsDigit(s[0]))) && ParseNumber(s).Parsed?
    ensures var ((m, r), p) := (ReadNat(if At(s, MINUS) then s[1..] else s), ParseNumber(s));
            p.rest == r && (p.value as int) == if At(s, MINUS) then -(m as int) else m as int
  {
    hide ReadNat, Inexact;
  }

  lemma Negative(u: Text, m: nat, r: Text)
    requires LooseNat(u, m)
    ensures LooseNumber([45] + u, 0 - (m as int)) && [45] + (u + r) == [45] + u + r
  {
    hide LooseNat;
    assert ([45] + u)[1..] == u;
  }

  lemma Positive(u: Text, m: nat, r: Text)
    requires LooseNat(u, m) && u != [] && (u + r)[0] != 45
    ensures LooseNumber(u, m)
  {
    hide LooseNat;
  }

  lemma NumberTaken(s: Text) returns (t: Text)
    requires (At(s, MINUS) || (s != [] && IsDigit(s[0]))) && ParseNumber(s).Parsed?
    ensures s == t + ParseNumber(s).rest && LooseNumber(t, ParseNumber(s).value)
  {
    NumberIs(s);
    if At(s, MINUS) {
      assert s == [45] + s[1..];
      hide *;
      var u := NatTaken(s[1..]);
      t := [45] + u;
      Negative(u, ReadNat(s[1..]).0, ReadNat(s[1..]).1);
    } else {
      assert s[0] != 45;
      hide *;
      t := NatTaken(s);
      Positive(t, ReadNat(s).0, ReadNat(s).1);
    }
  }

  lemma IsArray(w: Text, items: Items, rest: Text)
    requires ItemsAccepted(w, items, rest)
    ensures Accepted([91] + w, Array(items), rest)
  {
    assert ([91] + w)[1..] == w;
    hide ItemAccepted;
  }

  lemma IsObject(w: Text, members: Members, rest: Text)
    requires MembersAccepted(w, members, rest)
    ensures Accepted([123] + w, Object(members), rest)
  {
    assert ([123] + w)[1..] == w;
    hide MemberAccepted;
  }

  lemma IsEmpty(w: Text, y: Text)
    requires Blanks(w) && y != []
    ensures y[0] == 93 ==> Accepted([91] + (w + y), Array(NoItems), y[1..])
    ensures y[0] == 125 ==> Accepted([123] + (w + y), Object(NoMembers), y[1..])
  {
    hide Blanks;
    if y[0] == 93 {
      assert [91] + (w + y) == [91] + w + [93] + y[1..];
    } else if y[0] == 125 {
      assert [123] + (w + y) == [123] + w + [125] + y[1..];
    }
  }

  lemma ArrayParsed(w: Text, v: Json, rest: Text)
    requires ParseValue([91] + w) == Parsed(v, rest)
    ensures At(Skip(w), CLOSE_BRACKET) ==> v == Array(NoItems) && rest == Skip(w)[1..] && Skip(w)[0] == 93
    ensures !At(Skip(w), CLOSE_BRACKET) ==> v.Array? && ParseItems(w) == Parsed(v.items, rest)
  {
    ParseArray(w);
    SkipTwice(w);
    ItemsSkip(Skip(w), w);
    hide Skip, ParseItems, ParseValue;
  }

  lemma ObjectParsed(w: Text, v: Json, rest: Text)
    requires ParseValue([123] + w) == Parsed(v, rest)
    ensures At(Skip(w), CLOSE_BRACE) ==> v == Object(NoMembers) && rest == Skip(w)[1..] && Skip(w)[0] == 125
    ensures !At(Skip(w), CLOSE_BRACE) ==> v.Object? && ParseMembers(w) == Parsed(v.members, rest)
  {
    ParseObject(w);
    SkipTwice(w);
    MembersSkip(Skip(w), w);
    hide Skip, ParseMembers, ParseValue;
  }

  lemma {:induction false} ArrayTaken(w: Text, v: Json, rest: Text)
    requires ParseValue([91] + w) == Parsed(v, rest)
    ensures Accepted([91] + w, v, rest)
    decreases |w|, 3
  {
    hide *;
    ArrayParsed(w, v, rest);
    if At(Skip(w), CLOSE_BRACKET) {
      var a := SkipSplits(w);
      AtSome(Skip(w), CLOSE_BRACKET);
      IsEmpty(a, Skip(w));
    } else {
      ItemsTaken(w, v.items, rest);
      IsArray(w, v.items, rest);
    }
  }

  lemma AtSome(s: Text, c: cbyte)
    requires At(s, c)
    ensures s != [] && s[0] == c
  {
  }

  lemma {:induction false} ObjectTaken(w: Text, v: Json, rest: Text)
    requires ParseValue([123] + w) == Parsed(v, rest)
    ensures Accepted([123] + w, v, rest)
    decreases |w|, 3
  {
    hide *;
    ObjectParsed(w, v, rest);
    if At(Skip(w), CLOSE_BRACE) {
      var a := SkipSplits(w);
      AtSome(Skip(w), CLOSE_BRACE);
      IsEmpty(a, Skip(w));
    } else {
      MembersTaken(w, v.members, rest);
      IsObject(w, v.members, rest);
    }
  }

  lemma LeafAccepted(s: Text, v: Json, rest: Text)
    requires ParseValue(s) == Parsed(v, rest) && s != [] && s[0] != 91 && s[0] != 123
    ensures Accepted(s, v, rest)
  {
    hide ParseNumber, ParseString, LooseNumber;
    if !(StartsWith(s, NULL_WORD) || StartsWith(s, FALSE_WORD) || StartsWith(s, TRUE_WORD)) && !At(s, QUOTE) {
      var t := NumberTaken(s);
    }
  }

  // Whatever the parser accepts is a text of the tree it returns, and what it leaves is what is behind.
  lemma {:induction false} ValueAccepted(s: Text, v: Json, rest: Text)
    requires ParseValue(s) == Parsed(v, rest)
    ensures Accepted(s, v, rest)
    decreases |s|, 1
  {
    SomeText(s);
    hide *;
    if s[0] == 91 {
      assert s == [91] + s[1..];
      ArrayTaken(s[1..], v, rest);
    } else if s[0] == 123 {
      assert s == [123] + s[1..];
      ObjectTaken(s[1..], v, rest);
    } else {
      LeafAccepted(s, v, rest);
    }
  }

  lemma SomeText(s: Text)
    requires ParseValue(s).Parsed?
    ensures s != []
  {
  }

  lemma ItemsIs(s: Text, items: Items, rest: Text) returns (r: Text)
    requires ParseItems(s) == Parsed(items, rest)
    ensures items.Item? && ParseValue(Skip(s)) == Parsed(items.value, r) && Skip(r) != []
    ensures items.next.Item? ==> Skip(r)[0] == 44 && ParseItems(Skip(r)[1..]) == Parsed(items.next, rest)
    ensures items.next.NoItems? ==> Skip(r)[0] == 93 && rest == Skip(r)[1..]
    ensures |Skip(s)| <= |s| && |Skip(r)| < |s|
  {
    hide Skip, ParseValue;
    r := ParseValue(Skip(s)).rest;
    if At(Skip(r), COMMA) {
      SomeItems(Skip(r)[1..]);
    }
  }

  lemma SomeItems(s: Text)
    ensures ParseItems(s).Parsed? ==> ParseItems(s).value.Item?
  {
    hide Skip, ParseValue;
  }

  lemma ItemTaken(s: Text, v: Json, a: Text, u: Text, z: Text, y: Text)
    requires Blanks(a) && Blanks(z) && s == a + u && Accepted(u, v, z + y)
    ensures ItemAccepted(s, v, y)
  {
    hide Blanks, Accepted;
  }

  lemma TakenFirst(s: Text, items: Items, y: Text, rest: Text)
    requires items.Item? && ItemAccepted(s, items.value, y) && y != []
    requires if items.next.NoItems? then y[0] == 93 && rest == y[1..]
             else y[0] == 44 && ItemsAccepted(y[1..], items.next, rest)
    ensures ItemsAccepted(s, items, rest)
  {
    hide ItemAccepted;
    assert items.next.NoItems? ==> y == [93] + rest;
  }

  lemma {:induction false} ItemsTaken(s: Text, items: Items, rest: Text)
    requires ParseItems(s) == Parsed(items, rest)
    ensures ItemsAccepted(s, items, rest)
    decreases |s|, 2
  {
    hide *;
    var r := ItemsIs(s, items, rest);
    var a := SkipSplits(s);
    var z := SkipSplits(r);
    ValueAccepted(Skip(s), items.value, r);
    ItemTaken(s, items.value, a, Skip(s), z, Skip(r));
    if items.next.Item? {
      ItemsTaken(Skip(r)[1..], items.next, rest);
    }
    TakenFirst(s, items, Skip(r), rest);
  }

  lemma MembersIs(s: Text, members: Members, rest: Text) returns (r: Text, r': Text)
    requires ParseMembers(s) == Parsed(members, rest)
    ensures members.Member? && ParseString(Skip(s)) == Parsed(members.key, r) && Skip(r) != [] && Skip(r)[0] == 58
    ensures ParseValue(Skip(Skip(r)[1..])) == Parsed(members.value, r') && Skip(r') != []
    ensures members.next.Member? ==> Skip(r')[0] == 44 && ParseMembers(Skip(r')[1..]) == Parsed(members.next, rest)
    ensures members.next.NoMembers? ==> Skip(r')[0] == 125 && rest == Skip(r')[1..]
    ensures |Skip(Skip(r)[1..])| < |s| && |Skip(r')| < |s|
  {
    hide Skip, ParseValue, ParseString;
    r := ParseString(Skip(s)).rest;
    r' := ParseValue(Skip(Skip(r)[1..])).rest;
    if At(Skip(r'), COMMA) {
      SomeMembers(Skip(r')[1..]);
    }
  }

  lemma SomeMembers(s: Text)
    ensures ParseMembers(s).Parsed? ==> ParseMembers(s).value.Member?
  {
    hide Skip, ParseValue, ParseString;
  }

  lemma MemberTaken(s: Text, key: Text, v: Json, a: Text, k: Text, b: Text, w: Text, y: Text)
    requires Blanks(a) && Blanks(b) && s == a + k && w != [] && w[0] == 58 && ParseString(k) == Parsed(key, b + w)
    requires ItemAccepted(w[1..], v, y)
    ensures MemberAccepted(s, key, v, y)
  {
    hide Blanks, ItemAccepted, ParseString;
    assert b + w == b + [58] + w[1..];
  }

  lemma TakenMember(s: Text, members: Members, y: Text, rest: Text)
    requires members.Member? && MemberAccepted(s, members.key, members.value, y) && y != []
    requires if members.next.NoMembers? then y[0] == 125 && rest == y[1..]
             else y[0] == 44 && MembersAccepted(y[1..], members.next, rest)
    ensures MembersAccepted(s, members, rest)
  {
    hide MemberAccepted;
    assert members.next.NoMembers? ==> y == [125] + rest;
  }

  lemma {:induction false} MembersTaken(s: Text, members: Members, rest: Text)
    requires ParseMembers(s) == Parsed(members, rest)
    ensures MembersAccepted(s, members, rest)
    decreases |s|, 2
  {
    hide *;
    var r, r' := MembersIs(s, members, rest);
    var a := SkipSplits(s);
    var b := SkipSplits(r);
    var w := Skip(r);
    var c := SkipSplits(w[1..]);
    var z := SkipSplits(r');
    ValueAccepted(Skip(w[1..]), members.value, r');
    ItemTaken(w[1..], members.value, c, Skip(w[1..]), z, Skip(r'));
    MemberTaken(s, members.key, members.value, a, Skip(s), b, w, Skip(r'));
    if members.next.Member? {
      MembersTaken(Skip(r')[1..], members.next, rest);
    }
    TakenMember(s, members, Skip(r'), rest);
  }

  // A successful parse is of blanks, a text of the tree, and, where the end is required, blanks up to the end.
  lemma TextAccepted(s: Text, requireEnd: bool, v: Json, rest: Text) returns (a: Text, u: Text, r: Text)
    requires ParseText(s, requireEnd) == Parsed(v, rest)
    ensures Blanks(a) && s == a + u && Accepted(u, v, r)
    ensures if requireEnd then Blanks(r) && rest == [] else r == rest
  {
    a := SkipSplits(s);
    u := Skip(s);
    r := ParseValue(u).rest;
    var z := SkipSplits(r);
    assert z + [] == z;
    hide Skip, ParseValue, Blanks, Accepted;
    ValueAccepted(u, v, r);
  }

  // ----- what is printed is a text of the tree -----

  lemma BlankJoin(a: Text, b: Text)
    requires Blanks(a) && Blanks(b)
    ensures Blanks(a + b)
  {
  }

  lemma IsItem(a: Text, u: Text, z: Text, v: Json)
    requires Blanks(a) && ValueText(u, v) && Blanks(z)
    ensures ItemText(a + u + z, v)
  {
  }

  lemma IsItems(h: Text, r: Text, items: Items)
    requires items.Item? && ItemText(h, items.value)
    ensures items.next.NoItems? ==> ItemsText(h, items)
    ensures items.next.Item? && ItemsText(r, items.next) ==> ItemsText(h + [44] + r, items)
  {
    hide ItemText;
  }

  lemma IsMember(a: Text, k: Text, b: Text, c: Text, u: Text, z: Text, key: Text, v: Json)
    requires Blanks(a) && StringText(k, key) && Blanks(b) && Blanks(c) && ValueText(u, v) && Blanks(z)
    ensures MemberText(a + k + b + [58] + c + u + z, key, v)
  {
    hide StringText, ValueText, Blanks;
    assert MemberOf(a + k + b + [58] + c + u + z, key, v, a, k, b, c, u, z);
  }

  lemma IsMembers(h: Text, r: Text, members: Members)
    requires members.Member? && MemberText(h, members.key, members.value)
    ensures members.next.NoMembers? ==> MembersText(h, members)
    ensures members.next.Member? && MembersText(r, members.next) ==> MembersText(h + [44] + r, members)
  {
    hide MemberText;
  }

  // Blanks may be put in front of a list and behind it.
  lemma MoreBlanks(w: Text, t: Text, items: Items)
    requires Blanks(w) && ItemsText(t, items)
    ensures ItemsText(w + t, items)
  {
    hide *;
    var h, r := ItemsParts(t, items);
    var a, u, z := ItemParts(h, items.value);
    BlankJoin(w, a);
    IsItem(w + a, u, z, items.value);
    assert w + a + u + z == w + h;
    IsItems(w + h, r, items);
    assert w + h + [44] + r == w + (h + [44] + r);
  }

  lemma {:induction false} BlankAround(w: Text, t: Text, z: Text, members: Members)
    requires Blanks(w) && Blanks(z) && MembersText(t, members)
    ensures MembersText(w + t + z, members)
    decreases members
  {
    hide *;
    var h, r := MembersParts(t, members);
    var a, k, b, c, u, y := MemberParts(h, members.key, members.value);
    BlankJoin(w, a);
    NoBlank();
    if members.next.NoMembers? {
      BlankJoin(y, z);
      IsMember(w + a, k, b, c, u, y + z, members.key, members.value);
      Around(w, a, k, b, c, u, y, z);
      IsMembers(w + t + z, [], members);
    } else {
      IsMember(w + a, k, b, c, u, y, members.key, members.value);
      Around(w, a, k, b, c, u, y, []);
      BlankAround([], r, z, members.next);
      assert y + [] == y && [] + r + z == r + z && w + h + [] == w + h;
      IsMembers(w + h, r + z, members);
      assert w + h + [44] + (r + z) == w + t + z;
    }
  }

  lemma NoBlank()
    ensures Blanks([])
  {
  }

  lemma Around(w: Text, a: Text, k: Text, b: Text, c: Text, u: Text, y: Text, z: Text)
    ensures w + a + k + b + [58] + c + u + (y + z) == w + (a + k + b + [58] + c + u + y) + z
  {
  }

  lemma {:induction false} TabsBlank(n: int)
    ensures Blanks(Tabs(n))
  {
    if n > 0 {
      TabsBlank(n - 1);
    }
  }

  // Either print of a tree, at any depth, is a text of it.
  lemma {:induction false} PrintIsText(v: Json, depth: nat, fmt: bool)
    ensures ValueText(Print(v, depth, fmt), v)
    decreases v, 0
  {
    match v {
      case Number(n) => PrintedNumber(n);
      case Str(s) => PrintedIsText(s);
      case Array(items) =>
        hide *;
        if items.Item? {
          ItemsPrinted(items, depth + 1, fmt);
        }
        ArrayText(items, depth, fmt);
      case Object(members) =>
        hide *;
        Layout(depth, fmt);
        Layout(depth - 1, fmt);
        if members.Member? {
          MembersPrinted(members, depth + 1, fmt);
          BlankAround(If(fmt, [NEWLINE]), PrintMembers(members, depth + 1, fmt), If(fmt, Tabs(depth)), members);
        }
        ObjectText(members, depth, fmt);
      case _ =>
    }
  }

  lemma ArrayText(items: Items, depth: nat, fmt: bool)
    requires items.Item? ==> ItemsText(PrintItems(items, depth + 1, fmt), items)
    ensures ValueText(Print(Array(items), depth, fmt), Array(items))
  {
    hide PrintItems, ItemsText;
    if items.NoItems? {
      assert Blanks([]) && PrintItems(items, depth + 1, fmt) == [] by { NothingPrinted(depth + 1, fmt); }
      assert Print(Array(items), depth, fmt) == [91] + [] + [93];
    } else {
      assert Print(Array(items), depth, fmt) == [91] + PrintItems(items, depth + 1, fmt) + [93];
    }
  }

  lemma NothingPrinted(depth: nat, fmt: bool)
    ensures PrintItems(NoItems, depth, fmt) == [] && PrintMembers(NoMembers, depth, fmt) == []
  {
  }

  lemma ObjectText(members: Members, depth: nat, fmt: bool)
    requires Blanks(If(fmt, [NEWLINE] + Tabs(depth - 1)))
    requires members.Member? ==>
               MembersText(If(fmt, [NEWLINE]) + PrintMembers(members, depth + 1, fmt) + If(fmt, Tabs(depth)), members)
    ensures ValueText(Print(Object(members), depth, fmt), Object(members))
  {
    hide PrintMembers, MembersText, If, Tabs, Blanks;
    if members.NoMembers? {
      assert Print(Object(members), depth, fmt) == [123] + If(fmt, [NEWLINE] + Tabs(depth - 1)) + [125];
    } else {
      var w := If(fmt, [NEWLINE]) + PrintMembers(members, depth + 1, fmt) + If(fmt, Tabs(depth));
      assert Print(Object(members), depth, fmt) == [123] + w + [125];
    }
  }

  lemma Bordered(u: Text, w: Text, r: Text)
    ensures [] + u + [] == u && u + [44] + w + r == [] + u + [] + [44] + (w + r)
  {
  }

  lemma ItemShape(items: Items, depth: nat, fmt: bool)
    requires items.Item?
    ensures var (u, w) := (Print(items.value, depth, fmt), If(fmt, [SPACE]));
            PrintItems(items, depth, fmt) ==
            if items.next.NoItems? then [] + u + [] else [] + u + [] + [44] + (w + PrintItems(items.next, depth, fmt))
  {
    var (u, w) := (Print(items.value, depth, fmt), If(fmt, [SPACE]));
    var r := PrintItems(items.next, depth, fmt);
    assert PrintItems(items, depth, fmt) == if items.next.NoItems? then u else u + [44] + w + r;
    hide *;
    Bordered(u, w, r);
  }

  lemma {:induction false} ItemsPrinted(items: Items, depth: nat, fmt: bool)
    requires items.Item?
    ensures ItemsText(PrintItems(items, depth, fmt), items)
    decreases items, 1
  {
    hide *;
    var (u, w, next) := (Print(items.value, depth, fmt), If(fmt, [SPACE]), items.next);
    PrintIsText(items.value, depth, fmt);
    Layout(depth, fmt);
    IsItem([], u, [], items.value);
    ItemShape(items, depth, fmt);
    if next.Item? {
      ItemsPrinted(next, depth, fmt);
      MoreBlanks(w, PrintItems(next, depth, fmt), next);
    }
    IsItems([] + u + [], w + PrintItems(next, depth, fmt), items);
  }

  lemma MemberShape(members: Members, depth: nat, fmt: bool)
    requires members.Member?
    ensures var (a, k, c) := (If(fmt, Tabs(depth)), PrintString(members.key), If(fmt, [TAB]));
            var (u, z) := (Print(members.value, depth, fmt), If(fmt, [NEWLINE]));
            PrintMembers(members, depth, fmt) ==
            if members.next.NoMembers? then a + k + [] + [58] + c + u + z
            else a + k + [] + [58] + c + u + [] + [44] + (z + PrintMembers(members.next, depth, fmt) + [])
  {
    var (a, k, c) := (If(fmt, Tabs(depth)), PrintString(members.key), If(fmt, [TAB]));
    var (u, z) := (Print(members.value, depth, fmt), If(fmt, [NEWLINE]));
    var w := PrintMembers(members.next, depth, fmt);
    assert members.next.NoMembers? ==> w == [];
    assert PrintMembers(members, depth, fmt)
           == a + k + [58] + c + u + (if members.next.Member? then [44] else []) + z + w;
    hide *;
    Reshaped(a, k, c, u, z, w);
  }

  lemma Reshaped(a: Text, k: Text, c: Text, u: Text, z: Text, w: Text)
    ensures w == [] ==> a + k + [58] + c + u + [] + z + w == a + k + [] + [58] + c + u + z
    ensures a + k + [58] + c + u + [44] + z + w == a + k + [] + [58] + c + u + [] + [44] + (z + w + [])
  {
  }

  lemma {:induction false} MembersPrinted(members: Members, depth: nat, fmt: bool)
    requires members.Member?
    ensures MembersText(PrintMembers(members, depth, fmt), members)
    decreases members, 1
  {
    hide *;
    var (key, v, next) := (members.key, members.value, members.next);
    var (a, k, c) := (If(fmt, Tabs(depth)), PrintString(key), If(fmt, [TAB]));
    var (u, z) := (Print(v, depth, fmt), If(fmt, [NEWLINE]));
    PrintIsText(v, depth, fmt);
    PrintedIsText(key);
    Layout(depth, fmt);
    MemberShape(members, depth, fmt);
    if next.NoMembers? {
      IsMember(a, k, [], c, u, z, key, v);
      IsMembers(a + k + [] + [58] + c + u + z, [], members);
    } else {
      MembersPrinted(next, depth, fmt);
      BlankAround(z, PrintMembers(next, depth, fmt), [], next);
      IsMember(a, k, [], c, u, [], key, v);
      IsMembers(a + k + [] + [58] + c + u + [], z + PrintMembers(next, depth, fmt) + [], members);
    }
  }

  // Indentation, tabulators, spaces and line ends are blanks.
  lemma Layout(depth: int, fmt: bool)
    ensures Blanks(If(fmt, Tabs(depth))) && Blanks(If(fmt, [TAB])) && Blanks(If(fmt, [NEWLINE]))
            && Blanks(If(fmt, [SPACE]))
    ensures Blanks(If(fmt, [NEWLINE] + Tabs(depth))) && Blanks([])
  {
    TabsBlank(depth);
  }

  // ----- round trips -----

  // Parsing either print of a tree, at any depth, stops right behind it.
  lemma ValueRoundTrip(v: Json, depth: nat, fmt: bool, tail: Text)
    requires Ends(tail)
    ensures ParseValue(Print(v, depth, fmt) + tail) == Parsed(v, tail)
  {
    hide *;
    PrintIsText(v, depth, fmt);
    ValueRead(Print(v, depth, fmt), v, tail);
  }

  // Parsing either print of a tree gives back the tree and consumes the whole text.
  lemma TreeRoundTrip(v: Json, fmt: bool)
    ensures ParseValue(Print(v, 0, fmt)) == Parsed(v, [])
    ensures ParseText(Print(v, 0, fmt), true) == Parsed(v, []) && ParseText(Print(v, 0, fmt), false) == Parsed(v, [])
  {
    var s := Print(v, 0, fmt);
    hide *;
    PrintIsText(v, 0, fmt);
    BlankEnds([]);
    NoBlank();
    ValueRoundTrip(v, 0, fmt, []);
    TextStarts(s, v);
    StartSkip(s, []);
    assert s + [] == s;
    ParseTextIs(s, s, v, []);
  }
}
