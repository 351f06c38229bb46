// Strings in src/cJSON.c: print_string_ptr, parse_string and parse_hex4 on values.
module JsonStrings {
  import opened Types

  // A byte of a C string; the NUL at its end is not part of it.
  type cbyte = b: int | 1 <= b < 256 witness 1

  type Text = seq<cbyte>

  const QUOTE: cbyte := 34
  const BACKSLASH: cbyte := 92
  const LETTER_B: cbyte := 98
  const LETTER_F: cbyte := 102
  const LETTER_N: cbyte := 110
  const LETTER_R: cbyte := 114
  const LETTER_T: cbyte := 116
  const LETTER_U: cbyte := 117

  // Outside is a text on which the source leaves its buffers (or, for numbers, the integers).
  datatype Parse<+T> = Parsed(value: T, rest: Text) | Failed | Outside

  // ----- printing -----

  function HexDigit(n: nat): cbyte
    requires n < 16
  {
    if n < 10 then 48 + n else 87 + n
  }

  function Escape(c: cbyte): (s: Text)
    ensures |s| >= 1
  {
    if c > 31 && c != QUOTE && c != BACKSLASH then [c]
    else if c == BACKSLASH || c == QUOTE then [BACKSLASH, c]
    else if c == 8 then [BACKSLASH, LETTER_B]
    else if c == 12 then [BACKSLASH, LETTER_F]
    else if c == 10 then [BACKSLASH, LETTER_N]
    else if c == 13 then [BACKSLASH, LETTER_R]
    else if c == 9 then [BACKSLASH, LETTER_T]
    else [BACKSLASH, LETTER_U, 48, 48, HexDigit(c / 16), HexDigit(c % 16)]
  }

  function Escaped(s: Text): Text {
    if s == [] then [] else Escape(s[0]) + Escaped(s[1..])
  }

  function PrintString(s: Text): Text {
    [QUOTE] + Escaped(s) + [QUOTE]
  }

  // The bytes the first pass counts for one byte of the string.
  function EscapedSize(c: cbyte): nat {
    if c == QUOTE || c == BACKSLASH || c == 8 || c == 12 || c == 10 || c == 13 || c == 9 then 2
    else if c < 32 then 6
    else 1
  }

  function Size(s: Text): nat {
    if s == [] then 0 else Size(s[..|s| - 1]) + EscapedSize(s[|s| - 1])
  }

  lemma {:induction false} EscapedConcat(s: Text, t: Text)
    ensures Escaped(s + t) == Escaped(s) + Escaped(t)
  {
    hide Escape;
    if s == [] {
      assert s + t == t;
    } else {
      EscapedConcat(s[1..], t);
      assert (s + t)[1..] == s[1..] + t;
    }
  }

  lemma EscapedOne(c: cbyte)
    ensures Escaped([c]) == Escape(c) && |Escape(c)| == EscapedSize(c)
  {
    assert [c][1..] == [];
  }

  lemma EscapedSnoc(s: Text, c: cbyte)
    ensures Escaped(s + [c]) == Escaped(s) + Escape(c)
  {
    EscapedConcat(s, [c]);
    EscapedOne(c);
  }

  // The first pass is exact: the len + 3 bytes it leads to are filled by the text and its NUL.
  lemma {:induction false} PrintedSize(s: Text)
    ensures |Escaped(s)| == Size(s) && |PrintString(s)| + 1 == Size(s) + 3
  {
    if s != [] {
      var (t, c) := (s[..|s| - 1], s[|s| - 1]);
      PrintedSize(t);
      EscapedOne(c);
      EscapedSnoc(t, c);
      assert t + [c] == s;
    }
  }

  // ----- parsing -----

  function HexValue(c: cbyte): Option<nat> {
    if 48 <= c <= 57 then Some(c - 48)
    else if 65 <= c <= 70 then Some(c - 55)
    else if 97 <= c <= 102 then Some(c - 87)
    else None
  }

  // parse_hex4: 0 unless the first four bytes are hexadecimal digits
  function Hex4(s: Text): (n: nat)
    ensures n < 65536
  {
    if |s| < 4 || HexValue(s[0]).None? || HexValue(s[1]).None? || HexValue(s[2]).None? || HexValue(s[3]).None? then 0
    else 4096 * HexValue(s[0]).value + 256 * HexValue(s[1]).value + 16 * HexValue(s[2]).value + HexValue(s[3]).value
  }

  // UTF-8 (section 3 of RFC 3629)
  function Utf8(uc: nat): (s: Text)
    requires 0 < uc < 0x11_0000
    ensures 1 <= |s| <= 4
  {
    if uc < 0x80 then [uc]
    else if uc < 0x800 then [0xC0 + uc / 64, 0x80 + uc % 64]
    else if uc < 0x10000 then [0xE0 + uc / 4096, 0x80 + uc / 64 % 64, 0x80 + uc % 64]
    else [0xF0 + uc / 262144, 0x80 + uc / 4096 % 64, 0x80 + uc / 64 % 64, 0x80 + uc % 64]
  }

  predicate Low(uc: nat) {
    0xDC00 <= uc <= 0xDFFF
  }

  predicate High(uc: nat) {
    0xD800 <= uc <= 0xDBFF
  }

  function Surrogates(uc: nat, uc2: nat): (n: nat)
    requires High(uc) && Low(uc2)
    ensures 0x1_0000 <= n < 0x11_0000
  {
    0x1_0000 + (uc - 0xD800) * 0x400 + (uc2 - 0xDC00)
  }

  // One turn of the second pass: what it writes and how many bytes it reads.
  datatype Unit = Unit(out: Text, size: nat)

  function Letter(c: cbyte): cbyte {
    if c == LETTER_B then 8
    else if c == LETTER_F then 12
    else if c == LETTER_N then 10
    else if c == LETTER_R then 13
    else if c == LETTER_T then 9
    else c
  }

  // A turn at an escape \u; None when it would read on behind the text.
  function UnicodeUnit(s: Text): (u: Option<Unit>)
    requires |s| >= 2
    ensures u.Some? ==> 1 <= u.value.size <= |s|
  {
    if |s| < 6 then None
    else
      var uc := Hex4(s[2..6]);
      if uc == 0 || Low(uc) then Some(Unit([], 6))
      else if !High(uc) then Some(Unit(Utf8(uc), 6))
      else if |s| < 8 || s[6] != BACKSLASH || s[7] != LETTER_U then Some(Unit([], 6))
      else if |s| < 12 then None
      else if !Low(Hex4(s[8..12])) then Some(Unit([], 12))
      else Some(Unit(Utf8(Surrogates(uc, Hex4(s[8..12]))), 12))
  }

  function UnitOf(s: Text): (u: Option<Unit>)
    requires s != []
    ensures u.Some? ==> 1 <= u.value.size <= |s|
  {
    if s[0] != BACKSLASH then Some(Unit([s[0]], 1))
    else if |s| < 2 then None
    else if s[1] == LETTER_U then UnicodeUnit(s)
    else Some(Unit([Letter(s[1])], 2))
  }

  datatype Unescaped = Done(out: Text, rest: Text) | Beyond

  function Prefixed(a: Text, u: Unescaped): Unescaped {
    match u
    case Done(out, rest) => Done(a + out, rest)
    case Beyond => Beyond
  }

  predicate AtEnd(s: Text) {
    s == [] || s[0] == QUOTE
  }

  // The second pass, behind the opening quote.
  function Unescape(s: Text): (u: Unescaped)
    ensures u.Done? ==> AtEnd(u.rest) && |u.rest| <= |s|
    decreases |s|
  {
    if AtEnd(s) then Done([], s)
    else
      match UnitOf(s)
      case None => Beyond
      case Some(u) => Prefixed(u.out, Unescape(s[u.size..]))
  }

  // The first pass: the size it allows for; None when it reads on behind the text.
  function Counted(s: Text): Option<nat>
    decreases |s|
  {
    if AtEnd(s) then Some(0)
    else if s[0] != BACKSLASH then More(Counted(s[1..]), 1)
    else if |s| < 2 then None
    else More(Counted(s[2..]), 1)
  }

  function More(n: Option<nat>, k: nat): Option<nat> {
    if n.Some? then Some(n.value + k) else None
  }

  function ParseString(s: Text): (p: Parse<Text>)
    ensures p.Parsed? ==> |p.rest| < |s|
  {
    if s == [] || s[0] != QUOTE then Failed
    else
      match Counted(s[1..])
      case None => Outside
      case Some(len) =>
        match Unescape(s[1..])
        case Beyond => Outside
        case Done(out, rest) =>
          if |out| > len then Outside else Parsed(out, if rest == [] then rest else rest[1..])
  }

  // ----- parsing what was printed -----

  lemma UnitOfEscape(c: cbyte, w: Text)
    ensures !AtEnd(Escape(c) + w) && UnitOf(Escape(c) + w) == Some(Unit([c], |Escape(c)|))
    ensures (Escape(c) + w)[|Escape(c)|..] == w
  {
    if c < 32 && EscapedSize(c) == 6 {
      var s := Escape(c) + w;
      assert s[2..6] == [48, 48, HexDigit(c / 16), HexDigit(c % 16)];
      assert Hex4(s[2..6]) == c;
    }
  }

  lemma {:induction false} UnescapeEscaped(s: Text, tail: Text)
    requires AtEnd(tail)
    ensures Unescape(Escaped(s) + tail) == Done(s, tail)
  {
    hide Escape, UnitOf;
    if s == [] {
      assert Escaped(s) + tail == tail;
    } else {
      var w := Escaped(s[1..]) + tail;
      assert Escaped(s) + tail == Escape(s[0]) + w;
      UnitOfEscape(s[0], w);
      UnescapeEscaped(s[1..], tail);
      assert [s[0]] + s[1..] == s;
    }
  }

  lemma CountedEscape(c: cbyte, w: Text)
    requires Counted(w).Some?
    ensures Counted(Escape(c) + w).Some? && Counted(Escape(c) + w).value >= Counted(w).value + 1
  {
    var s := Escape(c) + w;
    if |Escape(c)| == 1 {
      assert s[1..] == w;
    } else if |Escape(c)| == 2 {
      assert s[2..] == w;
    } else {
      var (x, y) := (HexDigit(c / 16), HexDigit(c % 16));
      assert s == [BACKSLASH, LETTER_U] + ([48] + ([48] + ([x] + ([y] + w))));
      CountedPlain(y, w);
      CountedPlain(x, [y] + w);
      CountedPlain(48, [x] + ([y] + w));
      CountedPlain(48, [48] + ([x] + ([y] + w)));
      assert s[2..] == [48] + ([48] + ([x] + ([y] + w)));
    }
  }

  lemma CountedPlain(c: cbyte, w: Text)
    requires c != QUOTE && c != BACKSLASH
    ensures Counted([c] + w) == More(Counted(w), 1)
  {
    assert ([c] + w)[1..] == w;
  }

  lemma {:induction false} CountedEscaped(s: Text, tail: Text)
    requires AtEnd(tail)
    ensures Counted(Escaped(s) + tail).Some? && Counted(Escaped(s) + tail).value >= |s|
  {
    hide Escape;
    if s == [] {
      assert Escaped(s) + tail == tail;
    } else {
      CountedEscaped(s[1..], tail);
      CountedEscape(s[0], Escaped(s[1..]) + tail);
      assert Escaped(s) + tail == Escape(s[0]) + (Escaped(s[1..]) + tail);
    }
  }

  // parse_string undoes print_string_ptr on every string and stops right behind it.
  lemma StringRoundTrip(s: Text, tail: Text)
    ensures ParseString(PrintString(s) + tail) == Parsed(s, tail)
  {
    hide Unescape, Counted, Escaped;
    var t := PrintString(s) + tail;
    assert t[1..] == Escaped(s) + ([QUOTE] + tail);
    UnescapeEscaped(s, [QUOTE] + tail);
    CountedEscaped(s, [QUOTE] + tail);
  }

  // ----- the size of a parsed string -----

  // Where the first pass stops: at the closing quote, or at the end of the text.
  function Extent(s: Text): (e: nat)
    requires Counted(s).Some?
    ensures e <= |s| && AtEnd(s[e..])
    decreases |s|
  {
    if AtEnd(s) then 0
    else if s[0] != BACKSLASH then 1 + Extent(s[1..])
    else 2 + Extent(s[2..])
  }

  // The bytes one turn of the second pass takes: one, an escape of two, an escape \u of six, or two of them.
  function TurnSize(s: Text): nat
    requires s != []
  {
    if s[0] != BACKSLASH then 1
    else if |s| < 2 || s[1] != LETTER_U then 2
    else if |s| >= 8 && High(Hex4(s[2..6])) && s[6] == BACKSLASH && s[7] == LETTER_U then 12
    else 6
  }

  // Cut into turns, the next e bytes come out even, and no turn starts at a quote.
  predicate Even(s: Text, e: nat)
    requires e <= |s|
    decreases e
  {
    e == 0 || (s[0] != QUOTE && TurnSize(s) <= e && Even(s[TurnSize(s)..], e - TurnSize(s)))
  }

  lemma TurnOf(s: Text)
    requires s != []
    ensures UnitOf(s).Some? ==> UnitOf(s).value.size == TurnSize(s)
    ensures TurnSize(s) <= |s| ==> UnitOf(s).Some?
  {
    hide Hex4, Utf8;
  }

  lemma UnescapeTurn(s: Text)
    requires !AtEnd(s)
    ensures UnitOf(s).Some? ==> Unescape(s) == Prefixed(UnitOf(s).value.out, Unescape(s[UnitOf(s).value.size..]))
    ensures UnitOf(s).None? ==> Unescape(s) == Beyond
  {
    hide UnitOf;
  }

  // The second pass stops at e exactly when the bytes before come out even.
  lemma {:induction false} StopsAt(s: Text, e: nat)
    requires e <= |s| && AtEnd(s[e..])
    ensures Unescape(s).Done? && Unescape(s).rest == s[e..] <==> Even(s, e)
    decreases e
  {
    if e > 0 && s[0] != QUOTE {
      hide UnitOf, TurnSize, Unescape;
      TurnOf(s);
      UnescapeTurn(s);
      var n := TurnSize(s);
      if n <= e {
        assert s[n..][e - n..] == s[e..];
        StopsAt(s[n..], e - n);
      }
    }
  }

  // The first pass byte by byte; skip says that the next byte is the second one of an escape.
  function Count(p: Text, skip: bool): nat {
    if p == [] then 0 else if skip then Count(p[1..], false) else 1 + Count(p[1..], p[0] == BACKSLASH)
  }

  function Skips(p: Text, skip: bool): bool {
    if p == [] then skip else Skips(p[1..], !skip && p[0] == BACKSLASH)
  }

  lemma {:induction false} CountSplit(p: Text, n: nat, skip: bool)
    requires n <= |p|
    ensures Count(p, skip) == Count(p[..n], skip) + Count(p[n..], Skips(p[..n], skip))
    ensures Skips(p, skip) == Skips(p[n..], Skips(p[..n], skip))
    decreases n
  {
    if n == 0 {
      assert p[..0] == [] && p[0..] == p;
    } else {
      assert p[..n][1..] == p[1..][..n - 1] && p[n..] == p[1..][n - 1..];
      CountSplit(p[1..], n - 1, !skip && p[0] == BACKSLASH);
    }
  }

  // Byte by byte the first pass comes to the same count.
  lemma {:induction false} CountedByBytes(s: Text)
    requires Counted(s).Some?
    ensures Count(s[..Extent(s)], false) == Counted(s).value && !Skips(s[..Extent(s)], false)
    decreases |s|
  {
    if !AtEnd(s) {
      var (k, e) := (if s[0] == BACKSLASH then 2 else 1, Extent(s));
      var p := s[..e];
      CountedByBytes(s[k..]);
      assert p[k..] == s[k..][..e - k];
      if k == 2 {
        TwoBytes(p[..k], false);
      } else {
        OneByte(p[..k], false);
      }
      hide Count, Skips;
      CountSplit(p, k, false);
    }
  }

  lemma OneByte(p: Text, skip: bool)
    requires |p| == 1
    ensures Count(p, skip) == (if skip then 0 else 1) && Skips(p, skip) == (!skip && p[0] == BACKSLASH)
  {
    assert p[1..] == [];
  }

  lemma TwoBytes(p: Text, skip: bool)
    requires |p| == 2 && p[0] == BACKSLASH
    ensures Count(p, skip) == 1 && Skips(p, skip) == (skip && p[1] == BACKSLASH)
  {
    OneByte(p[1..], !skip);
  }

  function Owing(skip: bool): nat {
    if skip then 1 else 0
  }

  lemma {:induction false} CountPlain(p: Text)
    requires forall i :: 0 <= i < |p| ==> p[i] != BACKSLASH
    ensures Count(p, false) == |p| && !Skips(p, false)
  {
    if p != [] {
      CountPlain(p[1..]);
    }
  }

  // What an escape \u writes is covered by the bytes the first pass counts in it, wherever that stands.
  lemma UnicodeBudget(p: Text, skip: bool)
    requires |p| == 6 && p[0] == BACKSLASH && p[1] == LETTER_U
    ensures Count(p, skip) >= 1
    ensures Hex4(p[2..6]) != 0 ==> Count(p, skip) == 5 && !Skips(p, skip)
  {
    var w := p[2..6];
    CountSplit(p, 2, skip);
    assert p[2..] == w;
    TwoBytes(p[..2], skip);
    if Hex4(w) != 0 {
      forall i | 0 <= i < 4 ensures w[i] != BACKSLASH {
        assert HexValue(BACKSLASH) == None;
      }
      CountPlain(w);
    }
  }

  lemma UnicodeTurnBudget(s: Text, skip: bool)
    requires |s| >= 2 && s[0] == BACKSLASH && s[1] == LETTER_U && UnicodeUnit(s).Some?
    ensures var (u, p) := (UnicodeUnit(s).value, s[..UnicodeUnit(s).value.size]);
            |u.out| + Owing(Skips(p, skip)) <= Count(p, skip) + Owing(skip)
  {
    hide Hex4, Count, Skips, Utf8;
    var n := UnicodeUnit(s).value.size;
    var p := s[..n];
    assert p[..6] == s[..6] && p[..6][2..6] == s[2..6];
    UnicodeBudget(p[..6], skip);
    CountSplit(p, 6, skip);
    if n == 12 {
      assert p[6..][2..6] == s[8..12];
      UnicodeBudget(p[6..], Skips(p[..6], skip));
    } else {
      NoCount(p[6..], Skips(p[..6], skip));
      Utf8Size(Hex4(s[2..6]));
    }
  }

  // What one turn of the second pass writes is covered by what the first counts for its bytes.
  lemma TurnBudget(s: Text, skip: bool)
    requires s != [] && s[0] != QUOTE && UnitOf(s).Some?
    ensures var (u, p) := (UnitOf(s).value, s[..UnitOf(s).value.size]);
            |u.out| + Owing(Skips(p, skip)) <= Count(p, skip) + Owing(skip)
  {
    hide UnicodeUnit, Count, Skips;
    if s[0] != BACKSLASH {
      OneByte(s[..1], skip);
    } else if s[1] == LETTER_U {
      UnicodeTurnBudget(s, skip);
    } else {
      TwoBytes(s[..2], skip);
    }
  }

  lemma NoCount(p: Text, skip: bool)
    requires p == []
    ensures Count(p, skip) == 0 && Skips(p, skip) == skip
  {
  }

  lemma Utf8Size(uc: nat)
    ensures 0 < uc < 0x10000 ==> |Utf8(uc)| <= 3
  {
  }

  lemma BudgetTurn(s: Text, e: nat, skip: bool)
    requires 0 < e <= |s| && AtEnd(s[e..]) && Even(s, e) && !Skips(s[..e], skip)
    ensures UnitOf(s).Some? && 0 < TurnSize(s) <= e && Even(s[TurnSize(s)..], e - TurnSize(s))
    ensures var (u, n, later) := (UnitOf(s).value, TurnSize(s), Skips(s[..TurnSize(s)], skip));
            && Unescape(s) == Prefixed(u.out, Unescape(s[n..])) && AtEnd(s[n..][e - n..])
            && !Skips(s[n..][..e - n], later)
            && |u.out| + Count(s[n..][..e - n], later) + Owing(later) <= Count(s[..e], skip) + Owing(skip)
  {
    TurnOf(s);
    hide UnitOf, TurnSize, Unescape, Count, Skips, Owing, AtEnd;
    var (n, p) := (TurnSize(s), s[..e]);
    NotAtEnd(s);
    UnescapeTurn(s);
    TurnBudget(s, skip);
    CountSplit(p, n, skip);
    Cuts(s, n, e);
  }

  lemma NotAtEnd(s: Text)
    requires s != [] && s[0] != QUOTE
    ensures !AtEnd(s)
  {
  }

  lemma Cuts(s: Text, n: nat, e: nat)
    requires n <= e <= |s|
    ensures s[..e][..n] == s[..n] && s[..e][n..] == s[n..][..e - n] && s[n..][e - n..] == s[e..]
  {
  }

  lemma NothingWritten(s: Text)
    requires AtEnd(s[0..])
    ensures Unescape(s) == Done([], s)
  {
    assert s[0..] == s;
  }

  lemma BehindSize(a: Text, u: Unescaped)
    requires u.Done?
    ensures Prefixed(a, u).Done? && |Prefixed(a, u).out| == |a| + |u.out|
  {
  }

  lemma {:induction false} Budget(s: Text, e: nat, skip: bool)
    requires e <= |s| && AtEnd(s[e..]) && Even(s, e) && !Skips(s[..e], skip)
    ensures Unescape(s).Done? && |Unescape(s).out| <= Count(s[..e], skip) + Owing(skip)
    decreases e
  {
    hide *;
    if e == 0 {
      NothingWritten(s);
    } else {
      BudgetTurn(s, e, skip);
      var (n, u) := (TurnSize(s), UnitOf(s).value);
      Budget(s[n..], e - n, Skips(s[..n], skip));
      BehindSize(u.out, Unescape(s[n..]));
    }
  }

  // Both passes stop at the same place exactly when the bytes up to the place
  // where the first stops come out even; and then the string and its NUL fit
  // the bytes allocated, and parsing goes on right behind the closing quote.
  lemma StringFits(s: Text)
    requires Counted(s).Some?
    ensures Unescape(s).Done? && Unescape(s).rest == s[Extent(s)..] <==> Even(s, Extent(s))
    ensures Even(s, Extent(s)) ==>
              && |Unescape(s).out| <= Counted(s).value
              && ParseString([QUOTE] + s)
                 == Parsed(Unescape(s).out, if Extent(s) == |s| then [] else s[Extent(s) + 1..])
  {
    StopsAt(s, Extent(s));
    hide *;
    if Even(s, Extent(s)) {
      ParseStringIs(s);
      CountedByBytes(s);
      Budget(s, Extent(s), false);
      assert Extent(s) < |s| ==> s[Extent(s)..][1..] == s[Extent(s) + 1..];
    }
  }

  lemma ParseStringIs(s: Text)
    requires Counted(s).Some? && Unescape(s).Done?
    ensures ParseString([QUOTE] + s) ==
            var u := Unescape(s);
            if |u.out| > Counted(s).value then Outside else Parsed(u.out, if u.rest == [] then [] else u.rest[1..])
  {
    hide Counted, Unescape;
    assert ([QUOTE] + s)[1..] == s;
  }

  lemma TwoPlain(a: cbyte, b: cbyte)
    requires a != QUOTE && a != BACKSLASH && b != QUOTE && b != BACKSLASH
    ensures Unescape([a, b, QUOTE]) == Done([a, b], [QUOTE])
  {
    assert [a, b, QUOTE][1..] == [b, QUOTE] && [b, QUOTE][1..] == [QUOTE];
    assert Unescape([QUOTE]) == Done([], [QUOTE]);
    assert Unescape([b, QUOTE]) == Done([b], [QUOTE]);
  }

  // ----- the literals of RFC 8259 -----

  predicate Hexadecimal(s: Text) {
    forall i :: 0 <= i < |s| ==> HexValue(s[i]).Some?
  }

  // The bytes of the first character of a string by section 7 of RFC 8259; 0 when there is none.
  function CharSize(s: Text): (n: nat)
    requires s != []
    ensures n <= |s|
  {
    if s[0] == QUOTE || s[0] < 32 then 0
    else if s[0] != BACKSLASH then 1
    else if |s| < 2 then 0
    else if s[1] in {QUOTE, BACKSLASH, 47, LETTER_B, LETTER_F, LETTER_N, LETTER_R, LETTER_T} then 2
    else if s[1] == LETTER_U && |s| >= 6 && Hexadecimal(s[2..6]) then 6
    else 0
  }

  // The bytes of the characters in front of the closing quote; None when s is no string behind its opening quote.
  function Characters(s: Text): (n: Option<nat>)
    ensures n.Some? ==> n.value < |s| && s[n.value] == QUOTE
    decreases |s|
  {
    if s == [] then None
    else if s[0] == QUOTE then Some(0)
    else if CharSize(s) == 0 then None
    else More(Characters(s[CharSize(s)..]), CharSize(s))
  }

  lemma HexIsPlain(c: cbyte)
    requires HexValue(c).Some?
    ensures c != QUOTE && c != BACKSLASH
  {
  }

  // A byte that is neither quote nor backslash.
  lemma PlainExtent(s: Text)
    requires s != [] && s[0] != QUOTE && s[0] != BACKSLASH && Counted(s[1..]).Some?
    ensures Counted(s).Some? && Extent(s) == 1 + Extent(s[1..])
  {
  }

  lemma EscapeExtent(s: Text)
    requires |s| >= 2 && s[0] == BACKSLASH && Counted(s[2..]).Some?
    ensures Counted(s).Some? && Extent(s) == 2 + Extent(s[2..])
  {
  }

  lemma UnicodeExtent(s: Text)
    requires |s| >= 6 && s[0] == BACKSLASH && Hexadecimal(s[2..6]) && Counted(s[6..]).Some?
    ensures Counted(s).Some? && Extent(s) == 6 + Extent(s[6..])
  {
    hide Counted, Extent;
    assert s[2..6][0] == s[2] && s[2..6][1] == s[3] && s[2..6][2] == s[4] && s[2..6][3] == s[5];
    HexIsPlain(s[2]);
    HexIsPlain(s[3]);
    HexIsPlain(s[4]);
    HexIsPlain(s[5]);
    assert s[5..][1..] == s[6..] && s[4..][1..] == s[5..] && s[3..][1..] == s[4..] && s[2..][1..] == s[3..];
    PlainExtent(s[5..]);
    PlainExtent(s[4..]);
    PlainExtent(s[3..]);
    PlainExtent(s[2..]);
    EscapeExtent(s);
  }

  // The first pass stops at the closing quote.
  lemma {:induction false} CharactersExtent(s: Text)
    requires Characters(s).Some?
    ensures Counted(s).Some? && Extent(s) == Characters(s).value
    decreases |s|
  {
    if s[0] != QUOTE {
      var n := CharSize(s);
      CharactersExtent(s[n..]);
      hide Counted, Extent;
      if n == 1 {
        PlainExtent(s);
      } else if n == 2 {
        EscapeExtent(s);
      } else {
        UnicodeExtent(s);
      }
    }
  }

  // The turns of the second pass are characters, or two of them.
  lemma {:induction false} CharactersEven(s: Text)
    requires Characters(s).Some?
    ensures Even(s, Characters(s).value)
    decreases |s|
  {
    if s[0] != QUOTE {
      var n := CharSize(s);
      hide Hex4;
      if TurnSize(s) == n {
        CharactersEven(s[n..]);
      } else {
        var t := s[6..];
        assert t[0] == s[6] == BACKSLASH && t[1] == s[7] == LETTER_U;
        assert CharSize(t) == 6 && t[6..] == s[12..];
        CharactersEven(s[12..]);
      }
    }
  }

  // On every string of RFC 8259 both passes stop at its closing quote, what is
  // written fits, and parsing goes on behind it.
  lemma LiteralParsed(s: Text)
    requires Characters(s).Some?
    ensures var e := Characters(s).value;
            && Counted(s).Some? && Unescape(s).Done? && Unescape(s).rest == s[e..]
            && |Unescape(s).out| <= Counted(s).value
            && ParseString([QUOTE] + s) == Parsed(Unescape(s).out, s[e + 1..])
  {
    hide *;
    CharactersExtent(s);
    CharactersEven(s);
    CharactersBound(s);
    StringFits(s);
  }

  lemma CharactersBound(s: Text)
    requires Characters(s).Some?
    ensures Characters(s).value < |s|
  {
  }

  // A literal that does not come out even: the second pass runs past its closing quote and writes more than was
  // counted.
  lemma CutShort()
    ensures var s := [BACKSLASH, LETTER_U, QUOTE, 97, 97, 97, 97, 97, QUOTE];
            Counted(s) == Some(1) && Unescape(s) == Done([97, 97], [QUOTE]) && ParseString([QUOTE] + s) == Outside
  {
    var s := [BACKSLASH, LETTER_U, QUOTE, 97, 97, 97, 97, 97, QUOTE];
    assert Counted(s) == Some(1) by {
      hide Unescape, Hex4;
      assert s[2..] == [QUOTE, 97, 97, 97, 97, 97, QUOTE];
    }
    hide Counted;
    assert Unescape(s) == Done([97, 97], [QUOTE]) by {
      TwoPlain(97, 97);
      assert s[6..] == [97, 97, QUOTE];
      assert UnitOf(s) == Some(Unit([], 6)) by {
        assert s[2..6] == [QUOTE, 97, 97, 97];
      }
      hide UnitOf;
    }
    hide Unescape;
    ParseStringIs(s);
  }

  // ----- code points -----

  predicate Continuation(b: cbyte) {
    0x80 <= b < 0xC0
  }

  // Six more bits behind the bits of `high`.
  function Six(high: int, b: int): int {
    high * 64 + (b - 0x80)
  }

  // The character a UTF-8 sequence stands for; None when it is not well formed.
  function FromUtf8(s: Text): Option<int> {
    if |s| == 1 && s[0] < 0x80 then Some(s[0])
    else if |s| == 2 && 0xC2 <= s[0] < 0xE0 && Continuation(s[1]) then Some(Six(s[0] as int - 0xC0, s[1]))
    else if |s| == 3 && 0xE0 <= s[0] < 0xF0 && Continuation(s[1]) && Continuation(s[2])
            && (s[0] == 0xE0 ==> s[1] >= 0xA0) && (s[0] == 0xED ==> s[1] < 0xA0) then
      Some(Six(Six(s[0] as int - 0xE0, s[1]), s[2]))
    else if |s| == 4 && 0xF0 <= s[0] <= 0xF4 && Continuation(s[1]) && Continuation(s[2]) && Continuation(s[3])
            && (s[0] == 0xF0 ==> s[1] >= 0x90) && (s[0] == 0xF4 ==> s[1] < 0x90) then
      Some(Six(Six(Six(s[0] as int - 0xF0, s[1]), s[2]), s[3]))
    else None
  }

  predicate CodePoint(uc: nat) {
    0 < uc < 0x11_0000 && !High(uc) && !Low(uc)
  }

  lemma Sixes(uc: nat)
    ensures uc == uc / 64 * 64 + uc % 64 && uc / 4096 == uc / 64 / 64 && uc / 262144 == uc / 4096 / 64
    ensures uc / 64 == uc / 4096 * 64 + uc / 64 % 64 && uc / 4096 == uc / 262144 * 64 + uc / 4096 % 64
  {
  }

  // What is written for a code point is its one well-formed UTF-8 sequence.
  lemma Utf8RoundTrip(uc: nat)
    requires CodePoint(uc)
    ensures FromUtf8(Utf8(uc)) == Some(uc)
  {
    Sixes(uc);
    var (a, b, c) := (uc / 64, uc / 4096, uc / 262144);
    var (x, y, z) := (uc % 64, uc / 64 % 64, uc / 4096 % 64);
    assert uc == a * 64 + x && a == b * 64 + y && b == c * 64 + z;
  }

  lemma Utf8Unique(s: Text, uc: nat)
    requires FromUtf8(s) == Some(uc)
    ensures CodePoint(uc) && s == Utf8(uc)
  {
    if |s| == 2 {
      SixBits(s[0] as int - 0xC0, s[1]);
    } else if |s| == 3 {
      ThreeBytes(s[0] as int - 0xE0, s[1], s[2]);
    } else if |s| == 4 {
      FourBytes(s[0] as int - 0xF0, s[1], s[2], s[3]);
    }
  }

  lemma ThreeBytes(h: int, a: int, b: int)
    requires 0x80 <= a < 0xC0 && 0x80 <= b < 0xC0
    ensures var n := Six(Six(h, a), b); n / 4096 == h && n / 64 % 64 == a - 0x80 && n % 64 == b - 0x80
  {
    SixBits(Six(h, a), b);
    SixBits(h, a);
    assert Six(Six(h, a), b) == 4096 * h + 64 * (a - 0x80) + (b - 0x80);
  }

  lemma FourBytes(h: int, a: int, b: int, c: int)
    requires 0x80 <= a < 0xC0 && 0x80 <= b < 0xC0 && 0x80 <= c < 0xC0
    ensures var n := Six(Six(Six(h, a), b), c);
            n / 262144 == h && n / 4096 % 64 == a - 0x80 && n / 64 % 64 == b - 0x80 && n % 64 == c - 0x80
  {
    var m := Six(Six(h, a), b);
    ThreeBytes(h, a, b);
    SixBits(m, c);
    hide Six;
    var n := Six(m, c);
    assert n / 64 == m && n / 4096 == m / 64 && n / 262144 == m / 4096;
  }

  lemma SixBits(high: int, b: int)
    requires 0x80 <= b < 0xC0
    ensures Six(high, b) / 64 == high && Six(high, b) % 64 == b - 0x80
  {
  }

  // hs spell uc as one \uXXXX or as a surrogate pair, in digits of any case.
  predicate Spells(hs: seq<Text>, uc: nat) {
    && (forall i :: 0 <= i < |hs| ==> |hs[i]| == 4)
    && if uc < 0x1_0000 then |hs| == 1 && Hex4(hs[0]) == uc
       else && |hs| == 2
            && Hex4(hs[0]) == 0xD800 + (uc - 0x1_0000) / 0x400
            && Hex4(hs[1]) == 0xDC00 + (uc - 0x1_0000) % 0x400
  }

  function Spelling(hs: seq<Text>): Text {
    if hs == [] then [] else [BACKSLASH, LETTER_U] + hs[0] + Spelling(hs[1..])
  }

  // Every spelling of a code point is read as its UTF-8 encoding.
  lemma CodePointRead(hs: seq<Text>, uc: nat, w: Text)
    requires CodePoint(uc) && Spells(hs, uc)
    ensures UnitOf(Spelling(hs) + w) == Some(Unit(Utf8(uc), |Spelling(hs)|))
  {
    var s := Spelling(hs) + w;
    assert hs[0..1][0] == hs[0];
    if uc < 0x1_0000 {
      assert Spelling(hs) == [BACKSLASH, LETTER_U] + hs[0];
      assert s[2..6] == hs[0];
    } else {
      assert hs[1..] == [hs[1]] && hs[1..][1..] == [];
      assert Spelling(hs[1..]) == [BACKSLASH, LETTER_U] + hs[1];
      assert Spelling(hs) == [BACKSLASH, LETTER_U] + hs[0] + ([BACKSLASH, LETTER_U] + hs[1]);
      assert s[2..6] == hs[0] && s[8..12] == hs[1];
      hide Utf8;
    }
  }

  // Printing the character number n in hexadecimal spells it.
  function Hex4Text(n: nat): (h: Text)
    requires n < 65536
    ensures |h| == 4
  {
    [HexDigit(n / 4096), HexDigit(n / 256 % 16), HexDigit(n / 16 % 16), HexDigit(n % 16)]
  }

  lemma HexDigitValue(n: nat)
    requires n < 16
    ensures HexValue(HexDigit(n)) == Some(n)
  {
  }

  lemma Hex4RoundTrip(n: nat)
    requires n < 65536
    ensures Hex4(Hex4Text(n)) == n
  {
    hide HexDigit, HexValue;
    HexDigitValue(n / 4096);
    HexDigitValue(n / 256 % 16);
    HexDigitValue(n / 16 % 16);
    HexDigitValue(n % 16);
    Nibbles(n);
  }

  lemma Nibbles(n: nat)
    ensures n == 4096 * (n / 4096) + 256 * (n / 256 % 16) + 16 * (n / 16 % 16) + n % 16
  {
    var (a, b, c) := (n / 16, n / 256, n / 4096);
    assert b == a / 16 && c == b / 16;
    assert n == 16 * a + n % 16 && a == 16 * b + a % 16 && b == 16 * c + b % 16;
  }
}
