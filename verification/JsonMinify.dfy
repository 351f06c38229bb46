// cJSON_Minify (src/cJSON.c:581-596).
module JsonMinify {
  import opened Types
  import opened JsonStrings
  import opened Json

  const SLASH: cbyte := 47
  const STAR: cbyte := 42

  function Then(a: Text, o: Option<Text>): Option<Text> {
    if o.Some? then Some(a + o.value) else None
  }

  predicate Blank(c: byte) {
    c == SPACE || c == TAB || c == RETURN || c == NEWLINE
  }

  predicate Opens(s: Text, c: cbyte) {
    |s| >= 2 && s[0] == SLASH && s[1] == c
  }

  // From the end of the line on.
  function EndOfLine(s: Text): (t: Text)
    ensures |t| <= |s|
    ensures s != [] && s[0] != NEWLINE ==> |t| < |s|
  {
    if s == [] || s[0] == NEWLINE then s else EndOfLine(s[1..])
  }

  // Behind the end of the comment; None if there is none.
  function EndOfComment(s: Text): (t: Option<Text>)
    ensures t.Some? ==> |t.value| < |s|
  {
    if s == [] then None
    else if |s| >= 2 && s[0] == STAR && s[1] == SLASH then Some(s[2..])
    else EndOfComment(s[1..])
  }

  // How much of s belongs to a string literal entered before it; None if it is not closed.
  function LiteralSize(s: Text): (n: Option<nat>)
    ensures n.Some? ==> 1 <= n.value <= |s|
    decreases |s|
  {
    if s == [] then None
    else if s[0] == QUOTE then Some(1)
    else if s[0] != BACKSLASH then Plus(LiteralSize(s[1..]), 1)
    else if |s| < 2 then None
    else Plus(LiteralSize(s[2..]), 2)
  }

  function Plus(n: Option<nat>, k: nat): Option<nat> {
    if n.Some? then Some(n.value + k) else None
  }

  // What is left of a text; None if the source reads on behind its end.
  function Minify(s: Text): (o: Option<Text>)
    ensures o.Some? ==> |o.value| <= |s|
    decreases |s|
  {
    if s == [] then Some([])
    else if Blank(s[0]) then Minify(s[1..])
    else if Opens(s, SLASH) then Minify(EndOfLine(s))
    else if Opens(s, STAR) then
      var t := EndOfComment(s);
      if t.Some? then Minify(t.value) else None
    else if s[0] == QUOTE then
      var n := LiteralSize(s[1..]);
      if n.Some? then Then(s[..n.value + 1], Minify(s[n.value + 1..])) else None
    else Then([s[0]], Minify(s[1..]))
  }

  // ----- what minifying removes -----

  // What a text is made of: white space, comments, and what is kept, which is
  // string literals and single bytes. A literal is given by its bytes and escapes.
  datatype Piece =
    | Space(c: cbyte)
    | LineComment(body: Text)
    | BlockComment(body: Text)
    | Literal(units: seq<Text>)
    | Kept(c: cbyte)

  predicate UnitSound(u: Text) {
    if |u| == 1 then u[0] != 34 && u[0] != 92 else |u| == 2 && u[0] == 92
  }

  // A line comment holds no line end, and a block comment no star in front of a
  // slash, its own first star included.
  predicate PieceSound(p: Piece) {
    match p
    case Space(c) => c == 32 || c == 9 || c == 13 || c == 10
    case LineComment(body) => 10 !in body
    case BlockComment(body) =>
      (body != [] ==> body[0] != 47) && forall i :: 0 <= i < |body| - 1 ==> !(body[i] == 42 && body[i + 1] == 47)
    case Literal(units) => forall i :: 0 <= i < |units| ==> UnitSound(units[i])
    case Kept(c) => c != 32 && c != 9 && c != 13 && c != 10 && c != 34 && c != 47
  }

  function Units(us: seq<Text>): Text {
    if us == [] then [] else us[0] + Units(us[1..])
  }

  function PieceText(p: Piece): Text {
    match p
    case Space(c) => [c]
    case LineComment(body) => [47, 47] + body + [10]
    case BlockComment(body) => [47, 42] + body + [42, 47]
    case Literal(units) => [34] + Units(units) + [34]
    case Kept(c) => [c]
  }

  predicate Stays(p: Piece) {
    p.Literal? || p.Kept?
  }

  predicate PiecesSound(ps: seq<Piece>) {
    forall i :: 0 <= i < |ps| ==> PieceSound(ps[i])
  }

  function Texts(ps: seq<Piece>): Text {
    if ps == [] then [] else PieceText(ps[0]) + Texts(ps[1..])
  }

  // The pieces that stay, in order.
  function Remaining(ps: seq<Piece>): Text {
    if ps == [] then [] else (if Stays(ps[0]) then PieceText(ps[0]) else []) + Remaining(ps[1..])
  }

  lemma {:induction false} LineEnds(body: Text, w: Text)
    requires 10 !in body
    ensures EndOfLine(body + ([10] + w)) == [10] + w && EndOfLine(body) == []
  {
    if body == [] {
      assert body + ([10] + w) == [10] + w;
    } else {
      LineEnds(body[1..], w);
      assert (body + ([10] + w))[1..] == body[1..] + ([10] + w);
    }
  }

  lemma {:induction false} CommentEnds(body: Text, w: Text)
    requires forall i :: 0 <= i < |body| - 1 ==> !(body[i] == 42 && body[i + 1] == 47)
    ensures EndOfComment(body + ([42, 47] + w)) == Some(w)
  {
    var s := body + ([42, 47] + w);
    if body == [] {
      assert s == [42, 47] + w && s[2..] == w;
    } else {
      CommentEnds(body[1..], w);
      assert s[1..] == body[1..] + ([42, 47] + w);
      assert s[0] == body[0] && s[1] == if |body| > 1 then body[1] else 42;
    }
  }

  lemma {:induction false} UnitsSize(us: seq<Text>, w: Text)
    requires forall i :: 0 <= i < |us| ==> UnitSound(us[i])
    ensures LiteralSize(Units(us) + ([34] + w)) == Some(|Units(us)| + 1)
  {
    var v := [34] + w;
    if us == [] {
      assert Units(us) + v == v;
    } else {
      UnitsSize(us[1..], w);
      var x := Units(us[1..]) + v;
      assert Units(us) + v == us[0] + x;
      hide LiteralSize;
      if |us[0]| == 1 {
        LiteralPlain(us[0][0], x);
        assert us[0] == [us[0][0]];
      } else {
        LiteralPair(us[0][1], x);
        assert us[0] == [92, us[0][1]];
      }
    }
  }

  lemma MinifyOpen(s: Text)
    ensures Opens(s, SLASH) ==> Minify(s) == Minify(EndOfLine(s))
    ensures Opens(s, STAR) && EndOfComment(s).Some? ==> Minify(s) == Minify(EndOfComment(s).value)
  {
    hide EndOfLine, EndOfComment, LiteralSize;
  }

  lemma LineMinified(body: Text, w: Text)
    requires 10 !in body
    ensures Minify([47, 47] + body + [10] + w) == Minify(w)
  {
    var s := [47, 47] + body + [10] + w;
    assert s == [47, 47] + body + ([10] + w) && Opens(s, SLASH);
    hide Minify, EndOfLine, Opens;
    LineEnds([47, 47] + body, w);
    MinifyOpen(s);
    MinifyBlank(10, w);
  }

  lemma BlockMinified(body: Text, w: Text)
    requires PieceSound(BlockComment(body))
    ensures Minify([47, 42] + body + [42, 47] + w) == Minify(w)
  {
    var s := [47, 42] + body + [42, 47] + w;
    var c := [47, 42] + body;
    assert s == c + ([42, 47] + w) && Opens(s, STAR);
    forall i | 0 <= i < |c| - 1 ensures !(c[i] == 42 && c[i + 1] == 47) {
      if i >= 2 {
        assert c[i] == body[i - 2] && c[i + 1] == body[i - 1];
      }
    }
    hide Minify, EndOfComment, Opens, PieceSound;
    CommentEnds(c, w);
    MinifyOpen(s);
  }

  lemma LiteralMinified(us: seq<Text>, w: Text)
    requires forall i :: 0 <= i < |us| ==> UnitSound(us[i])
    ensures Minify([34] + Units(us) + [34] + w) == Then([34] + Units(us) + [34], Minify(w))
  {
    UnitsSize(us, w);
    var (p, s) := ([34] + Units(us) + [34], [34] + Units(us) + [34] + w);
    hide EndOfLine, EndOfComment, LiteralSize, Units, UnitSound;
    assert s[1..] == Units(us) + ([34] + w) && s[..|p|] == p && s[|p|..] == w;
  }

  lemma PieceMinified(p: Piece, w: Text)
    requires PieceSound(p)
    ensures Minify(PieceText(p) + w) == if Stays(p) then Then(PieceText(p), Minify(w)) else Minify(w)
  {
    hide Minify, Units, UnitSound;
    match p {
      case Space(c) => MinifyBlank(c, w);
      case Kept(c) => MinifySolid(c, w);
      case LineComment(body) => LineMinified(body, w);
      case BlockComment(body) => BlockMinified(body, w);
      case Literal(units) => LiteralMinified(units, w);
    }
  }

  lemma EndMinified(end: Text)
    requires end == [] || (|end| >= 2 && end[0] == 47 == end[1] && 10 !in end)
    ensures Minify(end) == Some([])
  {
    if end != [] {
      LineEnds(end, []);
      MinifyOpen(end);
      assert Minify([]) == Some([]);
      hide Minify, EndOfLine;
    }
  }

  lemma NoPieces(end: Text)
    ensures Texts([]) + end == end && Remaining([]) == []
  {
  }

  lemma FirstPiece(ps: seq<Piece>, end: Text)
    requires PiecesSound(ps) && ps != []
    ensures PieceSound(ps[0]) && PiecesSound(ps[1..])
    ensures Texts(ps) + end == PieceText(ps[0]) + (Texts(ps[1..]) + end)
    ensures Remaining(ps) == if Stays(ps[0]) then PieceText(ps[0]) + Remaining(ps[1..]) else Remaining(ps[1..])
  {
    hide PieceText, PieceSound, Stays;
  }

  lemma ThenSome(a: Text, b: Text)
    ensures Then(a, Some(b)) == Some(a + b)
  {
  }

  // Minifying takes out all white space and all comments, a line comment at the
  // end included, and leaves everything else as it is and in order.
  lemma {:induction false} Minified(ps: seq<Piece>, end: Text)
    requires PiecesSound(ps) && (end == [] || (|end| >= 2 && end[0] == 47 == end[1] && 10 !in end))
    ensures Minify(Texts(ps) + end) == Some(Remaining(ps))
  {
    hide *;
    if ps == [] {
      NoPieces(end);
      EndMinified(end);
    } else {
      FirstPiece(ps, end);
      Minified(ps[1..], end);
      PieceMinified(ps[0], Texts(ps[1..]) + end);
      ThenSome(PieceText(ps[0]), Remaining(ps[1..]));
    }
  }

  // ----- minifying what was printed -----

  lemma MinifyBlank(c: cbyte, w: Text)
    requires Blank(c)
    ensures Minify([c] + w) == Minify(w)
  {
    assert ([c] + w)[1..] == w;
  }

  lemma MinifySolid(c: cbyte, w: Text)
    requires !Blank(c) && c != SLASH && c != QUOTE
    ensures Minify([c] + w) == Then([c], Minify(w))
  {
    assert ([c] + w)[1..] == w;
  }

  predicate Solid(s: Text) {
    forall i :: 0 <= i < |s| ==> !Blank(s[i]) && s[i] != SLASH && s[i] != QUOTE
  }

  lemma ThenThen(a: Text, b: Text, o: Option<Text>)
    ensures Then(a, Then(b, o)) == Then(a + b, o)
  {
    if o.Some? {
      assert a + (b + o.value) == a + b + o.value;
    }
  }

  lemma {:induction false} MinifyWord(s: Text, w: Text)
    requires Solid(s)
    ensures Minify(s + w) == Then(s, Minify(w))
  {
    hide Minify;
    if s == [] {
      assert s + w == w;
      ThenNothing(Minify(w));
    } else {
      MinifyWord(s[1..], w);
      MinifySolid(s[0], s[1..] + w);
      ThenThen([s[0]], s[1..], Minify(w));
      assert s + w == [s[0]] + (s[1..] + w) && [s[0]] + s[1..] == s;
    }
  }

  lemma ThenNothing(o: Option<Text>)
    ensures Then([], o) == o
  {
    if o.Some? {
      assert [] + o.value == o.value;
    }
  }

  lemma {:induction false} MinifyTabs(n: int, w: Text)
    ensures Minify(Tabs(n) + w) == Minify(w)
  {
    hide Minify;
    if n <= 0 {
      assert Tabs(n) + w == w;
    } else {
      MinifyTabs(n - 1, w);
      MinifyBlank(TAB, Tabs(n - 1) + w);
      assert Tabs(n) + w == [TAB] + (Tabs(n - 1) + w);
    }
  }

  lemma MinifyIf(fmt: bool, c: cbyte, w: Text)
    requires Blank(c)
    ensures Minify(If(fmt, [c]) + w) == Minify(w)
  {
    hide Minify;
    MinifyBlank(c, w);
    assert [] + w == w;
  }

  lemma MinifyIndent(fmt: bool, n: int, w: Text)
    ensures Minify(If(fmt, Tabs(n)) + w) == Minify(w)
  {
    hide Minify;
    MinifyTabs(n, w);
    assert [] + w == w;
  }

  lemma LiteralEscape(c: cbyte, w: Text)
    ensures LiteralSize(Escape(c) + w) == Plus(LiteralSize(w), |Escape(c)|)
  {
    hide LiteralSize;
    if c < 32 && EscapedSize(c) == 6 {
      var (x, y) := (HexDigit(c / 16), HexDigit(c % 16));
      hide HexDigit;
      var v := [48] + ([48] + ([x] + ([y] + w)));
      LiteralPlain(y, w);
      LiteralPlain(x, [y] + w);
      LiteralPlain(48, [x] + ([y] + w));
      LiteralPlain(48, [48] + ([x] + ([y] + w)));
      LiteralPair(LETTER_U, v);
      assert Escape(c) + w == [BACKSLASH, LETTER_U] + v;
    } else if EscapedSize(c) == 2 {
      LiteralPair(Escape(c)[1], w);
      assert Escape(c) == [BACKSLASH, Escape(c)[1]];
    } else {
      LiteralPlain(c, w);
    }
  }

  lemma LiteralPair(c: cbyte, w: Text)
    ensures LiteralSize([BACKSLASH, c] + w) == Plus(LiteralSize(w), 2)
  {
    assert ([BACKSLASH, c] + w)[2..] == w;
  }

  lemma LiteralPlain(c: cbyte, w: Text)
    requires c != QUOTE && c != BACKSLASH
    ensures LiteralSize([c] + w) == Plus(LiteralSize(w), 1)
  {
    assert ([c] + w)[1..] == w;
  }

  lemma {:induction false} LiteralEscaped(s: Text, w: Text)
    ensures LiteralSize(Escaped(s) + ([QUOTE] + w)) == Some(|Escaped(s)| + 1)
  {
    hide Escape;
    if s == [] {
      assert Escaped(s) + ([QUOTE] + w) == [QUOTE] + w;
    } else {
      hide LiteralSize;
      LiteralEscaped(s[1..], w);
      LiteralEscape(s[0], Escaped(s[1..]) + ([QUOTE] + w));
      assert Escaped(s) + ([QUOTE] + w) == Escape(s[0]) + (Escaped(s[1..]) + ([QUOTE] + w));
    }
  }

  lemma MinifyString(s: Text, w: Text)
    ensures Minify(PrintString(s) + w) == Then(PrintString(s), Minify(w))
  {
    hide Escaped, LiteralSize, EndOfLine, EndOfComment;
    var t := PrintString(s) + w;
    LiteralEscaped(s, w);
    assert t[1..] == Escaped(s) + ([QUOTE] + w);
    assert t[..|Escaped(s)| + 2] == PrintString(s) && t[|Escaped(s)| + 2..] == w;
  }

  lemma {:induction false} DigitsSolid(n: nat)
    ensures Solid(Digits(n))
  {
    if n >= 10 {
      DigitsSolid(n / 10);
    }
  }

  // Minifying a printed tree, formatted or not, at any depth, gives its unformatted print.
  lemma {:induction false} MinifyTree(v: Json, depth: nat, fmt: bool, d: nat, w: Text)
    ensures Minify(Print(v, depth, fmt) + w) == Then(Print(v, d, false), Minify(w))
    decreases v, 0
  {
    match v {
      case Null => MinifyWord(NULL_WORD, w);
      case False => MinifyWord(FALSE_WORD, w);
      case True => MinifyWord(TRUE_WORD, w);
      case Number(n) =>
        DigitsSolid(if n < 0 then -(n as int) else n as int);
        MinifyWord(PrintNumber(n), w);
      case Str(s) => MinifyString(s, w);
      case Array(items) => MinifyArray(items, depth, fmt, d, w);
      case Object(members) => MinifyObject(members, depth, fmt, d, w);
    }
  }

  lemma MinifyArray(items: Items, depth: nat, fmt: bool, d: nat, w: Text)
    ensures Minify(Print(Array(items), depth, fmt) + w) == Then(Print(Array(items), d, false), Minify(w))
    decreases items, 2
  {
    var closing := [CLOSE_BRACKET] + w;
    var (a, b) := (PrintItems(items, depth + 1, fmt), PrintItems(items, d + 1, false));
    ArrayShape(items, depth, fmt, w);
    MinifySolid(OPEN_BRACKET, a + closing);
    MinifyItems(items, depth + 1, fmt, d + 1, closing);
    MinifySolid(CLOSE_BRACKET, w);
    ThenThen(b, [CLOSE_BRACKET], Minify(w));
    ThenThen([OPEN_BRACKET], b + [CLOSE_BRACKET], Minify(w));
    hide Minify, PrintItems;
    assert [OPEN_BRACKET] + (b + [CLOSE_BRACKET]) == Print(Array(items), d, false);
  }

  lemma {:induction false} MinifyItems(items: Items, depth: nat, fmt: bool, d: nat, w: Text)
    ensures Minify(PrintItems(items, depth, fmt) + w) == Then(PrintItems(items, d, false), Minify(w))
    decreases items, 1
  {
    if items == NoItems {
      hide Minify;
      assert PrintItems(items, depth, fmt) + w == w;
      ThenNothing(Minify(w));
    } else {
      var (v, next) := (items.value, items.next);
      var u := PrintItems(next, depth, fmt) + w;
      ItemsShape(items, depth, fmt, w);
      MinifyTree(v, depth, fmt, d, if next == NoItems then w else [COMMA] + (If(fmt, [SPACE]) + u));
      if next != NoItems {
        hide Minify, Print, PrintItems, If;
        var (a, b) := (Print(v, d, false), PrintItems(next, d, false));
        MinifySolid(COMMA, If(fmt, [SPACE]) + u);
        MinifyIf(fmt, SPACE, u);
        MinifyItems(next, depth, fmt, d, w);
        ThenThen([COMMA], b, Minify(w));
        ThenThen(a, [COMMA] + b, Minify(w));
        UnformattedItems(items, d);
      }
    }
  }

  lemma UnformattedItems(items: Items, d: nat)
    requires items.Item? && items.next.Item?
    ensures PrintItems(items, d, false) == Print(items.value, d, false) + ([COMMA] + PrintItems(items.next, d, false))
  {
    hide Print;
  }

  lemma MinifyObject(members: Members, depth: nat, fmt: bool, d: nat, w: Text)
    ensures Minify(Print(Object(members), depth, fmt) + w) == Then(Print(Object(members), d, false), Minify(w))
    decreases members, 2
  {
    var closing := [CLOSE_BRACE] + w;
    MinifySolid(CLOSE_BRACE, w);
    if members == NoMembers {
      EmptyShape(depth, fmt, w);
      hide Minify, Print, If, Tabs;
      var u := If(fmt, Tabs(depth - 1)) + closing;
      MinifySolid(OPEN_BRACE, If(fmt, [NEWLINE]) + u);
      MinifyIf(fmt, NEWLINE, u);
      MinifyIndent(fmt, depth - 1, closing);
      ThenThen([OPEN_BRACE], [CLOSE_BRACE], Minify(w));
      UnformattedEmpty(d);
    } else {
      ObjectShape(members, depth, fmt, w);
      hide Minify, Print, PrintMembers, If, Tabs;
      var (a, b) := (PrintMembers(members, depth + 1, fmt), PrintMembers(members, d + 1, false));
      var u := If(fmt, Tabs(depth)) + closing;
      MinifySolid(OPEN_BRACE, If(fmt, [NEWLINE]) + (a + u));
      MinifyIf(fmt, NEWLINE, a + u);
      MinifyMembers(members, depth + 1, fmt, d + 1, u);
      MinifyIndent(fmt, depth, closing);
      ThenThen(b, [CLOSE_BRACE], Minify(w));
      ThenThen([OPEN_BRACE], b + [CLOSE_BRACE], Minify(w));
      UnformattedObject(members, d);
    }
  }

  lemma UnformattedEmpty(d: nat)
    ensures Print(Object(NoMembers), d, false) == [OPEN_BRACE] + [CLOSE_BRACE]
  {
  }

  lemma UnformattedObject(members: Members, d: nat)
    requires members.Member?
    ensures Print(Object(members), d, false) == [OPEN_BRACE] + (PrintMembers(members, d + 1, false) + [CLOSE_BRACE])
  {
    hide PrintMembers;
  }

  function Comma(next: Members): Text {
    if next.Member? then [COMMA] else []
  }

  lemma UnformattedMembers(members: Members, d: nat)
    requires members.Member?
    ensures PrintMembers(members, d, false) ==
            PrintString(members.key)
              + ([COLON] + (Print(members.value, d, false)
                            + (Comma(members.next) + PrintMembers(members.next, d, false))))
  {
    hide Print, PrintString;
  }

  lemma MinifyComma(next: Members, w: Text)
    ensures Minify(Comma(next) + w) == Then(Comma(next), Minify(w))
  {
    hide Minify;
    MinifySolid(COMMA, w);
    assert [] + w == w;
    ThenNothing(Minify(w));
  }

  lemma {:induction false} MinifyMembers(members: Members, depth: nat, fmt: bool, d: nat, w: Text)
    ensures Minify(PrintMembers(members, depth, fmt) + w) == Then(PrintMembers(members, d, false), Minify(w))
    decreases members, 1
  {
    if members == NoMembers {
      hide Minify;
      assert PrintMembers(members, depth, fmt) + w == w;
      ThenNothing(Minify(w));
    } else {
      var (key, v, next) := (members.key, members.value, members.next);
      var u := If(fmt, [NEWLINE]) + (PrintMembers(next, depth, fmt) + w);
      MembersShape(members, depth, fmt, w);
      MinifyMembers(next, depth, fmt, d, w);
      MinifyTree(v, depth, fmt, d, Comma(next) + u);
      UnformattedMembers(members, d);
      hide Minify, Print, PrintMembers, If, Tabs, PrintString;
      MinifyMember(key, v, depth, fmt, Comma(next) + u);
      MinifyComma(next, u);
      MinifyIf(fmt, NEWLINE, PrintMembers(next, depth, fmt) + w);
      var b := PrintMembers(next, d, false);
      ThenThen(Comma(next), b, Minify(w));
      ThenThen(Print(v, d, false), Comma(next) + b, Minify(w));
      ThenThen([COLON], Print(v, d, false) + (Comma(next) + b), Minify(w));
      ThenThen(PrintString(key), [COLON] + (Print(v, d, false) + (Comma(next) + b)), Minify(w));
    }
  }

  lemma MinifyMember(key: Text, v: Json, depth: nat, fmt: bool, u: Text)
    ensures Minify(MemberThen(key, v, depth, fmt, u))
            == Then(PrintString(key), Then([COLON], Minify(Print(v, depth, fmt) + u)))
  {
    hide Minify, Print, If, Tabs, PrintString;
    var a := Print(v, depth, fmt) + u;
    MinifyIndent(fmt, depth, PrintString(key) + ([COLON] + (If(fmt, [TAB]) + a)));
    MinifyString(key, [COLON] + (If(fmt, [TAB]) + a));
    MinifySolid(COLON, If(fmt, [TAB]) + a);
    MinifyIf(fmt, TAB, a);
  }

  // Minifying the formatted print gives the unformatted print, which minifying leaves as it is.
  lemma MinifyPrinted(v: Json, fmt: bool)
    ensures Minify(Print(v, 0, fmt)) == Some(Print(v, 0, false))
  {
    hide Print;
    MinifyTree(v, 0, fmt, 0, []);
    assert Print(v, 0, fmt) + [] == Print(v, 0, fmt) && Print(v, 0, false) + [] == Print(v, 0, false);
  }

  // ----- in place -----

  // The buffer holds out in front of `into` and, from `json` on, rest and its NUL; writing never overtakes reading.
  ghost predicate Holds(a: array<byte>, into: nat, out: Text, json: nat, rest: Text)
    reads a
  {
    && |out| == into <= json && json + |rest| < a.Length && a[json + |rest|] == 0
    && (forall i :: 0 <= i < into ==> a[i] == out[i])
    && (forall i :: 0 <= i < |rest| ==> a[json + i] == rest[i])
  }

  // *into++ = *json++
  method CopyByte(a: array<byte>, into: nat, json: nat, ghost out: Text, ghost rest: Text)
    requires Holds(a, into, out, json, rest) && rest != []
    modifies a
    ensures Holds(a, into + 1, out + [rest[0]], json + 1, rest[1..])
  {
    assert a[json] == rest[0];
    forall i | 0 <= i < |rest[1..]| ensures a[json + 1 + i] == rest[1..][i] {
      assert a[json + (1 + i)] == rest[1 + i];
    }
    a[into] := a[json];
  }

  lemma Here(a: array<byte>, into: nat, out: Text, json: nat, rest: Text)
    requires Holds(a, into, out, json, rest)
    ensures json < a.Length && a[json] == (if rest == [] then 0 else rest[0]) && (a[json] == 0 <==> rest == [])
    ensures rest != [] ==> json + 1 < a.Length && a[json + 1] == if |rest| == 1 then 0 else rest[1]
  {
    if rest != [] {
      var c: cbyte := rest[0];
      assert a[json + 0] == c;
    }
  }

  lemma Forward(a: array<byte>, into: nat, out: Text, json: nat, rest: Text, n: nat)
    requires Holds(a, into, out, json, rest) && n <= |rest|
    ensures Holds(a, into, out, json + n, rest[n..])
  {
    forall i | 0 <= i < |rest[n..]| ensures a[json + n + i] == rest[n..][i] {
      assert a[json + (n + i)] == rest[n + i];
    }
  }

  // double-slash comments, to end of line
  method SkipLine(a: array<byte>, into: nat, json: nat, ghost out: Text, ghost rest: Text) returns (next: nat)
    requires Holds(a, into, out, json, rest)
    ensures Holds(a, into, out, next, EndOfLine(rest))
  {
    next := json;
    ghost var s := rest;
    Here(a, into, out, next, s);
    while a[next] != 0 && a[next] != NEWLINE
      invariant Holds(a, into, out, next, s) && next < a.Length && a[next] == (if s == [] then 0 else s[0])
      invariant EndOfLine(s) == EndOfLine(rest)
      decreases |s|
    {
      Forward(a, into, out, next, s, 1);
      next := next + 1;
      s := s[1..];
      Here(a, into, out, next, s);
    }
  }

  // multiline comments
  method SkipComment(a: array<byte>, into: nat, json: nat, ghost out: Text, ghost rest: Text) returns (next: nat)
    requires Holds(a, into, out, json, rest) && EndOfComment(rest).Some?
    ensures Holds(a, into, out, next, EndOfComment(rest).value)
  {
    next := json;
    ghost var s := rest;
    Here(a, into, out, next, s);
    while a[next] != 0 && !(a[next] == STAR && a[next + 1] == SLASH)
      invariant Holds(a, into, out, next, s) && next + 1 < a.Length && s != [] && a[next] == s[0]
      invariant a[next + 1] == if |s| == 1 then 0 else s[1]
      invariant EndOfComment(s).Some? && EndOfComment(s) == EndOfComment(rest)
      decreases |s|
    {
      Forward(a, into, out, next, s, 1);
      next := next + 1;
      s := s[1..];
      Here(a, into, out, next, s);
    }
    Forward(a, into, out, next, s, 2);
    next := next + 2;
  }

  // Byte k of a literal that starts rest.
  method CopyNext(a: array<byte>, to: nat, next: nat, ghost out: Text, ghost rest: Text, ghost k: nat)
    requires k < |rest| && Holds(a, to, out + rest[..k], next, rest[k..])
    modifies a
    ensures Holds(a, to + 1, out + rest[..k + 1], next + 1, rest[k + 1..])
  {
    assert out + rest[..k] + [rest[k..][0]] == out + rest[..k + 1] && rest[k..][1..] == rest[k + 1..];
    CopyByte(a, to, next, out + rest[..k], rest[k..]);
  }

  lemma LiteralTurn(rest: Text, k: nat, n: nat)
    requires k <= n <= |rest| && LiteralSize(rest[k..]) == Some(n - k)
    ensures k < n && (n == k + 1 <==> rest[k] == QUOTE)
    ensures rest[k] == BACKSLASH ==> k + 2 < n && LiteralSize(rest[k + 2..]) == Some(n - (k + 2))
    ensures rest[k] != BACKSLASH && rest[k] != QUOTE ==> LiteralSize(rest[k + 1..]) == Some(n - (k + 1))
  {
    var s := rest[k..];
    assert s[0] == rest[k] && s[1..] == rest[k + 1..];
    if |s| >= 2 {
      assert s[2..] == rest[k + 2..];
    }
  }

  // string literals, which are \" sensitive
  method CopyLiteral(a: array<byte>, into: nat, json: nat, ghost out: Text, ghost rest: Text)
      returns (to: nat, next: nat)
    requires Holds(a, into, out, json, rest) && rest != [] && LiteralSize(rest[1..]).Some?
    modifies a
    ensures var n := LiteralSize(rest[1..]).value + 1; Holds(a, to, out + rest[..n], next, rest[n..])
  {
    hide Holds, LiteralSize;
    ghost var n := LiteralSize(rest[1..]).value + 1;
    ghost var k := 1;
    assert out + rest[..0] == out && rest[0..] == rest;
    CopyNext(a, into, json, out, rest, 0);
    to, next := into + 1, json + 1;
    LiteralTurn(rest, k, n);
    Here(a, to, out + rest[..k], next, rest[k..]);
    while a[next] != 0 && a[next] != QUOTE
      invariant 1 <= k < n <= |rest| && Holds(a, to, out + rest[..k], next, rest[k..])
      invariant LiteralSize(rest[k..]) == Some(n - k)
      invariant next < a.Length && a[next] == rest[k]
      decreases n - k
    {
      LiteralTurn(rest, k, n);
      if a[next] == BACKSLASH {
        CopyNext(a, to, next, out, rest, k);
        to, next, k := to + 1, next + 1, k + 1;
      }
      CopyNext(a, to, next, out, rest, k);
      to, next, k := to + 1, next + 1, k + 1;
      LiteralTurn(rest, k, n);
      Here(a, to, out + rest[..k], next, rest[k..]);
    }
    LiteralTurn(rest, k, n);
    CopyNext(a, to, next, out, rest, k);
    to, next := to + 1, next + 1;
  }

  // One turn of the loop of cJSON_Minify.
  lemma MinifyTurn(s: Text)
    requires Minify(s).Some?
    ensures s == [] ==> Minify(s) == Some([])
    ensures s != [] && Blank(s[0]) ==> Minify(s) == Minify(s[1..])
    ensures Opens(s, SLASH) ==> |EndOfLine(s)| < |s| && Minify(s) == Minify(EndOfLine(s))
    ensures Opens(s, STAR) ==> EndOfComment(s).Some? && Minify(s) == Minify(EndOfComment(s).value)
    ensures s != [] && s[0] == QUOTE ==>
              var n := LiteralSize(s[1..]);
              n.Some? && n.value + 1 <= |s| && Minify(s) == Then(s[..n.value + 1], Minify(s[n.value + 1..]))
    ensures s != [] && !Blank(s[0]) && !Opens(s, SLASH) && !Opens(s, STAR) && s[0] != QUOTE ==>
              Minify(s) == Then([s[0]], Minify(s[1..]))
  {
  }

  // The buffer is the C string s.
  ghost predicate IsText(a: array<byte>, s: Text)
    reads a
  {
    |s| < a.Length && a[|s|] == 0 && forall i :: 0 <= i < |s| ==> a[i] == s[i]
  }

  // What is still to be done when out has been written and rest is to be read.
  ghost predicate Remains(s: Text, out: Text, rest: Text) {
    Minify(s).Some? && Minify(rest).Some? && Minify(s) == Then(out, Minify(rest))
  }

  lemma RemainsStart(s: Text)
    requires Minify(s).Some?
    ensures Remains(s, [], s)
  {
    ThenNothing(Minify(s));
  }

  lemma RemainsEnd(s: Text, out: Text)
    requires Remains(s, out, [])
    ensures Minify(s) == Some(out)
  {
    assert out + [] == out;
  }

  lemma RemainsCopied(s: Text, out: Text, rest: Text, n: nat)
    requires Remains(s, out, rest) && n <= |rest| && Minify(rest) == Then(rest[..n], Minify(rest[n..]))
    ensures Remains(s, out + rest[..n], rest[n..])
  {
    ThenThen(out, rest[..n], Minify(rest[n..]));
  }

  lemma RemainsIs(s: Text, out: Text, rest: Text)
    requires Remains(s, out, rest)
    ensures Minify(rest).Some?
  {
  }

  lemma RemainsSkipped(s: Text, out: Text, rest: Text, rest': Text)
    requires Remains(s, out, rest) && Minify(rest) == Minify(rest')
    ensures Remains(s, out, rest')
  {
  }

  // One turn of the loop of cJSON_Minify.
  method MinifyOnce(a: array<byte>, into: nat, json: nat, ghost s: Text, ghost out: Text, ghost rest: Text)
    returns (to: nat, next: nat, ghost out': Text, ghost rest': Text)
    requires Holds(a, into, out, json, rest) && rest != [] && Remains(s, out, rest)
    modifies a
    ensures Holds(a, to, out', next, rest') && |rest'| < |rest| && Remains(s, out', rest')
  {
    hide Holds, Minify, LiteralSize, Remains, EndOfLine, EndOfComment;
    RemainsIs(s, out, rest);
    MinifyTurn(rest);
    Here(a, into, out, json, rest);
    to, next, out' := into, json, out;
    if Blank(a[json]) {
      Forward(a, into, out, json, rest, 1);
      next, rest' := json + 1, rest[1..];
      RemainsSkipped(s, out, rest, rest');
    } else if a[json] == SLASH && a[json + 1] == SLASH {
      next := SkipLine(a, into, json, out, rest);
      rest' := EndOfLine(rest);
      RemainsSkipped(s, out, rest, rest');
    } else if a[json] == SLASH && a[json + 1] == STAR {
      next := SkipComment(a, into, json, out, rest);
      rest' := EndOfComment(rest).value;
      RemainsSkipped(s, out, rest, rest');
    } else if a[json] == QUOTE {
      ghost var n := LiteralSize(rest[1..]).value + 1;
      RemainsCopied(s, out, rest, n);
      to, next := CopyLiteral(a, into, json, out, rest);
      out', rest' := out + rest[..n], rest[n..];
    } else {
      assert rest[..1] == [rest[0]];
      RemainsCopied(s, out, rest, 1);
      CopyByte(a, into, json, out, rest);
      to, next := into + 1, json + 1;
      out', rest' := out + rest[..1], rest[1..];
    }
  }

  // cJSON_Minify: the buffer ends up with what Minify leaves of its text.
  method MinifyInPlace(a: array<byte>, ghost s: Text)
    requires IsText(a, s) && Minify(s).Some?
    modifies a
    ensures IsText(a, Minify(s).value)
  {
    var into: nat, json: nat := 0, 0;
    ghost var (out: Text, rest) := ([], s);
    RemainsStart(s);
    Here(a, into, out, json, rest);
    hide Holds, Minify, Remains;
    while a[json] != 0
      invariant Holds(a, into, out, json, rest) && Remains(s, out, rest)
      invariant json < a.Length && (a[json] == 0 <==> rest == [])
      decreases |rest|
    {
      into, json, out, rest := MinifyOnce(a, into, json, s, out, rest);
      Here(a, into, out, json, rest);
    }
    RemainsEnd(s, out);
    Terminate(a, into, out, json);
  }

  // *into = 0
  method Terminate(a: array<byte>, into: nat, ghost out: Text, ghost json: nat)
    requires Holds(a, into, out, json, [])
    modifies a
    ensures IsText(a, out)
  {
    a[into] := 0;
  }
}
