// The layout of the printed forms: where cJSON_Print puts white space, token by token.
module JsonLayout {
  import opened JsonStrings
  import opened Json

  // ----- tokens -----

  // Word is a literal, number or string; commas are told apart by the list they stand in.
  datatype Token =
    | Word(text: Text)
    | Key(text: Text)
    | OpenArray
    | CloseArray
    | OpenObject
    | CloseObject
    | EmptyObject
    | ItemComma
    | MemberComma

  function Tokens(v: Json): seq<Token> {
    match v
    case Null => [Word([110, 117, 108, 108])]
    case False => [Word([102, 97, 108, 115, 101])]
    case True => [Word([116, 114, 117, 101])]
    case Number(n) => [Word(PrintNumber(n))]
    case Str(s) => [Word(PrintString(s))]
    case Array(items) => [OpenArray] + ItemTokens(items) + [CloseArray]
    case Object(NoMembers) => [EmptyObject]
    case Object(members) => [OpenObject] + MemberTokens(members) + [CloseObject]
  }

  function ItemTokens(items: Items): seq<Token> {
    match items
    case NoItems => []
    case Item(v, next) => Tokens(v) + (if next.Item? then [ItemComma] else []) + ItemTokens(next)
  }

  function MemberTokens(members: Members): seq<Token> {
    match members
    case NoMembers => []
    case Member(key, v, next) =>
      [Key(PrintString(key))] + Tokens(v) + (if next.Member? then [MemberComma] else []) + MemberTokens(next)
  }

  // ----- their layout -----

  // How much deeper the text is behind a token: brackets and braces count alike.
  function Deeper(x: Token): int {
    if x.OpenArray? || x.OpenObject? then 1 else if x.CloseArray? || x.CloseObject? then -1 else 0
  }

  function Depth(ts: seq<Token>): int {
    if ts == [] then 0 else Deeper(ts[0]) + Depth(ts[1..])
  }

  // n tabulators
  function Indent(n: int): Text {
    seq(if n < 0 then 0 else n, i => 9)
  }

  // A token as it stands at this depth. Keys stand on lines of their own,
  // indented by the depth, and a closing brace by one less.
  function Laid(x: Token, depth: int): Text {
    match x
    case Word(text) => text
    case Key(text) => Indent(depth) + text + [58, 9]
    case OpenArray => [91]
    case CloseArray => [93]
    case OpenObject => [123, 10]
    case CloseObject => [10] + Indent(depth - 1) + [125]
    case EmptyObject => [123, 10] + Indent(depth - 1) + [125]
    case ItemComma => [44, 32]
    case MemberComma => [44, 10]
  }

  // The formatted text from this depth on.
  function Layout(ts: seq<Token>, depth: int): Text {
    if ts == [] then [] else Laid(ts[0], depth) + Layout(ts[1..], depth + Deeper(ts[0]))
  }

  // A token without white space.
  function Bare(x: Token): Text {
    match x
    case Word(text) => text
    case Key(text) => text + [58]
    case OpenArray => [91]
    case CloseArray => [93]
    case OpenObject => [123]
    case CloseObject => [125]
    case EmptyObject => [123, 125]
    case ItemComma => [44]
    case MemberComma => [44]
  }

  function Bares(ts: seq<Token>): Text {
    if ts == [] then [] else Bare(ts[0]) + Bares(ts[1..])
  }

  // The text of tokens from this depth on, formatted or not.
  function Shown(ts: seq<Token>, depth: int, fmt: bool): Text {
    if fmt then Layout(ts, depth) else Bares(ts)
  }

  lemma {:induction false} ShownThen(a: seq<Token>, b: seq<Token>, depth: int, fmt: bool)
    ensures Shown(a + b, depth, fmt) == Shown(a, depth, fmt) + Shown(b, depth + Depth(a), fmt)
    ensures Depth(a + b) == Depth(a) + Depth(b)
  {
    hide Laid, Bare, Deeper;
    if a == [] {
      assert a + b == b;
      assert [] + Shown(b, depth, fmt) == Shown(b, depth, fmt);
    } else {
      assert (a + b)[1..] == a[1..] + b;
      var d := depth + Deeper(a[0]);
      ShownThen(a[1..], b, d, fmt);
      Associate(if fmt then Laid(a[0], depth) else Bare(a[0]), Shown(a[1..], d, fmt), Shown(b, d + Depth(a[1..]), fmt));
    }
  }

  lemma Associate(a: Text, b: Text, c: Text)
    ensures a + (b + c) == a + b + c
  {
  }

  lemma ShownOne(x: Token, depth: int, fmt: bool)
    ensures Shown([x], depth, fmt) == (if fmt then Laid(x, depth) else Bare(x)) && Depth([x]) == Deeper(x)
  {
    hide Laid, Bare, Deeper;
    assert [x][1..] == [];
    assert Layout([], depth + Deeper(x)) == [] && Bares([]) == [] && Depth([]) == 0;
    assert Laid(x, depth) + [] == Laid(x, depth) && Bare(x) + [] == Bare(x);
  }

  lemma {:induction false} TabsIndent(n: int)
    ensures Tabs(n) == Indent(n)
  {
    if n > 0 {
      TabsIndent(n - 1);
    }
  }

  lemma ShownThree(a: seq<Token>, b: seq<Token>, c: seq<Token>, depth: int, fmt: bool)
    ensures Shown(a + b + c, depth, fmt) ==
            Shown(a, depth, fmt) + Shown(b, depth + Depth(a), fmt) + Shown(c, depth + Depth(a) + Depth(b), fmt)
    ensures Depth(a + b + c) == Depth(a) + Depth(b) + Depth(c)
  {
    hide Shown, Depth;
    ShownThen(a + b, c, depth, fmt);
    ShownThen(a, b, depth, fmt);
  }

  // Both prints are just that, at any depth.
  lemma {:induction false} PrintIsLayout(v: Json, depth: nat, fmt: bool)
    ensures Print(v, depth, fmt) == Shown(Tokens(v), depth, fmt) && Depth(Tokens(v)) == 0
    decreases v, 0
  {
    match v {
      case Array(items) =>
        hide *;
        ItemsLayout(items, depth + 1, fmt);
        ArrayLayout(items, depth, fmt);
      case Object(members) =>
        hide *;
        if members.Member? {
          MembersLayout(members, depth + 1, fmt);
        }
        ObjectLayout(members, depth, fmt);
      case _ =>
        hide PrintNumber, PrintString, Shown, Depth;
        ShownOne(Tokens(v)[0], depth, fmt);
        assert Tokens(v) == [Tokens(v)[0]];
    }
  }

  lemma ArrayLayout(items: Items, depth: nat, fmt: bool)
    requires PrintItems(items, depth + 1, fmt) == Shown(ItemTokens(items), depth + 1, fmt)
    requires Depth(ItemTokens(items)) == 0
    ensures Print(Array(items), depth, fmt) == Shown(Tokens(Array(items)), depth, fmt)
    ensures Depth(Tokens(Array(items))) == 0
  {
    hide *;
    ShownOne(OpenArray, depth, fmt);
    ShownOne(CloseArray, depth + 1, fmt);
    ShownThree([OpenArray], ItemTokens(items), [CloseArray], depth, fmt);
    ArrayIs(items, depth, fmt);
  }

  lemma ObjectLayout(members: Members, depth: nat, fmt: bool)
    requires members.Member? ==> Depth(MemberTokens(members)) == 0
    requires members.Member? ==>
               PrintMembers(members, depth + 1, fmt) == Shown(MemberTokens(members), depth + 1, fmt) + If(fmt, [10])
    ensures Print(Object(members), depth, fmt) == Shown(Tokens(Object(members)), depth, fmt)
    ensures Depth(Tokens(Object(members))) == 0
  {
    hide *;
    if members.NoMembers? {
      EmptyIs(depth, fmt);
      ShownOne(EmptyObject, depth, fmt);
    } else {
      ObjectIs(members, depth, fmt, Shown(MemberTokens(members), depth + 1, fmt));
      ShownOne(OpenObject, depth, fmt);
      ShownOne(CloseObject, depth + 1, fmt);
      ShownThree([OpenObject], MemberTokens(members), [CloseObject], depth, fmt);
    }
  }

  lemma ArrayIs(items: Items, depth: nat, fmt: bool)
    ensures Tokens(Array(items)) == [OpenArray] + ItemTokens(items) + [CloseArray]
    ensures Print(Array(items), depth, fmt) == [91] + PrintItems(items, depth + 1, fmt) + [93]
    ensures Laid(OpenArray, depth) == Bare(OpenArray) == [91] && Deeper(OpenArray) == 1
    ensures Laid(CloseArray, depth + 1) == Bare(CloseArray) == [93] && Deeper(CloseArray) == -1
  {
    hide PrintItems, ItemTokens;
  }

  lemma EmptyIs(depth: nat, fmt: bool)
    ensures Tokens(Object(NoMembers)) == [EmptyObject] && Deeper(EmptyObject) == 0
    ensures Print(Object(NoMembers), depth, fmt) == if fmt then Laid(EmptyObject, depth) else Bare(EmptyObject)
  {
    TabsIndent(depth - 1);
    hide Tabs, Indent;
    assert [10] + Indent(depth - 1) == [10] + Tabs(depth - 1);
    assert fmt ==> [123] + ([10] + Tabs(depth - 1)) + [125] == [123, 10] + Indent(depth - 1) + [125];
    assert [123] + [] + [125] == [123, 125];
  }

  // The last line end of the members is part of the closing brace.
  lemma ObjectIs(members: Members, depth: nat, fmt: bool, w: Text)
    requires members.Member? && PrintMembers(members, depth + 1, fmt) == w + If(fmt, [10])
    ensures Tokens(Object(members)) == [OpenObject] + MemberTokens(members) + [CloseObject]
    ensures Deeper(OpenObject) == 1 && Deeper(CloseObject) == -1
    ensures Print(Object(members), depth, fmt) ==
            (if fmt then Laid(OpenObject, depth) else Bare(OpenObject)) + w
            + if fmt then Laid(CloseObject, depth + 1) else Bare(CloseObject)
  {
    hide PrintMembers, MemberTokens, Tabs, Indent;
    TabsIndent(depth);
    assert Print(Object(members), depth, fmt)
           == [123] + If(fmt, [10]) + PrintMembers(members, depth + 1, fmt) + If(fmt, Tabs(depth)) + [125];
    Braced(w, Tabs(depth));
    hide Print, Tokens;
  }

  lemma Braced(w: Text, z: Text)
    ensures [123] + [10] + (w + [10]) + z + [125] == [123, 10] + w + ([10] + z + [125])
    ensures [123] + [] + (w + []) + [] + [125] == [123] + w + [125]
  {
  }

  lemma ItemIs(items: Items, depth: nat, fmt: bool)
    requires items.Item?
    ensures var (u, next) := (Print(items.value, depth, fmt), items.next);
            && ItemTokens(items)
               == Tokens(items.value) + (if next.Item? then [ItemComma] else []) + ItemTokens(next)
            && PrintItems(items, depth, fmt)
               == u + (if next.NoItems? then [] else if fmt then Laid(ItemComma, depth) else Bare(ItemComma))
                  + PrintItems(next, depth, fmt)
    ensures Deeper(ItemComma) == 0
  {
    hide Print, Tokens;
  }

  lemma ShownNone(depth: int, fmt: bool)
    ensures Shown([], depth, fmt) == [] && Depth([]) == 0
  {
  }

  lemma {:induction false} ItemsLayout(items: Items, depth: nat, fmt: bool)
    ensures PrintItems(items, depth, fmt) == Shown(ItemTokens(items), depth, fmt) && Depth(ItemTokens(items)) == 0
    decreases items, 1
  {
    if items.Item? {
      hide *;
      PrintIsLayout(items.value, depth, fmt);
      ItemsLayout(items.next, depth, fmt);
      ItemIs(items, depth, fmt);
      ShownOne(ItemComma, depth, fmt);
      ShownNone(depth, fmt);
      ShownThree(Tokens(items.value), if items.next.Item? then [ItemComma] else [], ItemTokens(items.next), depth, fmt);
    }
  }

  // A key and a value.
  function MemberLaid(key: Text, v: Json, depth: nat, fmt: bool): Text {
    (if fmt then Laid(Key(PrintString(key)), depth) else Bare(Key(PrintString(key)))) + Print(v, depth, fmt)
  }

  lemma MemberIs(members: Members, depth: nat, fmt: bool)
    requires members.Member?
    ensures var (h, next) := (MemberLaid(members.key, members.value, depth, fmt), members.next);
            PrintMembers(members, depth, fmt) ==
            if next.NoMembers? then h + If(fmt, [10])
            else h + (if fmt then Laid(MemberComma, depth) else Bare(MemberComma)) + PrintMembers(next, depth, fmt)
  {
    hide Print, PrintString, Tabs, Indent;
    var (k, u, next) := (PrintString(members.key), Print(members.value, depth, fmt), members.next);
    var w := PrintMembers(next, depth, fmt);
    TabsIndent(depth);
    assert next.NoMembers? ==> w == [];
    MemberParts(If(fmt, Tabs(depth)), k, If(fmt, [9]), u, If(fmt, [10]), w);
    hide PrintMembers;
  }

  lemma MemberParts(a: Text, k: Text, c: Text, u: Text, z: Text, w: Text)
    ensures a + k + [58] + c + u + [44] + z + w == a + k + ([58] + c) + u + ([44] + z) + w
    ensures w == [] ==> a + k + [58] + c + u + [] + z + w == a + k + ([58] + c) + u + z
    ensures a == [] && c == [] ==> a + k + ([58] + c) == k + [58]
    ensures c == [9] ==> a + k + ([58] + c) == a + k + [58, 9]
    ensures z == [] ==> [44] + z == [44]
    ensures z == [10] ==> [44] + z == [44, 10]
  {
  }

  lemma MemberTokensIs(members: Members)
    requires members.Member?
    ensures var h := [Key(PrintString(members.key))] + Tokens(members.value);
            MemberTokens(members) ==
            if members.next.NoMembers? then h else h + [MemberComma] + MemberTokens(members.next)
  {
    hide Tokens, PrintString;
    assert members.next.NoMembers? ==> MemberTokens(members.next) == [];
  }

  lemma MemberShown(key: Text, v: Json, depth: nat, fmt: bool)
    requires Print(v, depth, fmt) == Shown(Tokens(v), depth, fmt) && Depth(Tokens(v)) == 0
    ensures var h := [Key(PrintString(key))] + Tokens(v);
            Shown(h, depth, fmt) == MemberLaid(key, v, depth, fmt) && Depth(h) == 0
  {
    hide Print, PrintString, Tokens, Shown, Depth, Laid, Bare;
    ShownOne(Key(PrintString(key)), depth, fmt);
    ShownThen([Key(PrintString(key))], Tokens(v), depth, fmt);
  }

  // All but the last line end.
  lemma {:induction false} MembersLayout(members: Members, depth: nat, fmt: bool)
    requires members.Member?
    ensures PrintMembers(members, depth, fmt) == Shown(MemberTokens(members), depth, fmt) + If(fmt, [10])
    ensures Depth(MemberTokens(members)) == 0
    decreases members, 1
  {
    hide *;
    var (key, v, next) := (members.key, members.value, members.next);
    PrintIsLayout(v, depth, fmt);
    MemberShown(key, v, depth, fmt);
    MemberIs(members, depth, fmt);
    MemberTokensIs(members);
    if next.Member? {
      MembersLayout(next, depth, fmt);
      CommaShown([Key(PrintString(key))] + Tokens(v), MemberTokens(next), depth, fmt);
      Associate(MemberLaid(key, v, depth, fmt) + if fmt then Laid(MemberComma, depth) else Bare(MemberComma),
                Shown(MemberTokens(next), depth, fmt), If(fmt, [10]));
    }
  }

  lemma CommaShown(a: seq<Token>, b: seq<Token>, depth: int, fmt: bool)
    requires Depth(a) == Depth(b) == 0
    ensures Shown(a + [MemberComma] + b, depth, fmt) ==
            Shown(a, depth, fmt) + (if fmt then Laid(MemberComma, depth) else Bare(MemberComma)) + Shown(b, depth, fmt)
    ensures Depth(a + [MemberComma] + b) == 0
  {
    hide Shown, Depth, Laid, Bare;
    ShownThree(a, [MemberComma], b, depth, fmt);
    ShownOne(MemberComma, depth, fmt);
  }
}
