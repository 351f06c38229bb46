// The parser of src/cJSON.c on a text and positions in it.
module JsonParser {
  import opened Types
  import opened JsonStrings
  import opened Json

  // Position p of a text stands for the rest of the text.
  ghost predicate Stands<T>(text: Text, r: Parse<T>, end: nat) {
    r.Parsed? ==> end <= |text| && r.rest == text[end..]
  }

  lemma From(text: Text, p: nat)
    requires p <= |text|
    ensures |text[p..]| == |text| - p && (p < |text| ==> text[p..][0] == text[p] && text[p..][1..] == text[p + 1..])
  {
  }

  // skip
  method SkipBlanks(text: Text, p: nat) returns (q: nat)
    requires p <= |text|
    ensures p <= q <= |text| && text[q..] == Skip(text[p..])
  {
    q := p;
    while q < |text| && text[q] <= 32
      invariant p <= q <= |text| && Skip(text[q..]) == Skip(text[p..])
    {
      From(text, q);
      q := q + 1;
    }
    From(text, q);
  }

  // parse_hex4
  method ReadHex4(text: Text, p: nat) returns (h: nat)
    requires p <= |text|
    ensures h == Hex4(text[p..])
  {
    h := 0;
    var i := 0;
    ghost var s := text[p..];
    while i < 4
      invariant i <= 4 && i <= |s| && (forall j :: 0 <= j < i ==> HexValue(s[j]).Some?)
      invariant h == HexPrefix(s, i)
    {
      if p + i == |text| || HexValue(text[p + i]).None? {
        return 0;
      }
      h := 16 * h + HexValue(text[p + i]).value;
      i := i + 1;
    }
    HexWhole(s);
  }

  lemma HexWhole(s: Text)
    requires |s| >= 4 && forall j :: 0 <= j < 4 ==> HexValue(s[j]).Some?
    ensures HexPrefix(s, 4) == Hex4(s)
  {
    assert HexPrefix(s, 1) == HexValue(s[0]).value;
    assert HexPrefix(s, 2) == 16 * HexPrefix(s, 1) + HexValue(s[1]).value;
    assert HexPrefix(s, 3) == 16 * HexPrefix(s, 2) + HexValue(s[2]).value;
  }

  function HexPrefix(s: Text, n: nat): nat
    requires n <= |s| && n <= 4 && forall j :: 0 <= j < n ==> HexValue(s[j]).Some?
  {
    if n == 0 then 0 else 16 * HexPrefix(s, n - 1) + HexValue(s[n - 1]).value
  }

  // The bytes of a character, the last six bits last.
  lemma Utf8Parts(c: nat, len: nat)
    requires 0 < c < 0x11_0000 && len == if c < 0x80 then 1 else if c < 0x800 then 2 else if c < 0x1_0000 then 3 else 4
    ensures |Utf8(c)| == len && (len == 1 ==> Utf8(c)[0] == c)
    ensures len >= 2 ==> Utf8(c)[len - 1] == 0x80 + c % 64
    ensures len == 2 ==> Utf8(c)[0] == 0xC0 + c / 64
    ensures len >= 3 ==> Utf8(c)[len - 2] == 0x80 + c / 64 % 64
    ensures len == 3 ==> Utf8(c)[0] == 0xE0 + c / 64 / 64
    ensures len == 4 ==> Utf8(c)[1] == 0x80 + c / 64 / 64 % 64 && Utf8(c)[0] == 0xF0 + c / 64 / 64 / 64
  {
    Sixes(c);
  }

  // One byte further back, with the last six bits.
  method PutSix(out: array<byte>, ptr: nat, uc: nat) returns (ptr': nat, uc': nat)
    requires 0 < ptr <= out.Length
    modifies out
    ensures ptr' == ptr - 1 && uc' == uc / 64 && out[ptr'] == 0x80 + uc % 64
    ensures forall i :: 0 <= i < out.Length && i != ptr' ==> out[i] == old(out[i])
  {
    ptr' := ptr - 1;
    out[ptr'] := 0x80 + uc % 64;
    uc' := uc / 64;
  }

  lemma WrittenAt(m: seq<byte>, m': seq<byte>, p: nat, s: seq<byte>)
    requires 1 <= |s| <= 4 && |m'| == |m| && p + |s| <= |m|
             && (forall i :: 0 <= i < p ==> m'[i] == m[i]) && m'[p] == s[0]
    requires |s| >= 2 ==> m'[p + |s| - 1] == s[|s| - 1]
    requires |s| >= 3 ==> m'[p + |s| - 2] == s[|s| - 2]
    requires |s| == 4 ==> m'[p + 1] == s[1]
    ensures m'[p..p + |s|] == s && m'[..p] == m[..p]
  {
  }

  // The switch that writes a character backwards from its last byte.
  method PutUtf8(out: array<byte>, p: nat, c: nat) returns (end: nat)
    requires 0 < c < 0x11_0000 && p + |Utf8(c)| <= out.Length
    modifies out
    ensures end == p + |Utf8(c)| && out[p..end] == Utf8(c) && out[..p] == old(out[..p])
  {
    var len := if c < 0x80 then 1 else if c < 0x800 then 2 else if c < 0x1_0000 then 3 else 4;
    Utf8Parts(c, len);
    hide Utf8;
    var uc, ptr := c, p + len;
    end := ptr;
    if len >= 4 {
      ptr, uc := PutSix(out, ptr, uc);
    }
    if len >= 3 {
      ptr, uc := PutSix(out, ptr, uc);
    }
    if len >= 2 {
      ptr, uc := PutSix(out, ptr, uc);
    }
    ptr := ptr - 1;
    out[ptr] := uc + if len == 1 then 0 else if len == 2 then 0xC0 else if len == 3 then 0xE0 else 0xF0;
    WrittenAt(old(out[..]), out[..], p, Utf8(c));
  }

  // The first pass of parse_string: the size, or None when it reads on behind the text.
  method CountString(text: Text, p: nat) returns (n: Option<nat>)
    requires p <= |text|
    ensures n == JsonStrings.Counted(text[p..])
  {
    var ptr, len := p, 0;
    while ptr < |text| && text[ptr] != QUOTE
      invariant p <= ptr <= |text| && Counted(text[p..]) == More(Counted(text[ptr..]), len)
      decreases |text| - ptr
    {
      From(text, ptr);
      len := len + 1;
      if text[ptr] == BACKSLASH {
        ptr := ptr + 1;
        if ptr == |text| {
          return None;
        }
        From(text, ptr);
      }
      ptr := ptr + 1;
    }
    From(text, ptr);
    n := Some(len);
  }

  // An escape \u: the character it writes, 0 for none, and where it ends; None when it reads on behind the text.
  method ReadUnicode(text: Text, p: nat) returns (r: Option<(nat, nat)>)
    requires p + 2 <= |text|
    ensures r.Some? ==> p < r.value.1 <= |text| && r.value.0 < 0x11_0000
    ensures UnicodeUnit(text[p..]) ==
            if r.None? then None
            else Some(Unit(if r.value.0 == 0 then [] else Utf8(r.value.0), r.value.1 - p))
  {
    hide Utf8, Hex4;
    ghost var s := text[p..];
    var uc := ReadHex4(text, p + 2);
    if p + 6 > |text| {
      return None;
    }
    HexFour(s, 2);
    if uc == 0 || Low(uc) {
      return Some((0, p + 6));
    }
    if High(uc) {
      if p + 8 > |text| || text[p + 6] != BACKSLASH || text[p + 7] != LETTER_U {
        return Some((0, p + 6));
      }
      var uc2 := ReadHex4(text, p + 8);
      if p + 12 > |text| {
        return None;
      }
      HexFour(s, 8);
      if !Low(uc2) {
        return Some((0, p + 12));
      }
      return Some((Surrogates(uc, uc2), p + 12));
    }
    r := Some((uc, p + 6));
  }

  lemma HexFour(s: Text, k: nat)
    requires k + 4 <= |s|
    ensures Hex4(s[k..]) == Hex4(s[k..k + 4])
  {
  }

  // One turn of the second pass; it stops where a write would leave the buffer or a read the text.
  method PutUnit(out: array<byte>, ptr2: nat, text: Text, ptr: nat, ghost w: Text)
      returns (ok: bool, to: nat, next: nat)
    requires ptr < |text| && ptr2 < out.Length && out[..ptr2] == w
    modifies out
    ensures ok <==> UnitOf(text[ptr..]).Some? && ptr2 + |UnitOf(text[ptr..]).value.out| < out.Length
    ensures ok ==>
              var u := UnitOf(text[ptr..]).value;
              && ptr < next <= |text| && next == ptr + u.size && to == ptr2 + |u.out| && to < out.Length
              && out[..to] == w + u.out
  {
    From(text, ptr);
    ok, to, next := false, ptr2, ptr + 1;
    if text[ptr] != BACKSLASH {
      if to + 1 < out.Length {
        out[to] := text[ptr];
        ok, to := true, to + 1;
      }
    } else if next < |text| {
      assert text[ptr..][1] == text[next];
      if text[next] == LETTER_U {
        ok, to, next := PutUnicode(out, ptr2, text, ptr, w);
      } else if to + 1 < out.Length {
        out[to] := Letter(text[next]);
        ok, to, next := true, to + 1, next + 1;
      }
    }
  }

  method PutUnicode(out: array<byte>, ptr2: nat, text: Text, ptr: nat, ghost w: Text)
      returns (ok: bool, to: nat, next: nat)
    requires ptr + 2 <= |text| && ptr2 < out.Length && out[..ptr2] == w
    modifies out
    ensures ok <==> UnicodeUnit(text[ptr..]).Some? && ptr2 + |UnicodeUnit(text[ptr..]).value.out| < out.Length
    ensures ok ==>
              var u := UnicodeUnit(text[ptr..]).value;
              && ptr < next <= |text| && next == ptr + u.size && to == ptr2 + |u.out| && to < out.Length
              && out[..to] == w + u.out
  {
    hide Utf8, UnicodeUnit;
    ok, to, next := false, ptr2, ptr;
    var r := ReadUnicode(text, ptr);
    if r.Some? {
      var c := r.value.0;
      next := r.value.1;
      if c == 0 {
        assert w + [] == w;
        ok := true;
      } else if to + |Utf8(c)| < out.Length {
        to := PutUtf8(out, to, c);
        assert out[..to] == w + Utf8(c);
        ok := true;
      }
    }
  }

  // The second pass of parse_string into the size + 1 bytes allocated.
  method UnescapeInto(out: array<byte>, text: Text, p: nat) returns (ok: bool, size: nat, end: nat)
    requires p <= |text| && out.Length > 0
    modifies out
    ensures ok <==> Unescape(text[p..]).Done? && |Unescape(text[p..]).out| < out.Length
    ensures ok ==>
              && p <= end <= |text| && size < out.Length
              && Unescape(text[p..]) == Done(Unescape(text[p..]).out, text[end..])
              && out[..size] == Unescape(text[p..]).out
  {
    hide UnitOf;
    ghost var w: Text := [];
    size, end := 0, p;
    BehindNothing(Unescape(text[p..]));
    while end < |text| && text[end] != QUOTE
      invariant p <= end <= |text| && size == |w| < out.Length && out[..size] == w
      invariant Unescape(text[p..]) == Prefixed(w, Unescape(text[end..]))
      decreases |text| - end
    {
      From(text, end);
      ghost var s := text[end..];
      UnescapeStep(s, w);
      ok, size, end := PutUnit(out, size, text, end, w);
      if !ok {
        return;
      }
      w := w + UnitOf(s).value.out;
      assert s[UnitOf(s).value.size..] == text[end..];
    }
    From(text, end);
    assert w + [] == w;
    ok := true;
  }

  lemma BehindNothing(u: Unescaped)
    ensures Prefixed([], u) == u
  {
  }

  lemma UnescapeStep(s: Text, w: Text)
    requires !AtEnd(s)
    ensures UnitOf(s).None? ==> Unescape(s) == Beyond
    ensures UnitOf(s).Some?
            ==> Prefixed(w, Unescape(s)) == Prefixed(w + UnitOf(s).value.out, Unescape(s[UnitOf(s).value.size..]))
  {
    hide UnitOf;
    if UnitOf(s).Some? && Unescape(s[UnitOf(s).value.size..]).Done? {
      var (a, b) := (UnitOf(s).value.out, Unescape(s[UnitOf(s).value.size..]).out);
      assert w + (a + b) == w + a + b;
    }
  }

  // The string in the buffer, and its NUL.
  method Finished(out: array<byte>, size: nat, ghost t: Text) returns (s: Text)
    requires size < out.Length && out[..size] == t
    modifies out
    ensures s == t
  {
    assert forall i :: 0 <= i < size ==> out[i] == t[i] && t[i] >= 1;
    s := out[..size];
    out[size] := 0;
  }

  // parse_string; Outside where it would leave its buffer or the text
  method ParseStringAt(text: Text, p: nat) returns (r: Parse<Text>, end: nat)
    requires p <= |text|
    ensures r == ParseString(text[p..]) && Stands(text, r, end)
  {
    From(text, p);
    end := p;
    if p == |text| || text[p] != QUOTE {
      return Failed, p;
    }
    hide Unescape, JsonStrings.Counted;
    var len := CountString(text, p + 1);
    if len.None? {
      return Outside, p;
    }
    var out := new byte[len.value + 1];
    var ok, size;
    ok, size, end := UnescapeInto(out, text, p + 1);
    if !ok {
      return Outside, p;
    }
    var s := Finished(out, size, Unescape(text[p + 1..]).out);
    From(text, end);
    if end < |text| {
      end := end + 1;
    }
    r := Parsed(s, text[end..]);
  }

  // ----- numbers -----

  // parse_number
  method ParseNumberAt(text: Text, p: nat) returns (r: Parse<cint>, end: nat)
    requires p < |text| && (text[p] == MINUS || IsDigit(text[p]))
    ensures r == ParseNumber(text[p..]) && Stands(text, r, end)
  {
    hide ReadNat, Inexact;
    From(text, p);
    var num, sign: int := p, 1;
    if text[num] == MINUS {
      sign, num := -1, num + 1;
    }
    var n;
    n, num := ReadNatAt(text, num);
    var inexact := IsInexact(text, num);
    var value := sign * n;
    if inexact || !IsInt(value) {
      return Outside, num;
    }
    r, end := Parsed(value, text[num..]), num;
  }

  method ReadNatAt(text: Text, p: nat) returns (n: nat, num: nat)
    requires p <= |text|
    ensures p <= num <= |text| && (n, text[num..]) == ReadNat(text[p..])
  {
    hide ReadDigits;
    From(text, p);
    n, num := 0, p;
    if num < |text| && text[num] == ZERO {
      num := num + 1;
      From(text, num);
    }
    if num < |text| && 49 <= text[num] <= 57 {
      n, num := ReadDigitsAt(text, num);
    }
  }

  // Whether a fraction or an exponent follows.
  method IsInexact(text: Text, p: nat) returns (b: bool)
    requires p <= |text|
    ensures b == Inexact(text[p..])
  {
    From(text, p);
    b := false;
    if p < |text| {
      if p + 1 < |text| {
        assert text[p..][1] == text[p + 1];
        b := text[p] == DOT && IsDigit(text[p + 1]);
      }
      b := b || text[p] == 101 || text[p] == 69;
    }
  }

  method ReadDigitsAt(text: Text, p: nat) returns (n: nat, end: nat)
    requires p < |text| && IsDigit(text[p])
    ensures p < end <= |text| && (n, text[end..]) == ReadDigits(text[p + 1..], text[p] as int - 48)
  {
    n, end := text[p] as int - 48, p + 1;
    while end < |text| && IsDigit(text[end])
      invariant p < end <= |text| && ReadDigits(text[p + 1..], text[p] as int - 48) == ReadDigits(text[end..], n)
    {
      From(text, end);
      n := 10 * n + (text[end] as int - 48);
      end := end + 1;
    }
    From(text, end);
  }

  // ----- arrays and objects -----

  // What is behind an element: more elements or the closing bracket.
  function ItemsRest(t: Text): Parse<Items> {
    if At(t, COMMA) then ParseItems(t[1..])
    else if At(t, CLOSE_BRACKET) then Parsed(NoItems, t[1..])
    else Failed
  }

  // Elements in front of what is parsed behind them.
  function Prepend(vs: seq<Json>, p: Parse<Items>): Parse<Items> {
    match p
    case Parsed(items, r) => Parsed(Linked(vs, items), r)
    case other => other
  }

  function Linked(vs: seq<Json>, items: Items): Items {
    if vs == [] then items else Item(vs[0], Linked(vs[1..], items))
  }

  lemma {:induction false} ChainSnoc(vs: seq<Json>, v: Json, items: Items)
    ensures Linked(vs + [v], items) == Linked(vs, Item(v, items))
  {
    if vs == [] {
      assert [] + [v] == [v] && [v][1..] == [];
    } else {
      ChainSnoc(vs[1..], v, items);
      assert (vs + [v])[1..] == vs[1..] + [v];
    }
  }

  lemma ItemsTurn(vs: seq<Json>, s: Text)
    ensures var q := ParseValue(Skip(s));
            Prepend(vs, ParseItems(s)) ==
            if q.Parsed? then Prepend(vs + [q.value], ItemsRest(Skip(q.rest)))
            else if q.Failed? then Failed else Outside
  {
    hide ParseValue;
    var q := ParseValue(Skip(s));
    if q.Parsed? && ItemsRest(Skip(q.rest)).Parsed? {
      ChainSnoc(vs, q.value, ItemsRest(Skip(q.rest)).value);
    }
  }

  // The elements of parse_array, from behind its bracket.
  method ParseItemsAt(text: Text, p: nat) returns (r: Parse<Items>, end: nat)
    requires p <= |text|
    ensures r == ParseItems(text[p..]) && Stands(text, r, end)
    decreases |text| - p, 1
  {
    hide ParseValue, ParseItems, Skip;
    var values: seq<Json> := [];
    end := p;
    var more := true;
    PrependNothing(ParseItems(text[p..]));
    while more
      invariant p <= end <= |text|
      invariant ParseItems(text[p..])
                == Prepend(values, if more then ParseItems(text[end..]) else ItemsRest(text[end..]))
      invariant !more ==> end == |text| || text[end] != COMMA
      decreases |text| - end, more
    {
      ItemsTurn(values, text[end..]);
      var q := SkipBlanks(text, end);
      var v;
      v, q := ParseValueAt(text, q);
      if !v.Parsed? {
        return if v.Failed? then Failed else Outside, q;
      }
      values := values + [v.value];
      end := SkipBlanks(text, q);
      From(text, end);
      more := end < |text| && text[end] == COMMA;
      if more {
        end := end + 1;
      }
    }
    From(text, end);
    if end < |text| && text[end] == CLOSE_BRACKET {
      end := end + 1;
      r := Parsed(Linked(values, NoItems), text[end..]);
    } else {
      r := Failed;
    }
  }

  lemma PrependNothing(p: Parse<Items>)
    ensures Prepend([], p) == p
  {
  }

  // What is behind a member: more members or the closing brace.
  function MembersRest(t: Text): Parse<Members> {
    if At(t, COMMA) then ParseMembers(t[1..])
    else if At(t, CLOSE_BRACE) then Parsed(NoMembers, t[1..])
    else Failed
  }

  datatype KeyValue = KeyValue(key: Text, value: Json)

  function PrependMembers(ps: seq<KeyValue>, p: Parse<Members>): Parse<Members> {
    match p
    case Parsed(members, r) => Parsed(ChainMembers(ps, members), r)
    case other => other
  }

  function ChainMembers(ps: seq<KeyValue>, members: Members): Members {
    if ps == [] then members else Member(ps[0].key, ps[0].value, ChainMembers(ps[1..], members))
  }

  lemma {:induction false} ChainMembersSnoc(ps: seq<KeyValue>, p: KeyValue, members: Members)
    ensures ChainMembers(ps + [p], members) == ChainMembers(ps, Member(p.key, p.value, members))
  {
    if ps == [] {
      assert [] + [p] == [p] && [p][1..] == [];
    } else {
      ChainMembersSnoc(ps[1..], p, members);
      assert (ps + [p])[1..] == ps[1..] + [p];
    }
  }

  // The key, the colon and the value of a member.
  function ParsePair(s: Text): (p: Parse<KeyValue>)
    ensures p.Parsed? ==> |p.rest| < |s|
  {
    match ParseString(Skip(s))
    case Failed => Failed
    case Outside => Outside
    case Parsed(key, r) =>
      var t := Skip(r);
      if !At(t, COLON) then Failed else Map(ParseValue(Skip(t[1..])), v => KeyValue(key, v))
  }

  lemma MembersTurn(ps: seq<KeyValue>, s: Text)
    ensures var q := ParsePair(s);
            PrependMembers(ps, ParseMembers(s)) ==
            if q.Parsed? then PrependMembers(ps + [q.value], MembersRest(Skip(q.rest)))
            else if q.Failed? then Failed else Outside
  {
    hide ParseValue, ParseString;
    var q := ParsePair(s);
    if q.Parsed? && MembersRest(Skip(q.rest)).Parsed? {
      ChainMembersSnoc(ps, q.value, MembersRest(Skip(q.rest)).value);
    }
  }

  method ParsePairAt(text: Text, p: nat) returns (r: Parse<KeyValue>, end: nat)
    requires p <= |text|
    ensures r == ParsePair(text[p..]) && Stands(text, r, end) && (r.Parsed? ==> p < end)
    decreases |text| - p, 1
  {
    hide ParseValue, ParseString;
    end := SkipBlanks(text, p);
    var name;
    name, end := ParseStringAt(text, end);
    if !name.Parsed? {
      return if name.Failed? then Failed else Outside, end;
    }
    From(text, end);
    end := SkipBlanks(text, end);
    From(text, end);
    if end == |text| || text[end] != COLON {
      return Failed, end;
    }
    end := SkipBlanks(text, end + 1);
    var v;
    v, end := ParseValueAt(text, end);
    r := Map(v, x => KeyValue(name.value, x));
  }

  // The members of parse_object, from behind its brace.
  method ParseMembersAt(text: Text, p: nat) returns (r: Parse<Members>, end: nat)
    requires p <= |text|
    ensures r == ParseMembers(text[p..]) && Stands(text, r, end)
    decreases |text| - p, 2
  {
    hide ParsePair, ParseMembers;
    var pairs: seq<KeyValue> := [];
    end := p;
    var more := true;
    PrependNoMembers(ParseMembers(text[p..]));
    while more
      invariant p <= end <= |text|
      invariant ParseMembers(text[p..])
                == PrependMembers(pairs, if more then ParseMembers(text[end..]) else MembersRest(text[end..]))
      invariant !more ==> end == |text| || text[end] != COMMA
      decreases |text| - end, more
    {
      MembersTurn(pairs, text[end..]);
      var pair, q := ParsePairAt(text, end);
      if !pair.Parsed? {
        return if pair.Failed? then Failed else Outside, q;
      }
      pairs := pairs + [pair.value];
      end := SkipBlanks(text, q);
      From(text, end);
      more := end < |text| && text[end] == COMMA;
      if more {
        end := end + 1;
      }
    }
    From(text, end);
    if end < |text| && text[end] == CLOSE_BRACE {
      end := end + 1;
      r := Parsed(ChainMembers(pairs, NoMembers), text[end..]);
    } else {
      r := Failed;
    }
  }

  lemma PrependNoMembers(p: Parse<Members>)
    ensures PrependMembers([], p) == p
  {
  }

  // strncmp
  method IsWord(text: Text, p: nat, word: Text) returns (b: bool)
    requires p <= |text|
    ensures b == StartsWith(text[p..], word)
  {
    b := p + |word| <= |text| && text[p..p + |word|] == word;
    if p + |word| <= |text| {
      assert text[p..][..|word|] == text[p..p + |word|];
    }
  }

  // parse_value
  method ParseValueAt(text: Text, p: nat) returns (r: Parse<Json>, end: nat)
    requires p <= |text|
    ensures r == ParseValue(text[p..]) && Stands(text, r, end) && (r.Parsed? ==> p < end)
    decreases |text| - p, 0
  {
    hide ParseItems, ParseMembers, ParseString, ParseNumber, StartsWith;
    From(text, p);
    end := p;
    var isNull := IsWord(text, p, NULL_WORD);
    if isNull {
      WordSize(text, p, NULL_WORD);
      return Parsed(Null, text[p + 4..]), p + 4;
    }
    var isFalse := IsWord(text, p, FALSE_WORD);
    if isFalse {
      WordSize(text, p, FALSE_WORD);
      return Parsed(False, text[p + 5..]), p + 5;
    }
    var isTrue := IsWord(text, p, TRUE_WORD);
    if isTrue {
      WordSize(text, p, TRUE_WORD);
      return Parsed(True, text[p + 4..]), p + 4;
    }
    if p == |text| {
      return Failed, p;
    }
    if text[p] == QUOTE {
      var s;
      s, end := ParseStringAt(text, p);
      r := Map(s, x => Str(x));
    } else if text[p] == MINUS || IsDigit(text[p]) {
      var n;
      n, end := ParseNumberAt(text, p);
      r := Map(n, x => Number(x));
    } else if text[p] == OPEN_BRACKET {
      r, end := ParseArrayAt(text, p);
    } else if text[p] == OPEN_BRACE {
      r, end := ParseObjectAt(text, p);
    } else {
      r := Failed;
    }
  }

  lemma WordSize(text: Text, p: nat, word: Text)
    requires p <= |text| && StartsWith(text[p..], word)
    ensures p + |word| <= |text| && text[p..][|word|..] == text[p + |word|..]
  {
  }

  // parse_array
  method ParseArrayAt(text: Text, p: nat) returns (r: Parse<Json>, end: nat)
    requires p < |text| && text[p] == OPEN_BRACKET
    ensures var t := Skip(text[p + 1..]);
            r == if At(t, CLOSE_BRACKET) then Parsed(Array(NoItems), t[1..]) else Map(ParseItems(t), x => Array(x))
    ensures Stands(text, r, end) && (r.Parsed? ==> p < end)
    decreases |text| - p - 1, 2
  {
    hide ParseItems;
    end := SkipBlanks(text, p + 1);
    From(text, end);
    if end < |text| && text[end] == CLOSE_BRACKET {
      return Parsed(Array(NoItems), text[end + 1..]), end + 1;
    }
    var q := end;
    var items;
    items, end := ParseItemsAt(text, q);
    r := Map(items, x => Array(x));
  }

  // parse_object
  method ParseObjectAt(text: Text, p: nat) returns (r: Parse<Json>, end: nat)
    requires p < |text| && text[p] == OPEN_BRACE
    ensures var t := Skip(text[p + 1..]);
            r == if At(t, CLOSE_BRACE) then Parsed(Object(NoMembers), t[1..]) else Map(ParseMembers(t), x => Object(x))
    ensures Stands(text, r, end) && (r.Parsed? ==> p < end)
    decreases |text| - p - 1, 3
  {
    hide ParseMembers;
    end := SkipBlanks(text, p + 1);
    From(text, end);
    if end < |text| && text[end] == CLOSE_BRACE {
      return Parsed(Object(NoMembers), text[end + 1..]), end + 1;
    }
    var q := end;
    var members;
    members, end := ParseMembersAt(text, q);
    r := Map(members, x => Object(x));
  }

  // cJSON_ParseWithOpts
  method Parse(text: Text, requireEnd: bool) returns (r: Parse<Json>)
    ensures r == ParseText(text, requireEnd)
  {
    hide ParseValue;
    From(text, 0);
    assert text[0..] == text;
    var p := SkipBlanks(text, 0);
    var end;
    r, end := ParseValueAt(text, p);
    if r.Parsed? && requireEnd {
      end := SkipBlanks(text, end);
      r := if end == |text| then Parsed(r.value, []) else Failed;
    }
  }
}
