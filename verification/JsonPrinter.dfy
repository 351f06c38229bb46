// The printer of src/cJSON.c: print_string_ptr, print_array, print_object and
// print_value, each sizing a buffer in a first pass and filling it in a second.
module JsonPrinter {
  import opened Types
  import opened JsonStrings
  import opened Json

  // Bytes written one after the other: s behind the w already written.
  method Append(out: array<byte>, ptr: nat, s: seq<byte>, ghost w: seq<byte>) returns (end: nat)
    requires ptr + |s| <= out.Length && out[..ptr] == w
    modifies out
    ensures end == ptr + |s| && out[..end] == w + s
  {
    forall i | 0 <= i < |s| {
      out[ptr + i] := s[i];
    }
    end := ptr + |s|;
  }

  // strcpy and sprintf: s and a NUL behind the w already written.
  method StrCpy(out: array<byte>, ptr: nat, s: seq<byte>, ghost w: seq<byte>) returns (end: nat)
    requires ptr + |s| < out.Length && out[..ptr] == w
    modifies out
    ensures end == ptr + |s| && out[..end] == w + s && out[end] == 0
  {
    end := Append(out, ptr, s, w);
    out[end] := 0;
  }

  // The finished C string in the buffer.
  method Finish(out: array<byte>, ptr: nat, ghost t: Text) returns (s: Text)
    requires ptr < out.Length && out[..ptr] == t
    modifies out
    ensures s == t
  {
    ghost var n := |t|;
    assert forall i :: 0 <= i < ptr ==> out[i] == t[i] && t[i] >= 1;
    s := out[..ptr];
    out[ptr] := 0;
  }

  // ----- strings -----

  // One turn of the second pass over the string.
  method PutEscape(out: array<byte>, ptr: nat, c: cbyte, ghost w: seq<byte>) returns (end: nat)
    requires ptr + |Escape(c)| < out.Length && out[..ptr] == w
    modifies out
    ensures end == ptr + |Escape(c)| && out[..end] == w + Escape(c)
  {
    if c > 31 && c != QUOTE && c != BACKSLASH {
      end := Append(out, ptr, [c], w);
    } else {
      end := Append(out, ptr, [BACKSLASH], w);
      ghost var v := w + [BACKSLASH];
      var token: seq<byte>;
      if c == BACKSLASH || c == QUOTE {
        token := [c];
      } else if c == 8 {
        token := [LETTER_B];
      } else if c == 12 {
        token := [LETTER_F];
      } else if c == 10 {
        token := [LETTER_N];
      } else if c == 13 {
        token := [LETTER_R];
      } else if c == 9 {
        token := [LETTER_T];
      } else {
        token := [LETTER_U, 48, 48, HexDigit(c / 16), HexDigit(c % 16)];
      }
      if |token| == 1 {
        end := Append(out, end, token, v);
      } else {
        end := StrCpy(out, end, token, v);
      }
      assert v + token == w + Escape(c);
    }
  }

  // The first pass over the string.
  method CountEscaped(s: Text) returns (len: nat)
    ensures len == |Escaped(s)|
  {
    len := 0;
    var i := 0;
    while i < |s|
      invariant i <= |s| && len == |Escaped(s[..i])|
    {
      EscapedSnoc(s[..i], s[i]);
      EscapedOne(s[i]);
      assert s[..i] + [s[i]] == s[..i + 1];
      len := len + 1;
      if s[i] == QUOTE || s[i] == BACKSLASH || s[i] == 8 || s[i] == 12 || s[i] == 10 || s[i] == 13 || s[i] == 9 {
        len := len + 1;
      } else if s[i] < 32 {
        len := len + 5;
      }
      i := i + 1;
    }
    assert s[..|s|] == s;
  }

  lemma EscapedTurn(s: Text, i: nat)
    requires i < |s|
    ensures Escaped(s[..i + 1]) == Escaped(s[..i]) + Escape(s[i])
    ensures |Escaped(s[i..])| == |Escape(s[i])| + |Escaped(s[i + 1..])|
  {
    assert s[i..][0] == s[i] && s[i..][1..] == s[i + 1..];
    EscapedSnoc(s[..i], s[i]);
    assert s[..i] + [s[i]] == s[..i + 1];
  }

  lemma EscapedWhole(s: Text)
    ensures Escaped([]) == [] && s[..0] == [] && s[0..] == s && s[..|s|] == s && s[|s|..] == []
  {
  }

  lemma Regroup(a: Text, b: Text, c: Text)
    ensures a + b + c == a + (b + c)
  {
  }

  // print_string_ptr; the text and its NUL fill the len + 3 bytes exactly.
  method PrintStringPtr(s: Text) returns (r: Text, size: nat)
    ensures r == PrintString(s) && size == |r| + 1
  {
    hide Escaped, Escape;
    EscapedWhole(s);
    var len := CountEscaped(s);
    size := len + 3;
    var out := new byte[size];
    ghost var w: Text := [QUOTE];
    var end := Append(out, 0, [QUOTE], []);
    var i := 0;
    while i < |s|
      invariant i <= |s| && w == [QUOTE] + Escaped(s[..i]) && end == |w| <= out.Length && out[..end] == w
      invariant end + |Escaped(s[i..])| + 2 == out.Length
    {
      EscapedTurn(s, i);
      end := PutEscape(out, end, s[i], w);
      Regroup([QUOTE], Escaped(s[..i]), Escape(s[i]));
      w := w + Escape(s[i]);
      i := i + 1;
    }
    end := Append(out, end, [QUOTE], w);
    r := Finish(out, end, w + [QUOTE]);
  }

  // print_number for an int: 21 bytes are allocated.
  method PrintInt(n: cint) returns (r: Text)
    ensures r == PrintNumber(n)
  {
    NumberSize(n);
    var out := new byte[21];
    var end := Append(out, 0, PrintNumber(n), []);
    r := Finish(out, end, PrintNumber(n));
  }

  // ----- arrays -----

  // The printed elements, as the first pass collects them.
  function Entries(items: Items, depth: nat, fmt: bool): seq<Text> {
    if items.NoItems? then [] else [Print(items.value, depth, fmt)] + Entries(items.next, depth, fmt)
  }

  // What the first pass adds to len for these entries.
  function TextsSize(entries: seq<Text>, each: nat): nat {
    if entries == [] then 0 else |entries[0]| + each + TextsSize(entries[1..], each)
  }

  function Joined(entries: seq<Text>, fmt: bool): Text {
    if entries == [] then []
    else entries[0] + (if |entries| == 1 then [] else [COMMA] + If(fmt, [SPACE]) + Joined(entries[1..], fmt))
  }

  lemma {:induction false} JoinedEntries(items: Items, depth: nat, fmt: bool)
    ensures Joined(Entries(items, depth, fmt), fmt) == PrintItems(items, depth, fmt)
  {
    if items.Item? {
      var es := Entries(items.next, depth, fmt);
      JoinedEntries(items.next, depth, fmt);
      JoinedCons(Print(items.value, depth, fmt), es, fmt);
      assert es == [] <==> items.next.NoItems?;
      hide Print, Entries, Joined;
    }
  }

  lemma JoinedCons(e: Text, es: seq<Text>, fmt: bool)
    ensures Joined([e] + es, fmt) == if es == [] then e else e + [COMMA] + If(fmt, [SPACE]) + Joined(es, fmt)
  {
    assert ([e] + es)[1..] == es;
    var (b, c) := (If(fmt, [SPACE]), Joined(es, fmt));
    assert e + [COMMA] + b + c == e + ([COMMA] + b + c);
    hide If;
  }

  lemma {:induction false} JoinedFits(entries: seq<Text>, fmt: bool)
    ensures |Joined(entries, fmt)| <= TextsSize(entries, 2 + if fmt then 1 else 0)
  {
    if entries != [] {
      JoinedFits(entries[1..], fmt);
    }
  }

  // The size the first pass of print_array arrives at.
  function ArraySize(items: Items, depth: nat, fmt: bool): nat {
    5 + TextsSize(Entries(items, depth + 1, fmt), 2 + if fmt then 1 else 0)
  }

  // An array and its NUL fit the size accumulated for it.
  lemma ArrayFits(items: Items, depth: nat, fmt: bool)
    requires items.Item?
    ensures |Print(Array(items), depth, fmt)| + 1 <= ArraySize(items, depth, fmt)
  {
    hide Entries, TextsSize, Joined, PrintItems;
    JoinedEntries(items, depth + 1, fmt);
    JoinedFits(Entries(items, depth + 1, fmt), fmt);
  }

  // One entry as the second pass of print_array writes it.
  function EntryText(e: Text, last: bool, fmt: bool): Text {
    e + if last then [] else [COMMA] + If(fmt, [SPACE])
  }

  lemma JoinedTurn(entries: seq<Text>, i: nat, fmt: bool, w: Text)
    requires i < |entries| && Joined(entries, fmt) == w + Joined(entries[i..], fmt)
    ensures var v := w + EntryText(entries[i], i == |entries| - 1, fmt);
            Joined(entries, fmt) == v + Joined(entries[i + 1..], fmt)
  {
    assert entries[i..][0] == entries[i] && entries[i..][1..] == entries[i + 1..];
    var (a, b, c) := (entries[i], [COMMA] + If(fmt, [SPACE]), Joined(entries[i + 1..], fmt));
    if i == |entries| - 1 {
      assert entries[i + 1..] == [] && Joined(entries[i..], fmt) == a;
      hide Joined;
      assert w + a == w + (a + []) + c;
    } else {
      assert Joined(entries[i..], fmt) == a + (b + c);
      hide Joined;
      assert w + (a + (b + c)) == w + (a + b) + c;
    }
  }

  method PutEntry(out: array<byte>, ptr: nat, e: Text, last: bool, fmt: bool, ghost w: Text) returns (end: nat)
    requires ptr + |EntryText(e, last, fmt)| < out.Length && out[..ptr] == w
    modifies out
    ensures end == ptr + |EntryText(e, last, fmt)| && out[..end] == w + EntryText(e, last, fmt)
  {
    end := StrCpy(out, ptr, e, w);
    if !last {
      end := StrCpy(out, end, [COMMA] + If(fmt, [SPACE]), w + e);
    }
    assert w + e + (if last then [] else [COMMA] + If(fmt, [SPACE])) == w + EntryText(e, last, fmt);
  }

  // The second pass of print_array.
  method FillArray(entries: seq<Text>, len: nat, fmt: bool) returns (r: Text)
    requires len >= |Joined(entries, fmt)| + 3
    ensures r == [OPEN_BRACKET] + Joined(entries, fmt) + [CLOSE_BRACKET]
  {
    hide Joined, EntryText;
    var out := new byte[len];
    var ptr := StrCpy(out, 0, [OPEN_BRACKET], []);
    ghost var w: Text := [];
    var i := 0;
    assert entries[0..] == entries;
    while i < |entries|
      invariant i <= |entries| && ptr == 1 + |w| && ptr <= len && out[..ptr] == [OPEN_BRACKET] + w
      invariant Joined(entries, fmt) == w + Joined(entries[i..], fmt)
    {
      JoinedTurn(entries, i, fmt, w);
      ptr := PutEntry(out, ptr, entries[i], i == |entries| - 1, fmt, [OPEN_BRACKET] + w);
      ghost var t := EntryText(entries[i], i == |entries| - 1, fmt);
      assert [OPEN_BRACKET] + w + t == [OPEN_BRACKET] + (w + t);
      w := w + t;
      i := i + 1;
    }
    NothingJoined(entries[i..], fmt);
    ptr := Append(out, ptr, [CLOSE_BRACKET], [OPEN_BRACKET] + w);
    r := Finish(out, ptr, [OPEN_BRACKET] + w + [CLOSE_BRACKET]);
  }

  lemma NothingJoined(entries: seq<Text>, fmt: bool)
    requires entries == []
    ensures Joined(entries, fmt) == []
  {
  }

  lemma {:induction false} TextsSizeConcat(a: seq<Text>, x: Text, each: nat)
    ensures TextsSize(a + [x], each) == TextsSize(a, each) + |x| + each
  {
    if a == [] {
      assert [] + [x] == [x];
    } else {
      TextsSizeConcat(a[1..], x, each);
      assert (a + [x])[1..] == a[1..] + [x];
    }
  }

  // print_array
  method PrintArray(items: Items, depth: nat, fmt: bool) returns (r: Text)
    ensures r == Print(Array(items), depth, fmt)
    decreases items
  {
    if items.NoItems? {
      var out := new byte[3];
      var end := Append(out, 0, [OPEN_BRACKET, CLOSE_BRACKET], []);
      r := Finish(out, end, [OPEN_BRACKET, CLOSE_BRACKET]);
      return;
    }
    var each := 2 + if fmt then 1 else 0;
    var entries: seq<Text>, len, child := [], 5, items;
    while child.Item?
      invariant child == items || child < items
      invariant entries + Entries(child, depth + 1, fmt) == Entries(items, depth + 1, fmt)
      invariant len == 5 + TextsSize(entries, each)
      decreases child
    {
      var ret := PrintValue(child.value, depth + 1, fmt);
      TextsSizeConcat(entries, ret, each);
      EntriesNext(entries, child, depth + 1, fmt);
      entries := entries + [ret];
      len := len + |ret| + each;
      child := child.next;
    }
    assert entries == Entries(items, depth + 1, fmt);
    hide Entries, TextsSize, Joined, PrintItems;
    JoinedEntries(items, depth + 1, fmt);
    JoinedFits(entries, fmt);
    r := FillArray(entries, len, fmt);
  }

  lemma EntriesNext(entries: seq<Text>, child: Items, depth: nat, fmt: bool)
    requires child.Item?
    ensures entries + Entries(child, depth, fmt)
            == entries + [Print(child.value, depth, fmt)] + Entries(child.next, depth, fmt)
  {
    hide Print;
  }

  // ----- objects -----

  // A printed key and its printed value.
  datatype Entry = Entry(name: Text, text: Text)

  function Fields(members: Members, depth: nat, fmt: bool): seq<Entry> {
    if members.NoMembers? then []
    else [Entry(PrintString(members.key), Print(members.value, depth, fmt))] + Fields(members.next, depth, fmt)
  }

  function FieldsSize(fields: seq<Entry>, each: nat): nat {
    if fields == [] then 0 else |fields[0].text| + |fields[0].name| + each + FieldsSize(fields[1..], each)
  }

  // One entry as the second pass of print_object writes it.
  function FieldText(f: Entry, last: bool, depth: nat, fmt: bool): Text {
    If(fmt, Tabs(depth)) + f.name + [COLON] + If(fmt, [TAB]) + f.text + (if last then [] else [COMMA])
      + If(fmt, [NEWLINE])
  }

  function JoinedFields(fields: seq<Entry>, depth: nat, fmt: bool): Text {
    if fields == [] then [] else FieldText(fields[0], |fields| == 1, depth, fmt) + JoinedFields(fields[1..], depth, fmt)
  }

  lemma {:induction false} JoinedFieldsAre(members: Members, depth: nat, fmt: bool)
    ensures JoinedFields(Fields(members, depth, fmt), depth, fmt) == PrintMembers(members, depth, fmt)
  {
    if members.Member? {
      JoinedFieldsAre(members.next, depth, fmt);
      var fs := Fields(members, depth, fmt);
      assert fs[1..] == Fields(members.next, depth, fmt);
      assert |fs| == 1 <==> members.next.NoMembers?;
      hide Print, PrintString, Tabs;
    }
  }

  lemma {:induction false} JoinedFieldsFit(fields: seq<Entry>, depth: nat, fmt: bool)
    ensures |JoinedFields(fields, depth, fmt)| <= FieldsSize(fields, 2 + if fmt then 2 + depth else 0)
  {
    if fields != [] {
      JoinedFieldsFit(fields[1..], depth, fmt);
    }
  }

  // The size the first pass of print_object arrives at; depth is that of the members.
  function ObjectSize(members: Members, depth: nat, fmt: bool): nat {
    if members.NoMembers? then (if fmt then depth + 4 else 3)
    else
      7 + (if fmt then depth + 1 else 0) +
      FieldsSize(Fields(members, depth + 1, fmt), 2 + if fmt then 2 + (depth + 1) else 0)
  }

  // An object and its NUL fit the size accumulated for it.
  lemma ObjectFits(members: Members, depth: nat, fmt: bool)
    ensures |Print(Object(members), depth, fmt)| + 1 <= ObjectSize(members, depth, fmt)
  {
    if members.Member? {
      ObjectPrinted(members, depth, fmt);
      hide Print, Fields, FieldsSize, JoinedFields, Tabs;
      JoinedFieldsFit(Fields(members, depth + 1, fmt), depth + 1, fmt);
      assert |If(fmt, Tabs(depth))| == if fmt then depth else 0;
    }
  }

  lemma FieldsTurn(fields: seq<Entry>, i: nat, depth: nat, fmt: bool, w: Text)
    requires i < |fields| && JoinedFields(fields, depth, fmt) == w + JoinedFields(fields[i..], depth, fmt)
    ensures var v := w + FieldText(fields[i], i == |fields| - 1, depth, fmt);
            JoinedFields(fields, depth, fmt) == v + JoinedFields(fields[i + 1..], depth, fmt)
  {
    assert fields[i..][0] == fields[i] && fields[i..][1..] == fields[i + 1..];
    var (a, b) := (FieldText(fields[i], i == |fields| - 1, depth, fmt), JoinedFields(fields[i + 1..], depth, fmt));
    assert JoinedFields(fields[i..], depth, fmt) == a + b;
    hide JoinedFields, FieldText;
    assert w + (a + b) == w + a + b;
  }

  method PutTabs(out: array<byte>, ptr: nat, n: int, ghost w: seq<byte>) returns (end: nat)
    requires ptr + |Tabs(n)| <= out.Length && out[..ptr] == w
    modifies out
    ensures end == ptr + |Tabs(n)| && out[..end] == w + Tabs(n)
  {
    end := ptr;
    var j := 0;
    while j < n
      invariant 0 <= j && (n >= 0 ==> j <= n) && (n < 0 ==> j == 0)
      invariant end == ptr + j <= out.Length && out[..end] == w + Tabs(j)
    {
      TabsSnoc(j);
      end := Append(out, end, [TAB], w + Tabs(j));
      assert w + Tabs(j) + [TAB] == w + Tabs(j + 1);
      j := j + 1;
    }
  }

  lemma {:induction false} TabsSnoc(n: nat)
    ensures Tabs(n + 1) == Tabs(n) + [TAB]
  {
    if n > 0 {
      TabsSnoc(n - 1);
      assert [TAB] + (Tabs(n - 1) + [TAB]) == Tabs(n) + [TAB];
    }
  }

  // One entry of the second pass of print_object.
  method PutField(out: array<byte>, ptr: nat, f: Entry, last: bool, depth: nat, fmt: bool, ghost w: Text)
      returns (end: nat)
    requires ptr + |FieldText(f, last, depth, fmt)| < out.Length && out[..ptr] == w
    modifies out
    ensures end == ptr + |FieldText(f, last, depth, fmt)| && out[..end] == w + FieldText(f, last, depth, fmt)
  {
    FieldTextIs(f, last, depth, fmt, w);
    hide Tabs, FieldText;
    var indent := if fmt then depth else 0;
    end := PutTabs(out, ptr, indent, w);
    ghost var t: Text := w + Tabs(indent);
    end := StrCpy(out, end, f.name, t);
    t := t + f.name;
    end := Append(out, end, [COLON] + If(fmt, [TAB]), t);
    t := t + ([COLON] + If(fmt, [TAB]));
    end := StrCpy(out, end, f.text, t);
    t := t + f.text;
    end := StrCpy(out, end, (if last then [] else [COMMA]) + If(fmt, [NEWLINE]), t);
  }

  lemma FieldTextIs(f: Entry, last: bool, depth: nat, fmt: bool, w: Text)
    ensures |FieldText(f, last, depth, fmt)| ==
            (if fmt then depth else 0) + |f.name| + 1 + |If(fmt, [TAB])| + |f.text| + (if last then 0 else 1)
              + |If(fmt, [NEWLINE])|
    ensures w + Tabs(if fmt then depth else 0) + f.name + ([COLON] + If(fmt, [TAB])) + f.text +
            ((if last then [] else [COMMA]) + If(fmt, [NEWLINE])) == w + FieldText(f, last, depth, fmt)
  {
    var (a, b, c, d) := (If(fmt, Tabs(depth)), If(fmt, [TAB]), if last then [] else [COMMA], If(fmt, [NEWLINE]));
    assert a == Tabs(if fmt then depth else 0);
    assert FieldText(f, last, depth, fmt) == a + f.name + [COLON] + b + f.text + c + d;
    hide FieldText, Tabs, If;
    assert w + a + f.name + ([COLON] + b) + f.text + (c + d) == w + (a + f.name + [COLON] + b + f.text + c + d);
  }

  // The indentation and the closing brace.
  method CloseObject(out: array<byte>, ptr: nat, depth: nat, fmt: bool, ghost w: Text) returns (r: Text)
    requires depth > 0 && ptr + (if fmt then depth - 1 else 0) + 1 < out.Length && out[..ptr] == w
    modifies out
    ensures r == w + If(fmt, Tabs(depth - 1)) + [CLOSE_BRACE]
  {
    hide Tabs;
    ghost var t: Text := w;
    var end := ptr;
    if fmt {
      end := PutTabs(out, end, depth - 1, w);
      t := w + Tabs(depth - 1);
    }
    assert t == w + If(fmt, Tabs(depth - 1));
    end := Append(out, end, [CLOSE_BRACE], t);
    r := Finish(out, end, t + [CLOSE_BRACE]);
  }

  // The second pass of print_object; depth is that of the members.
  method FillObject(fields: seq<Entry>, len: nat, depth: nat, fmt: bool) returns (r: Text)
    requires depth > 0 && len >= |JoinedFields(fields, depth, fmt)| + 4 + (if fmt then depth else 0)
    ensures r == [OPEN_BRACE] + If(fmt, [NEWLINE]) + JoinedFields(fields, depth, fmt) + If(fmt, Tabs(depth - 1))
            + [CLOSE_BRACE]
  {
    hide Tabs, FieldText, JoinedFields, If;
    IfSize(fmt);
    var out := new byte[len];
    ghost var front: Text := [OPEN_BRACE] + If(fmt, [NEWLINE]);
    var ptr := StrCpy(out, 0, [OPEN_BRACE] + If(fmt, [NEWLINE]), []);
    ghost var w: Text := [];
    var i := 0;
    assert fields[0..] == fields && front + [] == front;
    while i < |fields|
      invariant i <= |fields| && ptr == |front| + |w| && ptr <= len && out[..ptr] == front + w
      invariant JoinedFields(fields, depth, fmt) == w + JoinedFields(fields[i..], depth, fmt)
    {
      FieldsTurn(fields, i, depth, fmt, w);
      ghost var t := FieldText(fields[i], i == |fields| - 1, depth, fmt);
      ptr := PutField(out, ptr, fields[i], i == |fields| - 1, depth, fmt, front + w);
      Regroup(front, w, t);
      w := w + t;
      i := i + 1;
    }
    NoFields(fields[i..], depth, fmt);
    assert w + [] == w;
    r := CloseObject(out, ptr, depth, fmt, front + w);
  }

  lemma IfSize(fmt: bool)
    ensures forall s :: |If(fmt, s)| == if fmt then |s| else 0
    ensures forall s :: If(fmt, s) == if fmt then s else []
  {
  }

  lemma NoFields(fields: seq<Entry>, depth: nat, fmt: bool)
    requires fields == []
    ensures JoinedFields(fields, depth, fmt) == []
  {
  }

  lemma {:induction false} FieldsSizeConcat(a: seq<Entry>, x: Entry, each: nat)
    ensures FieldsSize(a + [x], each) == FieldsSize(a, each) + |x.text| + |x.name| + each
  {
    if a == [] {
      assert [] + [x] == [x];
    } else {
      FieldsSizeConcat(a[1..], x, each);
      assert (a + [x])[1..] == a[1..] + [x];
    }
  }

  lemma FieldsNext(fields: seq<Entry>, child: Members, depth: nat, fmt: bool)
    requires child.Member?
    ensures fields + Fields(child, depth, fmt) ==
            fields + [Entry(PrintString(child.key), Print(child.value, depth, fmt))] + Fields(child.next, depth, fmt)
  {
    hide Print, PrintString;
  }

  // The empty object.
  method FillEmpty(depth: nat, fmt: bool) returns (r: Text)
    ensures r == Print(Object(NoMembers), depth, fmt)
  {
    hide Tabs;
    var out := new byte[if fmt then depth + 4 else 3];
    ghost var t: Text := [OPEN_BRACE];
    var ptr := Append(out, 0, [OPEN_BRACE], []);
    if fmt {
      ptr := Append(out, ptr, [NEWLINE], t);
      t := t + [NEWLINE];
      ptr := PutTabs(out, ptr, depth - 1, t);
      t := t + Tabs(depth - 1);
    }
    ptr := Append(out, ptr, [CLOSE_BRACE], t);
    t := t + [CLOSE_BRACE];
    assert fmt ==> t == [OPEN_BRACE] + ([NEWLINE] + Tabs(depth - 1)) + [CLOSE_BRACE];
    assert !fmt ==> t == [OPEN_BRACE] + [] + [CLOSE_BRACE];
    r := Finish(out, ptr, t);
  }

  lemma NoFieldsSize(each: nat)
    ensures FieldsSize([], each) == 0
  {
  }

  lemma NoEntries(members: Members, depth: nat, fmt: bool)
    requires members == NoMembers
    ensures Fields(members, depth, fmt) == []
  {
  }

  lemma ObjectPrinted(members: Members, depth: nat, fmt: bool)
    requires members.Member?
    ensures Print(Object(members), depth, fmt) ==
            [OPEN_BRACE] + If(fmt, [NEWLINE]) + JoinedFields(Fields(members, depth + 1, fmt), depth + 1, fmt)
              + If(fmt, Tabs(depth)) + [CLOSE_BRACE]
  {
    JoinedFieldsAre(members, depth + 1, fmt);
    hide JoinedFields, Fields, PrintMembers, Tabs;
  }

  // The first pass of print_object.
  method CollectFields(members: Members, depth: nat, fmt: bool) returns (fields: seq<Entry>, len: nat)
    ensures fields == Fields(members, depth + 1, fmt)
    ensures len == 7 + (if fmt then depth + 1 else 0) + FieldsSize(fields, 2 + if fmt then 2 + (depth + 1) else 0)
    decreases members, 0
  {
    hide Fields, FieldsSize, Print, PrintString;
    var each := 2 + if fmt then 2 + (depth + 1) else 0;
    NoFieldsSize(each);
    var child := members;
    fields, len := [], 7 + if fmt then depth + 1 else 0;
    while child.Member?
      invariant child == members || child < members
      invariant fields + Fields(child, depth + 1, fmt) == Fields(members, depth + 1, fmt)
      invariant len == 7 + (if fmt then depth + 1 else 0) + FieldsSize(fields, each)
      decreases child
    {
      var str, size := PrintStringPtr(child.key);
      var ret := PrintValue(child.value, depth + 1, fmt);
      FieldsSizeConcat(fields, Entry(str, ret), each);
      FieldsNext(fields, child, depth + 1, fmt);
      fields := fields + [Entry(str, ret)];
      len := len + |ret| + |str| + each;
      child := child.next;
    }
    NoEntries(child, depth + 1, fmt);
  }

  // print_object
  method PrintObject(members: Members, depth: nat, fmt: bool) returns (r: Text)
    ensures r == Print(Object(members), depth, fmt)
    decreases members, 1
  {
    if members.NoMembers? {
      r := FillEmpty(depth, fmt);
      return;
    }
    hide Fields, FieldsSize, JoinedFields, Print, Tabs;
    var fields, len := CollectFields(members, depth, fmt);
    JoinedFieldsFit(fields, depth + 1, fmt);
    ObjectPrinted(members, depth, fmt);
    r := FillObject(fields, len, depth + 1, fmt);
  }

  // print_value
  method PrintValue(v: Json, depth: nat, fmt: bool) returns (r: Text)
    ensures r == Print(v, depth, fmt)
    decreases v
  {
    match v {
      case Null => r := NULL_WORD;
      case False => r := FALSE_WORD;
      case True => r := TRUE_WORD;
      case Number(n) => r := PrintInt(n);
      case Str(s) =>
        var size;
        r, size := PrintStringPtr(s);
      case Array(items) => r := PrintArray(items, depth, fmt);
      case Object(members) => r := PrintObject(members, depth, fmt);
    }
  }
}
