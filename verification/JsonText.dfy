/** Writing a JSON value: its text, and the tokens that the parser makes of that text. */
module JsonText {
  import opened Json

  // ---------------------------------------------------------------- parts of a sequence

  /** The part stands in the whole from this place on. */
  ghost predicate Occurs<T>(whole: seq<T>, at: nat, part: seq<T>) {
    at + |part| <= |whole| && forall j :: 0 <= j < |part| ==> whole[at + j] == part[j]
  }

  lemma {:induction false} OccursSplit<T>(whole: seq<T>, at: nat, a: seq<T>, b: seq<T>)
    requires Occurs(whole, at, a + b)
    ensures Occurs(whole, at, a) && Occurs(whole, at + |a|, b)
  {
    forall j | 0 <= j < |a|
      ensures whole[at + j] == a[j]
    {
      assert (a + b)[j] == a[j];
    }
    forall j | 0 <= j < |b|
      ensures whole[at + |a| + j] == b[j]
    {
      assert (a + b)[|a| + j] == b[j];
    }
  }

  lemma {:induction false} OccursSlice<T>(whole: seq<T>, at: nat, part: seq<T>)
    requires Occurs(whole, at, part)
    ensures whole[at..at + |part|] == part && (part != [] ==> whole[at] == part[0])
  {
    assert part != [] ==> whole[at + 0] == part[0];
  }

  /** The first k texts with commas between them. */
  function Joined(texts: seq<string>, k: nat): string
    requires k <= |texts|
  {
    if k == 0 then "" else if k == 1 then texts[0] else Joined(texts, k - 1) + ("," + texts[k - 1])
  }

  /** Where text k begins. */
  function StartOf(texts: seq<string>, k: nat): nat
    requires k <= |texts|
  {
    if k == 0 then 0 else |Joined(texts, k)| + 1
  }

  lemma {:induction false} LastPlaced(s: string, offset: nat, texts: seq<string>, last: nat)
    requires 0 < last < |texts| && Occurs(s, offset, Joined(texts, last + 1))
    ensures Occurs(s, offset, Joined(texts, last)) && Occurs(s, offset + StartOf(texts, last), texts[last])
    ensures StartOf(texts, last) + |texts[last]| == |Joined(texts, last + 1)| <= |s| - offset
    ensures s[offset + |Joined(texts, last)|] == ','
  {
    var front := Joined(texts, last);
    OccursSplit(s, offset, front, "," + texts[last]);
    OccursSplit(s, offset + |front|, ",", texts[last]);
    OccursSlice(s, offset + |front|, ",");
  }

  /** Each text stands in its place, followed by a comma or by what follows them all. */
  lemma {:induction false} TextPlaced(s: string, offset: nat, texts: seq<string>, n: nat, k: nat)
    requires k < n <= |texts| && Occurs(s, offset, Joined(texts, n))
    ensures Occurs(s, offset + StartOf(texts, k), texts[k])
    ensures StartOf(texts, k) + |texts[k]| <= |Joined(texts, n)|
    ensures var end := StartOf(texts, k) + |texts[k]|;
            if k == n - 1 then end == |Joined(texts, n)| else end < |Joined(texts, n)| && s[offset + end] == ','
  {
    if n > 1 {
      LastPlaced(s, offset, texts, n - 1);
    }
    if k < n - 1 {
      TextPlaced(s, offset, texts, n - 1, k);
    }
  }

  // ---------------------------------------------------------------- the text and the tokens of a value

  function Print(v: Json): string
    decreases v
  {
    match v
    case Prim(text) => text
    case Text(text) => "\"" + (text + "\"")
    case Arr(items) => "[" + (Joined(ItemTexts(items, |items|), |items|) + "]")
    case Obj(members) => "{" + (Joined(MemberTexts(members, |members|), |members|) + "}")
  }

  function ItemTexts(items: seq<Json>, n: nat): (texts: seq<string>)
    requires n <= |items|
    ensures |texts| == n
    decreases items, n
  {
    if n == 0 then []
    else
      var last := [Print(items[n - 1])];
      if n == 1 then last else ItemTexts(items, n - 1) + last
  }

  function MemberTexts(members: seq<Member>, n: nat): (texts: seq<string>)
    requires n <= |members|
    ensures |texts| == n
    decreases members, n
  {
    if n == 0 then []
    else
      var m := members[n - 1];
      var last := ["\"" + (m.key + ("\":" + Print(m.value)))];
      if n == 1 then last else MemberTexts(members, n - 1) + last
  }

  lemma {:induction false} ItemText(items: seq<Json>, n: nat, k: nat)
    requires k < n <= |items|
    ensures ItemTexts(items, n)[k] == Print(items[k])
  {
    if k < n - 1 {
      ItemText(items, n - 1, k);
    }
  }

  lemma {:induction false} MemberText(members: seq<Member>, n: nat, k: nat)
    requires k < n <= |members|
    ensures MemberTexts(members, n)[k] == "\"" + (members[k].key + ("\":" + Print(members[k].value)))
  {
    if k < n - 1 {
      MemberText(members, n - 1, k);
    }
  }

  /** The tokens of a value printed at this offset, as number i and following. */
  function Emit(v: Json, i: nat, parent: int, offset: nat): (tokens: seq<Token>)
    ensures |tokens| == Size(v)
    decreases v
  {
    var end := offset + |Print(v)|;
    match v
    case Prim(_) => [Token(Primitive, offset, end, parent)]
    case Text(_) => [Token(Str, offset + 1, end - 1, parent)]
    case Arr(items) => [Token(Array, offset, end, parent)] + EmitItems(items, |items|, i, offset + 1)
    case Obj(members) => [Token(Object, offset, end, parent)] + EmitMembers(members, |members|, i, offset + 1)
  }

  /** The tokens of the first n items, after the array token i. */
  function EmitItems(items: seq<Json>, n: nat, i: nat, offset: nat): (tokens: seq<Token>)
    requires n <= |items|
    ensures |tokens| == ItemsSize(items, n)
    decreases items, n
  {
    if n == 0 then []
    else
      var last := EmitItem(items, n - 1, i, offset);
      if n == 1 then last else EmitItems(items, n - 1, i, offset) + last
  }

  function EmitItem(items: seq<Json>, k: nat, i: nat, offset: nat): (tokens: seq<Token>)
    requires k < |items|
    ensures |tokens| == Size(items[k])
    decreases items, k
  {
    Emit(items[k], i + 1 + ItemsSize(items, k), i, offset + StartOf(ItemTexts(items, |items|), k))
  }

  function EmitMembers(members: seq<Member>, n: nat, i: nat, offset: nat): (tokens: seq<Token>)
    requires n <= |members|
    ensures |tokens| == MembersSize(members, n)
    decreases members, n
  {
    if n == 0 then []
    else
      var last := EmitMember(members, n - 1, i, offset);
      if n == 1 then last else EmitMembers(members, n - 1, i, offset) + last
  }

  /** A member is its key followed by its value, two quotes and a colon apart. */
  function EmitMember(members: seq<Member>, k: nat, i: nat, offset: nat): (tokens: seq<Token>)
    requires k < |members|
    ensures |tokens| == 1 + Size(members[k].value)
    decreases members, k
  {
    var p, at := KeyAt(i, members, k), offset + StartOf(MemberTexts(members, |members|), k) + 1;
    [Token(Str, at, at + |members[k].key|, i)] + Emit(members[k].value, p + 1, p, at + |members[k].key| + 2)
  }

  lemma {:induction false} ItemPlaced(t: seq<Token>, items: seq<Json>, n: nat, i: nat, offset: nat, k: nat)
    requires k < n <= |items| && Occurs(t, i + 1, EmitItems(items, n, i, offset))
    ensures Occurs(t, i + 1 + ItemsSize(items, k), EmitItem(items, k, i, offset))
  {
    if n > 1 {
      OccursSplit(t, i + 1, EmitItems(items, n - 1, i, offset), EmitItem(items, n - 1, i, offset));
    }
    if k < n - 1 {
      ItemPlaced(t, items, n - 1, i, offset, k);
    }
  }

  lemma {:induction false} MemberPlaced(t: seq<Token>, members: seq<Member>, n: nat, i: nat, offset: nat, k: nat)
    requires k < n <= |members| && Occurs(t, i + 1, EmitMembers(members, n, i, offset))
    ensures Occurs(t, KeyAt(i, members, k), EmitMember(members, k, i, offset))
  {
    if n > 1 {
      OccursSplit(t, i + 1, EmitMembers(members, n - 1, i, offset), EmitMember(members, n - 1, i, offset));
    }
    if k < n - 1 {
      MemberPlaced(t, members, n - 1, i, offset, k);
    }
  }

  // ---------------------------------------------------------------- what is written is encoded

  /** Numbers and the like consist of something. */
  ghost predicate Printable(v: Json)
    decreases v
  {
    match v
    case Prim(text) => text != []
    case Text(_) => true
    case Arr(items) => forall k :: 0 <= k < |items| ==> Printable(items[k])
    case Obj(members) => forall k :: 0 <= k < |members| ==> Printable(members[k].value)
  }

  /** The text of the value stands at this offset, followed by no digit, and its tokens from number i on. */
  ghost predicate WrittenAt(s: string, t: seq<Token>, i: nat, parent: int, offset: nat, v: Json) {
    && Occurs(s, offset, Print(v)) && Occurs(t, i, Emit(v, i, parent, offset))
    && (offset + |Print(v)| < |s| ==> !IsDigit(s[offset + |Print(v)|]))
  }

  /** The texts and the tokens of all items stand where they belong, with an end bracket after them. */
  ghost predicate WrittenItems(s: string, t: seq<Token>, i: nat, offset: nat, items: seq<Json>) {
    var end := offset + |Joined(ItemTexts(items, |items|), |items|)|;
    && Occurs(s, offset, Joined(ItemTexts(items, |items|), |items|))
    && Occurs(t, i + 1, EmitItems(items, |items|, i, offset))
    && end < |s| && s[end] == ']'
  }

  ghost predicate WrittenMembers(s: string, t: seq<Token>, i: nat, offset: nat, members: seq<Member>) {
    var end := offset + |Joined(MemberTexts(members, |members|), |members|)|;
    && Occurs(s, offset, Joined(MemberTexts(members, |members|), |members|))
    && Occurs(t, i + 1, EmitMembers(members, |members|, i, offset))
    && end < |s| && s[end] == '}'
  }

  lemma {:induction false} ItemWritten(s: string, t: seq<Token>, i: nat, offset: nat, items: seq<Json>, k: nat)
    requires k < |items| && WrittenItems(s, t, i, offset, items)
    ensures var at := offset + StartOf(ItemTexts(items, |items|), k);
            && WrittenAt(s, t, i + 1 + ItemsSize(items, k), i, at, items[k])
            && at + |Print(items[k])| <= offset + |Joined(ItemTexts(items, |items|), |items|)|
  {
    TextPlaced(s, offset, ItemTexts(items, |items|), |items|, k);
    ItemText(items, |items|, k);
    ItemPlaced(t, items, |items|, i, offset, k);
  }

  lemma {:induction false} KeyAndValue(s: string, at: nat, key: string, text: string)
    requires Occurs(s, at, "\"" + (key + ("\":" + text)))
    ensures Occurs(s, at + 1, key) && Occurs(s, at + |key| + 3, text)
  {
    OccursSplit(s, at, "\"", key + ("\":" + text));
    OccursSplit(s, at + 1, key, "\":" + text);
    OccursSplit(s, at + 1 + |key|, "\":", text);
  }

  lemma {:induction false} MemberTextWritten(s: string, t: seq<Token>, i: nat, offset: nat,
      members: seq<Member>, k: nat)
    requires k < |members| && WrittenMembers(s, t, i, offset, members)
    ensures var m, at := members[k], offset + StartOf(MemberTexts(members, |members|), k) + 1;
            var end := at + |m.key| + 2 + |Print(m.value)|;
            && Occurs(s, at, m.key) && Occurs(s, at + |m.key| + 2, Print(m.value))
            && end <= offset + |Joined(MemberTexts(members, |members|), |members|)| && !IsDigit(s[end])
  {
    var m, at := members[k], offset + StartOf(MemberTexts(members, |members|), k);
    TextPlaced(s, offset, MemberTexts(members, |members|), |members|, k);
    MemberText(members, |members|, k);
    KeyAndValue(s, at, m.key, Print(m.value));
  }

  lemma {:induction false} MemberTokensWritten(s: string, t: seq<Token>, i: nat, offset: nat,
      members: seq<Member>, k: nat)
    requires k < |members| && WrittenMembers(s, t, i, offset, members)
    ensures var m, p, at := members[k], KeyAt(i, members, k), offset + StartOf(MemberTexts(members, |members|), k) + 1;
            && Occurs(t, p + 1, Emit(m.value, p + 1, p, at + |m.key| + 2))
            && p < |t| && t[p] == Token(Str, at, at + |m.key|, i)
  {
    var m, p, at := members[k], KeyAt(i, members, k), offset + StartOf(MemberTexts(members, |members|), k) + 1;
    MemberPlaced(t, members, |members|, i, offset, k);
    OccursSplit(t, p, [Token(Str, at, at + |m.key|, i)], Emit(m.value, p + 1, p, at + |m.key| + 2));
    OccursSlice(t, p, [Token(Str, at, at + |m.key|, i)]);
  }

  lemma {:induction false} MemberWritten(s: string, t: seq<Token>, i: nat, offset: nat, members: seq<Member>, k: nat)
    requires k < |members| && WrittenMembers(s, t, i, offset, members)
    ensures var m, p, at := members[k], KeyAt(i, members, k), offset + StartOf(MemberTexts(members, |members|), k) + 1;
            && WrittenAt(s, t, p + 1, p, at + |m.key| + 2, m.value)
            && p < |t| && t[p] == Token(Str, at, at + |m.key|, i)
            && at + |m.key| <= |s| && s[at..at + |m.key|] == m.key
            && at + |m.key| <= offset + |Joined(MemberTexts(members, |members|), |members|)|
  {
    MemberTextWritten(s, t, i, offset, members, k);
    MemberTokensWritten(s, t, i, offset, members, k);
    OccursSlice(s, offset + StartOf(MemberTexts(members, |members|), k) + 1, members[k].key);
  }

  /** Printing a value anywhere and emitting its tokens there encodes it. */
  lemma {:induction false} WrittenEncodes(s: string, t: seq<Token>, i: nat, parent: int, offset: nat, v: Json)
    requires Printable(v) && WrittenAt(s, t, i, parent, offset, v)
    ensures Encodes(s, t, i, parent, v) && t[i].end <= offset + |Print(v)|
    decreases v, 1
  {
    match v {
      case Prim(text) =>
        OccursSlice(t, i, Emit(v, i, parent, offset));
        OccursSlice(s, offset, text);
      case Text(text) =>
        OccursSlice(t, i, Emit(v, i, parent, offset));
        QuotedText(s, offset, text);
      case Arr(items) =>
        ArrayWritten(s, t, i, parent, offset, items);
        forall k | 0 <= k < |items|
          ensures EncodesItem(s, t, i, items, k)
        {
          ItemEncodes(s, t, i, offset + 1, items, k);
        }
      case Obj(members) =>
        ObjectWritten(s, t, i, parent, offset, members);
        forall k | 0 <= k < |members|
          ensures EncodesMember(s, t, i, members, k)
        {
          MemberEncodes(s, t, i, offset + 1, members, k);
        }
    }
  }

  lemma {:induction false} QuotedText(s: string, offset: nat, text: string)
    requires Occurs(s, offset, "\"" + (text + "\""))
    ensures var end := offset + 1 + |text|; end < |s| && s[offset + 1..end] == text && s[end] == '"'
  {
    OccursSplit(s, offset, "\"", text + "\"");
    OccursSplit(s, offset + 1, text, "\"");
    OccursSlice(s, offset + 1, text);
    OccursSlice(s, offset + 1 + |text|, "\"");
  }

  lemma {:induction false} ArrayWritten(s: string, t: seq<Token>, i: nat, parent: int, offset: nat, items: seq<Json>)
    requires WrittenAt(s, t, i, parent, offset, Arr(items))
    ensures i < |t| && t[i] == Token(Array, offset, offset + |Joined(ItemTexts(items, |items|), |items|)| + 2, parent)
    ensures offset < |s| && s[offset] == '[' && WrittenItems(s, t, i, offset + 1, items)
  {
    var inner := Joined(ItemTexts(items, |items|), |items|);
    var head := Token(Array, offset, offset + |inner| + 2, parent);
    OccursSplit(s, offset, "[", inner + "]");
    OccursSplit(s, offset + 1, inner, "]");
    OccursSlice(s, offset, "[");
    OccursSlice(s, offset + 1 + |inner|, "]");
    OccursSplit(t, i, [head], EmitItems(items, |items|, i, offset + 1));
    OccursSlice(t, i, [head]);
  }

  lemma {:induction false} ObjectWritten(s: string, t: seq<Token>, i: nat, parent: int, offset: nat,
      members: seq<Member>)
    requires WrittenAt(s, t, i, parent, offset, Obj(members))
    ensures var end := offset + |Joined(MemberTexts(members, |members|), |members|)| + 2;
            i < |t| && t[i] == Token(Object, offset, end, parent)
    ensures offset < |s| && s[offset] == '{' && WrittenMembers(s, t, i, offset + 1, members)
  {
    var inner := Joined(MemberTexts(members, |members|), |members|);
    var head := Token(Object, offset, offset + |inner| + 2, parent);
    OccursSplit(s, offset, "{", inner + "}");
    OccursSplit(s, offset + 1, inner, "}");
    OccursSlice(s, offset, "{");
    OccursSlice(s, offset + 1 + |inner|, "}");
    OccursSplit(t, i, [head], EmitMembers(members, |members|, i, offset + 1));
    OccursSlice(t, i, [head]);
  }

  lemma {:induction false} ItemEncodes(s: string, t: seq<Token>, i: nat, offset: nat, items: seq<Json>, k: nat)
    requires k < |items| && Printable(items[k]) && WrittenItems(s, t, i, offset, items)
    requires i < |t| && offset + |Joined(ItemTexts(items, |items|), |items|)| <= t[i].end
    ensures EncodesItem(s, t, i, items, k)
    decreases items, 0
  {
    ItemWritten(s, t, i, offset, items, k);
    WrittenEncodes(s, t, i + 1 + ItemsSize(items, k), i, offset + StartOf(ItemTexts(items, |items|), k), items[k]);
  }

  lemma {:induction false} MemberEncodes(s: string, t: seq<Token>, i: nat, offset: nat, members: seq<Member>, k: nat)
    requires k < |members| && Printable(members[k].value) && WrittenMembers(s, t, i, offset, members)
    requires i < |t| && offset + |Joined(MemberTexts(members, |members|), |members|)| <= t[i].end
    ensures EncodesMember(s, t, i, members, k)
    decreases members, 0
  {
    var m, p, at := members[k], KeyAt(i, members, k), offset + StartOf(MemberTexts(members, |members|), k) + 1;
    MemberWritten(s, t, i, offset, members, k);
    WrittenEncodes(s, t, p + 1, p, at + |m.key| + 2, m.value);
  }

  /** The text and the tokens of an object are a document. */
  lemma {:induction false} WrittenDocument(members: seq<Member>)
    requires Printable(Obj(members))
    ensures Document(Print(Obj(members)), Emit(Obj(members), 0, -1, 0), members)
  {
    WrittenEncodes(Print(Obj(members)), Emit(Obj(members), 0, -1, 0), 0, -1, 0, Obj(members));
  }
}
