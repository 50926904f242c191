/** A JSON document and its token array, as the parser leaves it for src/conf.c: in document order,
    each token with the number of its parent.  The value of a member has the key as its parent. */
module Json {

  datatype Kind = Object | Array | Str | Primitive

  /** jsmntok_t, with parent links. */
  datatype Token = Token(kind: Kind, start: nat, end: nat, parent: int)

  datatype Json =
    | Prim(text: string)
    | Text(text: string)
    | Arr(items: seq<Json>)
    | Obj(members: seq<Member>)

  datatype Member = Member(key: string, value: Json)

  predicate IsDigit(c: char) {
    '0' <= c <= '9'
  }

  /** How many tokens a value takes. */
  function Size(v: Json): (n: nat)
    ensures n > 0
    decreases v
  {
    match v
    case Prim(_) => 1
    case Text(_) => 1
    case Arr(items) => 1 + ItemsSize(items, |items|)
    case Obj(members) => 1 + MembersSize(members, |members|)
  }

  /** How many tokens the first k items take. */
  function ItemsSize(items: seq<Json>, k: nat): nat
    requires k <= |items|
    decreases items, k
  {
    if k == 0 then 0 else ItemsSize(items, k - 1) + Size(items[k - 1])
  }

  /** How many tokens the first k members take, keys included. */
  function MembersSize(members: seq<Member>, k: nat): nat
    requires k <= |members|
    decreases members, k
  {
    if k == 0 then 0 else MembersSize(members, k - 1) + 1 + Size(members[k - 1].value)
  }

  lemma {:induction false} ItemsSizeGrows(items: seq<Json>, j: nat, k: nat)
    requires j <= k <= |items|
    ensures ItemsSize(items, j) + (k - j) <= ItemsSize(items, k)
  {
    if j < k {
      ItemsSizeGrows(items, j, k - 1);
    }
  }

  lemma {:induction false} MembersSizeGrows(members: seq<Member>, j: nat, k: nat)
    requires j <= k <= |members|
    ensures MembersSize(members, j) + 2 * (k - j) <= MembersSize(members, k)
  {
    if j < k {
      MembersSizeGrows(members, j, k - 1);
    }
  }

  /** The tokens from number i on, with this parent, are those of the value v in the text s. */
  ghost predicate Encodes(s: string, t: seq<Token>, i: nat, parent: int, v: Json)
    decreases v
  {
    && i + Size(v) <= |t|
    && t[i].parent == parent && t[i].start <= t[i].end <= |s|
    && match v
       case Prim(text) =>
         t[i].kind == Primitive && text != [] && s[t[i].start..t[i].end] == text
         && (t[i].end < |s| ==> !IsDigit(s[t[i].end]))
       case Text(text) =>
         t[i].kind == Str && s[t[i].start..t[i].end] == text && t[i].end < |s| && s[t[i].end] == '"'
       case Arr(items) =>
         t[i].kind == Array && t[i].start < |s| && s[t[i].start] == '['
         && forall k :: 0 <= k < |items| ==> EncodesItem(s, t, i, items, k)
       case Obj(members) =>
         t[i].kind == Object && t[i].start < |s| && s[t[i].start] == '{'
         && forall k :: 0 <= k < |members| ==> EncodesMember(s, t, i, members, k)
  }

  /** Item k of the array at token i. */
  ghost predicate EncodesItem(s: string, t: seq<Token>, i: nat, items: seq<Json>, k: nat)
    requires k < |items| && i < |t|
    decreases items, k
  {
    var p := i + 1 + ItemsSize(items, k);
    Encodes(s, t, p, i, items[k]) && t[p].end <= t[i].end
  }

  /** Where the key of member k of the object at token i is. */
  function KeyAt(i: nat, members: seq<Member>, k: nat): nat
    requires k <= |members|
  {
    i + 1 + MembersSize(members, k)
  }

  /** Member k of the object at token i. */
  ghost predicate EncodesMember(s: string, t: seq<Token>, i: nat, members: seq<Member>, k: nat)
    requires k < |members| && i < |t|
    decreases members, k
  {
    var p := KeyAt(i, members, k);
    && p < |t| && t[p].kind == Str && t[p].parent == i
    && t[p].start <= t[p].end <= |s| && s[t[p].start..t[p].end] == members[k].key && t[p].end <= t[i].end
    && Encodes(s, t, p + 1, p, members[k].value)
  }

  /** A whole document whose top level is an object. */
  ghost predicate Document(s: string, t: seq<Token>, members: seq<Member>) {
    Encodes(s, t, 0, -1, Obj(members)) && |t| == Size(Obj(members))
  }

  /** The value at token c is a top-level one of a document, or stands like one: the token after it,
      if there is one, is a key further up. */
  ghost predicate Placed(t: seq<Token>, c: nat, v: Json) {
    c + Size(v) < |t| ==> t[c + Size(v)].kind == Str && t[c + Size(v)].parent < c
  }

  lemma {:induction false} ItemAt(s: string, t: seq<Token>, i: nat, parent: int, items: seq<Json>, k: nat)
    requires Encodes(s, t, i, parent, Arr(items)) && k < |items|
    ensures var p := i + 1 + ItemsSize(items, k);
            p < |t| && Encodes(s, t, p, i, items[k]) && t[p].end <= t[i].end
  {
    assert EncodesItem(s, t, i, items, k);
    assert Encodes(s, t, i + 1 + ItemsSize(items, k), i, items[k]);
  }

  lemma {:induction false} MemberAt(s: string, t: seq<Token>, i: nat, parent: int, members: seq<Member>, k: nat)
    requires Encodes(s, t, i, parent, Obj(members)) && k < |members|
    ensures var p := KeyAt(i, members, k);
            && p + 1 < |t| && t[p].kind == Str && t[p].parent == i
            && t[p].start <= t[p].end <= |s| && s[t[p].start..t[p].end] == members[k].key && t[p].end <= t[i].end
            && Encodes(s, t, p + 1, p, members[k].value)
            && KeyAt(i, members, k + 1) == p + 1 + Size(members[k].value)
  {
    assert EncodesMember(s, t, i, members, k);
    assert Encodes(s, t, KeyAt(i, members, k) + 1, KeyAt(i, members, k), members[k].value);
  }

  /** The number, the kind and the parent of the token of a value. */
  lemma {:induction false} Head(s: string, t: seq<Token>, i: nat, parent: int, v: Json)
    requires Encodes(s, t, i, parent, v)
    ensures i < |t| && t[i].parent == parent && t[i].start <= t[i].end <= |s|
    ensures t[i].kind ==
            match v case Prim(_) => Primitive case Text(_) => Str case Arr(_) => Array case Obj(_) => Object
    ensures v.Prim? || v.Text? ==> s[t[i].start..t[i].end] == v.text
  {}

  /** Every top-level value of a document is so placed. */
  lemma {:induction false} TopLevelPlaced(s: string, t: seq<Token>, members: seq<Member>, k: nat)
    requires Document(s, t, members) && k < |members|
    ensures Placed(t, KeyAt(0, members, k) + 1, members[k].value)
  {
    MemberAt(s, t, 0, -1, members, k);
    if k + 1 < |members| {
      MemberAt(s, t, 0, -1, members, k + 1);
    } else {
      assert KeyAt(0, members, k + 1) == Size(Obj(members));
    }
  }
}
