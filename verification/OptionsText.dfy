/** A single option written out as a configuration file, and what src/conf.c makes of it. */
module OptionsText {
  import opened ConfSpec
  import opened IncludeSpec
  import opened Json
  import opened Wrappers

  /** The text of a file with one member, a key and a bare word, and the three tokens in it. */
  lemma {:induction false} OneMember(s: string, key: string, text: string, k: nat, v: nat)
    requires 1 < k && k + |key| < v && v + |text| < |s| && text != ""
    requires s[0] == '{' && s[k..k + |key|] == key && s[v..v + |text|] == text
    requires !('0' <= s[v + |text|] <= '9')
    ensures Document(s, [Token(Object, 0, |s|, -1), Token(Str, k, k + |key|, 0), Token(Primitive, v, v + |text|, 1)],
                     [Member(key, Prim(text))])
  {
    var t := [Token(Object, 0, |s|, -1), Token(Str, k, k + |key|, 0), Token(Primitive, v, v + |text|, 1)];
    var m := Member(key, Prim(text));
    ThreeTokens(m);
    assert KeyAt(0, [m], 0) == 1;
    assert Encodes(s, t, 2, 1, Prim(text));
    assert EncodesMember(s, t, 0, [m], 0);
  }

  /** Loading a file whose one member is an option on or off succeeds exactly if the value begins with t
      or f and memory lasts, and then leaves 1 or 0 and the defaults of all else. */
  lemma {:induction false} BooleanFileLoads(confs: seq<Conf>, fs: Files, rank: string -> nat, f: string,
      s: string, key: string, text: string, k: nat, v: nat, buffers: nat, j: nat, st: State, mem: nat -> bool)
    requires Acyclic(fs, rank) && AllFit(confs, st) && f in fs.files
    requires 1 < k && k + |key| < v && v + |text| < |s| && text != ""
    requires s[0] == '{' && s[k..k + |key|] == key && s[v..v + |text|] == text
    requires !('0' <= s[v + |text|] <= '9')
    requires fs.files[f] ==
             Readable(s, [Token(Object, 0, |s|, -1), Token(Str, k, k + |key|, 0), Token(Primitive, v, v + |text|, 1)],
                      [Member(key, Prim(text))], true, buffers)
    requires key != "include" && key != "include directory" && key != "enabled plugins"
    requires j < |confs| && confs[j].name == key && confs[j].typ == BOOLEAN
    requires forall i :: 0 <= i < j ==> confs[i].name != key
    ensures Document(fs.files[f].s, fs.files[f].t, fs.files[f].members)
    ensures confs[j].id < |Defaults(confs, st).nums|
    ensures var r, defaults := Load(confs, fs, rank, f, st, mem), Defaults(confs, st);
            && (r.ok <==> (text[0] == 't' || text[0] == 'f') && forall n :: 0 <= n < buffers + 2 ==> mem(n))
            && (r.ok ==> r.st == defaults.(nums := defaults.nums[confs[j].id := if text[0] == 't' then 1 else 0]))
  {
    var m, defaults := Member(key, Prim(text)), Defaults(confs, st);
    OneMember(s, key, text, k, v);
    RowIs(confs, key, |confs|, j);
    assert InState(CellOf(confs[j]), defaults);
    OnlySetting(fs, rank, f, m);
    LoadSucceedsIff(confs, fs, rank, f, st, mem);
    OneSetting(confs, buffers + 2, m, defaults);
    PlentyForNumbers(confs[j], m.value, defaults);
  }

  /** The one option of src/conf.c, switched on. */
  lemma {:induction false} ThreadSafe(fs: Files, rank: string -> nat, f: string, buffers: nat, st: State,
      mem: nat -> bool)
    requires Acyclic(fs, rank) && |st.nums| == 1 && f in fs.files
    requires fs.files[f] ==
             Readable("{\"thread safe\": true}",
                      [Token(Object, 0, 21, -1), Token(Str, 2, 13, 0), Token(Primitive, 16, 20, 1)],
                      [Member("thread safe", Prim("true"))], true, buffers)
    requires forall n :: 0 <= n < buffers + 2 ==> mem(n)
    ensures var confs := [Conf("thread safe", BOOLEAN, 0, None, 0)];
            && AllFit(confs, st)
            && Load(confs, fs, rank, f, st, mem).ok
            && |Load(confs, fs, rank, f, st, mem).st.nums| > 0
            && Load(confs, fs, rank, f, st, mem).st.nums[0] == 1
  {
    var confs, s := [Conf("thread safe", BOOLEAN, 0, None, 0)], "{\"thread safe\": true}";
    assert s[2..13] == "thread safe" && s[16..20] == "true";
    BooleanFileLoads(confs, fs, rank, f, s, "thread safe", "true", 2, 16, buffers, 0, st, mem);
  }

  lemma {:induction false} ThreeTokens(m: Member)
    requires m.value.Prim?
    ensures Size(Obj([m])) == 3
  {
    assert MembersSize([m], 0) == 0;
    assert MembersSize([m], 1) == 2;
  }

  lemma {:induction false} OnlySetting(fs: Files, rank: string -> nat, f: string, m: Member)
    requires Acyclic(fs, rank) && CanRead(fs, f) && fs.files[f].closes && MembersOf(fs, f) == [m]
    requires m.key != "include" && m.key != "include directory"
    ensures FlattenFile(fs, rank, f) == ([Take(ReadCost(fs.files[f])), Set(m)], true)
  {
    OtherMember(fs, rank, f, 0);
    assert FlattenMembers(fs, rank, f, 0) == ([], true);
    assert [] + [Set(m)] == [Set(m)];
    assert FlattenMembers(fs, rank, f, 1) == ([Set(m)], true);
    assert [Take(ReadCost(fs.files[f]))] + [Set(m)] == [Take(ReadCost(fs.files[f])), Set(m)];
  }

  lemma {:induction false} OneSetting(confs: seq<Conf>, count: nat, m: Member, st: State)
    requires AllFit(confs, st)
    ensures Settings([Take(count), Set(m)]) == [m] && ApplyAll(confs, [m], st) == Apply(confs, m, st)
    ensures CostTo(confs, [Take(count), Set(m)], 2) == count + MemberCost(confs, m)
  {
    var acts := [Take(count), Set(m)];
    assert SettingsTo(acts, 0) == [] && CostTo(confs, acts, 0) == 0;
    assert SettingsTo(acts, 1) == [] && CostTo(confs, acts, 1) == count;
    assert [] + [m] == [m];
    assert ApplyTo(confs, [m], 0, st) == (st, true);
  }

  /** Setting a number takes no memory. */
  lemma {:induction false} PlentyForNumbers(c: Conf, v: Json, st: State)
    requires InState(CellOf(c), st) && c.typ == BOOLEAN
    ensures ValueCost(c, v) == 0 && Assign(c, v, st) == AssignIn(c, v, st, _ => true, 0)
    ensures c.id < |st.nums|
    ensures Assign(c, v, st).1 <==> v.Prim? && v.text != "" && (v.text[0] == 't' || v.text[0] == 'f')
    ensures Assign(c, v, st).1 ==>
              Assign(c, v, st).0 == st.(nums := st.nums[c.id := if v.text[0] == 't' then 1 else 0])
  {
    AssignInIs(c, v, st, _ => true, 0);
  }
}
