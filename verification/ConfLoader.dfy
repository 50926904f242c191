/** Reading configuration files (src/conf.c). */
module ConfLoader {
  import opened Wrappers
  import opened Json
  import opened PluginQueue
  import opened ConfSpec
  import opened IncludeSpec

  /** The text of a token. */
  function TokenText(s: string, t: Token): string
    requires t.start <= t.end <= |s|
  {
    s[t.start..t.end]
  }

  /** The condition of the inner loop of set_plugins: token i belongs to the array at cur. */
  predicate InArray(t: seq<Token>, cur: nat, i: nat)
    requires cur < |t|
  {
    i < |t| && t[i].parent == cur && t[i].end <= t[cur].end
  }

  /** It holds exactly for the items, and tells strings from other values. */
  lemma {:induction false} InArrayIff(s: string, t: seq<Token>, cur: nat, parent: int, items: seq<Json>, n: nat)
    requires Encodes(s, t, cur, parent, Arr(items)) && n <= |items|
    requires cur + Size(Arr(items)) < |t| ==> t[cur + Size(Arr(items))].parent < cur
    ensures var i := cur + 1 + ItemsSize(items, n);
            && cur < |t| && (InArray(t, cur, i) <==> n < |items|)
            && (n < |items| ==>
                  && t[i].start <= t[i].end <= |s| && (t[i].kind == Str <==> items[n].Text?)
                  && (items[n].Text? ==>
                        TokenText(s, t[i]) == items[n].text && ItemsSize(items, n + 1) == ItemsSize(items, n) + 1))
  {
    if n < |items| {
      ItemAt(s, t, cur, parent, items, n);
      Head(s, t, cur + 1 + ItemsSize(items, n), cur, items[n]);
    }
  }

  /** The inner loop of set_plugins: the arguments of a plugin, from the array token cur on.  It ends
      at the first token that is not an item of the array, or fails at one that is no string, or when
      memory runs out: for each argument the array is enlarged and a string allocated. */
  method ReadArgv(s: string, t: seq<Token>, cur: nat, pl: Plugin, mem: nat -> bool, from: nat,
      ghost parent: int, ghost items: seq<Json>)
    returns (ok: bool, i: nat, next: nat)
    requires Encodes(s, t, cur, parent, Arr(items)) && pl.argv == []
    requires cur + Size(Arr(items)) < |t| ==> t[cur + Size(Arr(items))].parent < cur
    modifies pl`argv
    ensures ok <==> AllText(items) && Lasts(mem, from, 2 * |items|)
    ensures ok ==> i == cur + Size(Arr(items)) && next == from + 2 * |items| && pl.argv == TextsTo(items, |items|)
  {
    i, next := cur + 1, from;
    ghost var n := 0;
    InArrayIff(s, t, cur, parent, items, n);
    while InArray(t, cur, i)
      invariant n <= |items| && i == cur + 1 + ItemsSize(items, n) && next == from + 2 * n
      invariant cur < |t| && (InArray(t, cur, i) <==> n < |items|)
      invariant (forall j :: 0 <= j < n ==> items[j].Text?) && Lasts(mem, from, 2 * n)
      invariant pl.argv == TextsTo(items, n)
      decreases |items| - n
    {
      InArrayIff(s, t, cur, parent, items, n);
      if t[i].kind != Str {
        return false, i, next;
      }
      if !mem(next) || !mem(next + 1) {
        return false, i, next;
      }
      pl.argv := pl.argv + [TokenText(s, t[i])];
      i, next := i + 1, next + 2;
      n := n + 1;
      InArrayIff(s, t, cur, parent, items, n);
    }
    return true, i, next;
  }

  /** The condition of the outer loop of set_plugins: token i is a key of the object at c. */
  predicate InObject(t: seq<Token>, c: nat, i: nat)
    requires c < |t|
  {
    i < |t| - 1 && t[i].parent == c && t[i].end <= t[c].end
  }

  lemma {:induction false} InObjectIff(s: string, t: seq<Token>, c: nat, parent: int, members: seq<Member>, k: nat)
    requires Encodes(s, t, c, parent, Obj(members)) && k <= |members| && Placed(t, c, Obj(members))
    ensures var i := KeyAt(c, members, k);
            && c < |t| && (InObject(t, c, i) <==> k < |members|)
            && (k < |members| ==>
                  && i + 1 < |t| && t[i].kind == Str
                  && t[i].start <= t[i].end <= |s| && TokenText(s, t[i]) == members[k].key
                  && t[i + 1].parent == i && (t[i + 1].kind == Array <==> members[k].value.Arr?)
                  && Encodes(s, t, i + 1, i, members[k].value)
                  && KeyAt(c, members, k + 1) == i + 1 + Size(members[k].value))
  {
    if k < |members| {
      MemberAt(s, t, c, parent, members, k);
      Head(s, t, KeyAt(c, members, k) + 1, KeyAt(c, members, k), members[k].value);
    }
  }

  /** The token after the value of a member is no item of that value. */
  lemma {:induction false} AfterMember(s: string, t: seq<Token>, c: nat, parent: int, members: seq<Member>, k: nat)
    requires Encodes(s, t, c, parent, Obj(members)) && k < |members| && Placed(t, c, Obj(members))
    ensures var next := KeyAt(c, members, k + 1);
            next < |t| ==> t[next].parent < KeyAt(c, members, k) + 1
  {
    if k + 1 < |members| {
      MemberAt(s, t, c, parent, members, k + 1);
    } else {
      assert KeyAt(c, members, k + 1) == c + Size(Obj(members));
    }
  }

  /** The body of the outer loop of set_plugins: member k, whose key is token i. */
  method AddPlugin(s: string, t: seq<Token>, c: nat, i: nat, queue: PluginQueue, mem: nat -> bool, from: nat,
      ghost parent: int, ghost members: seq<Member>, ghost k: nat, ghost plugins: seq<PluginSpec>)
    returns (ok: bool, next: nat, to: nat)
    requires Encodes(s, t, c, parent, Obj(members)) && k < |members| && Placed(t, c, Obj(members))
    requires i == KeyAt(c, members, k) && queue.Shows(plugins)
    modifies queue, queue.Nodes()
    ensures ok <==> IsPlugin(members[k]) && Lasts(mem, from, PluginCost(members[k]))
    ensures ok <==>
              var v := members[k].value;
              && v.Arr? && (forall i :: 0 <= i < |v.items| ==> v.items[i].Text?)
              && forall n :: from <= n < from + 2 + 2 * |v.items| ==> mem(n)
    ensures ok ==> next == KeyAt(c, members, k + 1) && to == from + PluginCost(members[k])
    ensures ok ==> to == from + 2 + 2 * |members[k].value.items|
    ensures ok ==> queue.Shows(plugins + [PluginOf(members[k])])
    ensures !ok ==> queue.Shows(plugins)
    ensures queue.Grown()
  {
    InObjectIff(s, t, c, parent, members, k);
    AfterMember(s, t, c, parent, members, k);
    if !(t[i].kind == Str && t[i + 1].parent == i && t[i + 1].kind == Array) {
      return false, i, from;
    }
    if !mem(from) || !mem(from + 1) {
      return false, i, from;
    }
    var pl := new Plugin(TokenText(s, t[i]));
    ok, next, to := ReadArgv(s, t, i + 1, pl, mem, from + 2, i, members[k].value.items);
    if ok {
      assert queue.first != null ==> queue.last in queue.spine;
      queue.Add(pl, plugins);
    }
  }

  /** set_plugins.  It appends the plugins that can be read, in order, and succeeds exactly if the value
      is a list of plugins and all of them can. */
  method SetPlugins(s: string, t: seq<Token>, c: nat, queue: PluginQueue, mem: nat -> bool, from: nat,
      ghost parent: int, ghost v: Json, ghost plugins: seq<PluginSpec>)
    returns (rc: int, to: nat)
    requires Encodes(s, t, c, parent, v) && Placed(t, c, v) && queue.Shows(plugins)
    modifies queue, queue.Nodes()
    ensures v.Obj? ==>
              var n := ReadTo(v.members, mem, from, |v.members|);
              && queue.Shows(plugins + PluginsOf(v.members, mem, from, n))
              && rc == (if n == |v.members| then 0 else -1)
              && (rc == 0 ==> to == from + PluginCostTo(v.members, |v.members|))
    ensures !v.Obj? ==> queue.Shows(plugins) && rc == -1
    ensures queue.Grown()
  {
    Head(s, t, c, parent, v);
    if t[c].kind != Object {
      return -1, from;
    }
    rc, to := SetMembers(s, t, c, queue, mem, from, parent, v.members, plugins);
  }

  /** The outer loop of set_plugins. */
  method SetMembers(s: string, t: seq<Token>, c: nat, queue: PluginQueue, mem: nat -> bool, from: nat,
      ghost parent: int, ghost members: seq<Member>, ghost plugins: seq<PluginSpec>)
    returns (rc: int, to: nat)
    requires Encodes(s, t, c, parent, Obj(members)) && Placed(t, c, Obj(members)) && queue.Shows(plugins)
    modifies queue, queue.Nodes()
    ensures var n := ReadTo(members, mem, from, |members|);
            && queue.Shows(plugins + PluginsOf(members, mem, from, n))
            && rc == (if n == |members| then 0 else -1)
            && (rc == 0 ==> to == from + PluginCostTo(members, |members|))
    ensures queue.Grown()
  {
    var i := c + 1;
    to := from;
    ghost var k, shown := 0, plugins;
    InObjectIff(s, t, c, parent, members, k);
    while InObject(t, c, i)
      invariant k <= |members| && i == KeyAt(c, members, k) && to == from + PluginCostTo(members, k)
      invariant c < |t| && (InObject(t, c, i) <==> k < |members|)
      invariant forall j :: 0 <= j < k ==> CanAdd(members, mem, from, j)
      invariant shown == plugins + PluginsOf(members, mem, from, k)
      invariant queue.Shows(shown) && queue.Grown()
      decreases |members| - k
    {
      var ok;
      ok, i, to := AddPlugin(s, t, c, i, queue, mem, to, parent, members, k, shown);
      if !ok {
        ReadToIs(members, mem, from, k);
        return -1, to;
      }
      OneMorePlugin(plugins, members, mem, from, k);
      shown := shown + [PluginOf(members[k])];
      k := k + 1;
      InObjectIff(s, t, c, parent, members, k);
    }
    ReadToIs(members, mem, from, k);
    return 0, to;
  }

  lemma {:induction false} OneMorePlugin(plugins: seq<PluginSpec>, members: seq<Member>, mem: nat -> bool, from: nat,
      k: nat)
    requires k < |members| && forall j :: 0 <= j <= k ==> CanAdd(members, mem, from, j)
    ensures IsPlugin(members[k])
    ensures plugins + PluginsOf(members, mem, from, k) + [PluginOf(members[k])] ==
            plugins + PluginsOf(members, mem, from, k + 1)
  {
    assert CanAdd(members, mem, from, k);
  }

  /** The loop of set_value over an array of strings; if it fails, str_arr_destroy leaves none.  As in
      ReadArgv, it allocates twice for each. */
  method ReadStrings(s: string, t: seq<Token>, cur: nat, mem: nat -> bool, from: nat, ghost parent: int,
      ghost items: seq<Json>)
    returns (rc: int, v: seq<string>, next: nat)
    requires Encodes(s, t, cur, parent, Arr(items)) && Placed(t, cur, Arr(items))
    ensures rc == if AllText(items) && Lasts(mem, from, 2 * |items|) then 0 else -1
    ensures v == if AllText(items) && Lasts(mem, from, 2 * |items|) then TextsTo(items, |items|) else []
    ensures rc == 0 ==> next == from + 2 * |items|
  {
    v := [];
    var i := cur + 1;
    next := from;
    ghost var n := 0;
    while i < |t|
      invariant n <= |items| && i == cur + 1 + ItemsSize(items, n) && next == from + 2 * n
      invariant (forall j :: 0 <= j < n ==> items[j].Text?) && Lasts(mem, from, 2 * n)
      invariant v == TextsTo(items, n)
      decreases |t| - i
    {
      ItemOrNext(s, t, cur, parent, items, n);
      if t[i].kind != Str {
        return -1, [], next;
      }
      if t[i].parent != cur {
        break;
      }
      if !mem(next) || !mem(next + 1) {
        return -1, [], next;
      }
      v := v + [TokenText(s, t[i])];
      i, next := i + 1, next + 2;
      n := n + 1;
    }
    ItemOrEnd(s, t, cur, parent, items, n);
    return 0, v, next;
  }

  /** The token at the place of item n: that item, or the key after the array. */
  lemma {:induction false} ItemOrNext(s: string, t: seq<Token>, cur: nat, parent: int, items: seq<Json>, n: nat)
    requires Encodes(s, t, cur, parent, Arr(items)) && Placed(t, cur, Arr(items)) && n <= |items|
    requires cur + 1 + ItemsSize(items, n) < |t|
    ensures var i := cur + 1 + ItemsSize(items, n);
            && (t[i].parent == cur <==> n < |items|)
            && (t[i].kind != Str ==> n < |items| && !items[n].Text?)
            && (n < |items| && t[i].kind == Str ==>
                  && items[n].Text? && t[i].start <= t[i].end <= |s|
                  && TokenText(s, t[i]) == items[n].text && ItemsSize(items, n + 1) == ItemsSize(items, n) + 1)
  {
    if n < |items| {
      ItemAt(s, t, cur, parent, items, n);
      Head(s, t, cur + 1 + ItemsSize(items, n), cur, items[n]);
    }
  }

  /** Once the tokens are over, or belong to something else, so are the items. */
  lemma {:induction false} ItemOrEnd(s: string, t: seq<Token>, cur: nat, parent: int, items: seq<Json>, n: nat)
    requires Encodes(s, t, cur, parent, Arr(items)) && n <= |items|
    ensures cur + 1 + ItemsSize(items, n) >= |t| || t[cur + 1 + ItemsSize(items, n)].parent != cur ==> n == |items|
  {
    if n < |items| {
      ItemAt(s, t, cur, parent, items, n);
      Head(s, t, cur + 1 + ItemsSize(items, n), cur, items[n]);
    }
  }

  /** The key and the value of a top-level member. */
  lemma {:induction false} MemberFound(s: string, t: seq<Token>, members: seq<Member>, k: nat)
    requires Document(s, t, members) && k < |members|
    ensures var m, cur := members[k], KeyAt(0, members, k) + 1;
            && cur < |t| && t[cur].parent == cur - 1
            && t[cur - 1].start <= t[cur - 1].end <= |s| && TokenText(s, t[cur - 1]) == m.key
            && t[cur].start <= t[cur].end <= |s|
            && (t[cur].kind == Str <==> m.value.Text?) && (m.value.Text? ==> TokenText(s, t[cur]) == m.value.text)
            && Encodes(s, t, cur, cur - 1, m.value) && Placed(t, cur, m.value)
  {
    var cur := KeyAt(0, members, k) + 1;
    MemberAt(s, t, 0, -1, members, k);
    Head(s, t, cur, cur - 1, members[k].value);
    TopLevelPlaced(s, t, members, k);
  }

  /** The branch of set_value for a number.  strtol reads on from the start of the token; a number out
      of range sets errno. */
  method ReadNumber(s: string, start: nat, end: nat) returns (number: Option<int>)
    requires start <= end <= |s| && start < |s| && (IsDigit(s[start]) && end < |s| ==> !IsDigit(s[end]))
    ensures number ==
            if start < end && IsDigit(s[start]) && Leading(s[start..end], 0, 0) <= LONG_MAX
            then Some(ToInt(Leading(s[start..end], 0, 0)))
            else None
  {
    if !IsDigit(s[start]) {
      return None;
    }
    LeadingInToken(s, start, end, start, 0);
    var val := Leading(s, start, 0);
    if val > LONG_MAX {
      return None;
    }
    return Some(ToInt(val));
  }

  /** Member k of the file includes this directory. */
  predicate IncludesDir(fs: Files, filename: string, k: nat, dirname: string) {
    && k < |MembersOf(fs, filename)|
    && MembersOf(fs, filename)[k].key == INCLUDE_DIRECTORY && MembersOf(fs, filename)[k].value == Text(dirname)
    && dirname in fs.dirs
  }

  /** The static variables that hold the configuration. */
  class Config {
    const nums: array<int>
    const strs: array<string>
    const arrs: array<seq<string>>
    const queue: PluginQueue

    ghost predicate Shows(st: State)
      reads this, nums, strs, arrs, queue, queue.Nodes()
    {
      State(nums[..], strs[..], arrs[..], st.plugins) == st && queue.Shows(st.plugins)
    }

    /** fra_p_conf_init. */
    constructor (numCount: nat, strCount: nat, arrCount: nat)
      ensures Shows(State(seq(numCount, _ => 0), seq(strCount, _ => ""), seq(arrCount, _ => []), []))
      ensures fresh(nums) && fresh(strs) && fresh(arrs) && fresh(queue) && queue.Nodes() == {}
    {
      nums := new int[numCount](_ => 0);
      strs := new string[strCount](_ => "");
      arrs := new seq<string>[arrCount](_ => []);
      queue := new PluginQueue();
    }

    /** set_value: an option of any of the four types.  If the value is not acceptable or memory runs out
        the option keeps its value, but an array of strings is empty. */
    method SetValue(c: Conf, s: string, t: seq<Token>, cur: nat, mem: nat -> bool, from: nat, ghost parent: int,
        ghost v: Json, ghost st: State)
      returns (rc: int, to: nat)
      requires Shows(st) && InState(CellOf(c), st)
      requires Encodes(s, t, cur, parent, v) && Placed(t, cur, v)
      modifies nums, strs, arrs
      ensures c.typ == STR ==>
                && rc == (if v.Text? && mem(from) then 0 else -1)
                && strs[..] == if rc == 0 then old(strs[..])[c.id := v.text] else old(strs[..])
      ensures c.typ == BOOLEAN ==>
                && rc == (if v.Prim? && v.text != "" && (v.text[0] == 't' || v.text[0] == 'f') then 0 else -1)
                && nums[..] == if rc == 0 then old(nums[..])[c.id := if v.text[0] == 't' then 1 else 0]
                               else old(nums[..])
      ensures c.typ == NUMBER ==>
                && rc == (if (v.Prim? || v.Text?) && v.text != "" && '0' <= v.text[0] <= '9'
                             && Leading(v.text, 0, 0) <= 0x7fff_ffff_ffff_ffff then 0 else -1)
                && nums[..] == if rc == 0 then old(nums[..])[c.id := ToInt(Leading(v.text, 0, 0))]
                               else old(nums[..])
      ensures c.typ == STR_ARR ==>
                && rc == (if v.Arr? && (forall i :: 0 <= i < |v.items| ==> v.items[i].Text?)
                             && (forall k :: from <= k < from + 2 * |v.items| ==> mem(k)) then 0 else -1)
                && c.id < arrs.Length && arrs[..] == old(arrs[..])[c.id := arrs[c.id]]
                && |arrs[c.id]| == (if rc == 0 then |v.items| else 0)
                && (rc == 0 ==> forall i :: 0 <= i < |v.items| ==> arrs[c.id][i] == v.items[i].text)
      ensures c.typ != STR ==> strs[..] == old(strs[..])
      ensures c.typ != BOOLEAN && c.typ != NUMBER ==> nums[..] == old(nums[..])
      ensures c.typ != STR_ARR ==> arrs[..] == old(arrs[..])
      ensures Shows(AssignIn(c, v, st, mem, from).0) && rc == if AssignIn(c, v, st, mem, from).1 then 0 else -1
      ensures rc == 0 ==> to == from + ValueCost(c, v)
    {
      rc, to := SetTyped(c, s, t, cur, mem, from, parent, v, st);
      AssignInIs(c, v, st, mem, from);
    }

    /** Its branches. */
    method SetTyped(c: Conf, s: string, t: seq<Token>, cur: nat, mem: nat -> bool, from: nat, ghost parent: int,
        ghost v: Json, ghost st: State)
      returns (rc: int, to: nat)
      requires Shows(st) && InState(CellOf(c), st)
      requires Encodes(s, t, cur, parent, v) && Placed(t, cur, v)
      modifies nums, strs, arrs
      ensures Shows(AssignIn(c, v, st, mem, from).0) && rc == if AssignIn(c, v, st, mem, from).1 then 0 else -1
      ensures rc == 0 ==> to == from + ValueCost(c, v)
    {
      Head(s, t, cur, parent, v);
      var tok := t[cur];
      to := from;
      match c.typ {
        case STR =>
          if tok.kind != Str {
            return -1, to;
          }
          if !mem(from) {
            return -1, to;
          }
          strs[c.id] := TokenText(s, tok);
          to := from + 1;
        case BOOLEAN =>
          if tok.kind != Primitive {
            return -1, to;
          }
          if s[tok.start] == 't' {
            nums[c.id] := 1;
          } else if s[tok.start] == 'f' {
            nums[c.id] := 0;
          } else {
            return -1, to;
          }
        case NUMBER =>
          var number := ReadNumber(s, tok.start, tok.end);
          if number.None? {
            return -1, to;
          }
          nums[c.id] := number.value;
        case STR_ARR =>
          arrs[c.id] := [];
          if tok.kind != Array {
            return -1, to;
          }
          var strings;
          rc, strings, to := ReadStrings(s, t, cur, mem, from, parent, v.items);
          arrs[c.id] := strings;
          return;
      }
      return 0, to;
    }

    /** set_defaults.  It stops at the first row whose string cannot be assigned. */
    method SetDefaults(confs: seq<Conf>, assigns: nat -> bool, ghost st: State) returns (rc: int, ghost done: nat)
      requires Shows(st) && AllFit(confs, st)
      modifies nums, strs, arrs, queue
      ensures done <= |confs| && Shows(DefaultsTo(confs, done, st)) && queue.Nodes() == {}
      ensures forall i :: 0 <= i < done && confs[i].typ == STR ==> assigns(i)
      ensures done < |confs| ==> confs[done].typ == STR && !assigns(done)
      ensures rc == if done == |confs| then 0 else -1
    {
      var freed := queue.Reset(st.plugins);
      rc, done := SetRows(confs, assigns, st);
    }

    /** The loop of set_defaults. */
    method SetRows(confs: seq<Conf>, assigns: nat -> bool, ghost st: State) returns (rc: int, ghost done: nat)
      requires AllFit(confs, st) && Shows(DefaultsTo(confs, 0, st))
      modifies nums, strs, arrs
      ensures done <= |confs| && Shows(DefaultsTo(confs, done, st))
      ensures forall i :: 0 <= i < done && confs[i].typ == STR ==> assigns(i)
      ensures done < |confs| ==> confs[done].typ == STR && !assigns(done)
      ensures rc == if done == |confs| then 0 else -1
    {
      var i := 0;
      ghost var now := DefaultsTo(confs, 0, st);
      while i < |confs|
        invariant 0 <= i <= |confs| && now == DefaultsTo(confs, i, st) && Shows(now)
        invariant forall j :: 0 <= j < i && confs[j].typ == STR ==> assigns(j)
      {
        if confs[i].typ == STR && !assigns(i) {
          return -1, i;
        }
        now := SetDefault(confs[i], now);
        i := i + 1;
      }
      return 0, i;
    }

    /** The body of that loop for one row, once its string can be assigned. */
    method SetDefault(c: Conf, ghost now: State) returns (ghost next: State)
      requires Shows(now) && InState(CellOf(c), now)
      modifies nums, strs, arrs
      ensures next == Put(now, CellOf(c), Default(c)) && Shows(next)
      ensures strs[..] == if c.typ != STR then old(strs[..])
                          else old(strs[..])[c.id := if c.str.Some? then c.str.value else ""]
      ensures nums[..] == if c.typ != NUMBER && c.typ != BOOLEAN then old(nums[..]) else old(nums[..])[c.id := c.val]
      ensures arrs[..] == if c.typ != STR_ARR then old(arrs[..]) else old(arrs[..])[c.id := []]
    {
      match c.typ {
        case STR => strs[c.id] := if c.str.Some? then c.str.value else "";
        case STR_ARR => arrs[c.id] := [];
        case NUMBER => nums[c.id] := c.val;
        case BOOLEAN => nums[c.id] := c.val;
      }
      next := Put(now, CellOf(c), Default(c));
    }

    /** The configuration is what has been reached, and so are the result and, unless it is a failure,
        the number of allocations. */
    ghost predicate Ends(r: Reached, rc: int, to: nat)
      reads this, nums, strs, arrs, queue, queue.Nodes()
    {
      Shows(r.st) && rc == (if r.ok then 0 else -1) && (r.ok ==> to == r.used)
    }

    /** fra_p_conf_load.  If a default cannot be set no file is read. */
    method Load(confs: seq<Conf>, assigns: nat -> bool, fs: Files, filename: string, mem: nat -> bool,
        ghost rank: string -> nat, ghost st: State)
      returns (rc: int, ghost done: nat)
      requires Shows(st) && AllFit(confs, st) && WellFormed(fs) && Acyclic(fs, rank)
      modifies nums, strs, arrs, queue, queue.Nodes()
      ensures forall i :: 0 <= i < done <= |confs| && confs[i].typ == STR ==> assigns(i)
      ensures done < |confs| ==>
              confs[done].typ == STR && !assigns(done) && rc == -1 && Shows(DefaultsTo(confs, done, st))
      ensures done >= |confs| ==>
              var r := IncludeSpec.Load(confs, fs, rank, filename, st, mem);
              Shows(r.st) && rc == if r.ok then 0 else -1
    {
      rc, done := SetDefaults(confs, assigns, st);
      if rc != 0 {
        return -1, done;
      }
      var to;
      rc, to := LoadRecurse(confs, fs, filename, mem, 0, rank, Defaults(confs, st));
    }

    /** conf_load_recurse: what it does to the configuration is what the flattened file does. */
    method LoadRecurse(confs: seq<Conf>, fs: Files, filename: string, mem: nat -> bool, from: nat,
        ghost rank: string -> nat, ghost st: State)
      returns (rc: int, to: nat)
      requires Shows(st) && AllFit(confs, st) && WellFormed(fs) && Acyclic(fs, rank)
      modifies nums, strs, arrs, queue, queue.Nodes()
      ensures Ends(Outcome(confs, FlattenFile(fs, rank, filename), st, mem, from), rc, to) && queue.Grown()
      decreases rank(filename), 4, 1
    {
      if filename !in fs.files || fs.files[filename].Unreadable? {
        return -1, from;
      }
      var ok;
      ok, to := Parse(fs.files[filename], mem, from);
      if CanRead(fs, filename) {
        ReadFirst(confs, fs, rank, filename, st, mem, from);
      }
      if !ok {
        return -1, to;
      }
      rc, to := LoadMembers(confs, fs, filename, mem, to, rank, st);
      if rc == 0 && !fs.files[filename].closes {
        rc := -1;
      }
    }

    /** The loop of conf_load_recurse. */
    method LoadMembers(confs: seq<Conf>, fs: Files, filename: string, mem: nat -> bool, from: nat,
        ghost rank: string -> nat, ghost st: State)
      returns (rc: int, to: nat)
      requires Shows(st) && AllFit(confs, st) && WellFormed(fs) && Acyclic(fs, rank) && CanRead(fs, filename)
      modifies nums, strs, arrs, queue, queue.Nodes()
      ensures Ends(Outcome(confs, FlattenMembers(fs, rank, filename, |MembersOf(fs, filename)|), st, mem, from), rc, to)
      ensures queue.Grown()
      decreases rank(filename), 4, 0
    {
      ghost var now := st;
      var n, i := |MembersOf(fs, filename)|, 0;
      to := from;
      while i < n
        invariant 0 <= i <= n && Shows(now)
        invariant Outcome(confs, FlattenMembers(fs, rank, filename, i), st, mem, from) == Reached(now, true, to)
        invariant queue.Grown()
      {
        rc, to, now := LoadNext(confs, fs, filename, i, mem, from, to, rank, st, now);
        if rc != 0 {
          return -1, to;
        }
        i := i + 1;
      }
      return 0, to;
    }

    /** One turn of it. */
    method LoadNext(confs: seq<Conf>, fs: Files, filename: string, i: nat, mem: nat -> bool, ghost from: nat,
        used: nat, ghost rank: string -> nat, ghost st: State, ghost now: State)
      returns (rc: int, to: nat, ghost next: State)
      requires Shows(now) && AllFit(confs, st) && WellFormed(fs) && Acyclic(fs, rank)
      requires CanRead(fs, filename) && i < |MembersOf(fs, filename)|
      requires Outcome(confs, FlattenMembers(fs, rank, filename, i), st, mem, from) == Reached(now, true, used)
      modifies nums, strs, arrs, queue, queue.Nodes()
      ensures Shows(next) && queue.Grown() && (rc == 0 || rc == -1)
      ensures rc == 0 ==>
                Outcome(confs, FlattenMembers(fs, rank, filename, i + 1), st, mem, from) == Reached(next, true, to)
      ensures rc != 0 ==>
                var r := Outcome(confs, FlattenMembers(fs, rank, filename, |MembersOf(fs, filename)|), st, mem, from);
                r.st == next && !r.ok
      decreases rank(filename), 3, 1
    {
      NextMember(confs, fs, rank, filename, i, st, now, mem, from, used);
      rc, to := LoadMember(confs, fs, filename, i, mem, used, rank, now);
      next := Outcome(confs, FlattenMember(fs, rank, filename, i), now, mem, used).st;
    }

    /** What the loop does with member k of the file. */
    method LoadMember(confs: seq<Conf>, fs: Files, filename: string, k: nat, mem: nat -> bool, from: nat,
        ghost rank: string -> nat, ghost st: State)
      returns (rc: int, to: nat)
      requires Shows(st) && AllFit(confs, st) && WellFormed(fs) && Acyclic(fs, rank) && k < |MembersOf(fs, filename)|
      modifies nums, strs, arrs, queue, queue.Nodes()
      ensures Ends(Outcome(confs, FlattenMember(fs, rank, filename, k), st, mem, from), rc, to) && queue.Grown()
      decreases rank(filename), 3, 0
    {
      var file := fs.files[filename];
      var s, t, cur := file.s, file.t, KeyAt(0, file.members, k) + 1;
      ghost var m := file.members[k];
      MemberFound(s, t, file.members, k);
      var key := TokenText(s, t[t[cur].parent]);
      if key == INCLUDE || key == INCLUDE_DIRECTORY {
        if t[cur].kind != Str {
          return -1, from;
        }
        rc, to := LoadIncluded(confs, fs, filename, k, key == INCLUDE, TokenText(s, t[cur]), mem, from, rank, st);
      } else {
        OutcomeOne(confs, m, st, mem, from);
        rc, to := LoadAssignment(confs, s, t, cur, mem, from, m, st);
      }
    }

    /** Its branches for a file and for a directory: the name is copied first. */
    method LoadIncluded(confs: seq<Conf>, fs: Files, filename: string, k: nat, one: bool, name: string,
        mem: nat -> bool, from: nat, ghost rank: string -> nat, ghost st: State)
      returns (rc: int, to: nat)
      requires Shows(st) && AllFit(confs, st) && WellFormed(fs) && Acyclic(fs, rank) && k < |MembersOf(fs, filename)|
      requires MembersOf(fs, filename)[k] == Member(if one then INCLUDE else INCLUDE_DIRECTORY, Text(name))
      modifies nums, strs, arrs, queue, queue.Nodes()
      ensures Ends(Outcome(confs, FlattenMember(fs, rank, filename, k), st, mem, from), rc, to) && queue.Grown()
      decreases rank(filename), 2, 2
    {
      NameFirst(confs, fs, rank, filename, k, st, mem, from);
      if !mem(from) {
        return -1, from;
      }
      if one {
        assert Includes(fs, MembersOf(fs, filename)[k], name);
        rc, to := LoadRecurse(confs, fs, name, mem, from + 1, rank, st);
      } else if name !in fs.dirs {
        return -1, from;
      } else {
        rc, to := LoadDirectory(confs, fs, filename, k, name, mem, from + 1, rank, st);
      }
    }

    /** The branches for a member that is no include. */
    method LoadAssignment(confs: seq<Conf>, s: string, t: seq<Token>, cur: nat, mem: nat -> bool, from: nat,
        ghost m: Member, ghost st: State)
      returns (rc: int, to: nat)
      requires Shows(st) && AllFit(confs, st) && 0 < cur
      requires Encodes(s, t, cur, cur - 1, m.value) && Placed(t, cur, m.value)
      requires t[cur - 1].start <= t[cur - 1].end <= |s| && TokenText(s, t[cur - 1]) == m.key
      modifies nums, strs, arrs, queue, queue.Nodes()
      ensures var r := ApplyIn(confs, m, st, mem, from); Shows(r.0) && rc == if r.1 then 0 else -1
      ensures rc == 0 ==> to == from + MemberCost(confs, m)
      ensures queue.Grown()
    {
      if TokenText(s, t[cur - 1]) == PLUGINS {
        rc, to := SetPlugins(s, t, cur, queue, mem, from, cur - 1, m.value, st.plugins);
      } else {
        rc, to := SetOption(confs, s, t, cur, mem, from, m, st);
      }
    }

    /** The loop over the table of options: sets the first one with this name. */
    method SetOption(confs: seq<Conf>, s: string, t: seq<Token>, cur: nat, mem: nat -> bool, from: nat,
        ghost m: Member, ghost st: State)
      returns (rc: int, to: nat)
      requires Shows(st) && AllFit(confs, st) && 0 < cur && m.key != PLUGINS
      requires Encodes(s, t, cur, cur - 1, m.value) && Placed(t, cur, m.value)
      requires t[cur - 1].start <= t[cur - 1].end <= |s| && TokenText(s, t[cur - 1]) == m.key
      modifies nums, strs, arrs
      ensures var r := ApplyIn(confs, m, st, mem, from); Shows(r.0) && rc == if r.1 then 0 else -1
      ensures rc == 0 ==> to == from + MemberCost(confs, m)
    {
      var j := 0;
      while j < |confs|
        invariant 0 <= j <= |confs| && Shows(st)
        invariant forall i :: 0 <= i < j ==> confs[i].name != m.key
      {
        if TokenText(s, t[cur - 1]) == confs[j].name {
          RowIs(confs, m.key, |confs|, j);
          rc, to := SetValue(confs[j], s, t, cur, mem, from, cur - 1, m.value, st);
          return;
        }
        j := j + 1;
      }
      RowIs(confs, m.key, |confs|, j);
      return 0, from;
    }

    /** The branch for a directory that could be opened. */
    method LoadDirectory(confs: seq<Conf>, fs: Files, filename: string, k: nat, dirname: string, mem: nat -> bool,
        from: nat, ghost rank: string -> nat, ghost st: State)
      returns (rc: int, to: nat)
      requires Shows(st) && AllFit(confs, st) && WellFormed(fs) && Acyclic(fs, rank)
               && IncludesDir(fs, filename, k, dirname)
      modifies nums, strs, arrs, queue, queue.Nodes()
      ensures var d := fs.dirs[dirname];
              var flat := Closing(FlattenDir(fs, rank, filename, k, |d.entries|), d.closes);
              Ends(Outcome(confs, flat, st, mem, from), rc, to)
      ensures queue.Grown()
      decreases rank(filename), 2, 1
    {
      rc, to := LoadEntries(confs, fs, filename, k, dirname, mem, from, rank, st);
      if rc == 0 && !fs.dirs[dirname].closes {
        rc := -1;
      }
    }

    /** The loop over the entries of a directory. */
    method LoadEntries(confs: seq<Conf>, fs: Files, filename: string, k: nat, dirname: string, mem: nat -> bool,
        from: nat, ghost rank: string -> nat, ghost st: State)
      returns (rc: int, to: nat)
      requires Shows(st) && AllFit(confs, st) && WellFormed(fs) && Acyclic(fs, rank)
               && IncludesDir(fs, filename, k, dirname)
      modifies nums, strs, arrs, queue, queue.Nodes()
      ensures var flat := FlattenDir(fs, rank, filename, k, |fs.dirs[dirname].entries|);
              Ends(Outcome(confs, flat, st, mem, from), rc, to)
      ensures queue.Grown()
      decreases rank(filename), 2, 0
    {
      ghost var now := st;
      var n, i := |fs.dirs[dirname].entries|, 0;
      to := from;
      while i < n
        invariant 0 <= i <= n && Shows(now)
        invariant Outcome(confs, FlattenDir(fs, rank, filename, k, i), st, mem, from) == Reached(now, true, to)
        invariant queue.Grown()
      {
        rc, to, now := LoadEntry(confs, fs, filename, k, i, dirname, mem, from, to, rank, st, now);
        if rc != 0 {
          return;
        }
        i := i + 1;
      }
      rc := 0;
    }

    /** The body of that loop, for entry i: the path is put together first. */
    method LoadEntry(confs: seq<Conf>, fs: Files, filename: string, k: nat, i: nat, dirname: string,
        mem: nat -> bool, ghost from: nat, used: nat, ghost rank: string -> nat, ghost st: State, ghost now: State)
      returns (rc: int, to: nat, ghost next: State)
      requires Shows(now) && AllFit(confs, st) && WellFormed(fs) && Acyclic(fs, rank)
      requires IncludesDir(fs, filename, k, dirname) && i < |fs.dirs[dirname].entries|
      requires Outcome(confs, FlattenDir(fs, rank, filename, k, i), st, mem, from) == Reached(now, true, used)
      modifies nums, strs, arrs, queue, queue.Nodes()
      ensures Shows(next) && queue.Grown() && (rc == 0 || rc == -1)
      ensures rc == 0 ==>
                Outcome(confs, FlattenDir(fs, rank, filename, k, i + 1), st, mem, from) == Reached(next, true, to)
      ensures rc != 0 ==>
                var r := Outcome(confs, FlattenDir(fs, rank, filename, k, |fs.dirs[dirname].entries|), st, mem, from);
                r.st == next && !r.ok
      decreases rank(filename), 1, 0
    {
      var name := fs.dirs[dirname].entries[i];
      if Hidden(name) {
        return 0, used, now;
      }
      NextEntry(confs, fs, rank, filename, k, i, st, now, mem, from, used);
      if !mem(used) {
        return -1, used, now;
      }
      rc, to := LoadRecurse(confs, fs, PathIn(dirname, name), mem, used + 1, rank, now);
      next := Outcome(confs, FlattenFile(fs, rank, PathIn(dirname, name)), now, mem, used + 1).st;
    }
  }

  /** The part of conf_load_recurse before its loop: bread, the array of tokens, which is made larger
      once if need be, and the list of top-level members. */
  method Parse(file: File, mem: nat -> bool, from: nat) returns (ok: bool, to: nat)
    requires file.Readable?
    ensures ok <==> |file.t| <= MORE_TOKENS && Lasts(mem, from, ReadCost(file))
    ensures ok ==> to == from + ReadCost(file)
    ensures var count := file.buffers + if |file.t| > 200 then 3 else 2;
            ok <==> |file.t| <= 1200 && forall k :: from <= k < from + count ==> mem(k)
  {
    to := from;
    while to < from + file.buffers
      invariant from <= to <= from + file.buffers && Lasts(mem, from, to - from)
    {
      if !mem(to) {
        return false, to;
      }
      to := to + 1;
    }
    if !mem(to) {
      return false, to;
    }
    var mlen := FIRST_TOKENS;
    to := to + 1;
    if |file.t| > mlen {
      if !mem(to) {
        return false, to;
      }
      mlen := MORE_TOKENS;
      to := to + 1;
    }
    if |file.t| > mlen || !mem(to) {
      return false, to;
    }
    return true, to + 1;
  }
}
