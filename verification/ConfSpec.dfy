/** What a configuration file means (src/conf.c): the assignments it makes, with those of the files it
    includes put in their place, applied one after the other. */
module ConfSpec {
  import opened Wrappers
  import opened Json
  import opened PluginQueue

  // ---------------------------------------------------------------- the list of plugins

  ghost predicate AllText(items: seq<Json>) {
    forall j :: 0 <= j < |items| ==> items[j].Text?
  }

  /** The first n items, which are strings. */
  ghost function TextsTo(items: seq<Json>, n: nat): (texts: seq<string>)
    requires n <= |items| && forall j :: 0 <= j < n ==> items[j].Text?
    ensures |texts| == n
  {
    seq(n, j requires 0 <= j < n => items[j].text)
  }

  /** A plugin is a member whose value is an array of strings. */
  ghost predicate IsPlugin(m: Member) {
    m.value.Arr? && AllText(m.value.items)
  }

  ghost function PluginOf(m: Member): PluginSpec
    requires IsPlugin(m)
  {
    PluginSpec(m.key, TextsTo(m.value.items, |m.value.items|))
  }

  /** How many of the first k members are plugins, up to the first one that is not. */
  ghost function GoodTo(members: seq<Member>, k: nat): (n: nat)
    requires k <= |members|
    ensures n <= k && (forall j :: 0 <= j < n ==> IsPlugin(members[j])) && (n < k ==> !IsPlugin(members[n]))
  {
    if k == 0 then 0
    else
      var n := GoodTo(members, k - 1);
      if n == k - 1 && IsPlugin(members[k - 1]) then k else n
  }

  /** The plugins before the first member that is not one. */
  ghost function PluginsIn(v: Json): (plugins: seq<PluginSpec>) {
    if v.Obj? then FirstPlugins(v.members, GoodTo(v.members, |v.members|)) else []
  }

  /** The first n members, which are plugins. */
  ghost function FirstPlugins(members: seq<Member>, n: nat): (plugins: seq<PluginSpec>)
    requires n <= |members| && forall j :: 0 <= j < n ==> IsPlugin(members[j])
  {
    seq(n, j requires 0 <= j < n => PluginOf(members[j]))
  }

  /** How far the good members go does not depend on how far one looks. */
  lemma {:induction false} GoodToIs(members: seq<Member>, k: nat, n: nat)
    requires n <= k <= |members| && (forall j :: 0 <= j < n ==> IsPlugin(members[j]))
             && (n < k ==> !IsPlugin(members[n]))
    ensures GoodTo(members, k) == n
  {}

  // ---------------------------------------------------------------- when memory runs out

  /** The allocations with these numbers succeed. */
  ghost predicate Lasts(mem: nat -> bool, from: nat, count: nat) {
    forall k :: from <= k < from + count ==> mem(k)
  }

  /** How many allocations a plugin takes: for itself, its name, and twice for each argument. */
  ghost function PluginCost(m: Member): nat {
    if m.value.Arr? then 2 + 2 * |m.value.items| else 0
  }

  ghost function PluginCostTo(members: seq<Member>, k: nat): nat
    requires k <= |members|
  {
    if k == 0 then 0 else PluginCostTo(members, k - 1) + PluginCost(members[k - 1])
  }

  /** Member j is a plugin, and there is memory for it. */
  ghost predicate CanAdd(members: seq<Member>, mem: nat -> bool, from: nat, j: nat)
    requires j < |members|
  {
    IsPlugin(members[j]) && Lasts(mem, from + PluginCostTo(members, j), PluginCost(members[j]))
  }

  /** How many of the first k members can be read as plugins: those before the first one that is none,
      or for which memory runs out. */
  ghost function ReadTo(members: seq<Member>, mem: nat -> bool, from: nat, k: nat): (n: nat)
    requires k <= |members|
    ensures n <= k && (forall j :: 0 <= j < n ==> CanAdd(members, mem, from, j))
    ensures n < k ==> !CanAdd(members, mem, from, n)
  {
    if k == 0 then 0
    else
      var n := ReadTo(members, mem, from, k - 1);
      if n == k - 1 && CanAdd(members, mem, from, k - 1) then k else n
  }

  lemma {:induction false} ReadToIs(members: seq<Member>, mem: nat -> bool, from: nat, n: nat)
    requires n <= |members| && (forall j :: 0 <= j < n ==> CanAdd(members, mem, from, j))
    requires n < |members| ==> !CanAdd(members, mem, from, n)
    ensures ReadTo(members, mem, from, |members|) == n
  {}

  /** The first n members as plugins, if they can be read. */
  ghost function PluginsOf(members: seq<Member>, mem: nat -> bool, from: nat, n: nat): (plugins: seq<PluginSpec>)
    requires n <= |members| && forall j :: 0 <= j < n ==> CanAdd(members, mem, from, j)
  {
    AreRead(members, mem, from, n);
    FirstPlugins(members, n)
  }

  lemma {:induction false} AreRead(members: seq<Member>, mem: nat -> bool, from: nat, n: nat)
    requires n <= |members| && forall j :: 0 <= j < n ==> CanAdd(members, mem, from, j)
    ensures forall j :: 0 <= j < n ==> IsPlugin(members[j])
  {
    forall j | 0 <= j < n
      ensures IsPlugin(members[j])
    {
      assert CanAdd(members, mem, from, j);
    }
  }

  /** A plugin has the key as its name and the strings as its arguments. */
  lemma {:induction false} PluginsAre(members: seq<Member>, mem: nat -> bool, from: nat, n: nat)
    requires n <= |members| && forall j :: 0 <= j < n ==> CanAdd(members, mem, from, j)
    ensures |PluginsOf(members, mem, from, n)| == n
    ensures forall j :: 0 <= j < n ==>
              var p := PluginsOf(members, mem, from, n)[j];
              && p.name == members[j].key && members[j].value.Arr? && |p.argv| == |members[j].value.items|
              && forall i :: 0 <= i < |p.argv| ==> members[j].value.items[i] == Text(p.argv[i])
  {
    AreRead(members, mem, from, n);
  }

  /** All members can be read exactly if all are plugins and memory lasts. */
  lemma {:induction false} AllReadIff(members: seq<Member>, mem: nat -> bool, from: nat, k: nat)
    requires k <= |members|
    ensures (forall j :: 0 <= j < k ==> CanAdd(members, mem, from, j)) <==>
            && (forall j :: 0 <= j < k ==> IsPlugin(members[j]))
            && forall n :: from <= n < from + PluginCostTo(members, k) ==> mem(n)
  {
    if k > 0 {
      AllReadIff(members, mem, from, k - 1);
      assert CanAdd(members, mem, from, k - 1) <==>
             IsPlugin(members[k - 1])
             && Lasts(mem, from + PluginCostTo(members, k - 1), PluginCost(members[k - 1]));
    }
  }

  // ---------------------------------------------------------------- lists of plugins as values

  ghost predicate IsPluginList(v: Json) {
    v.Obj? && forall j :: 0 <= j < |v.members| ==> IsPlugin(v.members[j])
  }

  /** The JSON value for a list of plugins. */
  function PluginsToJson(plugins: seq<PluginSpec>): Json {
    Obj(seq(|plugins|, j requires 0 <= j < |plugins| => Member(plugins[j].name, ArgvToJson(plugins[j].argv))))
  }

  function ArgvToJson(argv: seq<string>): Json {
    Arr(seq(|argv|, n requires 0 <= n < |argv| => Text(argv[n])))
  }

  /** Reading the list that was written gives it back. */
  lemma {:induction false} PluginsRoundTrip(plugins: seq<PluginSpec>)
    ensures IsPluginList(PluginsToJson(plugins)) && PluginsIn(PluginsToJson(plugins)) == plugins
  {
    var members := PluginsToJson(plugins).members;
    forall j | 0 <= j < |members|
      ensures IsPlugin(members[j]) && PluginOf(members[j]) == plugins[j]
    {
      assert TextsTo(members[j].value.items, |plugins[j].argv|) == plugins[j].argv;
    }
  }

  // ---------------------------------------------------------------- single options

  datatype ConfType = STR | STR_ARR | NUMBER | BOOLEAN

  /** A row of the table of options. */
  datatype Conf = Conf(name: string, typ: ConfType, id: nat, str: Option<string>, val: int)

  /** Everything that loading a configuration sets. */
  datatype State = State(nums: seq<int>, strs: seq<string>, arrs: seq<seq<string>>, plugins: seq<PluginSpec>)

  /** The digits from p on, read as a number. */
  function Leading(s: string, p: nat, acc: nat): nat
    requires p <= |s|
    decreases |s| - p
  {
    if p < |s| && IsDigit(s[p]) then Leading(s, p + 1, 10 * acc + (s[p] as int - '0' as int)) else acc
  }

  /** Reading on in the whole text gives the same number as reading the token, if no digit follows it. */
  lemma {:induction false} LeadingInToken(s: string, start: nat, end: nat, p: nat, acc: nat)
    requires start <= p <= end <= |s| && (end < |s| ==> !IsDigit(s[end]))
    ensures Leading(s, p, acc) == Leading(s[start..end], p - start, acc)
    decreases end - p
  {
    if p < end && IsDigit(s[p]) {
      LeadingInToken(s, start, end, p + 1, 10 * acc + (s[p] as int - '0' as int));
    }
  }

  /** What the digits at the start of a text are as a number: value i is that of the first i of them. */
  lemma {:induction false} LeadingIs(s: string, n: nat) returns (values: seq<nat>)
    requires n <= |s| && (forall i :: 0 <= i < n ==> '0' <= s[i] <= '9') && (n < |s| ==> !('0' <= s[n] <= '9'))
    ensures |values| == n + 1 && values[0] == 0
    ensures forall i :: 0 <= i < n ==> values[i + 1] == 10 * values[i] + (s[i] as int - '0' as int)
    ensures Leading(s, 0, 0) == values[n]
  {
    values := [0];
    var p := 0;
    while p < n
      invariant 0 <= p <= n && |values| == p + 1 && values[0] == 0
      invariant forall i :: 0 <= i < p ==> values[i + 1] == 10 * values[i] + (s[i] as int - '0' as int)
      invariant Leading(s, 0, 0) == Leading(s, p, values[p])
    {
      values := values + [10 * values[p] + (s[p] as int - '0' as int)];
      p := p + 1;
    }
  }

  const LONG_MAX := 0x7fff_ffff_ffff_ffff

  /** Keeping the low 32 bits of a long in an int. */
  function ToInt(n: nat): (i: int)
    ensures -0x8000_0000 <= i < 0x8000_0000 && (n - i) % 0x1_0000_0000 == 0
  {
    var low := n % 0x1_0000_0000;
    if low < 0x8000_0000 then low else low - 0x1_0000_0000
  }

  /** A place where one option is kept, and what may be in it. */
  datatype Cell = NumCell(id: nat) | StrCell(id: nat) | ArrCell(id: nat)

  datatype Content = Num(n: int) | String(s: string) | Strings(a: seq<string>)

  function CellOf(c: Conf): Cell {
    match c.typ
    case STR => StrCell(c.id)
    case STR_ARR => ArrCell(c.id)
    case NUMBER => NumCell(c.id)
    case BOOLEAN => NumCell(c.id)
  }

  predicate InState(cell: Cell, st: State) {
    match cell
    case NumCell(id) => id < |st.nums|
    case StrCell(id) => id < |st.strs|
    case ArrCell(id) => id < |st.arrs|
  }

  function ContentOf(st: State, cell: Cell): Content
    requires InState(cell, st)
  {
    match cell
    case NumCell(id) => Num(st.nums[id])
    case StrCell(id) => String(st.strs[id])
    case ArrCell(id) => Strings(st.arrs[id])
  }

  function Put(st: State, cell: Cell, x: Content): (r: State)
    requires InState(cell, st)
    ensures forall other :: InState(other, st) <==> InState(other, r)
  {
    match (cell, x)
    case (NumCell(id), Num(n)) => st.(nums := st.nums[id := n])
    case (StrCell(id), String(s)) => st.(strs := st.strs[id := s])
    case (ArrCell(id), Strings(a)) => st.(arrs := st.arrs[id := a])
    case _ => st
  }

  /** The value of an option, if its JSON value is acceptable. */
  ghost function Written(c: Conf, v: Json): Option<Content> {
    match c.typ
    case STR =>
      if v.Text? then Some(String(v.text)) else None
    case BOOLEAN =>
      if v.Prim? && v.text != "" && v.text[0] == 't' then Some(Num(1))
      else if v.Prim? && v.text != "" && v.text[0] == 'f' then Some(Num(0))
      else None
    case NUMBER =>
      if (v.Prim? || v.Text?) && v.text != "" && IsDigit(v.text[0]) && Leading(v.text, 0, 0) <= LONG_MAX
      then Some(Num(ToInt(Leading(v.text, 0, 0))))
      else None
    case STR_ARR =>
      if v.Arr? && AllText(v.items) then Some(Strings(TextsTo(v.items, |v.items|))) else None
  }

  predicate AllFit(confs: seq<Conf>, st: State) {
    forall j :: 0 <= j < |confs| ==> InState(CellOf(confs[j]), st)
  }

  /** What set_value does with an option: an array of strings is emptied even if the new value is
      not acceptable. */
  ghost function Assign(c: Conf, v: Json, st: State): (State, bool)
    requires InState(CellOf(c), st)
  {
    match Written(c, v)
    case Some(x) => (Put(st, CellOf(c), x), true)
    case None => (if c.typ == STR_ARR then Put(st, CellOf(c), Strings([])) else st, false)
  }

  /** The first row with this name, or the number of rows. */
  function RowOf(confs: seq<Conf>, name: string, k: nat): (j: nat)
    requires k <= |confs|
    ensures j <= k && (j < k ==> confs[j].name == name) && forall i :: 0 <= i < j ==> confs[i].name != name
  {
    if k == 0 then 0
    else
      var j := RowOf(confs, name, k - 1);
      if j < k - 1 || confs[k - 1].name == name then j else k
  }

  lemma {:induction false} RowIs(confs: seq<Conf>, name: string, k: nat, j: nat)
    requires j <= k <= |confs| && (forall i :: 0 <= i < j ==> confs[i].name != name)
             && (j < k ==> confs[j].name == name)
    ensures RowOf(confs, name, k) == j
  {
    if j < k {
      RowIs(confs, name, k - 1, j);
    }
  }

  const PLUGINS := "enabled plugins"
  const INCLUDE := "include"
  const INCLUDE_DIRECTORY := "include directory"

  /** One member that is no include: the list of plugins, an option, or something unknown, which is
      ignored.  The second result says whether it was accepted. */
  ghost function Apply(confs: seq<Conf>, m: Member, st: State): (r: (State, bool))
    requires AllFit(confs, st)
    ensures AllFit(confs, r.0)
  {
    if m.key == PLUGINS then (st.(plugins := st.plugins + PluginsIn(m.value)), IsPluginList(m.value))
    else
      var j := RowOf(confs, m.key, |confs|);
      if j < |confs| then Assign(confs[j], m.value, st) else (st, true)
  }

  /** The first k members, one after the other, up to the first one that is not accepted. */
  ghost function ApplyTo(confs: seq<Conf>, ms: seq<Member>, k: nat, st: State): (r: (State, bool))
    requires k <= |ms| && AllFit(confs, st)
    ensures AllFit(confs, r.0)
  {
    if k == 0 then (st, true)
    else
      var (st', ok) := ApplyTo(confs, ms, k - 1, st);
      if !ok then (st', false) else Apply(confs, ms[k - 1], st')
  }

  ghost function ApplyAll(confs: seq<Conf>, ms: seq<Member>, st: State): (r: (State, bool))
    requires AllFit(confs, st)
    ensures AllFit(confs, r.0)
  {
    ApplyTo(confs, ms, |ms|, st)
  }

  lemma {:induction false} ApplyToSame(confs: seq<Conf>, a: seq<Member>, b: seq<Member>, k: nat, st: State)
    requires k <= |a| && k <= |b| && AllFit(confs, st) && forall i :: 0 <= i < k ==> a[i] == b[i]
    ensures ApplyTo(confs, a, k, st) == ApplyTo(confs, b, k, st)
  {
    if k > 0 {
      ApplyToSame(confs, a, b, k - 1, st);
    }
  }

  /** Applying a sequence in two parts. */
  lemma {:induction false} ApplyAppend(confs: seq<Conf>, a: seq<Member>, b: seq<Member>, k: nat, st: State)
    requires k <= |b| && AllFit(confs, st)
    ensures ApplyTo(confs, a + b, |a| + k, st) ==
            if ApplyAll(confs, a, st).1 then ApplyTo(confs, b, k, ApplyAll(confs, a, st).0) else ApplyAll(confs, a, st)
  {
    if k == 0 {
      ApplyToSame(confs, a, a + b, |a|, st);
    } else {
      ApplyAppend(confs, a, b, k - 1, st);
    }
  }

  // ---------------------------------------------------------------- the same when memory runs out

  /** How many allocations it takes to set an option. */
  ghost function ValueCost(c: Conf, v: Json): nat {
    match c.typ
    case STR => 1
    case STR_ARR => if v.Arr? then 2 * |v.items| else 0
    case _ => 0
  }

  /** As Assign.  If memory runs out the option keeps its value, but an array of strings is empty. */
  ghost function AssignIn(c: Conf, v: Json, st: State, mem: nat -> bool, from: nat): (State, bool)
    requires InState(CellOf(c), st)
  {
    if Lasts(mem, from, ValueCost(c, v)) then Assign(c, v, st)
    else (if c.typ == STR_ARR then Put(st, CellOf(c), Strings([])) else st, false)
  }

  /** What setting an option comes to, type by type. */
  lemma {:induction false} AssignInIs(c: Conf, v: Json, st: State, mem: nat -> bool, from: nat)
    requires InState(CellOf(c), st)
    ensures var (st', ok) := AssignIn(c, v, st, mem, from);
            match c.typ
            case STR =>
              && c.id < |st.strs| && (ok <==> v.Text? && mem(from))
              && st' == if ok then st.(strs := st.strs[c.id := v.text]) else st
            case BOOLEAN =>
              && c.id < |st.nums| && (ok <==> v.Prim? && v.text != "" && (v.text[0] == 't' || v.text[0] == 'f'))
              && st' == if ok then st.(nums := st.nums[c.id := if v.text[0] == 't' then 1 else 0]) else st
            case NUMBER =>
              && c.id < |st.nums|
              && (ok <==>
                    && (v.Prim? || v.Text?) && v.text != "" && '0' <= v.text[0] <= '9'
                    && Leading(v.text, 0, 0) <= 0x7fff_ffff_ffff_ffff)
              && st' == if ok then st.(nums := st.nums[c.id := ToInt(Leading(v.text, 0, 0))]) else st
            case STR_ARR =>
              && c.id < |st.arrs| == |st'.arrs| && st' == st.(arrs := st.arrs[c.id := st'.arrs[c.id]])
              && (ok <==> v.Arr? && (forall i :: 0 <= i < |v.items| ==> v.items[i].Text?)
                          && forall k :: from <= k < from + 2 * |v.items| ==> mem(k))
              && |st'.arrs[c.id]| == (if ok then |v.items| else 0)
              && (ok ==> forall i :: 0 <= i < |v.items| ==> st'.arrs[c.id][i] == v.items[i].text)
  {}

  /** How many allocations a member takes. */
  ghost function MemberCost(confs: seq<Conf>, m: Member): nat {
    if m.key == PLUGINS then if m.value.Obj? then PluginCostTo(m.value.members, |m.value.members|) else 0
    else
      var j := RowOf(confs, m.key, |confs|);
      if j < |confs| then ValueCost(confs[j], m.value) else 0
  }

  /** As Apply, with allocations from number from on.  A list of plugins is added up to the first one
      that cannot be read. */
  ghost function ApplyIn(confs: seq<Conf>, m: Member, st: State, mem: nat -> bool, from: nat): (r: (State, bool))
    requires AllFit(confs, st)
    ensures AllFit(confs, r.0)
  {
    if m.key == PLUGINS then
      if m.value.Obj? then
        var members := m.value.members;
        var n := ReadTo(members, mem, from, |members|);
        (st.(plugins := st.plugins + PluginsOf(members, mem, from, n)), n == |members|)
      else (st, false)
    else
      var j := RowOf(confs, m.key, |confs|);
      if j < |confs| then AssignIn(confs[j], m.value, st, mem, from) else (st, true)
  }

  /** When member j can be read, if the allocations for it are those from number a up to b. */
  lemma {:induction false} CanAddIff(members: seq<Member>, mem: nat -> bool, from: nat, j: nat, a: nat, b: nat)
    requires j < |members| && a == from + PluginCostTo(members, j)
    requires members[j].value.Arr? ==> b == a + 2 + 2 * |members[j].value.items|
    ensures CanAdd(members, mem, from, j) <==>
            && members[j].value.Arr?
            && (forall i :: 0 <= i < |members[j].value.items| ==> members[j].value.items[i].Text?)
            && forall k :: a <= k < b ==> mem(k)
  {}

  lemma {:induction false} CostsAre(members: seq<Member>, from: nat, at: seq<nat>, j: nat)
    requires j <= |members| && |at| == |members| + 1 && at[0] == from
    requires forall i :: 0 <= i < |members| ==>
               at[i + 1] == at[i] + if members[i].value.Arr? then 2 + 2 * |members[i].value.items| else 0
    ensures at[j] == from + PluginCostTo(members, j)
  {
    if j > 0 {
      CostsAre(members, from, at, j - 1);
    }
  }

  /** How many members of a list of plugins can be read: those before the first one that is no plugin, or
      for which memory runs out.  Allocation at[j] is the first one for member j. */
  lemma {:induction false} ReadIs(members: seq<Member>, mem: nat -> bool, from: nat, at: seq<nat>, n: nat)
    requires n <= |members| && |at| == |members| + 1 && at[0] == from
    requires forall i :: 0 <= i < |members| ==>
               at[i + 1] == at[i] + if members[i].value.Arr? then 2 + 2 * |members[i].value.items| else 0
    requires forall j :: 0 <= j < n ==>
               && members[j].value.Arr?
               && (forall i :: 0 <= i < |members[j].value.items| ==> members[j].value.items[i].Text?)
               && forall k :: at[j] <= k < at[j + 1] ==> mem(k)
    requires n < |members| && members[n].value.Arr? ==>
               || (exists i :: 0 <= i < |members[n].value.items| && !members[n].value.items[i].Text?)
               || exists k :: at[n] <= k < at[n + 1] && !mem(k)
    ensures ReadTo(members, mem, from, |members|) == n
  {
    forall j | 0 <= j <= n && j < |members|
      ensures CanAdd(members, mem, from, j) <==> j < n
    {
      CostsAre(members, from, at, j);
      CanAddIff(members, mem, from, j, at[j], at[j + 1]);
    }
    ReadToIs(members, mem, from, n);
  }

  /** What a list of plugins comes to. */
  lemma {:induction false} PluginsMember(confs: seq<Conf>, m: Member, st: State, mem: nat -> bool, from: nat)
      returns (n: nat, added: seq<PluginSpec>)
    requires AllFit(confs, st) && m.key == "enabled plugins"
    ensures !m.value.Obj? ==> ApplyIn(confs, m, st, mem, from) == (st, false)
    ensures m.value.Obj? ==>
              && n == ReadTo(m.value.members, mem, from, |m.value.members|) == |added|
              && ApplyIn(confs, m, st, mem, from) ==
                 (st.(plugins := st.plugins + added), n == |m.value.members|)
              && forall j :: 0 <= j < n ==>
                   var p, arr := added[j], m.value.members[j].value;
                   && p.name == m.value.members[j].key && arr.Arr? && |p.argv| == |arr.items|
                   && forall i :: 0 <= i < |p.argv| ==> arr.items[i] == Text(p.argv[i])
  {
    n, added := 0, [];
    if m.value.Obj? {
      n := ReadTo(m.value.members, mem, from, |m.value.members|);
      added := PluginsOf(m.value.members, mem, from, n);
      PluginsAre(m.value.members, mem, from, n);
    }
  }

  /** Memory makes no difference as long as it lasts. */
  lemma {:induction false} ApplyInIff(confs: seq<Conf>, m: Member, st: State, mem: nat -> bool, from: nat)
    requires AllFit(confs, st)
    ensures ApplyIn(confs, m, st, mem, from).1 <==>
            Apply(confs, m, st).1 && Lasts(mem, from, MemberCost(confs, m))
    ensures ApplyIn(confs, m, st, mem, from).1 ==> ApplyIn(confs, m, st, mem, from) == Apply(confs, m, st)
  {
    if m.key == PLUGINS && m.value.Obj? {
      var members := m.value.members;
      AllReadIff(members, mem, from, |members|);
      if IsPluginList(m.value) {
        GoodToIs(members, |members|, |members|);
      }
    }
  }

  // ---------------------------------------------------------------- what a whole sequence comes to

  /** A member that belongs to no option and is no list of plugins. */
  predicate Unknown(confs: seq<Conf>, m: Member) {
    m.key != PLUGINS && RowOf(confs, m.key, |confs|) == |confs|
  }

  /** The known ones among the first k members. */
  function KnownTo(confs: seq<Conf>, ms: seq<Member>, k: nat): seq<Member>
    requires k <= |ms|
  {
    if k == 0 then []
    else if Unknown(confs, ms[k - 1]) then KnownTo(confs, ms, k - 1)
    else KnownTo(confs, ms, k - 1) + [ms[k - 1]]
  }

  /** Unknown keys might as well not be there. */
  lemma {:induction false} UnknownIgnored(confs: seq<Conf>, ms: seq<Member>, k: nat, st: State)
    requires k <= |ms| && AllFit(confs, st)
    ensures ApplyTo(confs, ms, k, st) == ApplyAll(confs, KnownTo(confs, ms, k), st)
  {
    if k > 0 {
      UnknownIgnored(confs, ms, k - 1, st);
      var known := KnownTo(confs, ms, k - 1);
      if !Unknown(confs, ms[k - 1]) {
        ApplyToSame(confs, known, known + [ms[k - 1]], |known|, st);
      }
    }
  }

  /** All plugins that the first k members name, in order. */
  ghost function PluginsTo(ms: seq<Member>, k: nat): seq<PluginSpec>
    requires k <= |ms|
  {
    if k == 0 then []
    else if ms[k - 1].key == PLUGINS then PluginsTo(ms, k - 1) + PluginsIn(ms[k - 1].value)
    else PluginsTo(ms, k - 1)
  }

  lemma {:induction false} ApplyPlugins(confs: seq<Conf>, m: Member, st: State)
    requires AllFit(confs, st)
    ensures Apply(confs, m, st).0.plugins == if m.key == PLUGINS then st.plugins + PluginsIn(m.value) else st.plugins
  {}

  lemma {:induction false} Associative(a: seq<PluginSpec>, b: seq<PluginSpec>, c: seq<PluginSpec>)
    ensures (a + b) + c == a + (b + c)
  {}

  /** Several lists of plugins are put one behind the other. */
  lemma {:induction false} PluginsConcatenated(confs: seq<Conf>, ms: seq<Member>, k: nat, st: State)
    requires k <= |ms| && AllFit(confs, st) && ApplyTo(confs, ms, k, st).1
    ensures ApplyTo(confs, ms, k, st).0.plugins == st.plugins + PluginsTo(ms, k)
  {
    if k > 0 {
      PluginsConcatenated(confs, ms, k - 1, st);
      ApplyPlugins(confs, ms[k - 1], ApplyTo(confs, ms, k - 1, st).0);
      Associative(st.plugins, PluginsTo(ms, k - 1), PluginsIn(ms[k - 1].value));
    }
  }

  /** The member sets the option in this cell. */
  predicate Sets(confs: seq<Conf>, m: Member, cell: Cell) {
    var j := RowOf(confs, m.key, |confs|);
    m.key != PLUGINS && j < |confs| && CellOf(confs[j]) == cell
  }

  lemma {:induction false} PutElsewhere(st: State, cell: Cell, x: Content, other: Cell)
    requires InState(cell, st) && InState(other, st) && other != cell
    ensures ContentOf(Put(st, cell, x), other) == ContentOf(st, other)
  {}

  lemma {:induction false} Untouched(confs: seq<Conf>, ms: seq<Member>, k: nat, st: State, cell: Cell)
    requires k <= |ms| && AllFit(confs, st) && InState(cell, st)
    requires forall i :: 0 <= i < k ==> !Sets(confs, ms[i], cell)
    ensures InState(cell, ApplyTo(confs, ms, k, st).0)
    ensures ContentOf(ApplyTo(confs, ms, k, st).0, cell) == ContentOf(st, cell)
  {
    if k > 0 {
      Untouched(confs, ms, k - 1, st, cell);
      ApplyUntouched(confs, ms[k - 1], ApplyTo(confs, ms, k - 1, st).0, cell);
    }
  }

  lemma {:induction false} ApplyUntouched(confs: seq<Conf>, m: Member, st: State, cell: Cell)
    requires AllFit(confs, st) && InState(cell, st) && !Sets(confs, m, cell)
    ensures InState(cell, Apply(confs, m, st).0) && ContentOf(Apply(confs, m, st).0, cell) == ContentOf(st, cell)
  {
    var j := RowOf(confs, m.key, |confs|);
    if m.key != PLUGINS && j < |confs| {
      var c := confs[j];
      PutElsewhere(st, CellOf(c), if Written(c, m.value).Some? then Written(c, m.value).value else Strings([]), cell);
    }
  }

  lemma {:induction false} ApplyWrites(confs: seq<Conf>, m: Member, st: State)
    requires AllFit(confs, st) && Apply(confs, m, st).1
    requires m.key != PLUGINS && RowOf(confs, m.key, |confs|) < |confs|
    ensures var c := confs[RowOf(confs, m.key, |confs|)];
            && InState(CellOf(c), Apply(confs, m, st).0)
            && Written(c, m.value) == Some(ContentOf(Apply(confs, m, st).0, CellOf(c)))
  {}

  /** The last write wins: whatever came before, an option has the value of the last member that sets it. */
  lemma {:induction false} LastWriteWins(confs: seq<Conf>, ms: seq<Member>, k: nat, p: nat, c: Conf, st: State)
    requires AllFit(confs, st) && p < k <= |ms| && ApplyTo(confs, ms, k, st).1
    requires ms[p].key != PLUGINS && RowOf(confs, ms[p].key, |confs|) < |confs|
    requires c == confs[RowOf(confs, ms[p].key, |confs|)]
    requires forall i :: p < i < k ==> !Sets(confs, ms[i], CellOf(c))
    ensures var end := ApplyTo(confs, ms, k, st).0;
            InState(CellOf(c), end) && Written(c, ms[p].value) == Some(ContentOf(end, CellOf(c)))
  {
    var before := ApplyTo(confs, ms, k - 1, st).0;
    if p == k - 1 {
      ApplyWrites(confs, ms[p], before);
    } else {
      LastWriteWins(confs, ms, k - 1, p, c, st);
      ApplyUntouched(confs, ms[k - 1], before, CellOf(c));
    }
  }

  // ---------------------------------------------------------------- defaults

  /** The first k options set to their defaults. */
  function DefaultsTo(confs: seq<Conf>, k: nat, st: State): (r: State)
    requires k <= |confs| && AllFit(confs, st)
    ensures AllFit(confs, r)
  {
    if k == 0 then st.(plugins := [])
    else Put(DefaultsTo(confs, k - 1, st), CellOf(confs[k - 1]), Default(confs[k - 1]))
  }

  function Default(c: Conf): Content {
    match c.typ
    case STR => String(if c.str.Some? then c.str.value else "")
    case STR_ARR => Strings([])
    case NUMBER => Num(c.val)
    case BOOLEAN => Num(c.val)
  }

  function Defaults(confs: seq<Conf>, st: State): (r: State)
    requires AllFit(confs, st)
    ensures AllFit(confs, r)
  {
    DefaultsTo(confs, |confs|, st)
  }

  /** Some of the first k options is kept in this cell. */
  predicate Covered(confs: seq<Conf>, k: nat, cell: Cell)
    requires k <= |confs|
  {
    exists j :: 0 <= j < k && CellOf(confs[j]) == cell
  }

  ghost predicate SameShape(a: State, b: State) {
    |a.nums| == |b.nums| && |a.strs| == |b.strs| && |a.arrs| == |b.arrs|
  }

  lemma {:induction false} PutDefault(a: State, b: State, c: Conf, other: Cell)
    requires SameShape(a, b) && InState(CellOf(c), a) && InState(other, a)
    requires other != CellOf(c) ==> ContentOf(a, other) == ContentOf(b, other)
    ensures var a', b' := Put(a, CellOf(c), Default(c)), Put(b, CellOf(c), Default(c));
            SameShape(a, a') && SameShape(a', b') && ContentOf(a', other) == ContentOf(b', other)
  {}

  /** Whatever was in the state before: after the defaults, an option's cell holds the same. */
  lemma {:induction false} DefaultsSame(confs: seq<Conf>, k: nat, a: State, b: State, cell: Cell)
    requires k <= |confs| && SameShape(a, b) && AllFit(confs, a) && AllFit(confs, b) && InState(cell, a)
    requires !Covered(confs, k, cell) ==> ContentOf(a, cell) == ContentOf(b, cell)
    ensures SameShape(a, DefaultsTo(confs, k, a)) && SameShape(a, DefaultsTo(confs, k, b))
    ensures ContentOf(DefaultsTo(confs, k, a), cell) == ContentOf(DefaultsTo(confs, k, b), cell)
  {
    ShapeKept(confs, k, a);
    ShapeKept(confs, k, b);
    if k > 0 {
      if CellOf(confs[k - 1]) != cell {
        DefaultsSame(confs, k - 1, a, b, cell);
      }
      ShapeKept(confs, k - 1, a);
      ShapeKept(confs, k - 1, b);
      PutDefault(DefaultsTo(confs, k - 1, a), DefaultsTo(confs, k - 1, b), confs[k - 1], cell);
    }
  }

  lemma {:induction false} ShapeKept(confs: seq<Conf>, k: nat, a: State)
    requires k <= |confs| && AllFit(confs, a)
    ensures SameShape(a, DefaultsTo(confs, k, a))
  {
    if k > 0 {
      ShapeKept(confs, k - 1, a);
    }
  }

  /** An option has its default afterwards, unless a later row shares its cell. */
  lemma {:induction false} DefaultsSet(confs: seq<Conf>, k: nat, j: nat, st: State)
    requires j < k <= |confs| && AllFit(confs, st)
    requires forall i :: j < i < k ==> CellOf(confs[i]) != CellOf(confs[j])
    ensures ContentOf(DefaultsTo(confs, k, st), CellOf(confs[j])) == Default(confs[j])
  {
    if j < k - 1 {
      DefaultsSet(confs, k - 1, j, st);
      PutElsewhere(DefaultsTo(confs, k - 1, st), CellOf(confs[k - 1]), Default(confs[k - 1]), CellOf(confs[j]));
    }
  }

  /** Setting the defaults forgets everything but what no option is about. */
  lemma {:induction false} DefaultsForget(confs: seq<Conf>, a: State, b: State)
    requires SameShape(a, b) && AllFit(confs, a) && AllFit(confs, b)
    requires forall cell ::
               InState(cell, a) && !Covered(confs, |confs|, cell) ==> ContentOf(a, cell) == ContentOf(b, cell)
    ensures Defaults(confs, a) == Defaults(confs, b)
  {
    var a', b' := Defaults(confs, a), Defaults(confs, b);
    ShapeKept(confs, |confs|, a);
    ShapeKept(confs, |confs|, b);
    forall cell | InState(cell, a)
      ensures ContentOf(a', cell) == ContentOf(b', cell)
    {
      DefaultsSame(confs, |confs|, a, b, cell);
    }
    NoPluginsLeft(confs, |confs|, a);
    NoPluginsLeft(confs, |confs|, b);
    SameContents(a', b');
  }

  lemma {:induction false} NoPluginsLeft(confs: seq<Conf>, k: nat, a: State)
    requires k <= |confs| && AllFit(confs, a)
    ensures DefaultsTo(confs, k, a).plugins == []
  {
    if k > 0 {
      NoPluginsLeft(confs, k - 1, a);
    }
  }

  lemma {:induction false} SameContents(a: State, b: State)
    requires SameShape(a, b) && a.plugins == b.plugins
    requires forall cell :: InState(cell, a) ==> ContentOf(a, cell) == ContentOf(b, cell)
    ensures a == b
  {
    forall i | 0 <= i < |a.nums|
      ensures a.nums[i] == b.nums[i]
    {
      assert ContentOf(a, NumCell(i)) == ContentOf(b, NumCell(i));
    }
    forall i | 0 <= i < |a.strs|
      ensures a.strs[i] == b.strs[i]
    {
      assert ContentOf(a, StrCell(i)) == ContentOf(b, StrCell(i));
    }
    forall i | 0 <= i < |a.arrs|
      ensures a.arrs[i] == b.arrs[i]
    {
      assert ContentOf(a, ArrCell(i)) == ContentOf(b, ArrCell(i));
    }
  }
}
