/** Configuration files that include one another (src/conf.c): a file stands for its own assignments
    with those of the included files in the place of the includes. */
module IncludeSpec {
  import opened Wrappers
  import opened Json
  import opened ConfSpec

  /** A file that cannot be opened or is no JSON, or its text, its tokens, the members of its top level,
      whether it can be closed, and how many buffers are allocated to read its text. */
  datatype File =
    | Unreadable
    | Readable(s: string, t: seq<Token>, members: seq<Member>, closes: bool, buffers: nat)

  /** How many tokens there is room for at first, and at most. */
  const FIRST_TOKENS := 200
  const MORE_TOKENS := 1200

  /** The entries of a directory in the order they are read. */
  datatype Dir = Dir(entries: seq<string>, closes: bool)

  /** The files and the directories there are. */
  datatype Files = Files(files: map<string, File>, dirs: map<string, Dir>)

  ghost predicate WellFormed(fs: Files) {
    forall f :: f in fs.files && fs.files[f].Readable? ==> Document(fs.files[f].s, fs.files[f].t, fs.files[f].members)
  }

  predicate CanRead(fs: Files, f: string) {
    f in fs.files && fs.files[f].Readable? && |fs.files[f].t| <= MORE_TOKENS
  }

  /** How many allocations it takes to read and parse a file. */
  function ReadCost(file: File): nat
    requires file.Readable?
  {
    file.buffers + if |file.t| > FIRST_TOKENS then 3 else 2
  }

  function MembersOf(fs: Files, f: string): seq<Member> {
    if CanRead(fs, f) then fs.files[f].members else []
  }

  predicate Hidden(name: string) {
    name != "" && name[0] == '.'
  }

  function PathIn(dir: string, name: string): string {
    dir + "/" + name
  }

  /** The entries of the directory that a member includes. */
  function Entries(fs: Files, m: Member): seq<string> {
    if m.value.Text? && m.value.text in fs.dirs then fs.dirs[m.value.text].entries else []
  }

  ghost predicate Includes(fs: Files, m: Member, g: string) {
    || (m.key == INCLUDE && m.value == Text(g))
    || (m.key == INCLUDE_DIRECTORY && m.value.Text?
        && exists j ::
             0 <= j < |Entries(fs, m)| && !Hidden(Entries(fs, m)[j]) && g == PathIn(m.value.text, Entries(fs, m)[j]))
  }

  /** No file includes itself, however indirectly: each has a higher rank than those it includes. */
  ghost predicate Acyclic(fs: Files, rank: string -> nat) {
    forall f, k, g :: 0 <= k < |MembersOf(fs, f)| && Includes(fs, MembersOf(fs, f)[k], g) ==> rank(g) < rank(f)
  }

  /** What loading does one after the other: some allocations, or setting what a member says. */
  datatype Act = Take(count: nat) | Set(member: Member)

  /** What is done for a file, in order, up to the first thing that cannot be read; the second result
      says whether there is none. */
  ghost function FlattenFile(fs: Files, rank: string -> nat, f: string): (seq<Act>, bool)
    requires Acyclic(fs, rank)
    decreases rank(f), 4, 0
  {
    if !CanRead(fs, f) then ([], false)
    else
      var file := fs.files[f];
      Closing(After(ReadCost(file), FlattenMembers(fs, rank, f, |MembersOf(fs, f)|)), file.closes)
  }

  ghost function FlattenMembers(fs: Files, rank: string -> nat, f: string, k: nat): (seq<Act>, bool)
    requires Acyclic(fs, rank) && k <= |MembersOf(fs, f)|
    decreases rank(f), 3, k
  {
    if k == 0 then ([], true)
    else
      var before := FlattenMembers(fs, rank, f, k - 1);
      if before.1 then Join(before.0, FlattenMember(fs, rank, f, k - 1)) else before
  }

  function Join(acts: seq<Act>, more: (seq<Act>, bool)): (seq<Act>, bool) {
    (acts + more.0, more.1)
  }

  /** The same after some allocations. */
  function After(count: nat, flat: (seq<Act>, bool)): (seq<Act>, bool) {
    Join([Take(count)], flat)
  }

  /** A file or directory that cannot be closed counts as a failure, but only at the end. */
  function Closing(flat: (seq<Act>, bool), closes: bool): (seq<Act>, bool) {
    (flat.0, flat.1 && closes)
  }

  ghost function FlattenMember(fs: Files, rank: string -> nat, f: string, k: nat): (seq<Act>, bool)
    requires Acyclic(fs, rank) && k < |MembersOf(fs, f)|
    decreases rank(f), 2, 0
  {
    var m := MembersOf(fs, f)[k];
    if m.key == INCLUDE then
      if m.value.Text? then
        assert Includes(fs, m, m.value.text);
        After(1, FlattenFile(fs, rank, m.value.text))
      else ([], false)
    else if m.key == INCLUDE_DIRECTORY then
      if m.value.Text? && m.value.text in fs.dirs
      then After(1, Closing(FlattenDir(fs, rank, f, k, |Entries(fs, m)|), fs.dirs[m.value.text].closes))
      else ([], false)
    else ([Set(m)], true)
  }

  /** The first j entries of the directory that member k of file f includes. */
  ghost function FlattenDir(fs: Files, rank: string -> nat, f: string, k: nat, j: nat): (seq<Act>, bool)
    requires Acyclic(fs, rank) && k < |MembersOf(fs, f)|
    requires var m := MembersOf(fs, f)[k]; m.key == INCLUDE_DIRECTORY && m.value.Text? && j <= |Entries(fs, m)|
    decreases rank(f), 1, j
  {
    if j == 0 then ([], true)
    else
      var m := MembersOf(fs, f)[k];
      var before, name := FlattenDir(fs, rank, f, k, j - 1), Entries(fs, m)[j - 1];
      if !before.1 || Hidden(name) then before
      else
        assert Includes(fs, m, PathIn(m.value.text, name));
        Join(before.0, After(1, FlattenFile(fs, rank, PathIn(m.value.text, name))))
  }

  // ---------------------------------------------------------------- what comes of it

  /** The state that has been reached, whether all went well, and the number of the next allocation. */
  datatype Reached = Reached(st: State, ok: bool, used: nat)

  /** One step, with allocations from number from on. */
  ghost function Perform(confs: seq<Conf>, a: Act, st: State, mem: nat -> bool, from: nat): (r: Reached)
    requires AllFit(confs, st)
    ensures AllFit(confs, r.st)
  {
    match a
    case Take(count) => Reached(st, Lasts(mem, from, count), from + count)
    case Set(m) =>
      var r := ApplyIn(confs, m, st, mem, from);
      Reached(r.0, r.1, from + MemberCost(confs, m))
  }

  /** The first k steps, up to the first one that fails. */
  ghost function PerformTo(confs: seq<Conf>, acts: seq<Act>, k: nat, st: State, mem: nat -> bool,
      from: nat): (r: Reached)
    requires k <= |acts| && AllFit(confs, st)
    ensures AllFit(confs, r.st)
  {
    if k == 0 then Reached(st, true, from)
    else
      var r := PerformTo(confs, acts, k - 1, st, mem, from);
      if r.ok then Perform(confs, acts[k - 1], r.st, mem, r.used) else r
  }

  ghost function Outcome(confs: seq<Conf>, flat: (seq<Act>, bool), st: State, mem: nat -> bool,
      from: nat): (r: Reached)
    requires AllFit(confs, st)
    ensures AllFit(confs, r.st)
  {
    var r := PerformTo(confs, flat.0, |flat.0|, st, mem, from);
    r.(ok := r.ok && flat.1)
  }

  lemma {:induction false} PerformToSame(confs: seq<Conf>, a: seq<Act>, b: seq<Act>, k: nat, st: State,
      mem: nat -> bool, from: nat)
    requires k <= |a| && k <= |b| && AllFit(confs, st) && forall i :: 0 <= i < k ==> a[i] == b[i]
    ensures PerformTo(confs, a, k, st, mem, from) == PerformTo(confs, b, k, st, mem, from)
  {
    if k > 0 {
      PerformToSame(confs, a, b, k - 1, st, mem, from);
    }
  }

  /** Performing a sequence in two parts. */
  lemma {:induction false} PerformAppend(confs: seq<Conf>, a: seq<Act>, b: seq<Act>, k: nat, st: State,
      mem: nat -> bool, from: nat)
    requires k <= |b| && AllFit(confs, st)
    ensures var first := PerformTo(confs, a, |a|, st, mem, from);
            PerformTo(confs, a + b, |a| + k, st, mem, from) ==
            if first.ok then PerformTo(confs, b, k, first.st, mem, first.used) else first
  {
    if k == 0 {
      PerformToSame(confs, a, a + b, |a|, st, mem, from);
    } else {
      PerformAppend(confs, a, b, k - 1, st, mem, from);
    }
  }

  /** Going on after a first part. */
  lemma {:induction false} OutcomeJoin(confs: seq<Conf>, acts: seq<Act>, more: (seq<Act>, bool), st: State,
      mem: nat -> bool, from: nat)
    requires AllFit(confs, st)
    ensures var first := Outcome(confs, (acts, true), st, mem, from);
            Outcome(confs, Join(acts, more), st, mem, from) ==
            if first.ok then Outcome(confs, more, first.st, mem, first.used) else first
  {
    PerformAppend(confs, acts, more.0, |more.0|, st, mem, from);
  }

  /** Going on after some allocations. */
  lemma {:induction false} OutcomeAfter(confs: seq<Conf>, count: nat, flat: (seq<Act>, bool), st: State,
      mem: nat -> bool, from: nat)
    requires AllFit(confs, st)
    ensures Outcome(confs, After(count, flat), st, mem, from) ==
            if Lasts(mem, from, count) then Outcome(confs, flat, st, mem, from + count)
            else Reached(st, false, from + count)
  {
    OutcomeJoin(confs, [Take(count)], flat, st, mem, from);
    assert PerformTo(confs, [Take(count)], 0, st, mem, from) == Reached(st, true, from);
  }

  /** Once something has gone wrong in a file, the rest of it makes no difference. */
  lemma {:induction false} FailureStays(confs: seq<Conf>, fs: Files, rank: string -> nat, f: string, i: nat,
      k: nat, st: State, mem: nat -> bool, from: nat)
    requires Acyclic(fs, rank) && AllFit(confs, st) && i <= k <= |MembersOf(fs, f)|
    requires !Outcome(confs, FlattenMembers(fs, rank, f, i), st, mem, from).ok
    ensures Outcome(confs, FlattenMembers(fs, rank, f, k), st, mem, from) ==
            Outcome(confs, FlattenMembers(fs, rank, f, i), st, mem, from)
  {
    if i < k {
      FailureStays(confs, fs, rank, f, i, k - 1, st, mem, from);
      OutcomeJoin(confs, FlattenMembers(fs, rank, f, k - 1).0, FlattenMember(fs, rank, f, k - 1), st, mem, from);
    }
  }

  /** The same for a directory. */
  lemma {:induction false} FailureStaysInDir(confs: seq<Conf>, fs: Files, rank: string -> nat, f: string,
      m: nat, i: nat, k: nat, st: State, mem: nat -> bool, from: nat)
    requires Acyclic(fs, rank) && AllFit(confs, st) && m < |MembersOf(fs, f)|
    requires var dir := MembersOf(fs, f)[m];
             dir.key == INCLUDE_DIRECTORY && dir.value.Text? && i <= k <= |Entries(fs, dir)|
    requires !Outcome(confs, FlattenDir(fs, rank, f, m, i), st, mem, from).ok
    ensures Outcome(confs, FlattenDir(fs, rank, f, m, k), st, mem, from) ==
            Outcome(confs, FlattenDir(fs, rank, f, m, i), st, mem, from)
  {
    if i < k {
      FailureStaysInDir(confs, fs, rank, f, m, i, k - 1, st, mem, from);
      var dir := MembersOf(fs, f)[m];
      var name := Entries(fs, dir)[k - 1];
      if !Hidden(name) {
        assert Includes(fs, dir, PathIn(dir.value.text, name));
        OutcomeJoin(confs, FlattenDir(fs, rank, f, m, k - 1).0,
                    After(1, FlattenFile(fs, rank, PathIn(dir.value.text, name))), st, mem, from);
      }
    }
  }

  /** A file that can be read: first the allocations for its text and tokens, then its members. */
  lemma {:induction false} ReadFirst(confs: seq<Conf>, fs: Files, rank: string -> nat, f: string, st: State,
      mem: nat -> bool, from: nat)
    requires Acyclic(fs, rank) && AllFit(confs, st) && CanRead(fs, f)
    ensures var file := fs.files[f];
            var flat := Closing(FlattenMembers(fs, rank, f, |MembersOf(fs, f)|), file.closes);
            Outcome(confs, FlattenFile(fs, rank, f), st, mem, from) ==
            if Lasts(mem, from, ReadCost(file)) then Outcome(confs, flat, st, mem, from + ReadCost(file))
            else Reached(st, false, from + ReadCost(file))
    ensures |fs.files[f].t| <= 1200
    ensures var file := fs.files[f];
            var cost := file.buffers + if |file.t| > 200 then 3 else 2;
            var all := Outcome(confs, FlattenMembers(fs, rank, f, |MembersOf(fs, f)|), st, mem, from + cost);
            var r, lasts := Outcome(confs, FlattenFile(fs, rank, f), st, mem, from),
                            forall k :: from <= k < from + cost ==> mem(k);
            && (r.ok <==> lasts && all.ok && file.closes) && r.st == if lasts then all.st else st
  {
    var file := fs.files[f];
    var flat := Closing(FlattenMembers(fs, rank, f, |MembersOf(fs, f)|), file.closes);
    OutcomeAfter(confs, ReadCost(file), flat, st, mem, from);
    assert FlattenFile(fs, rank, f) == After(ReadCost(file), flat);
  }

  /** A file that cannot be read changes nothing. */
  lemma {:induction false} Unread(confs: seq<Conf>, fs: Files, rank: string -> nat, f: string, st: State,
      mem: nat -> bool, from: nat)
    requires Acyclic(fs, rank) && AllFit(confs, st)
    requires f in fs.files && fs.files[f].Readable? ==> |fs.files[f].t| > 1200
    ensures Outcome(confs, FlattenFile(fs, rank, f), st, mem, from) == Reached(st, false, from)
    ensures MembersOf(fs, f) == []
  {}

  /** A member that includes something: first the allocation for the name, if it is one. */
  lemma {:induction false} NameFirst(confs: seq<Conf>, fs: Files, rank: string -> nat, f: string, k: nat, st: State,
      mem: nat -> bool, from: nat)
    requires Acyclic(fs, rank) && AllFit(confs, st) && k < |MembersOf(fs, f)|
    requires var m := MembersOf(fs, f)[k]; m.key == "include" || m.key == "include directory"
    ensures var m := MembersOf(fs, f)[k];
            var r := Outcome(confs, FlattenMember(fs, rank, f, k), st, mem, from);
            && (!m.value.Text? || !mem(from) ==> r.st == st && !r.ok)
            && (m.value.Text? && mem(from) && m.key == "include" ==>
                  && rank(m.value.text) < rank(f)
                  && r == Outcome(confs, FlattenFile(fs, rank, m.value.text), st, mem, from + 1))
            && (m.value.Text? && m.key == "include directory" && m.value.text !in fs.dirs ==> r.st == st && !r.ok)
            && (m.value.Text? && mem(from) && m.key == "include directory" && m.value.text in fs.dirs ==>
                  var d := fs.dirs[m.value.text];
                  var all := Outcome(confs, FlattenDir(fs, rank, f, k, |d.entries|), st, mem, from + 1);
                  r == all.(ok := all.ok && d.closes))
  {
    var m := MembersOf(fs, f)[k];
    assert INCLUDE != INCLUDE_DIRECTORY;
    if !m.value.Text? {
      assert FlattenMember(fs, rank, f, k) == ([], false);
    } else if m.key == INCLUDE {
      assert Includes(fs, m, m.value.text);
      OutcomeAfter(confs, 1, FlattenFile(fs, rank, m.value.text), st, mem, from);
    } else if m.value.text in fs.dirs {
      var d := fs.dirs[m.value.text];
      OutcomeAfter(confs, 1, Closing(FlattenDir(fs, rank, f, k, |d.entries|), d.closes), st, mem, from);
    }
  }

  /** Any other member is set. */
  lemma {:induction false} OtherMember(fs: Files, rank: string -> nat, f: string, k: nat)
    requires Acyclic(fs, rank) && k < |MembersOf(fs, f)|
    requires MembersOf(fs, f)[k].key != "include" && MembersOf(fs, f)[k].key != "include directory"
    ensures FlattenMember(fs, rank, f, k) == ([Set(MembersOf(fs, f)[k])], true)
  {}

  /** A hidden entry of a directory makes no difference. */
  lemma {:induction false} HiddenEntry(fs: Files, rank: string -> nat, f: string, m: nat, i: nat)
    requires Acyclic(fs, rank) && m < |MembersOf(fs, f)|
    requires var dir := MembersOf(fs, f)[m]; dir.key == "include directory" && dir.value.Text? && i < |Entries(fs, dir)|
    requires var name := Entries(fs, MembersOf(fs, f)[m])[i]; name != "" && name[0] == '.'
    ensures FlattenDir(fs, rank, f, m, i + 1) == FlattenDir(fs, rank, f, m, i)
  {}

  /** Going on with the next member of a file. */
  lemma {:induction false} NextMember(confs: seq<Conf>, fs: Files, rank: string -> nat, f: string, i: nat,
      st: State, now: State, mem: nat -> bool, from: nat, used: nat)
    requires Acyclic(fs, rank) && AllFit(confs, st) && AllFit(confs, now) && CanRead(fs, f) && i < |MembersOf(fs, f)|
    requires Outcome(confs, FlattenMembers(fs, rank, f, i), st, mem, from) == Reached(now, true, used)
    ensures var r := Outcome(confs, FlattenMember(fs, rank, f, i), now, mem, used);
            && Outcome(confs, FlattenMembers(fs, rank, f, i + 1), st, mem, from) == r
            && (!r.ok ==> Outcome(confs, FlattenMembers(fs, rank, f, |MembersOf(fs, f)|), st, mem, from) == r)
  {
    OutcomeJoin(confs, FlattenMembers(fs, rank, f, i).0, FlattenMember(fs, rank, f, i), st, mem, from);
    if !Outcome(confs, FlattenMember(fs, rank, f, i), now, mem, used).ok {
      FailureStays(confs, fs, rank, f, i + 1, |MembersOf(fs, f)|, st, mem, from);
    }
  }

  lemma {:induction false} DirNext(fs: Files, rank: string -> nat, f: string, m: nat, i: nat)
    requires Acyclic(fs, rank) && m < |MembersOf(fs, f)|
    requires var dir := MembersOf(fs, f)[m]; dir.key == INCLUDE_DIRECTORY && dir.value.Text? && i < |Entries(fs, dir)|
    requires !Hidden(Entries(fs, MembersOf(fs, f)[m])[i]) && FlattenDir(fs, rank, f, m, i).1
    ensures var dir := MembersOf(fs, f)[m];
            var path := PathIn(dir.value.text, Entries(fs, dir)[i]);
            && rank(path) < rank(f)
            && FlattenDir(fs, rank, f, m, i + 1) ==
               Join(FlattenDir(fs, rank, f, m, i).0, After(1, FlattenFile(fs, rank, path)))
  {
    var dir := MembersOf(fs, f)[m];
    assert Includes(fs, dir, PathIn(dir.value.text, Entries(fs, dir)[i]));
  }

  /** Going on with the next entry of a directory: first the allocation for its path. */
  lemma {:induction false} NextEntry(confs: seq<Conf>, fs: Files, rank: string -> nat, f: string, m: nat,
      i: nat, st: State, now: State, mem: nat -> bool, from: nat, used: nat)
    requires Acyclic(fs, rank) && AllFit(confs, st) && AllFit(confs, now) && m < |MembersOf(fs, f)|
    requires var dir := MembersOf(fs, f)[m]; dir.key == INCLUDE_DIRECTORY && dir.value.Text? && i < |Entries(fs, dir)|
    requires var name := Entries(fs, MembersOf(fs, f)[m])[i]; name == "" || name[0] != '.'
    requires Outcome(confs, FlattenDir(fs, rank, f, m, i), st, mem, from) == Reached(now, true, used)
    ensures var dir := MembersOf(fs, f)[m];
            var path := dir.value.text + "/" + Entries(fs, dir)[i];
            var r := Outcome(confs, After(1, FlattenFile(fs, rank, path)), now, mem, used);
            && rank(path) < rank(f)
            && (mem(used) ==> r == Outcome(confs, FlattenFile(fs, rank, path), now, mem, used + 1))
            && (!mem(used) ==> r.st == now && !r.ok)
            && Outcome(confs, FlattenDir(fs, rank, f, m, i + 1), st, mem, from) == r
            && (!r.ok ==> Outcome(confs, FlattenDir(fs, rank, f, m, |Entries(fs, dir)|), st, mem, from) == r)
  {
    var dir := MembersOf(fs, f)[m];
    var path := PathIn(dir.value.text, Entries(fs, dir)[i]);
    DirNext(fs, rank, f, m, i);
    var one := After(1, FlattenFile(fs, rank, path));
    OutcomeAfter(confs, 1, FlattenFile(fs, rank, path), now, mem, used);
    OutcomeJoin(confs, FlattenDir(fs, rank, f, m, i).0, one, st, mem, from);
    if !Outcome(confs, one, now, mem, used).ok {
      FailureStaysInDir(confs, fs, rank, f, m, i + 1, |Entries(fs, dir)|, st, mem, from);
    }
  }

  lemma {:induction false} OutcomeOne(confs: seq<Conf>, m: Member, st: State, mem: nat -> bool, from: nat)
    requires AllFit(confs, st)
    ensures var r := ApplyIn(confs, m, st, mem, from);
            Outcome(confs, ([Set(m)], true), st, mem, from) == Reached(r.0, r.1, from + MemberCost(confs, m))
  {
    assert PerformTo(confs, [Set(m)], 0, st, mem, from) == Reached(st, true, from);
  }

  // ---------------------------------------------------------------- how far memory decides

  /** The members among the first k steps. */
  function SettingsTo(acts: seq<Act>, k: nat): seq<Member>
    requires k <= |acts|
  {
    if k == 0 then []
    else if acts[k - 1].Set? then SettingsTo(acts, k - 1) + [acts[k - 1].member]
    else SettingsTo(acts, k - 1)
  }

  /** The members of a file, with those of the included files in the place of the includes. */
  function Settings(acts: seq<Act>): seq<Member> {
    SettingsTo(acts, |acts|)
  }

  ghost function CostTo(confs: seq<Conf>, acts: seq<Act>, k: nat): nat
    requires k <= |acts|
  {
    if k == 0 then 0
    else CostTo(confs, acts, k - 1) + CostOf(confs, acts[k - 1])
  }

  ghost function CostOf(confs: seq<Conf>, a: Act): nat {
    match a
    case Take(count) => count
    case Set(m) => MemberCost(confs, m)
  }

  lemma {:induction false} LastsJoin(mem: nat -> bool, from: nat, a: nat, b: nat)
    ensures Lasts(mem, from, a + b) <==> Lasts(mem, from, a) && Lasts(mem, from + a, b)
  {}

  /** What the first k steps come to if memory lasts. */
  ghost function PlainTo(confs: seq<Conf>, acts: seq<Act>, k: nat, st: State): (r: (State, bool))
    requires k <= |acts| && AllFit(confs, st)
    ensures AllFit(confs, r.0)
  {
    if k == 0 then (st, true)
    else
      var r := PlainTo(confs, acts, k - 1, st);
      if r.1 then PlainOf(confs, acts[k - 1], r.0) else r
  }

  ghost function PlainOf(confs: seq<Conf>, a: Act, st: State): (r: (State, bool))
    requires AllFit(confs, st)
    ensures AllFit(confs, r.0)
  {
    match a
    case Take(_) => (st, true)
    case Set(m) => Apply(confs, m, st)
  }

  lemma {:induction false} PerformOneIff(confs: seq<Conf>, a: Act, st: State, mem: nat -> bool, from: nat)
    requires AllFit(confs, st)
    ensures var r, plain := Perform(confs, a, st, mem, from), PlainOf(confs, a, st);
            && (r.ok <==> plain.1 && Lasts(mem, from, CostOf(confs, a)))
            && (r.ok ==> r == Reached(plain.0, true, from + CostOf(confs, a)))
  {
    if a.Set? {
      ApplyInIff(confs, a.member, st, mem, from);
    }
  }

  lemma {:induction false} PlainIsApply(confs: seq<Conf>, acts: seq<Act>, k: nat, st: State)
    requires k <= |acts| && AllFit(confs, st)
    ensures PlainTo(confs, acts, k, st) == ApplyAll(confs, SettingsTo(acts, k), st)
  {
    if k > 0 {
      var ms := SettingsTo(acts, k - 1);
      PlainIsApply(confs, acts, k - 1, st);
      if acts[k - 1].Set? {
        ApplyToSame(confs, ms, ms + [acts[k - 1].member], |ms|, st);
      }
    }
  }

  /** Steps succeed exactly if their members are all accepted and memory lasts, and then memory makes
      no difference to the state. */
  lemma {:induction false} PerformIff(confs: seq<Conf>, acts: seq<Act>, k: nat, st: State, mem: nat -> bool, from: nat)
    requires k <= |acts| && AllFit(confs, st)
    ensures var r, plain := PerformTo(confs, acts, k, st, mem, from), PlainTo(confs, acts, k, st);
            && (r.ok <==> plain.1 && Lasts(mem, from, CostTo(confs, acts, k)))
            && (r.ok ==> r.st == plain.0 && r.used == from + CostTo(confs, acts, k))
  {
    if k > 0 {
      var before := PerformTo(confs, acts, k - 1, st, mem, from);
      PerformIff(confs, acts, k - 1, st, mem, from);
      LastsJoin(mem, from, CostTo(confs, acts, k - 1), CostOf(confs, acts[k - 1]));
      if before.ok {
        PerformOneIff(confs, acts[k - 1], before.st, mem, before.used);
      }
    }
  }

  /** Everything that fra_p_conf_load does. */
  ghost function Load(confs: seq<Conf>, fs: Files, rank: string -> nat, f: string, st: State,
      mem: nat -> bool): Reached
    requires Acyclic(fs, rank) && AllFit(confs, st)
  {
    Outcome(confs, FlattenFile(fs, rank, f), Defaults(confs, st), mem, 0)
  }

  /** Loading succeeds exactly if every file can be read and closed, every member is accepted, and
      memory lasts; and then memory makes no difference. */
  lemma {:induction false} LoadSucceedsIff(confs: seq<Conf>, fs: Files, rank: string -> nat, f: string, st: State,
      mem: nat -> bool)
    requires Acyclic(fs, rank) && AllFit(confs, st)
    ensures var r, flat := Load(confs, fs, rank, f, st, mem), FlattenFile(fs, rank, f);
            var plain := ApplyAll(confs, Settings(flat.0), Defaults(confs, st));
            && (r.ok <==> flat.1 && plain.1 && Lasts(mem, 0, CostTo(confs, flat.0, |flat.0|)))
            && (r.ok ==> r.st == plain.0)
  {
    var acts := FlattenFile(fs, rank, f).0;
    PerformIff(confs, acts, |acts|, Defaults(confs, st), mem, 0);
    PlainIsApply(confs, acts, |acts|, Defaults(confs, st));
  }

  /** What a configuration that has been loaded says.  The plugins are those of all the lists, in the
      order of the flattened files.  An option has the value of the last member that sets it, number p,
      or its default if there is none. */
  lemma {:induction false} LoadMeans(confs: seq<Conf>, fs: Files, rank: string -> nat, f: string, st: State,
      mem: nat -> bool, j: nat, p: nat)
    requires Acyclic(fs, rank) && AllFit(confs, st) && Load(confs, fs, rank, f, st, mem).ok
    requires j < |confs| && forall i :: j < i < |confs| ==> CellOf(confs[i]) != CellOf(confs[j])
    requires var ms := Settings(FlattenFile(fs, rank, f).0);
             && p <= |ms|
             && (p < |ms| ==> ms[p].key != PLUGINS && RowOf(confs, ms[p].key, |confs|) == j)
             && forall i :: 0 <= i < |ms| && (i > p || p == |ms|) ==> !Sets(confs, ms[i], CellOf(confs[j]))
    ensures var ms := Settings(FlattenFile(fs, rank, f).0);
            var end := Load(confs, fs, rank, f, st, mem).st;
            && end.plugins == PluginsTo(ms, |ms|)
            && InState(CellOf(confs[j]), end)
            && Some(ContentOf(end, CellOf(confs[j]))) ==
               if p < |ms| then Written(confs[j], ms[p].value) else Some(Default(confs[j]))
  {
    var ms, d := Settings(FlattenFile(fs, rank, f).0), Defaults(confs, st);
    LoadSucceedsIff(confs, fs, rank, f, st, mem);
    NoPluginsLeft(confs, |confs|, st);
    PluginsConcatenated(confs, ms, |ms|, d);
    DefaultsSet(confs, |confs|, j, st);
    if p < |ms| {
      LastWriteWins(confs, ms, |ms|, p, confs[j], d);
    } else {
      Untouched(confs, ms, |ms|, d, CellOf(confs[j]));
    }
  }

  /** Loading does not depend on what was configured before, except for what no option is about. */
  lemma {:induction false} LoadForgets(confs: seq<Conf>, fs: Files, rank: string -> nat, f: string, a: State,
      b: State, mem: nat -> bool)
    requires Acyclic(fs, rank) && SameShape(a, b) && AllFit(confs, a) && AllFit(confs, b)
    requires forall cell ::
               InState(cell, a) && !Covered(confs, |confs|, cell) ==> ContentOf(a, cell) == ContentOf(b, cell)
    ensures Load(confs, fs, rank, f, a, mem) == Load(confs, fs, rank, f, b, mem)
  {
    DefaultsForget(confs, a, b);
  }
}
