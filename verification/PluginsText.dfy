/** Lists of plugins written out as configuration text, and read back by src/conf.c. */
module PluginsText {
  import opened ConfLoader
  import opened ConfSpec
  import opened IncludeSpec
  import opened Json
  import opened JsonText
  import opened OptionsText
  import opened PluginQueue

  lemma {:induction false} PluginsPrintable(plugins: seq<PluginSpec>)
    ensures Printable(PluginsToJson(plugins))
  {
    var members := PluginsToJson(plugins).members;
    forall k | 0 <= k < |members|
      ensures Printable(members[k].value)
    {
      assert members[k].value == ArgvToJson(plugins[k].argv);
      forall j | 0 <= j < |plugins[k].argv|
        ensures Printable(members[k].value.items[j])
      {
        assert members[k].value.items[j] == Text(plugins[k].argv[j]);
      }
    }
  }

  /** A configuration file, as text and tokens, that enables these plugins. */
  function PluginsFile(plugins: seq<PluginSpec>, buffers: nat): File {
    var members := [Member("enabled plugins", PluginsToJson(plugins))];
    Readable(Print(Obj(members)), Emit(Obj(members), 0, -1, 0), members, true, buffers)
  }

  /** Its tokens are those of its text.  Loading it succeeds exactly if it has not too many tokens and
      memory lasts, and then it enables exactly these plugins. */
  lemma {:induction false} PluginsFileLoads(confs: seq<Conf>, fs: Files, rank: string -> nat, f: string,
      plugins: seq<PluginSpec>, buffers: nat, st: State, mem: nat -> bool)
    requires Acyclic(fs, rank) && AllFit(confs, st) && f in fs.files && fs.files[f] == PluginsFile(plugins, buffers)
    ensures Document(fs.files[f].s, fs.files[f].t, fs.files[f].members)
    ensures var r, members := Load(confs, fs, rank, f, st, mem), PluginsToJson(plugins).members;
            && (r.ok <==> |fs.files[f].t| <= 1200
                          && Lasts(mem, 0, ReadCost(fs.files[f]) + PluginCostTo(members, |members|)))
            && (r.ok ==> r.st == Defaults(confs, st).(plugins := plugins))
  {
    var m, d := Member(PLUGINS, PluginsToJson(plugins)), Defaults(confs, st);
    assert Document(fs.files[f].s, fs.files[f].t, [m]) by {
      PluginsPrintable(plugins);
      WrittenDocument([m]);
    }
    if CanRead(fs, f) {
      OnlySetting(fs, rank, f, m);
      LoadSucceedsIff(confs, fs, rank, f, st, mem);
      OneSetting(confs, ReadCost(fs.files[f]), m, d);
      PluginsSet(confs, plugins, st);
    }
  }

  lemma {:induction false} PluginsSet(confs: seq<Conf>, plugins: seq<PluginSpec>, st: State)
    requires AllFit(confs, st)
    ensures Apply(confs, Member(PLUGINS, PluginsToJson(plugins)), Defaults(confs, st)) ==
            (Defaults(confs, st).(plugins := plugins), true)
  {
    PluginsRoundTrip(plugins);
    NoPluginsLeft(confs, |confs|, st);
    assert [] + plugins == plugins;
  }

  /** Writing a list of plugins and reading the text and its tokens appends exactly that list, if memory
      lasts. */
  method ReadBack(plugins: seq<PluginSpec>, queue: PluginQueue, mem: nat -> bool, ghost before: seq<PluginSpec>)
    returns (rc: int)
    requires queue.Shows(before)
    modifies queue, queue.Nodes()
    ensures var members := PluginsToJson(plugins).members;
            rc == if Lasts(mem, 0, PluginCostTo(members, |members|)) then 0 else -1
    ensures rc == 0 ==> queue.Shows(before + plugins)
    ensures queue.Grown()
  {
    var v := PluginsToJson(plugins);
    PluginsPrintable(plugins);
    WrittenDocument(v.members);
    PluginsRoundTrip(plugins);
    AllReadIff(v.members, mem, 0, |v.members|);
    GoodToIs(v.members, |v.members|, |v.members|);
    var to;
    rc, to := SetPlugins(Print(v), Emit(v, 0, -1, 0), 0, queue, mem, 0, -1, v, before);
  }
}
