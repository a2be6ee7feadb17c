/** `maybeRepairLegacyWorktreeConfigAndEnvFiles` as one step of a worktree's files and process
environment, and what repeating it at every start leads to. */
module WorktreeRepair {
  import opened EnvFile
  import opened Optional
  import opened WorktreeConfig
  import opened WorktreeEnv

  /** No config stands for a file that is missing or that does not parse. */
  datatype Files = Files(config: Option<Config>, envText: Option<string>)

  /** What does not change between starts: the host, the ports in the configs of the instances that
      a context sees, and how a port is put into a local URL. */
  datatype World = World(
    host: Host,
    serverPorts: Context -> set<int>,
    databasePorts: Context -> set<int>,
    rewrite: (string, int) -> string)

  datatype Started = Started(files: Files, env: map<string, string>, repairedConfig: bool, repairedEnv: bool)

  predicate InWorktree(env: map<string, string>) {
    IN_WORKTREE in env && env[IN_WORKTREE] == "true"
  }

  /** `readEnvEntries`, in the order of the object's keys. */
  function ReadEntries(envText: Option<string>): seq<Entry> {
    if envText.Some? then OrderedEntries(SplitLines(envText.value, [])) else []
  }

  function ContextOf(world: World, files: Files, env: map<string, string>): Context {
    ResolveContext(world.host, EntryMap(ReadEntries(files.envText)), env)
  }

  function Root(world: World, c: Context): Dir {
    world.host.instanceRoot(c.homeDir, c.instanceId)
  }

  function RepairedFor(world: World, c: Context, config: Config): Option<Config> {
    Repaired(config, Root(world, c), world.serverPorts(c), world.databasePorts(c), world.rewrite)
  }

  function NewConfig(world: World, c: Context, config: Option<Config>): Option<Config> {
    if config.Some? then RepairedFor(world, c, config.value) else None
  }

  function Exported(world: World, c: Context, env: map<string, string>): map<string, string> {
    env[HOME := c.homeDir][INSTANCE_ID := c.instanceId][CONFIG := c.configPath]
      [CONTEXT := world.host.contextPath(c.homeDir)][WORKTREE_NAME := c.worktreeName]
  }

  /** One start of the server, as far as the repair goes. */
  function Start(world: World, files: Files, env: map<string, string>): Started {
    if !InWorktree(env) then Started(files, env, false, false)
    else
      var c := ContextOf(world, files, env);
      var existing := ReadEntries(files.envText);
      var config := NewConfig(world, c, files.config);
      var repairedEnv := NeedsEnvRepair(world.host, c, EntryMap(existing));
      Started(
        Files(
          if config.Some? then config else files.config,
          if repairedEnv then Some(FormatEnvEntries(DesiredEntries(world.host, c, existing))) else files.envText),
        Exported(world, c, env), config.Some?, repairedEnv)
  }

  lemma SomeEntryDiffers(host: Host, c: Context, existing: seq<Entry>)
    requires AsParsed(existing)
    ensures (exists e :: e in DesiredEntries(host, c, existing) && e !in existing)
      <==> NeedsEnvRepair(host, c, EntryMap(existing))
  {
    DesiredAsMap(host, c, existing);
    var entries, desired := DesiredEntries(host, c, existing), Desired(host, c, EntryMap(existing));
    MapHasMembers(existing);
    MapHasMembers(entries);
    hide DesiredEntries, Desired, EntryMap, DistinctKeys, AllKeys;
    forall e | e in entries && e !in existing
      ensures e.key in desired && !(e.key in EntryMap(existing) && EntryMap(existing)[e.key] == desired[e.key])
    {
      assert e == Entry(e.key, e.value);
    }
    forall key | key in desired && !(key in EntryMap(existing) && EntryMap(existing)[key] == desired[key])
      ensures Entry(key, desired[key]) in entries && Entry(key, desired[key]) !in existing
    {
    }
  }

  method ReadEnvEntries(envText: Option<string>) returns (entries: seq<Entry>)
    ensures entries == ReadEntries(envText) && AsParsed(entries)
  {
    if envText == None {
      return [];
    }
    entries := ParseEnvFile(envText.value);
  }

  /** A worktree's two files and the environment of the server process. */
  class Worktree {
    var config: Option<Config>
    var envText: Option<string>
    var processEnv: map<string, string>

    method MaybeRepairFiles(world: World) returns (repairedConfig: bool, repairedEnv: bool)
      modifies this
      ensures Started(Files(config, envText), processEnv, repairedConfig, repairedEnv)
        == old(Start(world, Files(config, envText), processEnv))
      ensures !(IN_WORKTREE in old(processEnv) && old(processEnv)[IN_WORKTREE] == "true") ==>
        !repairedConfig && !repairedEnv && processEnv == old(processEnv)
      ensures repairedConfig ==> old(config).Some? && config.Some?
      ensures !repairedConfig ==> config == old(config)
      ensures !repairedEnv ==> envText == old(envText)
    {
      hide Repaired, DesiredEntries, NeedsEnvRepair, ReadEntries, ResolveContext, FormatEnvEntries, Root, Collides, NeedsRepair;
      repairedConfig, repairedEnv := false, false;
      if !InWorktree(processEnv) {
        return;
      }
      var existing := ReadEnvEntries(envText);
      var c := ResolveContext(world.host, EntryMap(existing), processEnv);
      processEnv := processEnv[HOME := c.homeDir];
      processEnv := processEnv[INSTANCE_ID := c.instanceId];
      processEnv := processEnv[CONFIG := c.configPath];
      processEnv := processEnv[CONTEXT := world.host.contextPath(c.homeDir)];
      processEnv := processEnv[WORKTREE_NAME := c.worktreeName];
      if config.Some? {
        var written := RepairConfig(config.value, Root(world, c), world.serverPorts(c), world.databasePorts(c), world.rewrite);
        if written.Some? {
          config := written;
          repairedConfig := true;
        }
      }
      var desired := DesiredEntries(world.host, c, existing);
      SomeEntryDiffers(world.host, c, existing);
      repairedEnv := exists e :: e in desired && e !in existing;
      if repairedEnv {
        envText := Some(FormatEnvEntries(desired));
      }
    }
  }

  lemma ReadAsParsed(envText: Option<string>)
    ensures AsParsed(ReadEntries(envText))
  {
    if envText.Some? {
      OrderedEntriesAre(SplitLines(envText.value, []));
    }
  }

  // ----- the process environment -----

  ghost predicate SameButFor(env: map<string, string>, now: map<string, string>, keys: set<string>) {
    forall key :: key !in keys ==> (key in now <==> key in env) && (key in env ==> now[key] == env[key])
  }

  /** What a start leaves in the process environment: the five variables, from which alone, without
      the env file, the same context is resolved exactly if its names and paths resolve to
      themselves; every other variable is as it was. */
  lemma EnvironmentAfter(world: World, files: Files, env: map<string, string>, config: Option<Config>)
    requires InWorktree(env) && NoneBlank(ContextOf(world, files, env)) && ContextOf(world, files, env).configPath != []
    ensures var c, now := ContextOf(world, files, env), Start(world, files, env).env;
      && SameButFor(env, now, {HOME, INSTANCE_ID, CONFIG, CONTEXT, WORKTREE_NAME})
      && CONTEXT in now && now[CONTEXT] == world.host.contextPath(c.homeDir)
      && (ContextOf(world, Files(config, None), now) == c <==>
          && world.host.resolvePath(c.configPath) == c.configPath && world.host.resolveHome(Trim(c.homeDir)) == c.homeDir
          && Trim(c.worktreeName) == c.worktreeName && Trim(c.instanceId) == c.instanceId)
  {
    hide ReadEntries, Trim, Repaired, NeedsEnvRepair, DesiredEntries, FormatEnvEntries, ContextOf;
    var c := ContextOf(world, files, env);
    assert Start(world, files, env).env == Exported(world, c, env);
    ExportedValues(world, c, env);
    hide Start, Exported;
    ResolvedFromEnv(world, Start(world, files, env).env, config);
  }

  lemma ExportedValues(world: World, c: Context, env: map<string, string>)
    ensures var now := Exported(world, c, env);
      && Holds(now, HOME, c.homeDir) && Holds(now, INSTANCE_ID, c.instanceId) && Holds(now, CONFIG, c.configPath)
      && Holds(now, CONTEXT, world.host.contextPath(c.homeDir)) && Holds(now, WORKTREE_NAME, c.worktreeName)
      && SameButFor(env, now, {HOME, INSTANCE_ID, CONFIG, CONTEXT, WORKTREE_NAME})
  {
    KeysDiffer();
  }

  /** Without an env file the process environment alone decides. */
  lemma ResolvedFromEnv(world: World, env: map<string, string>, config: Option<Config>)
    ensures ContextOf(world, Files(config, None), env) == ResolveContext(world.host, map[], env)
  {
  }

  // ----- two starts -----

  /** Both in the worktree and with the same config path. */
  predicate SamePlace(world: World, env: map<string, string>, nextEnv: map<string, string>) {
    InWorktree(env) && InWorktree(nextEnv) && ConfigPath(world.host, nextEnv) == ConfigPath(world.host, env)
  }

  /** What the start after one that wrote the env file reads from it. */
  lemma ReadsWritten(world: World, files: Files, env: map<string, string>)
    requires InWorktree(env)
    ensures var one, c := Start(world, files, env), ContextOf(world, files, env);
      one.repairedEnv ==>
        EntryMap(ReadEntries(one.files.envText)) == ReadBack(DesiredEntries(world.host, c, ReadEntries(files.envText)))
  {
    hide ReadEntries, ResolveContext, NeedsEnvRepair, DesiredEntries, FormatEnvEntries, OrderedEntries, SplitLines;
    var c := ContextOf(world, files, env);
    var text := FormatEnvEntries(DesiredEntries(world.host, c, ReadEntries(files.envText)));
    OrderedIsMap(SplitLines(text, []));
    ReadOf(text);
  }

  lemma ReadOf(text: string)
    ensures ReadEntries(Some(text)) == OrderedEntries(SplitLines(text, []))
  {
  }

  /** An env file that is not written holds what the context was read from. */
  lemma KeptContext(world: World, files: Files, env: map<string, string>, nextEnv: map<string, string>)
    requires SamePlace(world, env, nextEnv) && NoneBlank(ContextOf(world, files, env))
    requires !Start(world, files, env).repairedEnv
    ensures ContextOf(world, Start(world, files, env).files, nextEnv) == ContextOf(world, files, env)
  {
    hide ReadEntries, Trim, Desired;
    var c, persisted := ContextOf(world, files, env), EntryMap(ReadEntries(files.envText));
    NoRepairIffAgrees(world.host, c, persisted);
    ContextFromFile(world.host, c, persisted, env);
    ContextFromFile(world.host, c, persisted, nextEnv);
  }

  lemma PlaceOf(world: World, files: Files, env: map<string, string>)
    ensures ContextOf(world, files, env).configPath == ConfigPath(world.host, env)
  {
  }

  /** In the same context the config is not written again. */
  lemma ConfigKept(world: World, c: Context, config: Option<Config>)
    ensures var now := NewConfig(world, c, config); NewConfig(world, c, if now.Some? then now else config) == None
  {
    if config.Some? {
      RepairSettles(config.value, Root(world, c), world.serverPorts(c), world.databasePorts(c), world.rewrite);
    }
  }

  /** The next start is the same instance and writes neither file, whatever is in its process
      environment, exactly if this one left the env file alone or its values are settled. */
  lemma NextStartSettlesIff(world: World, files: Files, env: map<string, string>, nextEnv: map<string, string>)
    requires SamePlace(world, env, nextEnv) && NoneBlank(ContextOf(world, files, env))
    ensures var one := Start(world, files, env);
      var two := Start(world, one.files, nextEnv);
      var c := ContextOf(world, files, env);
      (ContextOf(world, one.files, nextEnv) == c && !two.repairedConfig && !two.repairedEnv)
        <==> (!one.repairedEnv || Settled(world.host, c))
  {
    hide ReadEntries, ResolveContext, Repaired, Settled, NoneBlank, ReadBack, DesiredEntries, NeedsEnvRepair, FormatEnvEntries, EntryMap;
    var c := ContextOf(world, files, env);
    PlaceOf(world, files, env);
    ConfigKept(world, c, files.config);
    ReadAsParsed(files.envText);
    if Start(world, files, env).repairedEnv {
      ReadsWritten(world, files, env);
      EnvRepairSettlesIff(world.host, ReadEntries(files.envText), c, nextEnv);
    } else {
      KeptContext(world, files, env, nextEnv);
    }
  }

  // ----- any number of starts -----

  /** The files after starts with these process environments. */
  function FilesAfter(world: World, files: Files, envs: seq<map<string, string>>): Files {
    if |envs| == 0 then files
    else Start(world, FilesAfter(world, files, envs[..|envs| - 1]), envs[|envs| - 1]).files
  }

  ghost predicate AllAt(world: World, env: map<string, string>, envs: seq<map<string, string>>) {
    forall e :: e in envs ==> SamePlace(world, env, e)
  }

  /** Once a start leaves the env file alone, no later start writes either file or resolves
      anything else. */
  lemma {:induction false} QuietForGood(
    world: World, files: Files, env: map<string, string>, envs: seq<map<string, string>>, nextEnv: map<string, string>)
    requires InWorktree(env) && NoneBlank(ContextOf(world, files, env)) && !Start(world, files, env).repairedEnv
    requires AllAt(world, env, envs) && SamePlace(world, env, nextEnv)
    ensures var one := Start(world, files, env);
      && FilesAfter(world, one.files, envs) == one.files
      && ContextOf(world, one.files, nextEnv) == ContextOf(world, files, env)
      && !Start(world, one.files, nextEnv).repairedConfig && !Start(world, one.files, nextEnv).repairedEnv
  {
    hide Start, NoneBlank, ContextOf;
    NextStartSettlesIff(world, files, env, nextEnv);
    if |envs| > 0 {
      QuietForGood(world, files, env, envs[..|envs| - 1], envs[|envs| - 1]);
      NothingWritten(world, Start(world, files, env).files, envs[|envs| - 1]);
    }
  }

  lemma NothingWritten(world: World, files: Files, env: map<string, string>)
    ensures var s := Start(world, files, env); !s.repairedConfig && !s.repairedEnv ==> s.files == files
  {
    hide NeedsEnvRepair, Repaired, ReadEntries, ResolveContext;
  }

  /** If the config path does not come back as it was, a repair of the env file is followed by
      another one at every start. */
  lemma {:induction false} EnvRewrittenAtEveryStart(
    world: World, files: Files, env: map<string, string>, envs: seq<map<string, string>>)
    requires InWorktree(env) && Start(world, files, env).repairedEnv && AllAt(world, env, envs)
    requires !IsPlain(Entry(CONFIG, ConfigPath(world.host, env))) && |envs| > 0
    ensures Start(world, FilesAfter(world, Start(world, files, env).files, envs[..|envs| - 1]), envs[|envs| - 1]).repairedEnv
  {
    hide Start, IsPlain;
    var last, front := envs[|envs| - 1], envs[..|envs| - 1];
    if |front| == 0 {
      assert last in envs;
      NextEnvRewritten(world, files, env, last);
    } else {
      assert front[|front| - 1] in envs && last in envs;
      assert forall e :: e in front ==> e in envs;
      EnvRewrittenAtEveryStart(world, files, env, front);
      NextEnvRewritten(world, FilesAfter(world, Start(world, files, env).files, front[..|front| - 1]), front[|front| - 1], last);
    }
  }

  lemma NextEnvRewritten(world: World, files: Files, env: map<string, string>, nextEnv: map<string, string>)
    requires SamePlace(world, env, nextEnv) && Start(world, files, env).repairedEnv
    requires !IsPlain(Entry(CONFIG, ConfigPath(world.host, env)))
    ensures Start(world, Start(world, files, env).files, nextEnv).repairedEnv
  {
    hide ReadEntries, ReadBack, ResolveContext, Repaired, IsPlain, DesiredEntries, NeedsEnvRepair, FormatEnvEntries, EntryMap;
    var c := ContextOf(world, files, env);
    var one := Start(world, files, env);
    var again := ContextOf(world, one.files, nextEnv);
    ReadAsParsed(files.envText);
    ReadsWritten(world, files, env);
    PlaceOf(world, files, env);
    PlaceOf(world, one.files, nextEnv);
    ConfigWanted(world.host, c);
    ConfigWanted(world.host, again);
    PlainComesBack(world.host, c, ReadEntries(files.envText), Entry(CONFIG, c.configPath));
    NoRepairIffAgrees(world.host, again, EntryMap(ReadEntries(one.files.envText)));
    hide Wanted;
  }

  lemma ConfigWanted(host: Host, c: Context)
    ensures Entry(CONFIG, c.configPath) in Wanted(host, c)
  {
    assert Wanted(host, c)[2] == Entry(CONFIG, c.configPath);
  }

  // ----- a start that writes neither file -----

  /** The context with its strings escaped once. */
  function Escaped(c: Context): Context {
    Context(c.configPath, JsonText(c.worktreeName), JsonText(c.instanceId), JsonText(c.homeDir))
  }

  /** What a caller can check before the repair: the escaped values are what the next start wants. */
  ghost predicate Quiet(host: Host, c: Context) {
    && (forall e :: e in Wanted(host, c) ==> !HasSeparator(e.value))
    && JsonText(c.configPath) == c.configPath
    && Trim(JsonText(c.worktreeName)) == JsonText(c.worktreeName)
    && Trim(JsonText(c.instanceId)) == JsonText(c.instanceId)
    && host.resolveHome(Trim(JsonText(c.homeDir))) == JsonText(c.homeDir)
    && JsonText(host.contextPath(c.homeDir)) == host.contextPath(JsonText(c.homeDir))
  }

  predicate Inked(s: string) {
    exists i :: 0 <= i < |s| && !IsSpace(s[i])
  }

  lemma {:induction false} SkipIffInked(s: string)
    ensures SkipSpaces(s) != [] <==> Inked(s)
    ensures SkipSpaces(s) != [] ==> !IsSpace(SkipSpaces(s)[0])
  {
    hide IsSpace;
    if |s| > 0 && IsSpace(s[0]) {
      SkipIffInked(s[1..]);
      assert forall i :: 1 <= i < |s| ==> s[1..][i - 1] == s[i];
    }
  }

  lemma {:induction false} DropIffInked(s: string)
    ensures DropSpacesAtEnd(s) != [] <==> Inked(s)
  {
    hide IsSpace;
    if |s| > 0 && IsSpace(s[|s| - 1]) {
      DropIffInked(s[..|s| - 1]);
      assert forall i :: 0 <= i < |s| - 1 ==> s[..|s| - 1][i] == s[i];
    }
  }

  lemma TrimIffInked(s: string)
    ensures Trim(s) != [] <==> Inked(s)
  {
    hide IsSpace, SkipSpaces, DropSpacesAtEnd;
    SkipIffInked(s);
    DropIffInked(SkipSpaces(s));
  }

  lemma {:induction false} EscapedStaysInked(value: string)
    requires Inked(value)
    ensures Inked(JsonText(value))
  {
    var first, rest, text := JsonChar(value[0]), JsonText(value[1..]), JsonText(value);
    if IsSpace(value[0]) {
      var i :| 0 <= i < |value| && !IsSpace(value[i]);
      assert value[1..][i - 1] == value[i];
      EscapedStaysInked(value[1..]);
      var k :| 0 <= k < |rest| && !IsSpace(rest[k]);
      assert text[|first| + k] == rest[k];
    } else {
      assert !IsSpace(text[0]);
    }
  }

  lemma EscapedNotBlank(value: string)
    requires Trim(value) != []
    ensures Trim(JsonText(value)) != []
  {
    hide Trim, Inked, JsonText;
    TrimIffInked(value);
    EscapedStaysInked(value);
    TrimIffInked(JsonText(value));
  }

  /** After a repair of the env file the next start leaves it alone exactly if the values are
      quiet, and is then the escaped instance. */
  lemma EnvQuietIff(host: Host, existing: seq<Entry>, c: Context, nextEnv: map<string, string>)
    requires AsParsed(existing) && NoneBlank(c) && ConfigPath(host, nextEnv) == c.configPath
    ensures var file := ReadBack(DesiredEntries(host, c, existing));
      var again := ResolveContext(host, file, nextEnv);
      (!NeedsEnvRepair(host, again, file) <==> Quiet(host, c)) && (Quiet(host, c) ==> again == Escaped(c))
  {
    hide ReadBack, DesiredEntries, Trim, NeedsEnvRepair, JsonText, HasSeparator, NoneBlank;
    var file := ReadBack(DesiredEntries(host, c, existing));
    forall e | e in Wanted(host, c)
      ensures e.key in file <==> !HasSeparator(e.value)
      ensures e.key in file ==> file[e.key] == JsonText(e.value)
    {
      WantedComesBack(host, c, existing, e);
    }
    NoRepairIffAgrees(host, ResolveContext(host, file, nextEnv), file);
    BackAgreesIff(host, c, file, nextEnv);
  }

  predicate IsBackAs(file: map<string, string>, key: string, value: string) {
    (key in file <==> !HasSeparator(value)) && (key in file ==> file[key] == JsonText(value))
  }

  ghost predicate IsBack(host: Host, c: Context, file: map<string, string>) {
    forall e :: e in Wanted(host, c) ==> IsBackAs(file, e.key, e.value)
  }

  predicate Holds(file: map<string, string>, key: string, value: string) {
    key in file && file[key] == value
  }

  lemma SixHold(w: seq<Entry>, file: map<string, string>)
    requires |w| == 6
    ensures (forall e :: e in w ==> e.key in file && file[e.key] == e.value) <==>
      && Holds(file, w[0].key, w[0].value) && Holds(file, w[1].key, w[1].value) && Holds(file, w[2].key, w[2].value)
      && Holds(file, w[3].key, w[3].value) && Holds(file, w[4].key, w[4].value) && Holds(file, w[5].key, w[5].value)
  {
    assert w[0] in w && w[1] in w && w[2] in w && w[3] in w && w[4] in w && w[5] in w;
  }

  lemma SixBack(w: seq<Entry>, file: map<string, string>)
    requires |w| == 6 && forall e :: e in w ==> IsBackAs(file, e.key, e.value)
    ensures IsBackAs(file, w[0].key, w[0].value) && IsBackAs(file, w[1].key, w[1].value) && IsBackAs(file, w[2].key, w[2].value)
    ensures IsBackAs(file, w[3].key, w[3].value) && IsBackAs(file, w[4].key, w[4].value) && IsBackAs(file, w[5].key, w[5].value)
    ensures (forall e :: e in w ==> !HasSeparator(e.value)) <==>
      w[0].key in file && w[1].key in file && w[2].key in file && w[3].key in file && w[4].key in file && w[5].key in file
  {
    hide HasSeparator, JsonText;
    assert w[0] in w && w[1] in w && w[2] in w && w[3] in w && w[4] in w && w[5] in w;
  }

  lemma AgreesOnAll(host: Host, c: Context, file: map<string, string>)
    ensures Agrees(host, c, file) <==>
      && Holds(file, HOME, c.homeDir) && Holds(file, INSTANCE_ID, c.instanceId) && Holds(file, CONFIG, c.configPath)
      && Holds(file, CONTEXT, host.contextPath(c.homeDir)) && Holds(file, IN_WORKTREE, "true")
      && Holds(file, WORKTREE_NAME, c.worktreeName)
  {
    SixHold(Wanted(host, c), file);
    hide Holds;
  }

  lemma AllBack(host: Host, c: Context, file: map<string, string>)
    requires IsBack(host, c, file)
    ensures IsBackAs(file, HOME, c.homeDir) && IsBackAs(file, INSTANCE_ID, c.instanceId) && IsBackAs(file, CONFIG, c.configPath)
    ensures IsBackAs(file, CONTEXT, host.contextPath(c.homeDir)) && IsBackAs(file, IN_WORKTREE, "true")
    ensures IsBackAs(file, WORKTREE_NAME, c.worktreeName)
    ensures (forall e :: e in Wanted(host, c) ==> !HasSeparator(e.value)) <==>
      && HOME in file && INSTANCE_ID in file && CONFIG in file && CONTEXT in file && IN_WORKTREE in file && WORKTREE_NAME in file
  {
    hide HasSeparator, IsBackAs;
    SixBack(Wanted(host, c), file);
  }

  lemma BackAgreesIff(host: Host, c: Context, file: map<string, string>, nextEnv: map<string, string>)
    requires IsBack(host, c, file) && NoneBlank(c) && ConfigPath(host, nextEnv) == c.configPath
    ensures var again := ResolveContext(host, file, nextEnv);
      (Agrees(host, again, file) <==> Quiet(host, c)) && (Quiet(host, c) ==> again == Escaped(c))
  {
    hide Trim, JsonText, HasSeparator, Wanted;
    var again := ResolveContext(host, file, nextEnv);
    EscapedNotBlank(c.worktreeName);
    EscapedNotBlank(c.instanceId);
    EscapedNotBlank(c.homeDir);
    AllBack(host, c, file);
    AgreesOnAll(host, again, file);
    TrueIsPlain();
    hide Agrees, IsBack;
  }

  lemma TrueIsPlain()
    ensures JsonText("true") == "true" && !HasSeparator("true")
  {
    JsonTextLength("true");
  }

  // ----- the config at the next start -----

  /** A config that stays at the next start is missing, or lies in that start's root and shares no
      port with what that start sees. */
  predicate ConfigStays(world: World, c: Context, config: Option<Config>) {
    config.Some? ==>
      && !NeedsRepair(config.value, Root(world, c))
      && !Collides(config.value, world.serverPorts(c), world.databasePorts(c))
  }

  /** The next start writes neither file exactly if this one left the env file alone, or its values
      are quiet and the config stays where their escaped forms lead. */
  lemma NextStartWritesNothingIff(world: World, files: Files, env: map<string, string>, nextEnv: map<string, string>)
    requires SamePlace(world, env, nextEnv) && NoneBlank(ContextOf(world, files, env))
    ensures var one := Start(world, files, env);
      var two := Start(world, one.files, nextEnv);
      var c := ContextOf(world, files, env);
      (!two.repairedConfig && !two.repairedEnv) <==>
        (!one.repairedEnv || (Quiet(world.host, c) && ConfigStays(world, Escaped(c), one.files.config)))
  {
    hide ReadEntries, ResolveContext, NoneBlank, ReadBack, DesiredEntries, NeedsEnvRepair, FormatEnvEntries, EntryMap,
      Quiet, BuildIsolated, Collides, NeedsRepair;
    var c, one := ContextOf(world, files, env), Start(world, files, env);
    PlaceOf(world, files, env);
    ReadAsParsed(files.envText);
    if one.repairedEnv {
      ReadsWritten(world, files, env);
      EnvQuietIff(world.host, ReadEntries(files.envText), c, nextEnv);
    } else {
      NextStartSettlesIff(world, files, env, nextEnv);
    }
  }

  /** Where the escaped values lead to another root the config moves: after a start that wrote it,
      the next one writes it again exactly if the new root does not hold the old one or a port is
      taken there. It then lies in the new root, with every port that is free and not a default. */
  lemma ConfigMovesIff(world: World, files: Files, env: map<string, string>, nextEnv: map<string, string>)
    requires InWorktree(env) && InWorktree(nextEnv) && Start(world, files, env).repairedConfig
    ensures var one := Start(world, files, env);
      var two := Start(world, one.files, nextEnv);
      var c, again := ContextOf(world, files, env), ContextOf(world, one.files, nextEnv);
      && (two.repairedConfig <==>
        || !IsPathInside(Root(world, c), Root(world, again))
        || Collides(one.files.config.value, world.serverPorts(again), world.databasePorts(again)))
      && !NeedsRepair(two.files.config.value, Root(world, again))
      && (one.files.config.value.serverPort != DEFAULT_SERVER_PORT
          && one.files.config.value.serverPort !in world.serverPorts(again)
        ==> two.files.config.value.serverPort == one.files.config.value.serverPort)
  {
    hide ReadEntries, ResolveContext, NeedsEnvRepair, DesiredEntries, FormatEnvEntries, Collides;
    var c, one := ContextOf(world, files, env), Start(world, files, env);
    var again := ContextOf(world, one.files, nextEnv);
    RootHolds(Root(world, c), Root(world, again));
  }

  /** A root holds the directories of another exactly if it holds that root. */
  lemma RootHolds(was: Dir, root: Dir)
    ensures IsPathInside(was + ["logs"], root) && IsPathInside(was + ["secrets", "master.key"], root) <==> IsPathInside(was, root)
    ensures IsPathInside(was, root) ==> forall tail: Dir :: IsPathInside(was + tail, root)
  {
    var a, b := was + ["logs"], was + ["secrets", "master.key"];
    if |root| <= |was| {
      assert a[..|root|] == was[..|root|];
    } else if IsPathInside(a, root) {
      assert root[|was|] == a[|was|] && b[|was|] != a[|was|];
    }
  }

  // ----- a home directory that does not come back -----

  ghost predicate RootsByHome(host: Host) {
    forall home, id :: host.instanceRoot(home, id) == [home, "instances", id]
  }

  /** The next start reads the home directory back escaped. */
  lemma HomeReadBack(world: World, files: Files, env: map<string, string>, nextEnv: map<string, string>)
    requires InWorktree(env) && NoneBlank(ContextOf(world, files, env)) && Start(world, files, env).repairedEnv
    requires !HasSeparator(ContextOf(world, files, env).homeDir)
    ensures ContextOf(world, Start(world, files, env).files, nextEnv).homeDir ==
      world.host.resolveHome(Trim(JsonText(ContextOf(world, files, env).homeDir)))
  {
    hide ReadEntries, ReadBack, Repaired, DesiredEntries, NeedsEnvRepair, FormatEnvEntries, EntryMap, Trim, JsonText, HasSeparator;
    var c := ContextOf(world, files, env);
    ReadAsParsed(files.envText);
    ReadsWritten(world, files, env);
    assert Wanted(world.host, c)[0] == Entry(HOME, c.homeDir);
    WantedComesBack(world.host, c, ReadEntries(files.envText), Entry(HOME, c.homeDir));
    EscapedNotBlank(c.homeDir);
  }

  /** Where each home directory has its own instances, a home directory that comes back as another
      one has the config written again at the next start. */
  lemma OtherHomeMovesConfig(world: World, files: Files, env: map<string, string>, nextEnv: map<string, string>)
    requires InWorktree(env) && InWorktree(nextEnv) && NoneBlank(ContextOf(world, files, env)) && RootsByHome(world.host)
    requires Start(world, files, env).repairedConfig && Start(world, files, env).repairedEnv
    requires var home := ContextOf(world, files, env).homeDir;
      !HasSeparator(home) && world.host.resolveHome(Trim(JsonText(home))) != home
    ensures Start(world, Start(world, files, env).files, nextEnv).repairedConfig
  {
    hide Start, NoneBlank, HasSeparator, Trim, JsonText, ResolveContext;
    HomeReadBack(world, files, env, nextEnv);
    ConfigMovesIff(world, files, env, nextEnv);
    var c, again := ContextOf(world, files, env), ContextOf(world, Start(world, files, env).files, nextEnv);
    assert Root(world, c)[0] == c.homeDir && Root(world, again)[0] == again.homeDir;
  }

  /** On POSIX a backslash is part of a name: here the home directory is `/a\\b`. */
  lemma BackslashMovesConfig(env: map<string, string>, nextEnv: map<string, string>) returns (world: World, files: Files)
    requires env == map[IN_WORKTREE := "true", HOME := "/a\\b", INSTANCE_ID := "w", WORKTREE_NAME := "w"]
    requires InWorktree(nextEnv)
    ensures Start(world, files, env).repairedConfig && Start(world, files, env).repairedEnv
    ensures Start(world, Start(world, files, env).files, nextEnv).repairedConfig
  {
    var host := Host(p => p, "/w/.dealdesk/config.json", p => "w", s => s, h => h, h => h + "/context.json", (h, i) => [h, "instances", i]);
    world := World(host, c => {}, c => {}, (url, port) => url);
    files := Files(Some(Config(true, [], 54329, [], 3100, [], [], [], None, "")), None);
    BackslashContext(world, files, env);
    OtherHomeMovesConfig(world, files, env, nextEnv);
  }

  lemma BackslashContext(world: World, files: Files, env: map<string, string>)
    requires files.envText == None && files.config == Some(Config(true, [], 54329, [], 3100, [], [], [], None, ""))
    requires env == map[IN_WORKTREE := "true", HOME := "/a\\b", INSTANCE_ID := "w", WORKTREE_NAME := "w"]
    requires RootsByHome(world.host) && forall h :: world.host.resolveHome(h) == h
    ensures var c, one := ContextOf(world, files, env), Start(world, files, env);
      && InWorktree(env) && NoneBlank(c) && one.repairedConfig && one.repairedEnv && c.homeDir == "/a\\b"
      && !HasSeparator(c.homeDir) && world.host.resolveHome(Trim(JsonText(c.homeDir))) != c.homeDir
  {
    hide SkipSpaces, DropSpacesAtEnd, JsonText, HasSeparator, HasEscaped, BuildIsolated;
    KeysDiffer();
    BackslashHome();
    var c := ContextOf(world, files, env);
    assert c.homeDir == "/a\\b" && c.instanceId == c.worktreeName == "w" by { hide Repaired, NeedsEnvRepair; }
    assert Entry(HOME, c.homeDir) == Wanted(world.host, c)[0];
    NoRepairIffAgrees(world.host, c, map[]);
  }

  lemma BackslashHome()
    ensures Trim("/a\\b") == "/a\\b" && Trim("w") == "w" && Trim(JsonText("/a\\b")) != "/a\\b" && !HasSeparator("/a\\b")
  {
    NothingToTrim("/a\\b");
    NothingToTrim("w");
    assert JsonText("/a\\b") == "/a\\\\b";
    NothingToTrim(JsonText("/a\\b"));
  }
}
