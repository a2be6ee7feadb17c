/** The env file beside a worktree's config: how the instance's identity is read from it, and
when a second repair finds it as the first one wanted it. */
module WorktreeEnv {
  import opened EnvFile
  import opened Optional
  import opened WorktreeConfig

  const HOME := "DEALDESK_HOME"
  const INSTANCE_ID := "DEALDESK_INSTANCE_ID"
  const CONFIG := "DEALDESK_CONFIG"
  const CONTEXT := "DEALDESK_CONTEXT"
  const IN_WORKTREE := "DEALDESK_IN_WORKTREE"
  const WORKTREE_NAME := "DEALDESK_WORKTREE_NAME"
  const WORKTREES_DIR := "DEALDESK_WORKTREES_DIR"

  /** The path and naming functions of the host. `resolvePath` makes a path absolute, `discovered`
      is the config path found from the working directory, `baseName` names the worktree that a
      config path lies in, and `instanceRoot` is where an instance of a home directory lives. */
  datatype Host = Host(
    resolvePath: string -> string,
    discovered: string,
    baseName: string -> string,
    sanitize: string -> string,
    resolveHome: string -> string,
    contextPath: string -> string,
    instanceRoot: (string, string) -> Dir)

  datatype Context = Context(configPath: string, worktreeName: string, instanceId: string, homeDir: string)

  function ConfigPath(host: Host, env: map<string, string>): string {
    if CONFIG in env && env[CONFIG] != [] then host.resolvePath(env[CONFIG]) else host.discovered
  }

  function NonEmpty(entries: map<string, string>, key: string): Option<string> {
    if key in entries && Trim(entries[key]) != [] then Some(Trim(entries[key])) else None
  }

  function FirstOf(a: Option<string>, b: Option<string>, otherwise: string): string {
    if a.Some? then a.value else if b.Some? then b.value else otherwise
  }

  /** `resolveWorktreeRuntimeContext` in a worktree: the env file before the process environment before defaults. */
  function ResolveContext(host: Host, persisted: map<string, string>, env: map<string, string>): Context {
    var configPath := ConfigPath(host, env);
    var name := FirstOf(NonEmpty(persisted, WORKTREE_NAME), NonEmpty(env, WORKTREE_NAME), host.baseName(configPath));
    var id := FirstOf(NonEmpty(persisted, INSTANCE_ID), NonEmpty(env, INSTANCE_ID), host.sanitize(name));
    var fallback := FirstOf(NonEmpty(env, WORKTREES_DIR), None, "~/.dealdesk-worktrees");
    Context(configPath, name, id, host.resolveHome(FirstOf(NonEmpty(persisted, HOME), NonEmpty(env, HOME), fallback)))
  }

  /** The variable has more than white space. */
  predicate IsGiven(entries: map<string, string>, key: string) {
    key in entries && Trim(entries[key]) != []
  }

  /** `value` is the file's, trimmed, if it gives one, else the environment's, else the default. */
  predicate IsFromFirst(persisted: map<string, string>, env: map<string, string>, key: string, value: string, otherwise: string) {
    && (IsGiven(persisted, key) ==> value == Trim(persisted[key]))
    && (!IsGiven(persisted, key) && IsGiven(env, key) ==> value == Trim(env[key]))
    && (!IsGiven(persisted, key) && !IsGiven(env, key) ==> value == otherwise)
  }

  /** Where a context comes from: the env file first, then the process environment, then what the
      worktree's place and the home of all worktrees give. */
  lemma ContextIsFrom(host: Host, persisted: map<string, string>, env: map<string, string>) returns (home: string)
    ensures var c := ResolveContext(host, persisted, env);
      && (CONFIG in env && env[CONFIG] != "" ==> c.configPath == host.resolvePath(env[CONFIG]))
      && (!(CONFIG in env && env[CONFIG] != "") ==> c.configPath == host.discovered)
      && IsFromFirst(persisted, env, WORKTREE_NAME, c.worktreeName, host.baseName(c.configPath))
      && IsFromFirst(persisted, env, INSTANCE_ID, c.instanceId, host.sanitize(c.worktreeName))
      && c.homeDir == host.resolveHome(home)
    ensures IsFromFirst(persisted, env, HOME, home,
      if IsGiven(env, WORKTREES_DIR) then Trim(env[WORKTREES_DIR]) else "~/.dealdesk-worktrees")
  {
    hide Trim;
    home := FirstOf(NonEmpty(persisted, HOME), NonEmpty(env, HOME),
                    FirstOf(NonEmpty(env, WORKTREES_DIR), None, "~/.dealdesk-worktrees"));
  }

  /** The entries that the repair wants in the file. */
  function Wanted(host: Host, c: Context): seq<Entry> {
    [Entry(HOME, c.homeDir), Entry(INSTANCE_ID, c.instanceId), Entry(CONFIG, c.configPath),
     Entry(CONTEXT, host.contextPath(c.homeDir)), Entry(IN_WORKTREE, "true"), Entry(WORKTREE_NAME, c.worktreeName)]
  }

  function Desired(host: Host, c: Context, existing: map<string, string>): map<string, string> {
    existing + EntryMap(Wanted(host, c))
  }

  /** The file is rewritten if a desired entry is missing or different. */
  predicate NeedsEnvRepair(host: Host, c: Context, existing: map<string, string>) {
    exists key :: key in Desired(host, c, existing) && (key !in existing || existing[key] != Desired(host, c, existing)[key])
  }

  /** The desired entries in the order in which they are written. */
  function DesiredEntries(host: Host, c: Context, existing: seq<Entry>): seq<Entry> {
    PutAll(existing, Wanted(host, c))
  }

  /** What the next start reads from the file that was written. */
  function ReadBack(entries: seq<Entry>): map<string, string> {
    EntriesOf(SplitLines(FormatEnvEntries(entries), []))
  }

  // ----- the six keys -----

  lemma KeysDiffer()
    ensures HOME != INSTANCE_ID && HOME != CONFIG && HOME != CONTEXT && HOME != IN_WORKTREE && HOME != WORKTREE_NAME
    ensures INSTANCE_ID != CONFIG && INSTANCE_ID != CONTEXT && INSTANCE_ID != IN_WORKTREE && INSTANCE_ID != WORKTREE_NAME
    ensures CONFIG != CONTEXT && CONFIG != IN_WORKTREE && CONFIG != WORKTREE_NAME
    ensures CONTEXT != IN_WORKTREE && CONTEXT != WORKTREE_NAME && IN_WORKTREE != WORKTREE_NAME
  {
    assert |HOME| == 13 && |INSTANCE_ID| == 20 && |CONFIG| == 15 && |CONTEXT| == 16 && |IN_WORKTREE| == 20 && |WORKTREE_NAME| == 22;
    assert INSTANCE_ID[10] == 'N' && IN_WORKTREE[10] == 'N' && INSTANCE_ID[11] == 'S' && IN_WORKTREE[11] == '_';
  }

  lemma WantedDistinct(host: Host, c: Context)
    ensures DistinctKeys(Wanted(host, c))
    ensures forall e :: e in Wanted(host, c) ==> !IsProto(e.key)
  {
    KeysDiffer();
    assert |HOME| == 13 && |INSTANCE_ID| == 20 && |CONFIG| == 15 && |CONTEXT| == 16 && |IN_WORKTREE| == 20 && |WORKTREE_NAME| == 22;
  }

  /** The file agrees with every wanted entry. */
  ghost predicate Agrees(host: Host, c: Context, existing: map<string, string>) {
    forall e :: e in Wanted(host, c) ==> e.key in existing && existing[e.key] == e.value
  }

  lemma NoRepairIffAgrees(host: Host, c: Context, existing: map<string, string>)
    ensures !NeedsEnvRepair(host, c, existing) <==> Agrees(host, c, existing)
  {
    WantedDistinct(host, c);
    MapHasMembers(Wanted(host, c));
    hide Wanted, EntryMap, DistinctKeys, IsProto;
    var wanted, desired := Wanted(host, c), Desired(host, c, existing);
    if Agrees(host, c, existing) {
      forall key | key in desired ensures key in existing && existing[key] == desired[key] {
        if key in EntryMap(wanted) {
          assert Entry(key, desired[key]) in wanted;
        }
      }
    } else {
      var e :| e in wanted && !(e.key in existing && existing[e.key] == e.value);
      assert e == Entry(e.key, e.value);
      assert e.key in desired && desired[e.key] == e.value;
    }
  }

  ghost predicate AsParsed(existing: seq<Entry>) {
    DistinctKeys(existing) && AllKeys(existing)
  }

  lemma WantedKeys(host: Host, c: Context)
    ensures AllKeys(Wanted(host, c))
  {
    assert IsKey(HOME) && IsKey(CONFIG) && IsKey(CONTEXT);
    LongWantedKeys();
  }

  lemma LongWantedKeys()
    ensures IsKey(INSTANCE_ID) && IsKey(IN_WORKTREE) && IsKey(WORKTREE_NAME)
  {
  }

  lemma DesiredAsMap(host: Host, c: Context, existing: seq<Entry>)
    requires AsParsed(existing)
    ensures AsParsed(DesiredEntries(host, c, existing))
    ensures EntryMap(DesiredEntries(host, c, existing)) == Desired(host, c, EntryMap(existing))
  {
    hide Wanted, DistinctKeys, AllKeys, PutAll, EntryMap;
    WantedKeys(host, c);
    PutAllIsUnion(existing, Wanted(host, c));
  }

  lemma WantedListed(host: Host, c: Context, existing: seq<Entry>, e: Entry)
    requires AsParsed(existing) && e in Wanted(host, c)
    ensures e in DesiredEntries(host, c, existing)
  {
    WantedDistinct(host, c);
    DesiredAsMap(host, c, existing);
    hide Wanted, DesiredEntries;
    MapHasMembers(Wanted(host, c));
    MapHasMembers(DesiredEntries(host, c, existing));
    hide EntryMap, DistinctKeys, AllKeys;
    assert e == Entry(e.key, e.value);
  }

  /** A wanted entry comes back with its value escaped, unless it has a separator. */
  lemma WantedComesBack(host: Host, c: Context, existing: seq<Entry>, e: Entry)
    requires AsParsed(existing) && e in Wanted(host, c)
    ensures var file := ReadBack(DesiredEntries(host, c, existing));
      && (e.key in file <==> !HasSeparator(e.value))
      && (e.key in file ==> file[e.key] == JsonText(e.value))
  {
    WantedDistinct(host, c);
    WantedListed(host, c, existing, e);
    DesiredAsMap(host, c, existing);
    hide Wanted, DesiredEntries;
    var entries := DesiredEntries(host, c, existing);
    hide EntryMap, HasSeparator, IsPlain, IsKey, SplitLines, FormatEnvEntries, EntriesOf, Reparsed, JsonText;
    FormatThenParse(entries);
    var i :| 0 <= i < |entries| && entries[i] == e;
    EntryReparsed(entries, i);
  }

  lemma PlainComesBack(host: Host, c: Context, existing: seq<Entry>, e: Entry)
    requires AsParsed(existing) && e in Wanted(host, c)
    ensures var file := ReadBack(DesiredEntries(host, c, existing));
      (e.key in file && file[e.key] == e.value) <==> IsPlain(e)
  {
    WantedComesBack(host, c, existing, e);
    WantedDistinct(host, c);
    hide Wanted, ReadBack, DesiredEntries, HasEscaped, HasSeparator, JsonText;
    JsonTextLength(e.value);
  }

  /** A caller can check this before the repair: nothing in the wanted values is escaped or lost,
      and nothing around the names and the home directory is trimmed away. */
  ghost predicate Settled(host: Host, c: Context) {
    && (forall e :: e in Wanted(host, c) ==> IsPlain(e))
    && Trim(c.worktreeName) == c.worktreeName && Trim(c.instanceId) == c.instanceId
    && host.resolveHome(Trim(c.homeDir)) == c.homeDir
  }

  ghost predicate NoneBlank(c: Context) {
    Trim(c.worktreeName) != [] && Trim(c.instanceId) != [] && Trim(c.homeDir) != []
  }

  lemma ContextFromFile(host: Host, c: Context, file: map<string, string>, env: map<string, string>)
    requires Agrees(host, c, file) && NoneBlank(c)
    ensures ResolveContext(host, file, env) ==
      Context(ConfigPath(host, env), Trim(c.worktreeName), Trim(c.instanceId), host.resolveHome(Trim(c.homeDir)))
  {
    hide Trim;
    var wanted := Wanted(host, c);
    assert wanted[0] in wanted && wanted[1] in wanted && wanted[5] in wanted;
  }

  /** After a repair of the env file, the next start with the same config path resolves the same
      instance and leaves the file alone exactly when the wanted values are settled; whatever else
      is in its process environment. */
  lemma EnvRepairSettlesIff(host: Host, existing: seq<Entry>, c: Context, nextEnv: map<string, string>)
    requires AsParsed(existing) && NoneBlank(c) && ConfigPath(host, nextEnv) == c.configPath
    ensures var file := ReadBack(DesiredEntries(host, c, existing));
      var again := ResolveContext(host, file, nextEnv);
      (again == c && !NeedsEnvRepair(host, again, file)) <==> Settled(host, c)
  {
    hide ReadBack, DesiredEntries, IsPlain, Trim;
    var file := ReadBack(DesiredEntries(host, c, existing));
    forall e | e in Wanted(host, c)
      ensures (e.key in file && file[e.key] == e.value) <==> IsPlain(e)
    {
      PlainComesBack(host, c, existing, e);
    }
    hide Wanted, ResolveContext;
    NoRepairIffAgrees(host, c, file);
    if Agrees(host, c, file) {
      ContextFromFile(host, c, file, nextEnv);
    }
  }

  /** A backslash in the worktree's name comes back doubled. */
  lemma BackslashUnsettles(host: Host, c: Context, i: nat)
    requires i < |c.worktreeName| && c.worktreeName[i] == '\\'
    ensures !Settled(host, c)
  {
    var e := Wanted(host, c)[5];
    assert e in Wanted(host, c) && e.value == c.worktreeName;
    assert HasEscaped(e.value);
  }
}
