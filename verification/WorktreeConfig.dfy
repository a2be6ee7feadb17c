/** Repair of a worktree instance's config: isolated directories, ports that no sibling claims. */
module WorktreeConfig {
  import opened FreeNumbers
  import opened Optional

  /** A resolved absolute path. */
  type Dir = seq<string>

  const DEFAULT_SERVER_PORT := 3100
  const DEFAULT_DATABASE_PORT := 54329

  /** `embedded` stands for database mode `embedded-postgres`; `publicBaseUrl` is set if the base
      URL mode is explicit; `rest` is what the repair does not touch. */
  datatype Config = Config(
    embedded: bool,
    dataDir: Dir,
    databasePort: int,
    backupDir: Dir,
    serverPort: int,
    logDir: Dir,
    storageDir: Dir,
    keyFile: Dir,
    publicBaseUrl: Option<string>,
    rest: string)

  predicate IsPathInside(candidate: Dir, root: Dir) {
    root <= candidate
  }

  predicate NeedsRepair(c: Config, root: Dir) {
    || (c.embedded && (!IsPathInside(c.dataDir, root) || !IsPathInside(c.backupDir, root)))
    || !IsPathInside(c.logDir, root)
    || !IsPathInside(c.storageDir, root)
    || !IsPathInside(c.keyFile, root)
  }

  /** `rewrite` puts a port into a local URL. */
  function BuildIsolated(c: Config, root: Dir, serverPort: int, databasePort: int, rewrite: (string, int) -> string): Config {
    Config(
      c.embedded,
      if c.embedded then root + ["db"] else c.dataDir,
      if c.embedded then databasePort else c.databasePort,
      if c.embedded then root + ["data", "backups"] else c.backupDir,
      serverPort,
      root + ["logs"],
      root + ["data", "storage"],
      root + ["secrets", "master.key"],
      if c.publicBaseUrl.Some? then Some(rewrite(c.publicBaseUrl.value, serverPort)) else None,
      c.rest)
  }

  function NextUnclaimed(preferred: int, claimed: set<int>): (port: int)
    ensures port >= 1 && port >= preferred && port !in claimed
  {
    FirstFree(claimed, if preferred > 1 then preferred else 1)
  }

  method FindNextUnclaimedPort(preferredPort: int, claimedPorts: set<int>) returns (port: int)
    ensures port == NextUnclaimed(preferredPort, claimedPorts)
    ensures forall k :: 1 <= k && preferredPort <= k < port ==> k in claimedPorts
  {
    port := if preferredPort > 1 then preferredPort else 1;
    while port in claimedPorts
      invariant FirstFree(claimedPorts, port) == NextUnclaimed(preferredPort, claimedPorts)
      decreases AtLeast(claimedPorts, port)
    {
      assert port in AtLeast(claimedPorts, port) && port !in AtLeast(claimedPorts, port + 1);
      port := port + 1;
    }
  }

  // ----- siblings -----

  /** The server ports in the configs that instance `me` sees: those of the instances in its home
      directory and of the worktrees that the repository manages. */
  function ServerPorts(configs: map<int, Config>, me: int, sees: (int, int) -> bool): set<int> {
    set j | j in configs && j != me && sees(me, j) && configs[j].serverPort > 0 :: configs[j].serverPort
  }

  function DatabasePorts(configs: map<int, Config>, me: int, sees: (int, int) -> bool): set<int> {
    set j | j in configs && j != me && sees(me, j) && configs[j].embedded && configs[j].databasePort > 0 :: configs[j].databasePort
  }

  predicate Collides(c: Config, serverPorts: set<int>, databasePorts: set<int>) {
    c.serverPort in serverPorts || (c.embedded && c.databasePort in databasePorts)
  }

  // ----- the repair -----

  function NewServerPort(c: Config, serverPorts: set<int>): int {
    NextUnclaimed(if c.serverPort == DEFAULT_SERVER_PORT then DEFAULT_SERVER_PORT + 1 else c.serverPort, serverPorts)
  }

  function NewDatabasePort(c: Config, serverPorts: set<int>, databasePorts: set<int>): int {
    NextUnclaimed(
      if c.databasePort == DEFAULT_DATABASE_PORT then DEFAULT_DATABASE_PORT + 1 else c.databasePort,
      databasePorts + {NewServerPort(c, serverPorts)})
  }

  /** The config that is written, if any. */
  function Repaired(c: Config, root: Dir, serverPorts: set<int>, databasePorts: set<int>, rewrite: (string, int) -> string): Option<Config> {
    if NeedsRepair(c, root) || Collides(c, serverPorts, databasePorts)
    then Some(BuildIsolated(c, root, NewServerPort(c, serverPorts), NewDatabasePort(c, serverPorts, databasePorts), rewrite))
    else None
  }

  /** A port that is not the default stays if it is free; otherwise the first free one behind it is taken. */
  ghost predicate KeepsDatabasePort(c: Config, databasePorts: set<int>, now: Config) {
    && (&& c.databasePort != DEFAULT_DATABASE_PORT && c.databasePort >= 1
        && c.databasePort !in databasePorts && c.databasePort != now.serverPort
        ==> now.databasePort == c.databasePort)
    && forall k :: 1 <= k < now.databasePort && c.databasePort < k ==> k in databasePorts || k == now.serverPort
  }

  method RepairConfig(c: Config, root: Dir, serverPorts: set<int>, databasePorts: set<int>, rewrite: (string, int) -> string)
    returns (written: Option<Config>)
    ensures written == Repaired(c, root, serverPorts, databasePorts, rewrite)
    ensures written.Some? <==>
      || (c.embedded && !(root <= c.dataDir && root <= c.backupDir))
      || !(root <= c.logDir && root <= c.storageDir && root <= c.keyFile)
      || c.serverPort in serverPorts || (c.embedded && c.databasePort in databasePorts)
    ensures written.Some? ==>
      && written.value.logDir == root + ["logs"] && written.value.storageDir == root + ["data", "storage"]
      && written.value.keyFile == root + ["secrets", "master.key"]
      && (c.embedded ==> written.value.dataDir == root + ["db"] && written.value.backupDir == root + ["data", "backups"])
    ensures written.Some? ==>
      && (c.publicBaseUrl == None ==> written.value.publicBaseUrl == None)
      && (c.publicBaseUrl.Some? ==>
          written.value.publicBaseUrl == Some(rewrite(c.publicBaseUrl.value, written.value.serverPort)))
    ensures written.Some? ==>
      && !NeedsRepair(written.value, root) && !Collides(written.value, serverPorts, databasePorts)
      && written.value.serverPort >= 1
      && (c.embedded ==> written.value.databasePort >= 1 && written.value.databasePort != written.value.serverPort)
    ensures written.Some? && c.serverPort == DEFAULT_SERVER_PORT ==> written.value.serverPort > DEFAULT_SERVER_PORT
    ensures written.Some? && c.embedded && c.databasePort == DEFAULT_DATABASE_PORT ==> written.value.databasePort > DEFAULT_DATABASE_PORT
    ensures written.Some? && c.serverPort != DEFAULT_SERVER_PORT && c.serverPort >= 1 && c.serverPort !in serverPorts ==>
      written.value.serverPort == c.serverPort
    ensures written.Some? && c.embedded ==> KeepsDatabasePort(c, databasePorts, written.value)
    ensures written.Some? ==> forall k :: 1 <= k < written.value.serverPort && c.serverPort < k ==> k in serverPorts
    ensures written.Some? ==> written.value.embedded == c.embedded && written.value.rest == c.rest
    ensures written.Some? && !c.embedded ==>
      written.value.dataDir == c.dataDir && written.value.backupDir == c.backupDir && written.value.databasePort == c.databasePort
  {
    written := None;
    if NeedsRepair(c, root) || Collides(c, serverPorts, databasePorts) {
      var selectedServerPort := FindNextUnclaimedPort(
        if c.serverPort == DEFAULT_SERVER_PORT then DEFAULT_SERVER_PORT + 1 else c.serverPort, serverPorts);
      var selectedDatabasePort := c.databasePort;
      if c.embedded {
        selectedDatabasePort := FindNextUnclaimedPort(
          if c.databasePort == DEFAULT_DATABASE_PORT then DEFAULT_DATABASE_PORT + 1 else c.databasePort,
          databasePorts + {selectedServerPort});
        forall k | 1 <= k < selectedDatabasePort && c.databasePort < k ensures k in databasePorts || k == selectedServerPort {
          assert k in databasePorts + {selectedServerPort};
        }
      }
      written := Some(BuildIsolated(c, root, selectedServerPort, selectedDatabasePort, rewrite));
    }
  }

  /** For the same directories and unchanged siblings a second repair writes nothing. */
  lemma RepairSettles(c: Config, root: Dir, serverPorts: set<int>, databasePorts: set<int>, rewrite: (string, int) -> string)
    ensures var once := Repaired(c, root, serverPorts, databasePorts, rewrite);
      once.Some? ==> Repaired(once.value, root, serverPorts, databasePorts, rewrite) == None
  {
    assert forall tail: Dir :: root <= root + tail;
  }

  // ----- database ports and server ports -----

  /** `p` is the first port from `first` on that is not taken. */
  predicate IsFirstFree(p: int, first: int, taken: set<int>) {
    p >= first && p !in taken && forall k :: first <= k < p ==> k in taken
  }

  /** The port from which a database port is looked for. */
  function FirstDatabasePort(c: Config): int {
    var preferred := if c.databasePort == DEFAULT_DATABASE_PORT then DEFAULT_DATABASE_PORT + 1 else c.databasePort;
    if preferred > 1 then preferred else 1
  }

  /** Nothing keeps a database port apart from a sibling's server port: a repair writes one exactly
      if a server port is the first from the preferred one on that no database claims and that is
      not the server port chosen here. */
  lemma DatabasePortMeetsSiblingServerIff(
    c: Config, root: Dir, serverPorts: set<int>, databasePorts: set<int>, rewrite: (string, int) -> string)
    requires c.embedded && Repaired(c, root, serverPorts, databasePorts, rewrite).Some?
    ensures Repaired(c, root, serverPorts, databasePorts, rewrite).value.databasePort in serverPorts <==>
      exists p :: p in serverPorts && IsFirstFree(p, FirstDatabasePort(c), databasePorts + {NewServerPort(c, serverPorts)})
  {
    var first, taken := FirstDatabasePort(c), databasePorts + {NewServerPort(c, serverPorts)};
    var port := NewDatabasePort(c, serverPorts, databasePorts);
    assert IsFirstFree(port, first, taken);
    forall p | IsFirstFree(p, first, taken) ensures p == port {
      OneFirstFree(p, port, first, taken);
    }
  }

  /** A sibling serves on the port that this database asks for, and no database claims it. */
  lemma DatabasePortMeetsSiblingServer(root: Dir, rewrite: (string, int) -> string)
    ensures var c := Config(true, [], 4000, [], 5000, [], [], [], None, "");
      root != [] ==>
        && Repaired(c, root, {4000}, {}, rewrite).Some?
        && Repaired(c, root, {4000}, {}, rewrite).value.databasePort == 4000
        && IsFirstFree(4000, FirstDatabasePort(c), {} + {NewServerPort(c, {4000})})
  {
  }

  lemma OneFirstFree(p: int, q: int, first: int, taken: set<int>)
    requires IsFirstFree(p, first, taken) && IsFirstFree(q, first, taken)
    ensures p == q
  {
    assert p < q ==> p in taken;
    assert q < p ==> q in taken;
  }

  // ----- many instances, repaired one at a time -----

  /** A start of an instance, which resolves its directories' root anew each time. */
  datatype StartOf = StartOf(instance: int, root: Dir)

  function StartUp(configs: map<int, Config>, sees: (int, int) -> bool, start: StartOf, rewrite: (string, int) -> string)
    : map<int, Config>
    requires start.instance in configs
  {
    var i := start.instance;
    var written := Repaired(configs[i], start.root, ServerPorts(configs, i, sees), DatabasePorts(configs, i, sees), rewrite);
    if written.Some? then configs[i := written.value] else configs
  }

  function StartAll(configs: map<int, Config>, sees: (int, int) -> bool, starts: seq<StartOf>, rewrite: (string, int) -> string)
    : (r: map<int, Config>)
    requires forall s :: s in starts ==> s.instance in configs
    ensures r.Keys == configs.Keys
  {
    if |starts| == 0 then configs
    else StartUp(StartAll(configs, sees, starts[..|starts| - 1], rewrite), sees, starts[|starts| - 1], rewrite)
  }

  /** A start writes the config exactly if it is not in its root or shares a port with an instance
      that it sees. */
  lemma StartWritesIff(configs: map<int, Config>, sees: (int, int) -> bool, i: int, root: Dir, rewrite: (string, int) -> string)
    requires i in configs
    ensures Repaired(configs[i], root, ServerPorts(configs, i, sees), DatabasePorts(configs, i, sees), rewrite).Some? <==>
      NeedsRepair(configs[i], root) || exists j :: j in configs && j != i && sees(i, j) && !Apart(configs[i], configs[j])
  {
    var serverPorts, databasePorts := ServerPorts(configs, i, sees), DatabasePorts(configs, i, sees);
    forall j | j in configs && j != i && sees(i, j) && !Apart(configs[i], configs[j])
      ensures Collides(configs[i], serverPorts, databasePorts)
    {
      assert configs[j].serverPort > 0 ==> configs[j].serverPort in serverPorts;
      assert configs[j].embedded && configs[j].databasePort > 0 ==> configs[j].databasePort in databasePorts;
    }
    if Collides(configs[i], serverPorts, databasePorts) {
      var j :| j in configs && j != i && sees(i, j) && !Apart(configs[i], configs[j]);
    }
  }

  /** Ports below 1 claim nothing. */
  predicate Apart(a: Config, b: Config) {
    && (a.serverPort == b.serverPort ==> a.serverPort < 1)
    && (a.embedded && b.embedded && a.databasePort == b.databasePort ==> a.databasePort < 1)
  }

  lemma StarterIsApart(
    configs: map<int, Config>, sees: (int, int) -> bool, start: StartOf, rewrite: (string, int) -> string, j: int)
    requires start.instance in configs && j in configs && j != start.instance && sees(start.instance, j)
    ensures var now := StartUp(configs, sees, start, rewrite); now[j] == configs[j] && Apart(now[start.instance], now[j])
  {
    var i := start.instance;
    var now := StartUp(configs, sees, start, rewrite);
    var claimedServer, claimedDatabase := ServerPorts(configs, i, sees), DatabasePorts(configs, i, sees);
    assert now[i].serverPort !in claimedServer;
    assert now[i].embedded ==> now[i].databasePort !in claimedDatabase;
    assert configs[j].serverPort > 0 ==> configs[j].serverPort in claimedServer;
    assert configs[j].embedded && configs[j].databasePort > 0 ==> configs[j].databasePort in claimedDatabase;
  }

  /** One of the two has started, and whichever started last sees the other. */
  predicate LaterSeesOther(starts: seq<StartOf>, sees: (int, int) -> bool, i: int, j: int) {
    if |starts| == 0 then false
    else
      var k := starts[|starts| - 1].instance;
      if k == i then sees(i, j) else if k == j then sees(j, i) else LaterSeesOther(starts[..|starts| - 1], sees, i, j)
  }

  /** After any sequence of start-ups, two instances of which the later starter sees the other have
      different server ports and different database ports. */
  lemma {:induction false} LaterStarterIsApart(
    configs: map<int, Config>, sees: (int, int) -> bool, starts: seq<StartOf>, rewrite: (string, int) -> string, i: int, j: int)
    requires (forall s :: s in starts ==> s.instance in configs) && i in configs && j in configs && i != j
    requires LaterSeesOther(starts, sees, i, j)
    ensures var end := StartAll(configs, sees, starts, rewrite); Apart(end[i], end[j])
  {
    hide Repaired;
    var front, last := starts[..|starts| - 1], starts[|starts| - 1];
    var before := StartAll(configs, sees, front, rewrite);
    if last.instance == i {
      StarterIsApart(before, sees, last, rewrite, j);
    } else if last.instance == j {
      StarterIsApart(before, sees, last, rewrite, i);
    } else {
      LaterStarterIsApart(configs, sees, front, rewrite, i, j);
    }
  }

  lemma {:induction false} StartedIsLater(starts: seq<StartOf>, sees: (int, int) -> bool, i: int, j: int)
    requires (exists s :: s in starts && s.instance == i) && sees(i, j) && sees(j, i)
    ensures LaterSeesOther(starts, sees, i, j)
  {
    var front, last := starts[..|starts| - 1], starts[|starts| - 1];
    if last.instance != i && last.instance != j {
      var s :| s in starts && s.instance == i;
      assert s in front;
      StartedIsLater(front, sees, i, j);
    }
  }

  /** An instance that has run shares its ports with no instance that sees it and is seen by it,
      whether that one has run or not. */
  lemma RanHasOwnPorts(
    configs: map<int, Config>, sees: (int, int) -> bool, starts: seq<StartOf>, rewrite: (string, int) -> string, i: int, j: int)
    requires (forall s :: s in starts ==> s.instance in configs) && (exists s :: s in starts && s.instance == i)
    requires i in configs && j in configs && i != j && sees(i, j) && sees(j, i)
    ensures var end := StartAll(configs, sees, starts, rewrite); Apart(end[i], end[j])
  {
    StartedIsLater(starts, sees, i, j);
    LaterStarterIsApart(configs, sees, starts, rewrite, i, j);
  }

  /** Instances that see nothing keep their ports however often they start, shared ones included,
      as long as their directories are their own. */
  lemma {:induction false} UnseenStayAsTheyAre(
    configs: map<int, Config>, sees: (int, int) -> bool, starts: seq<StartOf>, rewrite: (string, int) -> string)
    requires forall s :: s in starts ==> s.instance in configs && !NeedsRepair(configs[s.instance], s.root)
    requires forall i, j :: !sees(i, j)
    ensures StartAll(configs, sees, starts, rewrite) == configs
  {
    if |starts| > 0 {
      var i := starts[|starts| - 1].instance;
      UnseenStayAsTheyAre(configs, sees, starts[..|starts| - 1], rewrite);
      assert ServerPorts(configs, i, sees) == {} && DatabasePorts(configs, i, sees) == {};
    }
  }
}
