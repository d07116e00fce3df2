/**
 * The projects table and its ports: `createProject`, `updateProject`,
 * `deleteProject` and `findAvailablePort`.
 */
module ProjectPorts {
  import opened Options

  type Id = string

  datatype Project = Project(name: string, chainId: nat, forkUrl: Option<string>, forkBlock: Option<nat>, port: nat)

  /** Fields left out are `None`; the nullable ones may also be given as null. */
  datatype Update = Update(
    name: Option<string>,
    chainId: Option<nat>,
    forkUrl: Option<Option<string>>,
    forkBlock: Option<Option<nat>>,
    port: Option<nat>
  )

  type Table = map<Id, Project>

  datatype Request =
    | Create(id: Id, name: string, chainId: nat, forkUrl: Option<string>, forkBlock: Option<nat>, wanted: Option<nat>)
    | Change(id: Id, update: Update)
    | Delete(id: Id)

  const FIRST_PORT: nat := 8545

  predicate PortTaken(table: Table, port: nat) {
    exists id :: id in table && table[id].port == port
  }

  function UsedPorts(table: Table): set<nat> {
    set id | id in table :: table[id].port
  }

  /** The numbers from `FIRST_PORT` up to, and not including, `port`. */
  ghost function PortsBelow(port: nat): set<nat> {
    if port <= FIRST_PORT then {} else PortsBelow(port - 1) + {port - 1}
  }

  /** The least port from 8545 up that no project has. */
  ghost predicate IsLeastFree(table: Table, port: nat) {
    && port >= FIRST_PORT
    && !PortTaken(table, port)
    && (forall p :: FIRST_PORT <= p < port ==> PortTaken(table, p))
  }

  lemma LeastFreeIsUnique(table: Table, p: nat, q: nat)
    requires IsLeastFree(table, p) && IsLeastFree(table, q)
    ensures p == q
  {
    assert p < q ==> PortTaken(table, p);
    assert q < p ==> PortTaken(table, q);
  }

  lemma {:induction false} PortsBelowSize(port: nat)
    requires port >= FIRST_PORT
    ensures |PortsBelow(port)| == port - FIRST_PORT
    ensures forall p :: p in PortsBelow(port) ==> FIRST_PORT <= p < port
  {
    if port > FIRST_PORT {
      PortsBelowSize(port - 1);
    }
  }

  lemma SubsetSize<T>(a: set<T>, b: set<T>)
    requires a <= b
    ensures |a| <= |b|
  {
    assert b == a + (b - a);
  }

  /** There are no more ports in use than projects. */
  lemma {:induction false} UsedPortsSize(table: Table)
    ensures |UsedPorts(table)| <= |table|
    decreases |table|
  {
    if table == map[] {
      assert UsedPorts(table) == {};
    } else {
      var id :| id in table;
      var rest := table - {id};
      UsedPortsSize(rest);
      forall p ensures p in UsedPorts(table) <==> p in UsedPorts(rest) + {table[id].port} {
        if p in UsedPorts(table) {
          var other :| other in table && table[other].port == p;
          assert other == id || other in rest;
        }
      }
      assert UsedPorts(table) == UsedPorts(rest) + {table[id].port};
      assert table.Keys == rest.Keys + {id};
      assert |table.Keys| == |rest.Keys| + 1;
    }
  }

  /** Pigeonhole: the least free port is at most as far up as there are projects. */
  lemma LeastFreeIsNear(table: Table, port: nat)
    requires port >= FIRST_PORT
    requires forall p :: FIRST_PORT <= p < port ==> PortTaken(table, p)
    ensures port <= FIRST_PORT + |table|
  {
    PortsBelowSize(port);
    forall p | p in PortsBelow(port) ensures p in UsedPorts(table) {
      assert PortTaken(table, p);
    }
    SubsetSize(PortsBelow(port), UsedPorts(table));
    UsedPortsSize(table);
  }

  /** What becomes of the table, and whether the request is refused. */
  ghost predicate Serves(table: Table, r: Request, ok: bool, table': Table) {
    match r
    case Create(id, name, chainId, forkUrl, forkBlock, wanted) =>
      && (ok <==> id !in table && (wanted.Some? ==> !PortTaken(table, wanted.value)))
      && (!ok ==> table' == table)
      && (ok ==>
            exists port ::
              && (if wanted.Some? then port == wanted.value else IsLeastFree(table, port))
              && table' == table[id := Project(name, chainId, forkUrl, forkBlock, port)])
    case Change(id, update) =>
      && ok == (id in table &&
                (update.port.Some? && update.port.value != table[id].port ==> !PortTaken(table, update.port.value)))
      && (!ok ==> table' == table)
      && (ok ==>
            && id in table' && table' == table[id := table'[id]]
            && TakesOver(table[id], update, table'[id]))
    case Delete(id) =>
      && (ok <==> id in table)
      && table' == table - {id}
  }

  /** The fields given are taken over, null where null is given; the ones left out stay. */
  ghost predicate TakesOver(project: Project, update: Update, project': Project) {
    && project'.name == (if update.name.Some? then update.name.value else project.name)
    && project'.chainId == (if update.chainId.Some? then update.chainId.value else project.chainId)
    && project'.forkUrl == (if update.forkUrl.Some? then update.forkUrl.value else project.forkUrl)
    && project'.forkBlock == (if update.forkBlock.Some? then update.forkBlock.value else project.forkBlock)
    && project'.port == (if update.port.Some? then update.port.value else project.port)
  }

  function Updated(project: Project, update: Update): Project {
    Project(update.name.GetOr(project.name),
            update.chainId.GetOr(project.chainId),
            update.forkUrl.GetOr(project.forkUrl),
            update.forkBlock.GetOr(project.forkBlock),
            update.port.GetOr(project.port))
  }

  class ProjectStore {
    var projects: Table

    constructor ()
      ensures projects == map[]
    {
      projects := map[];
    }

    method FindAvailablePort() returns (port: nat)
      ensures IsLeastFree(projects, port)
      ensures 8545 <= port <= 8545 + |projects|
    {
      var used := UsedPorts(projects);
      port := FIRST_PORT;
      while port in used
        invariant port >= FIRST_PORT
        invariant forall p :: FIRST_PORT <= p < port ==> PortTaken(projects, p)
        decreases FIRST_PORT + |projects| + 1 - port
      {
        port := port + 1;
        LeastFreeIsNear(projects, port);
      }
      LeastFreeIsNear(projects, port);
    }

    method CreateProject(
      id: Id, name: string, chainId: nat, forkUrl: Option<string>, forkBlock: Option<nat>, wanted: Option<nat>
    ) returns (ok: bool)
      modifies this
      ensures Serves(old(projects), Create(id, name, chainId, forkUrl, forkBlock, wanted), ok, projects)
    {
      var port;
      if wanted.Some? {
        port := wanted.value;
      } else {
        port := FindAvailablePort();
      }
      if wanted.Some? && PortTaken(projects, wanted.value) {
        return false;
      }
      if id in projects {
        // The primary key refuses a second row with the same id.
        return false;
      }
      projects := projects[id := Project(name, chainId, forkUrl, forkBlock, port)];
      ok := true;
    }

    method UpdateProject(id: Id, update: Update) returns (ok: bool)
      modifies this
      ensures Serves(old(projects), Change(id, update), ok, projects)
    {
      if id !in projects {
        return false;
      }
      var project := projects[id];
      if update.port.Some? && update.port.value != project.port && PortTaken(projects, update.port.value) {
        return false;
      }
      projects := projects[id := Updated(project, update)];
      ok := true;
    }

    method DeleteProject(id: Id) returns (ok: bool)
      modifies this
      ensures Serves(old(projects), Delete(id), ok, projects)
    {
      ok := id in projects;
      projects := projects - {id};
    }
  }

  // ---------- Runs ----------

  ghost predicate NoSharedPort(table: Table) {
    forall a, b :: a in table && b in table && a != b ==> table[a].port != table[b].port
  }

  /** One request, refused or not, keeps ports apart. */
  lemma ServeKeepsPortsApart(table: Table, r: Request, ok: bool, table': Table)
    requires NoSharedPort(table) && Serves(table, r, ok, table')
    ensures NoSharedPort(table')
  {
    match r
    case Create(id, _, _, _, _, _) =>
      if ok {
        assert !PortTaken(table, table'[id].port);
        forall a | a in table ensures table[a].port != table'[id].port {}
      }
    case Change(id, update) =>
      if ok && update.port.Some? && update.port.value != table[id].port {
        assert !PortTaken(table, update.port.value);
        forall a | a in table ensures table[a].port != update.port.value {}
      }
    case Delete(_) =>
  }

  /** What a request leads to, its automatic port included, is settled by the table and the request. */
  lemma ServeIsDetermined(table: Table, r: Request, ok: bool, table': Table, ok': bool, table'': Table)
    requires Serves(table, r, ok, table') && Serves(table, r, ok', table'')
    ensures ok == ok' && table' == table''
  {
    if r.Create? && ok && r.wanted.None? {
      LeastFreeIsUnique(table, table'[r.id].port, table''[r.id].port);
    }
  }

  /** A run: the tables between requests, and which requests were refused. */
  ghost predicate IsRun(tables: seq<Table>, requests: seq<Request>, oks: seq<bool>) {
    && |tables| == |requests| + 1 && |oks| == |requests|
    && tables[0] == map[]
    && (forall i :: 0 <= i < |requests| ==> Serves(tables[i], requests[i], oks[i], tables[i + 1]))
  }

  /** Over every run of creations, changes and deletions, no two projects share a port. */
  lemma {:induction false} PortsStayApart(tables: seq<Table>, requests: seq<Request>, oks: seq<bool>, n: nat)
    requires IsRun(tables, requests, oks) && n <= |requests|
    ensures NoSharedPort(tables[n])
  {
    if n > 0 {
      PortsStayApart(tables, requests, oks, n - 1);
      ServeKeepsPortsApart(tables[n - 1], requests[n - 1], oks[n - 1], tables[n]);
    }
  }

  /** With a new id and no wish for a port a creation succeeds, at most as far above 8545 as there are projects. */
  lemma AutomaticPortIsNear(table: Table, r: Request, ok: bool, table': Table)
    requires r.Create? && r.wanted.None? && r.id !in table && Serves(table, r, ok, table')
    ensures ok && IsLeastFree(table, table'[r.id].port)
    ensures FIRST_PORT <= table'[r.id].port <= FIRST_PORT + |table|
  {
    LeastFreeIsNear(table, table'[r.id].port);
  }
}
