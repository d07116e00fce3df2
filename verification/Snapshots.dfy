/**
 * Snapshots: the table the control API keeps, against the node's own stack.
 *
 * Routes that take a snapshot, revert to one, or borrow one for a dry run
 * (`simulate`, slot probing), over one project and one lifetime of the node.
 */
module Snapshots {
  import opened Options
  import opened Node

  datatype Row = Row(id: nat, blockNumber: nat, createdAt: nat)

  datatype Devnet = Devnet(node: NodeState, table: seq<Row>)

  /** One request, with the fates of its remote calls and the time it was served. */
  datatype Request =
    | TakeOne(taking: Reply, height: Reply, labelValid: bool, now: nat)
    | RevertOne(id: nat, reverting: Reply)
    | DryRun(dirty: Chain, taking: Reply, goingBack: Reply)
    | Transact(after: Chain)

  // ---------- The table ----------

  function Without(table: seq<Row>, id: nat): seq<Row> {
    if table == [] then []
    else
      var n := |table| - 1;
      Without(table[..n], id) + (if table[n].id == id then [] else [table[n]])
  }

  function Before(table: seq<Row>, time: nat): seq<Row> {
    if table == [] then []
    else
      var n := |table| - 1;
      Before(table[..n], time) + (if table[n].createdAt >= time then [] else [table[n]])
  }

  lemma {:induction false} WithoutKeepsTheRest(table: seq<Row>, id: nat)
    ensures forall row :: row in Without(table, id) <==> row in table && row.id != id
  {
    if table != [] {
      WithoutKeepsTheRest(table[..|table| - 1], id);
      assert table == table[..|table| - 1] + [table[|table| - 1]];
    }
  }

  lemma {:induction false} BeforeKeepsTheOlder(table: seq<Row>, time: nat)
    ensures forall row :: row in Before(table, time) <==> row in table && row.createdAt < time
  {
    if table != [] {
      BeforeKeepsTheOlder(table[..|table| - 1], time);
      assert table == table[..|table| - 1] + [table[|table| - 1]];
    }
  }

  function RowOf(table: seq<Row>, id: nat): (row: Option<Row>)
    ensures row.Some? ==> row.value in table && row.value.id == id
    ensures row.None? ==> forall i :: 0 <= i < |table| ==> table[i].id != id
  {
    if table == [] then None
    else if table[|table| - 1].id == id then Some(table[|table| - 1])
    else RowOf(table[..|table| - 1], id)
  }

  /** INSERT OR REPLACE, keyed by the id. */
  function Inserted(table: seq<Row>, row: Row): seq<Row> {
    Without(table, row.id) + [row]
  }

  /** What a successful revert deletes: the row and every one as recent, or just the id. */
  function Consumed(table: seq<Row>, id: nat): seq<Row> {
    match RowOf(table, id)
    case Some(row) => Before(table, row.createdAt)
    case None => Without(table, id)
  }

  ghost predicate OneRowPerId(table: seq<Row>) {
    forall a, b :: a in table && b in table && a.id == b.id ==> a == b
  }

  // ---------- Requests ----------

  /** Whether the snapshot request got as far as writing its row. */
  predicate IsRecorded(r: Request)
    requires r.TakeOne?
  {
    r.taking == Answered && r.height == Answered && r.labelValid
  }

  function Serve(d: Devnet, r: Request): Devnet {
    match r
    case TakeOne(taking, _, _, now) =>
      var node := if taking == Lost then d.node else TakeSnapshot(d.node);
      Devnet(node, if IsRecorded(r) then Inserted(d.table, Row(d.node.nextId, d.node.chain.height, now)) else d.table)
    case RevertOne(id, reverting) =>
      var node := if reverting == Lost then d.node else RevertTo(d.node, id);
      Devnet(node,
             if reverting != Answered then d.table
             else if Alive(d.node, id) then Consumed(d.table, id)
             else Without(d.table, id))
    case DryRun(dirty, taking, goingBack) => Devnet(Bracketed(d.node, dirty, taking, goingBack), d.table)
    case Transact(after) => d.(node := d.node.(chain := after))
  }

  /** The API's side: the table, and the routes that change it and the node. */
  class Api {
    const node: Anvil
    var table: seq<Row>

    ghost function State(): Devnet
      reads this, node
    {
      Devnet(node.State(), table)
    }

    constructor (node: Anvil)
      ensures this.node == node && table == []
    {
      this.node := node;
      table := [];
    }

    method PostSnapshot(taking: Reply, height: Reply, labelValid: bool, now: nat) returns (id: Option<nat>)
      modifies this, node
      ensures State() == Serve(old(State()), TakeOne(taking, height, labelValid, now))
      ensures id == if taking == height == Answered && labelValid then Some(old(node.nextId)) else None
      ensures id.None? ==> table == old(table)
      ensures id.Some? ==>
        && table != [] && table[|table| - 1] == Row(id.value, old(node.chain).height, now)
        && forall row :: row in table[..|table| - 1] <==> row in old(table) && row.id != id.value
    {
      id := node.EvmSnapshot(taking);
      if id.None? {
        return;
      }
      if height != Answered || !labelValid {
        return None;
      }
      WithoutKeepsTheRest(table, id.value);
      table := Inserted(table, Row(id.value, node.chain.height, now));
    }

    method PostRevert(id: nat, reverting: Reply, height: Reply) returns (success: bool)
      modifies this, node
      ensures State() == Serve(old(State()), RevertOne(id, reverting))
      ensures success == (reverting == Answered && Alive(old(node.State()), id) && height == Answered)
      ensures reverting != Answered ==> table == old(table)
      ensures reverting == Answered
              && (!Alive(old(node.State()), id) || forall row :: row in old(table) ==> row.id != id) ==>
        forall row :: row in table <==> row in old(table) && row.id != id
      ensures reverting == Answered && Alive(old(node.State()), id) && OneRowPerId(old(table)) ==>
        forall r :: r in old(table) && r.id == id ==>
          forall row :: row in table <==> row in old(table) && row.createdAt < r.createdAt
    {
      var reverted := node.EvmRevert(id, reverting);
      if reverted.None? {
        return false;
      }
      WithoutKeepsTheRest(table, id);
      if !reverted.value {
        table := Without(table, id);
        return false;
      }
      var row := RowOf(table, id);
      if row.Some? {
        BeforeKeepsTheOlder(table, row.value.createdAt);
        table := Before(table, row.value.createdAt);
      } else {
        table := Without(table, id);
      }
      success := height == Answered;
    }

    /**
     * `simulate`: a call and an estimate that change nothing, then a real send inside
     * a snapshot. `sent` and `mined` are the chain after the send and after mining.
     */
    method PostSimulate(sent: Chain, mined: Chain, reply: nat -> Reply) returns (success: bool, ghost dirty: Chain)
      modifies node
      ensures State() == Serve(old(State()), DryRun(dirty, reply(3), reply(8)))
      ensures success == (reply(0) == Answered && reply(3) == Answered && reply(4) == Answered && reply(7) == Answered)
    {
      dirty := node.chain;
      var callError := reply(0) != Answered;
      var snapshotId := node.EvmSnapshot(reply(3));
      if snapshotId.None? {
        return false, dirty;
      }
      var executionError := false;
      var ok := node.Apply(sent, reply(4));
      if !ok {
        executionError := true;
      } else {
        var _ := node.Apply(mined, reply(5));
        if reply(7) != Answered {
          executionError := true;
        }
      }
      dirty := node.chain;
      var _ := node.EvmRevert(snapshotId.value, reply(8));
      success := !callError && !executionError;
    }
  }

  // ---------- Staying in step ----------

  ghost function Ids(table: seq<Row>): seq<nat> {
    seq(|table|, i requires 0 <= i < |table| => table[i].id)
  }

  ghost function LiveIds(saved: seq<Saved>): seq<nat> {
    seq(|saved|, i requires 0 <= i < |saved| => saved[i].id)
  }

  /** The table lists the node's live snapshots in order, oldest first, with their heights and increasing times. */
  ghost predicate InStep(d: Devnet) {
    && ValidNode(d.node)
    && Ids(d.table) == LiveIds(d.node.saved)
    && (forall i :: 0 <= i < |d.table| && i < |d.node.saved| ==>
          d.table[i].blockNumber == d.node.saved[i].chain.height)
    && (forall i, j :: 0 <= i < j < |d.table| ==> d.table[i].createdAt < d.table[j].createdAt)
  }

  /** The time of a snapshot request is later than every row's. */
  ghost predicate ClockAhead(d: Devnet, r: Request) {
    r.TakeOne? ==> forall i :: 0 <= i < |d.table| ==> d.table[i].createdAt < r.now
  }

  /**
   * The request's effect on the node was confirmed as far as the table needs it: a
   * snapshot that was taken was also recorded, one that was consumed was known to
   * be, and a dry run gave its own back.
   */
  predicate Confirmed(d: Devnet, r: Request) {
    match r
    case TakeOne(taking, _, _, _) => taking != Lost ==> IsRecorded(r)
    case RevertOne(id, reverting) => reverting == Late ==> !Alive(d.node, id)
    case DryRun(_, taking, goingBack) => RolledBack(taking, goingBack)
    case Transact(_) => true
  }

  lemma {:induction false} WithoutAbsent(table: seq<Row>, id: nat)
    requires forall i :: 0 <= i < |table| ==> table[i].id != id
    ensures Without(table, id) == table
  {
    if table != [] {
      WithoutAbsent(table[..|table| - 1], id);
    }
  }

  lemma {:induction false} BeforeIsPrefix(table: seq<Row>, k: nat, time: nat)
    requires k <= |table|
    requires forall i :: 0 <= i < k ==> table[i].createdAt < time
    requires forall i :: k <= i < |table| ==> table[i].createdAt >= time
    ensures Before(table, time) == table[..k]
    decreases |table|
  {
    if table != [] {
      var n := |table| - 1;
      BeforeIsPrefix(table[..n], if k <= n then k else n, time);
    }
  }

  lemma IdsMatch(d: Devnet, i: nat)
    requires InStep(d)
    ensures |d.table| == |d.node.saved|
    ensures i < |d.table| ==> d.table[i].id == d.node.saved[i].id
  {
    assert |Ids(d.table)| == |LiveIds(d.node.saved)|;
    if i < |d.table| {
      assert Ids(d.table)[i] == LiveIds(d.node.saved)[i];
    }
  }

  /** Reverting to a live id cuts the table and the node's stack at the same place. */
  lemma {:induction false} ConsumedIsPrefix(d: Devnet, id: nat)
    requires InStep(d) && Alive(d.node, id)
    ensures Consumed(d.table, id) == d.table[..IndexOf(d.node.saved, id).value]
  {
    var k := IndexOf(d.node.saved, id).value;
    IdsMatch(d, k);
    var row := RowOf(d.table, id).value;
    var i :| 0 <= i < |d.table| && d.table[i] == row;
    IdsMatch(d, i);
    assert i == k;
    BeforeIsPrefix(d.table, k, row.createdAt);
  }

  lemma {:induction false} AbsentEverywhere(d: Devnet, id: nat)
    requires InStep(d) && !Alive(d.node, id)
    ensures Without(d.table, id) == d.table
  {
    forall i | 0 <= i < |d.table| ensures d.table[i].id != id {
      IdsMatch(d, i);
    }
    WithoutAbsent(d.table, id);
  }

  lemma PrefixInStep(d: Devnet, chain: Chain, k: nat)
    requires InStep(d) && k <= |d.table|
    ensures k <= |d.node.saved|
    ensures InStep(Devnet(NodeState(chain, d.node.saved[..k], d.node.nextId), d.table[..k]))
  {
    IdsMatch(d, k);
    assert Ids(d.table[..k]) == Ids(d.table)[..k];
    assert LiveIds(d.node.saved[..k]) == LiveIds(d.node.saved)[..k];
  }

  lemma RecordedKeepsStep(d: Devnet, now: nat)
    requires InStep(d) && forall i :: 0 <= i < |d.table| ==> d.table[i].createdAt < now
    ensures InStep(Devnet(TakeSnapshot(d.node), Inserted(d.table, Row(d.node.nextId, d.node.chain.height, now))))
  {
    hide Without;
    var row, saved := Row(d.node.nextId, d.node.chain.height, now), Saved(d.node.nextId, d.node.chain);
    IdsMatch(d, 0);
    forall i | 0 <= i < |d.table| ensures d.table[i].id != d.node.nextId {
      IdsMatch(d, i);
    }
    WithoutAbsent(d.table, d.node.nextId);
    assert Ids(d.table + [row]) == Ids(d.table) + [d.node.nextId];
    assert LiveIds(d.node.saved + [saved]) == LiveIds(d.node.saved) + [d.node.nextId];
  }

  lemma TakeKeepsStep(d: Devnet, r: Request)
    requires InStep(d) && r.TakeOne? && ClockAhead(d, r)
    ensures InStep(Serve(d, r)) <==> Confirmed(d, r)
  {
    hide Inserted;
    var d' := Serve(d, r);
    IdsMatch(d, 0);
    if IsRecorded(r) {
      RecordedKeepsStep(d, r.now);
    } else if r.taking != Lost {
      assert |Ids(d'.table)| == |d.table| < |d'.node.saved| == |LiveIds(d'.node.saved)|;
    }
  }

  lemma RevertKeepsStep(d: Devnet, r: Request)
    requires InStep(d) && r.RevertOne?
    ensures InStep(Serve(d, r)) <==> Confirmed(d, r)
  {
    var d' := Serve(d, r);
    IdsMatch(d, 0);
    if Alive(d.node, r.id) {
      var k := IndexOf(d.node.saved, r.id).value;
      PrefixInStep(d, d.node.saved[k].chain, k);
      ConsumedIsPrefix(d, r.id);
      if r.reverting == Late {
        assert |LiveIds(d'.node.saved)| == k < |Ids(d'.table)|;
      }
    } else {
      AbsentEverywhere(d, r.id);
    }
  }

  lemma DryRunKeepsStep(d: Devnet, r: Request)
    requires InStep(d) && r.DryRun?
    ensures InStep(Serve(d, r)) <==> Confirmed(d, r)
  {
    var d' := Serve(d, r);
    BracketGivesBack(d.node, r.dirty, r.taking, r.goingBack);
    IdsMatch(d, 0);
    if !Confirmed(d, r) {
      assert |LiveIds(d'.node.saved)| == |d.node.saved| + 1 == |Ids(d'.table)| + 1;
    }
  }

  /** A request keeps table and node in step if and only if its effect was confirmed. */
  lemma ServeKeepsStep(d: Devnet, r: Request)
    requires InStep(d) && ClockAhead(d, r)
    ensures InStep(Serve(d, r)) <==> Confirmed(d, r)
  {
    match r
    case TakeOne(_, _, _, _) => TakeKeepsStep(d, r);
    case RevertOne(_, _) => RevertKeepsStep(d, r);
    case DryRun(_, _, _) => DryRunKeepsStep(d, r);
    case Transact(after) =>
  }

  // ---------- Whole runs ----------

  ghost function Run(d: Devnet, requests: seq<Request>): Devnet {
    if requests == [] then d else Serve(Run(d, requests[..|requests| - 1]), requests[|requests| - 1])
  }

  ghost predicate AllConfirmed(d: Devnet, requests: seq<Request>) {
    forall i :: 0 <= i < |requests| ==>
      Confirmed(Run(d, requests[..i]), requests[i]) && ClockAhead(Run(d, requests[..i]), requests[i])
  }

  lemma {:induction false} PrefixConfirmed(d: Devnet, requests: seq<Request>)
    requires requests != [] && AllConfirmed(d, requests)
    ensures AllConfirmed(d, requests[..|requests| - 1])
    ensures
      var before := requests[..|requests| - 1];
      Confirmed(Run(d, before), requests[|requests| - 1]) && ClockAhead(Run(d, before), requests[|requests| - 1])
  {
    var before := requests[..|requests| - 1];
    forall i | 0 <= i < |before|
      ensures Confirmed(Run(d, before[..i]), before[i]) && ClockAhead(Run(d, before[..i]), before[i])
    {
      assert before[..i] == requests[..i] && before[i] == requests[i];
    }
  }

  /** Over every run of confirmed requests, the table is the node's live snapshots in order. */
  lemma {:induction false} TableFollowsNode(d: Devnet, requests: seq<Request>)
    requires InStep(d) && AllConfirmed(d, requests)
    ensures InStep(Run(d, requests))
  {
    if requests != [] {
      PrefixConfirmed(d, requests);
      TableFollowsNode(d, requests[..|requests| - 1]);
      ServeKeepsStep(Run(d, requests[..|requests| - 1]), requests[|requests| - 1]);
    }
  }

  // ---------- What a revert gives back ----------

  /** One request either keeps the first `k` snapshots as they are, or consumes the last of them for good. */
  ghost predicate KeepsPrefix(n: NodeState, n': NodeState, k: nat) {
    && ValidNode(n') && n'.nextId >= n.nextId
    && (k <= |n.saved| ==>
          || (k <= |n'.saved| && n'.saved[..k] == n.saved[..k])
          || (k > 0 && !Alive(n', n.saved[k - 1].id)))
  }

  lemma ServeKeepsPrefix(d: Devnet, r: Request, k: nat)
    requires ValidNode(d.node)
    ensures KeepsPrefix(d.node, Serve(d, r).node, k)
  {
    var n, n' := d.node, Serve(d, r).node;
    match r
    case TakeOne(_, _, _, _) =>
    case Transact(_) =>
    case RevertOne(id, _) => RevertKeepsPrefix(n, id, k);
    case DryRun(dirty, taking, goingBack) => BracketKeepsPrefix(n, dirty, taking, goingBack, k);
  }

  lemma BracketKeepsPrefix(n: NodeState, dirty: Chain, taking: Reply, goingBack: Reply, k: nat)
    requires ValidNode(n)
    ensures KeepsPrefix(n, Bracketed(n, dirty, taking, goingBack), k)
  {
    var n' := Bracketed(n, dirty, taking, goingBack);
    BracketGivesBack(n, dirty, taking, goingBack);
    if !GivenBack(n, n') {
      assert n'.saved == n.saved + [Saved(n.nextId, n.chain)];
    }
  }

  lemma RevertKeepsPrefix(n: NodeState, id: nat, k: nat)
    requires ValidNode(n)
    ensures KeepsPrefix(n, RevertTo(n, id), k)
  {
    var n' := RevertTo(n, id);
    if k <= |n.saved| && Alive(n, id) {
      var at := IndexOf(n.saved, id).value;
      if at < k {
        assert IndexOf(n'.saved, n.saved[k - 1].id).None?;
      } else {
        assert n'.saved[..k] == n.saved[..k];
      }
    }
  }

  /** An id below `nextId` that is not live stays dead: ids are never reused. */
  lemma DeadStaysDead(d: Devnet, r: Request, id: nat)
    requires ValidNode(d.node) && id < d.node.nextId && !Alive(d.node, id)
    ensures !Alive(Serve(d, r).node, id)
  {
    var n' := Serve(d, r).node;
    if r.DryRun? {
      BracketGivesBack(d.node, r.dirty, r.taking, r.goingBack);
    }
    forall i | 0 <= i < |n'.saved| ensures n'.saved[i].id != id {
      assert n'.saved[i].id == d.node.nextId || (i < |d.node.saved| && n'.saved[i] == d.node.saved[i]);
    }
  }

  lemma {:induction false} RunKeepsPrefix(d: Devnet, requests: seq<Request>, k: nat)
    requires ValidNode(d.node)
    ensures KeepsPrefix(d.node, Run(d, requests).node, k)
  {
    if requests == [] {
    } else {
      var before, r := Run(d, requests[..|requests| - 1]), requests[|requests| - 1];
      RunKeepsPrefix(d, requests[..|requests| - 1], k);
      ServeKeepsPrefix(before, r, k);
      if 0 < k <= |d.node.saved| && !Alive(before.node, d.node.saved[k - 1].id) {
        DeadStaysDead(before, r, d.node.saved[k - 1].id);
      } else if k <= |d.node.saved| && k > 0 {
        assert before.node.saved[k - 1] == before.node.saved[..k][k - 1];
      }
    }
  }

  /**
   * Whatever is asked of the node after a snapshot, reverting to it while it is
   * still live gives back the chain and the older snapshots exactly as they were
   * when it was taken.
   */
  lemma {:induction false} RevertUndoesEverything(d: Devnet, now: nat, requests: seq<Request>)
    requires ValidNode(d.node)
    ensures
      var id := d.node.nextId;
      var taken := Serve(d, TakeOne(Answered, Answered, true, now));
      var later := Run(taken, requests);
      Alive(later.node, id) ==>
        var back := Serve(later, RevertOne(id, Answered));
        back.node.chain == d.node.chain && back.node.saved == d.node.saved
  {
    var id, k := d.node.nextId, |d.node.saved|;
    var taken := Serve(d, TakeOne(Answered, Answered, true, now));
    var later := Run(taken, requests);
    RunKeepsPrefix(taken, requests, k + 1);
    if Alive(later.node, id) {
      assert later.node.saved[k] == later.node.saved[..k + 1][k] == Saved(id, d.node.chain);
      var at := IndexOf(later.node.saved, id).value;
      assert at == k;
      assert later.node.saved[..k] == later.node.saved[..k + 1][..k] == d.node.saved;
    }
  }

  /** An unrecorded snapshot leaves the table behind, and reverting to it leaves rows the node no longer has. */
  lemma UnrecordedSnapshotLeavesStaleRows(chain: Chain)
    ensures
      var start := Devnet(NodeState(chain, [], 0), []);
      var orphan := Serve(start, TakeOne(Answered, Lost, true, 1));
      var recorded := Serve(orphan, TakeOne(Answered, Answered, true, 2));
      var after := Serve(recorded, RevertOne(0, Answered));
      InStep(start) && !InStep(orphan) && after.node.saved == [] && Ids(after.table) == [1]
  {
    var start := Devnet(NodeState(chain, [], 0), []);
    var orphan := Serve(start, TakeOne(Answered, Lost, true, 1));
    TakeKeepsStep(start, TakeOne(Answered, Lost, true, 1));
    var recorded := Serve(orphan, TakeOne(Answered, Answered, true, 2));
    assert recorded.table == [Row(1, chain.height, 2)];
    assert recorded.node.saved == [Saved(0, chain), Saved(1, chain)];
    assert recorded.node.saved[..1] == [Saved(0, chain)];
    WithoutAbsent(recorded.table, 0);
    assert RowOf(recorded.table, 0).None?;
    assert IndexOf(recorded.node.saved, 0) == Some(0);
  }
}
