/**
 * Call trees: their flattening into trace rows (`callTraceToEntries`), their size
 * (`countCalls`), and the internal transfers read off them (`internalTransfersFor`).
 */
module CallTree {
  import opened Options
  import opened Sequences
  import opened EvmTrace
  import opened TraceEntries
  import opened Words

  datatype CallNode = CallNode(
    op: Option<Opcode>,
    from: Option<Account>,
    to: Option<Account>,
    value: Option<Word>,
    gas: Option<nat>,
    gasUsed: Option<nat>,
    failed: bool,
    calls: Calls
  )

  /** The calls made from a call, in order. */
  datatype Calls = NoCalls | More(call: CallNode, others: Calls)

  // ---------- Flattening ----------

  function RowFor(node: CallNode, depth: nat, idx: nat): TraceEntry {
    var op := node.op.GetOr(CALL);
    TraceEntry(idx, op, ClassifyOp(op), node.gas.GetOr(0), node.gasUsed.GetOr(0), depth, 0, node.to,
               None, None, None, node.to, node.from, node.value, node.failed)
  }

  /** The rows of one call: its own, then those of its calls in order. */
  function Flatten(node: CallNode, depth: nat, idx: nat): seq<TraceEntry> {
    [RowFor(node, depth, idx)] + FlattenAll(node.calls, depth + 1, idx + 1)
  }

  function FlattenAll(nodes: Calls, depth: nat, idx: nat): seq<TraceEntry>
    decreases nodes
  {
    if nodes.NoCalls? then []
    else
      var below := FlattenAll(nodes.call.calls, depth + 1, idx + 1);
      [RowFor(nodes.call, depth, idx)] + (below + FlattenAll(nodes.others, depth, idx + 1 + |below|))
  }

  function CountCalls(node: CallNode): nat {
    1 + CountAll(node.calls)
  }

  function CountAll(nodes: Calls): nat {
    if nodes.NoCalls? then 0 else 1 + CountAll(nodes.call.calls) + CountAll(nodes.others)
  }

  method CallTraceToEntries(node: CallNode, depth: nat, startIdx: nat) returns (entries: seq<TraceEntry>)
    ensures entries == Flatten(node, depth, startIdx)
    decreases node
  {
    entries := [RowFor(node, depth, startIdx)];
    var idx: nat := startIdx + 1;
    var left := node.calls;
    while left.More?
      invariant left == node.calls || left < node.calls
      invariant entries + FlattenAll(left, depth + 1, idx) == Flatten(node, depth, startIdx)
      decreases left
    {
      var childEntries := CallTraceToEntries(left.call, depth + 1, idx);
      FirstCall(left, depth + 1, idx);
      Associate(entries, childEntries, FlattenAll(left.others, depth + 1, idx + |childEntries|));
      entries := entries + childEntries;
      idx := idx + |childEntries|;
      left := left.others;
    }
  }

  lemma FirstCall(nodes: Calls, depth: nat, idx: nat)
    requires nodes.More?
    ensures
      var first := Flatten(nodes.call, depth, idx);
      FlattenAll(nodes, depth, idx) == first + FlattenAll(nodes.others, depth, idx + |first|)
  {
    var below := FlattenAll(nodes.call.calls, depth + 1, idx + 1);
    Associate([RowFor(nodes.call, depth, idx)], below, FlattenAll(nodes.others, depth, idx + 1 + |below|));
  }

  lemma {:induction false} FlattenAllNumbers(nodes: Calls, depth: nat, idx: nat)
    ensures |FlattenAll(nodes, depth, idx)| == CountAll(nodes)
    ensures forall i :: 0 <= i < |FlattenAll(nodes, depth, idx)| ==> FlattenAll(nodes, depth, idx)[i].idx == idx + i
  {
    if nodes.More? {
      FlattenAllNumbers(nodes.call.calls, depth + 1, idx + 1);
      FlattenAllNumbers(nodes.others, depth, idx + 1 + CountAll(nodes.call.calls));
    }
  }

  /** Rows are numbered consecutively from the start index, one per call. */
  lemma FlattenNumbersCalls(node: CallNode, depth: nat, idx: nat)
    ensures |Flatten(node, depth, idx)| == CountCalls(node)
    ensures forall i :: 0 <= i < |Flatten(node, depth, idx)| ==> Flatten(node, depth, idx)[i].idx == idx + i
  {
    FlattenAllNumbers(node.calls, depth + 1, idx + 1);
  }

  // ---------- What each row says ----------

  /** The calls of some trees, each before the calls it made. */
  ghost function Preorder(nodes: Calls): seq<CallNode> {
    if nodes.NoCalls? then []
    else [nodes.call] + (Preorder(nodes.call.calls) + Preorder(nodes.others))
  }

  ghost predicate SaysCall(row: TraceEntry, call: CallNode) {
    && row.op == (if call.op.Some? then call.op.value else CALL) && row.kind == ClassifyOp(row.op)
    && row.gas == (if call.gas.Some? then call.gas.value else 0)
    && row.gasCost == (if call.gasUsed.Some? then call.gasUsed.value else 0)
    && row.context == row.to == call.to && row.from == call.from
    && row.callValue == call.value && row.failed == call.failed && row.pc == 0
    && row.slot == row.value == row.previousValue == None
  }

  ghost predicate SayCalls(rows: seq<TraceEntry>, calls: seq<CallNode>) {
    |rows| == |calls| && forall i :: 0 <= i < |rows| ==> SaysCall(rows[i], calls[i])
  }

  lemma SayCallsConcat(rows: seq<TraceEntry>, calls: seq<CallNode>, rows': seq<TraceEntry>, calls': seq<CallNode>)
    requires SayCalls(rows, calls) && SayCalls(rows', calls')
    ensures SayCalls(rows + rows', calls + calls')
  {
    hide SaysCall;
  }

  lemma NothingSaid()
    ensures SayCalls([], [])
  {}

  lemma OneRowSaysItsCall(call: CallNode, depth: nat, idx: nat)
    ensures SayCalls([RowFor(call, depth, idx)], [call])
  {}

  lemma {:induction false} AllRowsSayTheirCalls(nodes: Calls, depth: nat, idx: nat)
    ensures SayCalls(FlattenAll(nodes, depth, idx), Preorder(nodes))
  {
    hide SayCalls, RowFor;
    if nodes.NoCalls? {
      NothingSaid();
    } else {
      var below := FlattenAll(nodes.call.calls, depth + 1, idx + 1);
      var after := FlattenAll(nodes.others, depth, idx + 1 + |below|);
      OneRowSaysItsCall(nodes.call, depth, idx);
      AllRowsSayTheirCalls(nodes.call.calls, depth + 1, idx + 1);
      AllRowsSayTheirCalls(nodes.others, depth, idx + 1 + |below|);
      SayCallsConcat(below, Preorder(nodes.call.calls), after, Preorder(nodes.others));
      SayCallsConcat([RowFor(nodes.call, depth, idx)], [nodes.call], below + after,
                     Preorder(nodes.call.calls) + Preorder(nodes.others));
    }
  }

  /** Row by row, the flattening says what the calls say, each call before those it made. */
  lemma RowsSayTheirCalls(node: CallNode, depth: nat, idx: nat)
    ensures SayCalls(Flatten(node, depth, idx), [node] + Preorder(node.calls))
    ensures Flatten(node, depth, idx)[0].depth == depth
  {
    AllRowsSayTheirCalls(node.calls, depth + 1, idx + 1);
    SayCallsConcat([RowFor(node, depth, idx)], [node],
                   FlattenAll(node.calls, depth + 1, idx + 1), Preorder(node.calls));
  }

  // ---------- Rebuilding the tree from depths ----------

  /** Sibling calls, each with its row, the calls it made, and the siblings after it. */
  datatype Forest = Empty | Call(row: TraceEntry, calls: Forest, rest: Forest)

  /** How many leading rows lie deeper than `depth`. */
  function Deeper(rows: seq<TraceEntry>, depth: nat): (n: nat)
    ensures n <= |rows|
  {
    if rows == [] || rows[0].depth <= depth then 0 else 1 + Deeper(rows[1..], depth)
  }

  /** Reads rows back into trees, by their depths alone. */
  function Grow(rows: seq<TraceEntry>): Forest
    decreases |rows|
  {
    if rows == [] then Empty
    else
      var n := Deeper(rows[1..], rows[0].depth);
      Call(rows[0], Grow(rows[1..1 + n]), Grow(rows[1 + n..]))
  }

  /** The tree itself, every call carrying its row. */
  ghost function Labelled(nodes: Calls, depth: nat, idx: nat): Forest
    decreases nodes
  {
    if nodes.NoCalls? then Empty
    else
      Call(RowFor(nodes.call, depth, idx), Labelled(nodes.call.calls, depth + 1, idx + 1),
           Labelled(nodes.others, depth, idx + CountCalls(nodes.call)))
  }

  lemma {:induction false} FlattenAllDepths(nodes: Calls, depth: nat, idx: nat)
    ensures forall i :: 0 <= i < |FlattenAll(nodes, depth, idx)| ==> FlattenAll(nodes, depth, idx)[i].depth >= depth
    ensures nodes.More? ==> FlattenAll(nodes, depth, idx) != [] && FlattenAll(nodes, depth, idx)[0].depth == depth
  {
    if nodes.More? {
      var below := FlattenAll(nodes.call.calls, depth + 1, idx + 1);
      FlattenAllDepths(nodes.call.calls, depth + 1, idx + 1);
      FlattenAllDepths(nodes.others, depth, idx + 1 + |below|);
    }
  }

  lemma {:induction false} DeeperSpans(inside: seq<TraceEntry>, after: seq<TraceEntry>, depth: nat)
    requires forall i :: 0 <= i < |inside| ==> inside[i].depth > depth
    requires after == [] || after[0].depth <= depth
    ensures Deeper(inside + after, depth) == |inside|
    decreases |inside|
  {
    if inside == [] {
      assert inside + after == after;
    } else {
      assert (inside + after)[1..] == inside[1..] + after;
      DeeperSpans(inside[1..], after, depth);
    }
  }

  /** A row, the deeper rows after it, and what follows at its own depth or above. */
  lemma {:induction false} GrowStep(
    rows: seq<TraceEntry>, row: TraceEntry, inside: seq<TraceEntry>, after: seq<TraceEntry>
  )
    requires rows == [row] + (inside + after)
    requires AllDeeper(inside, row.depth)
    requires after == [] || after[0].depth <= row.depth
    ensures Grow(rows) == Call(row, Grow(inside), Grow(after))
  {
    DropFirst(row, inside + after);
    DeeperSpans(inside, after, row.depth);
    SpanSlices(row, inside, after);
  }

  ghost predicate AllDeeper(rows: seq<TraceEntry>, depth: nat) {
    forall i :: 0 <= i < |rows| ==> rows[i].depth > depth
  }

  /** Growing the rows of sibling calls: the first call, its own calls, and the siblings after it. */
  lemma GrowFirst(nodes: Calls, depth: nat, idx: nat)
    requires nodes.More?
    ensures Grow(FlattenAll(nodes, depth, idx)) ==
            Call(RowFor(nodes.call, depth, idx), Grow(FlattenAll(nodes.call.calls, depth + 1, idx + 1)),
                 Grow(FlattenAll(nodes.others, depth, idx + CountCalls(nodes.call))))
  {
    var below := FlattenAll(nodes.call.calls, depth + 1, idx + 1);
    FlattenAllNumbers(nodes.call.calls, depth + 1, idx + 1);
    var after := FlattenAll(nodes.others, depth, idx + CountCalls(nodes.call));
    FlattenAllDepths(nodes.call.calls, depth + 1, idx + 1);
    FlattenAllDepths(nodes.others, depth, idx + CountCalls(nodes.call));
    GrowStep(FlattenAll(nodes, depth, idx), RowFor(nodes.call, depth, idx), below, after);
  }

  lemma LabelledFirst(nodes: Calls, depth: nat, idx: nat)
    requires nodes.More?
    ensures Labelled(nodes, depth, idx) ==
            Call(RowFor(nodes.call, depth, idx), Labelled(nodes.call.calls, depth + 1, idx + 1),
                 Labelled(nodes.others, depth, idx + CountCalls(nodes.call)))
  {}

  lemma {:induction false} GrowNone(nodes: Calls, depth: nat, idx: nat)
    requires nodes.NoCalls?
    ensures Grow(FlattenAll(nodes, depth, idx)) == Labelled(nodes, depth, idx)
  {}

  lemma {:induction false} GrowRebuildsAll(nodes: Calls, depth: nat, idx: nat)
    ensures Grow(FlattenAll(nodes, depth, idx)) == Labelled(nodes, depth, idx)
    decreases nodes
  {
    hide Grow, Labelled, FlattenAll;
    if nodes.NoCalls? {
      GrowNone(nodes, depth, idx);
    } else {
      GrowFirst(nodes, depth, idx);
      LabelledFirst(nodes, depth, idx);
      GrowRebuildsAll(nodes.call.calls, depth + 1, idx + 1);
      GrowRebuildsAll(nodes.others, depth, idx + CountCalls(nodes.call));
    }
  }

  lemma SpanSlices<T>(x: T, inside: seq<T>, after: seq<T>)
    ensures ([x] + (inside + after))[1..1 + |inside|] == inside
    ensures ([x] + (inside + after))[1 + |inside|..] == after
  {}

  /** Flattening loses nothing: the depths of the rows rebuild the tree, each call with its own row. */
  lemma {:induction false} DepthsRebuildTheTree(node: CallNode, depth: nat, idx: nat)
    ensures Grow(Flatten(node, depth, idx)) == Labelled(More(node, NoCalls), depth, idx)
  {
    GrowRebuildsAll(More(node, NoCalls), depth, idx);
    FirstCall(More(node, NoCalls), depth, idx);
    assert Flatten(node, depth, idx) + [] == Flatten(node, depth, idx);
  }

  // ---------- Internal transfers ----------

  datatype CachedTrace = CachedTrace(hash: nat, blockNumber: nat, timeStamp: nat, root: Option<CallNode>)

  datatype Transfer = Transfer(
    hash: nat, blockNumber: nat, timeStamp: nat,
    from: Option<Account>, to: Option<Account>,
    value: Word, gasUsed: Option<nat>, op: Opcode, traceId: nat
  )

  predicate Touches(from: Option<Account>, to: Option<Account>, address: Account) {
    from == Some(address) || to == Some(address)
  }

  function TransferFor(node: CallNode, depth: nat, trace: CachedTrace): Transfer {
    Transfer(trace.hash, trace.blockNumber, trace.timeStamp, node.from, node.to,
             node.value.GetOr(0), node.gasUsed, node.op.GetOr(CALL), depth)
  }

  /** The rows a walk pushes for the call it is at. */
  function Here(node: CallNode, depth: nat, trace: CachedTrace, address: Account): seq<Transfer> {
    if depth > 0 && Touches(node.from, node.to, address) then [TransferFor(node, depth, trace)] else []
  }

  /** The rows a walk pushes, in order. */
  function Walked(node: CallNode, depth: nat, trace: CachedTrace, address: Account): seq<Transfer> {
    Here(node, depth, trace, address) + WalkedAll(node.calls, depth + 1, trace, address)
  }

  function WalkedAll(nodes: Calls, depth: nat, trace: CachedTrace, address: Account): seq<Transfer> {
    if nodes.NoCalls? then []
    else
      Here(nodes.call, depth, trace, address)
      + WalkedAll(nodes.call.calls, depth + 1, trace, address)
      + WalkedAll(nodes.others, depth, trace, address)
  }

  function TransfersOf(traces: seq<CachedTrace>, address: Account): seq<Transfer> {
    if traces == [] then []
    else
      var n := |traces| - 1;
      TransfersOf(traces[..n], address) +
      (if traces[n].root.Some? then Walked(traces[n].root.value, 0, traces[n], address) else [])
  }

  /** Walks one tree, pushing onto `out`. */
  method Walk(node: CallNode, depth: nat, trace: CachedTrace, address: Account, out: seq<Transfer>)
    returns (pushed: seq<Transfer>)
    ensures pushed == out + Walked(node, depth, trace, address)
    decreases node
  {
    pushed := out;
    if depth > 0 && Touches(node.from, node.to, address) {
      pushed := pushed + [TransferFor(node, depth, trace)];
    }
    var left := node.calls;
    while left.More?
      invariant left == node.calls || left < node.calls
      invariant pushed + WalkedAll(left, depth + 1, trace, address) == out + Walked(node, depth, trace, address)
      decreases left
    {
      ghost var before := pushed;
      pushed := Walk(left.call, depth + 1, trace, address, pushed);
      Associate(before, Walked(left.call, depth + 1, trace, address),
                WalkedAll(left.others, depth + 1, trace, address));
      left := left.others;
    }
  }

  method InternalTransfersFor(address: Account, traces: seq<CachedTrace>) returns (out: seq<Transfer>)
    ensures out == if address == Nobody then [] else TransfersOf(traces, address)
  {
    hide Walked;
    out := [];
    if address == Nobody {
      return;
    }
    var i := 0;
    while i < |traces|
      invariant 0 <= i <= |traces|
      invariant out == TransfersOf(traces[..i], address)
    {
      assert traces[..i + 1][..i] == traces[..i];
      if traces[i].root.Some? {
        out := Walk(traces[i].root.value, 0, traces[i], address, out);
      }
      i := i + 1;
    }
    assert traces[..i] == traces;
  }

  ghost predicate SaysTransfer(t: Transfer, call: CallNode, trace: CachedTrace) {
    && t.hash == trace.hash && t.blockNumber == trace.blockNumber && t.timeStamp == trace.timeStamp
    && t.from == call.from && t.to == call.to && t.gasUsed == call.gasUsed
    && t.value == (if call.value.Some? then call.value.value else 0)
    && t.op == (if call.op.Some? then call.op.value else CALL)
  }

  ghost predicate SayTransfers(transfers: seq<Transfer>, calls: seq<CallNode>, trace: CachedTrace) {
    |transfers| == |calls| && forall i :: 0 <= i < |calls| ==> SaysTransfer(transfers[i], calls[i], trace)
  }

  /** The calls to or from the address. */
  ghost function CallsOf(calls: seq<CallNode>, address: Account): seq<CallNode> {
    if calls == [] then []
    else CallOf(calls[0], address) + CallsOf(calls[1..], address)
  }

  ghost function CallOf(call: CallNode, address: Account): seq<CallNode> {
    if call.from == Some(address) || call.to == Some(address) then [call] else []
  }

  lemma {:induction false} CallsOfConcat(a: seq<CallNode>, b: seq<CallNode>, address: Account)
    ensures CallsOf(a + b, address) == CallsOf(a, address) + CallsOf(b, address)
    decreases |a|
  {
    hide CallOf;
    if a == [] {
      assert a + b == b;
    } else {
      assert (a + b)[1..] == a[1..] + b;
      CallsOfConcat(a[1..], b, address);
      Associate(CallOf(a[0], address), CallsOf(a[1..], address), CallsOf(b, address));
    }
  }

  lemma SayTransfersConcat(
    a: seq<Transfer>, x: seq<CallNode>, b: seq<Transfer>, y: seq<CallNode>, trace: CachedTrace
  )
    requires SayTransfers(a, x, trace) && SayTransfers(b, y, trace)
    ensures SayTransfers(a + b, x + y, trace)
  {
    hide SaysTransfer;
  }

  lemma {:induction false} HereSaysItsCall(node: CallNode, depth: nat, trace: CachedTrace, address: Account)
    requires depth > 0
    ensures SayTransfers(Here(node, depth, trace, address), CallsOf([node], address), trace)
  {
    assert [node][1..] == [];
  }

  lemma {:induction false} AllWalkedSayTheirCalls(nodes: Calls, depth: nat, trace: CachedTrace, address: Account)
    requires depth > 0
    ensures SayTransfers(WalkedAll(nodes, depth, trace, address), CallsOf(Preorder(nodes), address), trace)
  {
    hide SayTransfers, CallsOf, Here;
    if nodes.NoCalls? {
      NothingWalked(trace, address);
    } else {
      var below, after := Preorder(nodes.call.calls), Preorder(nodes.others);
      var here := Here(nodes.call, depth, trace, address);
      var walkedBelow := WalkedAll(nodes.call.calls, depth + 1, trace, address);
      var walkedAfter := WalkedAll(nodes.others, depth, trace, address);
      AllWalkedSayTheirCalls(nodes.call.calls, depth + 1, trace, address);
      AllWalkedSayTheirCalls(nodes.others, depth, trace, address);
      HereSaysItsCall(nodes.call, depth, trace, address);
      CallsOfConcat([nodes.call], below + after, address);
      CallsOfConcat(below, after, address);
      SayTransfersConcat(walkedBelow, CallsOf(below, address), walkedAfter, CallsOf(after, address), trace);
      SayTransfersConcat(here, CallsOf([nodes.call], address), walkedBelow + walkedAfter,
                         CallsOf(below + after, address), trace);
      Associate(here, walkedBelow, walkedAfter);
    }
  }

  lemma {:induction false} NothingWalked(trace: CachedTrace, address: Account)
    ensures SayTransfers([], CallsOf([], address), trace)
  {}

  /** The transfers of one tree are its calls to or from the address, the root's own call apart. */
  lemma {:induction false} TransfersSayTheirCalls(root: CallNode, trace: CachedTrace, address: Account)
    ensures SayTransfers(Walked(root, 0, trace, address), CallsOf(Preorder(root.calls), address), trace)
  {
    AllWalkedSayTheirCalls(root.calls, 1, trace, address);
    assert Here(root, 0, trace, address) == [];
    assert [] + WalkedAll(root.calls, 1, trace, address) == WalkedAll(root.calls, 1, trace, address);
  }

  /** The rows of a flattening that are not the root's and touch the address. */
  ghost function Touching(rows: seq<TraceEntry>, address: Account): seq<TraceEntry> {
    if rows == [] then []
    else
      (if rows[0].depth > 1 && (rows[0].from == Some(address) || rows[0].to == Some(address)) then [rows[0]] else [])
      + Touching(rows[1..], address)
  }

  lemma {:induction false} TouchingConcat(a: seq<TraceEntry>, b: seq<TraceEntry>, address: Account)
    ensures Touching(a + b, address) == Touching(a, address) + Touching(b, address)
    decreases |a|
  {
    if a == [] {
      assert a + b == b;
    } else {
      assert (a + b)[1..] == a[1..] + b;
      TouchingConcat(a[1..], b, address);
    }
  }

  /** A transfer says what the trace row of the same call says. */
  ghost predicate SameCall(t: Transfer, row: TraceEntry, trace: CachedTrace) {
    && t.hash == trace.hash && t.blockNumber == trace.blockNumber && t.timeStamp == trace.timeStamp
    && t.from == row.from && t.to == row.to && t.value == row.callValue.GetOr(0)
    && t.op == row.op && t.gasUsed.GetOr(0) == row.gasCost && t.traceId + 1 == row.depth
  }

  ghost predicate SameCalls(transfers: seq<Transfer>, rows: seq<TraceEntry>, trace: CachedTrace) {
    |transfers| == |rows| && forall i :: 0 <= i < |rows| ==> SameCall(transfers[i], rows[i], trace)
  }

  lemma SameCallsConcat(a: seq<Transfer>, b: seq<Transfer>, x: seq<TraceEntry>, y: seq<TraceEntry>, trace: CachedTrace)
    requires SameCalls(a, x, trace) && SameCalls(b, y, trace)
    ensures SameCalls(a + b, x + y, trace)
  {}

  /** One call: what the walk pushes for it and what its row contributes. */
  lemma {:induction false} HereFollowsRow(node: CallNode, depth: nat, idx: nat, trace: CachedTrace, address: Account)
    ensures SameCalls(Here(node, depth, trace, address), Touching([RowFor(node, depth + 1, idx)], address), trace)
  {
    var rows := [RowFor(node, depth + 1, idx)];
    assert rows[1..] == [];
    assert Touching(rows, address) == if depth > 0 && Touches(node.from, node.to, address) then rows else [];
  }

  lemma {:induction false} NothingFollowsNothing(trace: CachedTrace, address: Account)
    ensures SameCalls([], Touching([], address), trace)
  {}

  lemma {:induction false} WalkFollowsAll(nodes: Calls, depth: nat, idx: nat, trace: CachedTrace, address: Account)
    ensures SameCalls(WalkedAll(nodes, depth, trace, address),
                      Touching(FlattenAll(nodes, depth + 1, idx), address), trace)
  {
    hide SameCalls, Touching, Here, RowFor;
    if nodes.NoCalls? {
      NothingFollowsNothing(trace, address);
    } else {
      var below := FlattenAll(nodes.call.calls, depth + 2, idx + 1);
      var after := FlattenAll(nodes.others, depth + 1, idx + 1 + |below|);
      WalkFollowsAll(nodes.call.calls, depth + 1, idx + 1, trace, address);
      WalkFollowsAll(nodes.others, depth, idx + 1 + |below|, trace, address);
      WalkJoins(nodes.call, depth, idx, trace, address, below, after,
                WalkedAll(nodes.call.calls, depth + 1, trace, address), WalkedAll(nodes.others, depth, trace, address));
    }
  }

  lemma {:induction false} WalkJoins(
    node: CallNode, depth: nat, idx: nat, trace: CachedTrace, address: Account,
    below: seq<TraceEntry>, after: seq<TraceEntry>, walkedBelow: seq<Transfer>, walkedAfter: seq<Transfer>
  )
    requires SameCalls(walkedBelow, Touching(below, address), trace)
    requires SameCalls(walkedAfter, Touching(after, address), trace)
    ensures SameCalls(Here(node, depth, trace, address) + walkedBelow + walkedAfter,
                      Touching([RowFor(node, depth + 1, idx)] + (below + after), address), trace)
  {
    hide SameCalls, Touching, Here, RowFor;
    var row := RowFor(node, depth + 1, idx);
    HereFollowsRow(node, depth, idx, trace, address);
    TouchingConcat([row], below + after, address);
    TouchingConcat(below, after, address);
    SameCallsConcat(walkedBelow, walkedAfter, Touching(below, address), Touching(after, address), trace);
    SameCallsConcat(Here(node, depth, trace, address), walkedBelow + walkedAfter,
                    Touching([row], address), Touching(below + after, address), trace);
    Associate(Here(node, depth, trace, address), walkedBelow, walkedAfter);
  }

  lemma {:induction false} WalkFollowsRows(node: CallNode, depth: nat, idx: nat, trace: CachedTrace, address: Account)
    ensures SameCalls(Walked(node, depth, trace, address), Touching(Flatten(node, depth + 1, idx), address), trace)
  {
    var below := FlattenAll(node.calls, depth + 2, idx + 1);
    WalkFollowsAll(node.calls, depth + 1, idx + 1, trace, address);
    HereFollowsRow(node, depth, idx, trace, address);
    TouchingConcat([RowFor(node, depth + 1, idx)], below, address);
    SameCallsConcat(Here(node, depth, trace, address), WalkedAll(node.calls, depth + 1, trace, address),
                    Touching([RowFor(node, depth + 1, idx)], address), Touching(below, address), trace);
  }

  /**
   * For each cached trace, the internal transfers of an address are the rows of the
   * trace's flattening that are not the root and touch the address: the same calls,
   * in the same order.
   */
  lemma {:induction false} TransfersAreTouchingRows(traces: seq<CachedTrace>, address: Account, k: nat)
    requires k < |traces| && traces[k].root.Some?
    ensures
      var here := Walked(traces[k].root.value, 0, traces[k], address);
      && TransfersOf(traces[..k + 1], address) == TransfersOf(traces[..k], address) + here
      && SameCalls(here, Touching(Flatten(traces[k].root.value, 1, 0), address), traces[k])
  {
    assert traces[..k + 1][..k] == traces[..k];
    WalkFollowsRows(traces[k].root.value, 0, 0, traces[k], address);
  }
}
