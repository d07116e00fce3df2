/**
 * The live block stream: the cursor each client polls with, and the tables all
 * clients index into.
 */
module BlockStream {
  import opened Options

  /** Blocks of different projects, or of different chains, never share a row. */
  datatype Scope = Scope(chainId: nat, projectId: Option<nat>)

  datatype StreamKey = StreamKey(scope: Scope, port: nat)

  datatype Block = Block(hash: nat, timestamp: nat, gasUsed: Option<nat>, txs: seq<nat>)

  datatype Receipt = Receipt(gasUsed: nat, status: nat)

  datatype BlockRecord = BlockRecord(
    scope: Scope, number: nat, hash: nat, timestamp: nat, txCount: nat, gasUsed: Option<nat>
  )

  datatype TxRecord = TxRecord(
    hash: nat, scope: Scope, blockNumber: nat, timestamp: nat, gasUsed: Option<nat>, status: nat
  )

  /** The blocks table, keyed by scope and number, and the transactions table, keyed by hash. */
  datatype Store = Store(blocks: map<(Scope, nat), BlockRecord>, txs: map<nat, TxRecord>)

  const MAX_BLOCKS_PER_TICK := 200

  /**
   * What one poll meets: the node it resolves to, the height it reads, the batches
   * (`None` when the remote call failed, a missing item when it came back empty),
   * whether the write committed, and whether announcing it went through.
   */
  datatype Answer = Answer(
    key: StreamKey,
    height: Option<int>,
    blocks: Option<seq<Option<Block>>>,
    receipts: Option<seq<Option<Receipt>>>,
    committed: bool,
    announced: bool
  )

  /** The cursor; -1 means that no tip has been seen on this node. */
  datatype Cursor = Cursor(key: Option<StreamKey>, last: int)

  const FRESH := Cursor(None, -1)

  // ---------- Records ----------

  function ItemAt<T>(items: seq<Option<T>>, i: nat): Option<T> {
    if i < |items| then items[i] else None
  }

  function BlockRecordOf(scope: Scope, number: nat, block: Block): BlockRecord {
    BlockRecord(scope, number, block.hash, block.timestamp, |block.txs|, block.gasUsed)
  }

  function TxRecordOf(scope: Scope, number: nat, timestamp: nat, hash: nat, receipt: Option<Receipt>): TxRecord {
    match receipt
    case Some(r) => TxRecord(hash, scope, number, timestamp, Some(r.gasUsed), r.status)
    case None => TxRecord(hash, scope, number, timestamp, None, 1)
  }

  /** A transaction waiting for its receipt. */
  datatype Pending = Pending(hash: nat, number: nat, timestamp: nat)

  function PendingOf(number: nat, block: Block): seq<Pending> {
    seq(|block.txs|, i requires 0 <= i < |block.txs| => Pending(block.txs[i], number, block.timestamp))
  }

  /** The records of the first `n` blocks from `start` on that came back. */
  function BlockRecords(scope: Scope, start: nat, items: seq<Option<Block>>, n: nat): seq<BlockRecord> {
    if n == 0 then []
    else
      BlockRecords(scope, start, items, n - 1) +
      match ItemAt(items, n - 1)
      case Some(block) => [BlockRecordOf(scope, start + n - 1, block)]
      case None => []
  }

  function PendingTxs(start: nat, items: seq<Option<Block>>, n: nat): seq<Pending> {
    if n == 0 then []
    else
      PendingTxs(start, items, n - 1) +
      match ItemAt(items, n - 1)
      case Some(block) => PendingOf(start + n - 1, block)
      case None => []
  }

  function TxRecords(scope: Scope, pending: seq<Pending>, receipts: seq<Option<Receipt>>): seq<TxRecord> {
    seq(|pending|, i requires 0 <= i < |pending| =>
      TxRecordOf(scope, pending[i].number, pending[i].timestamp, pending[i].hash, ItemAt(receipts, i)))
  }

  // ---------- The tables ----------

  function InsertBlocks(blocks: map<(Scope, nat), BlockRecord>, records: seq<BlockRecord>)
    : map<(Scope, nat), BlockRecord>
  {
    if records == [] then blocks
    else
      var r := records[|records| - 1];
      InsertBlocks(blocks, records[..|records| - 1])[(r.scope, r.number) := r]
  }

  function InsertTxs(txs: map<nat, TxRecord>, records: seq<TxRecord>): map<nat, TxRecord> {
    if records == [] then txs
    else
      var r := records[|records| - 1];
      InsertTxs(txs, records[..|records| - 1])[r.hash := r]
  }

  function Inserted(store: Store, blocks: seq<BlockRecord>, txs: seq<TxRecord>): Store {
    Store(InsertBlocks(store.blocks, blocks), InsertTxs(store.txs, txs))
  }

  class Database {
    var blocks: map<(Scope, nat), BlockRecord>
    var txs: map<nat, TxRecord>

    ghost function State(): Store
      reads this
    {
      Store(blocks, txs)
    }

    constructor ()
      ensures State() == Store(map[], map[])
    {
      blocks, txs := map[], map[];
    }

    /** One transaction for the whole batch: all of it, or none when it fails. */
    method InsertBlocksAndTxs(blockRecords: seq<BlockRecord>, txRecords: seq<TxRecord>, committed: bool)
      returns (ok: bool)
      modifies this
      ensures ok == (committed || (blockRecords == [] && txRecords == []))
      ensures State() == if ok then Inserted(old(State()), blockRecords, txRecords) else old(State())
    {
      if blockRecords == [] && txRecords == [] {
        return true;
      }
      var blocksBefore, txsBefore := blocks, txs;
      var i := 0;
      while i < |blockRecords|
        invariant 0 <= i <= |blockRecords|
        invariant txs == txsBefore && blocks == InsertBlocks(blocksBefore, blockRecords[..i])
      {
        assert blockRecords[..i + 1][..i] == blockRecords[..i];
        blocks := blocks[(blockRecords[i].scope, blockRecords[i].number) := blockRecords[i]];
        i := i + 1;
      }
      assert blockRecords[..i] == blockRecords;
      i := 0;
      while i < |txRecords|
        invariant 0 <= i <= |txRecords|
        invariant blocks == InsertBlocks(blocksBefore, blockRecords) && txs == InsertTxs(txsBefore, txRecords[..i])
      {
        assert txRecords[..i + 1][..i] == txRecords[..i];
        txs := txs[txRecords[i].hash := txRecords[i]];
        i := i + 1;
      }
      assert txRecords[..i] == txRecords;
      if !committed {
        blocks, txs := blocksBefore, txsBefore;
      }
      ok := committed;
    }
  }

  // ---------- A poll ----------

  /** A node, chain or project change invalidates the cursor. */
  function Keyed(c: Cursor, key: StreamKey): Cursor {
    if c.key == Some(key) then c else Cursor(Some(key), -1)
  }

  function LastOfBatch(last: nat, height: nat): nat
    requires last < height
  {
    if height <= last + MAX_BLOCKS_PER_TICK then height else last + MAX_BLOCKS_PER_TICK
  }

  /** The poll reads a height above its cursor, so there is a batch to index. */
  predicate Behind(c: Cursor, a: Answer) {
    a.height.Some? && 0 <= Keyed(c, a.key).last < a.height.value
  }

  /** How many blocks the poll asks for. */
  function BatchSize(c: Cursor, a: Answer): nat
    requires Behind(c, a)
  {
    var last := Keyed(c, a.key).last;
    LastOfBatch(last, a.height.value) - last
  }

  function BatchBlocks(c: Cursor, a: Answer): seq<BlockRecord>
    requires Behind(c, a) && a.blocks.Some?
  {
    BlockRecords(a.key.scope, Keyed(c, a.key).last + 1, a.blocks.value, BatchSize(c, a))
  }

  function BatchPending(c: Cursor, a: Answer): seq<Pending>
    requires Behind(c, a) && a.blocks.Some?
  {
    PendingTxs(Keyed(c, a.key).last + 1, a.blocks.value, BatchSize(c, a))
  }

  function BatchTxs(c: Cursor, a: Answer): seq<TxRecord>
    requires Behind(c, a) && a.blocks.Some?
  {
    TxRecords(a.key.scope, BatchPending(c, a), a.receipts.GetOr([]))
  }

  /** The poll gets as far as a committed write. */
  predicate Writes(c: Cursor, a: Answer) {
    && Behind(c, a)
    && a.blocks.Some?
    && (BatchPending(c, a) != [] ==> a.receipts.Some?)
    && (a.committed || (BatchBlocks(c, a) == [] && BatchTxs(c, a) == []))
  }

  function PolledCursor(c: Cursor, a: Answer): Cursor {
    var k := Keyed(c, a.key);
    if a.height.None? || a.height.value < 0 then k
    else if k.last < 0 || a.height.value < k.last then k.(last := a.height.value)
    else if Writes(c, a) && a.announced then k.(last := LastOfBatch(k.last, a.height.value))
    else k
  }

  function PolledStore(c: Cursor, a: Answer, store: Store): Store {
    if Writes(c, a) then Inserted(store, BatchBlocks(c, a), BatchTxs(c, a)) else store
  }

  method BatchNumbers(start: nat, to: nat) returns (numbers: seq<nat>)
    requires start <= to + 1
    ensures |numbers| == to + 1 - start
    ensures forall j :: 0 <= j < |numbers| ==> numbers[j] == start + j
  {
    numbers := [];
    var bn := start;
    while bn <= to
      invariant start <= bn <= to + 1
      invariant |numbers| == bn - start && forall j :: 0 <= j < |numbers| ==> numbers[j] == start + j
    {
      numbers := numbers + [bn];
      bn := bn + 1;
    }
  }

  lemma CollectOne(scope: Scope, start: nat, items: seq<Option<Block>>, i: nat)
    ensures BlockRecords(scope, start, items, i + 1) ==
      if ItemAt(items, i).Some? then
        BlockRecords(scope, start, items, i) + [BlockRecordOf(scope, start + i, ItemAt(items, i).value)]
      else
        BlockRecords(scope, start, items, i)
    ensures PendingTxs(start, items, i + 1) ==
      if ItemAt(items, i).Some? then PendingTxs(start, items, i) + PendingOf(start + i, ItemAt(items, i).value)
      else PendingTxs(start, items, i)
  {
    hide PendingOf, BlockRecordOf, ItemAt;
  }

  lemma {:induction false} CollectNone(scope: Scope, start: nat, items: seq<Option<Block>>)
    ensures BlockRecords(scope, start, items, 0) == [] && PendingTxs(start, items, 0) == []
  {}

  /** The records of the blocks that came back, and their transactions. */
  method Collect(scope: Scope, start: nat, numbers: seq<nat>, items: seq<Option<Block>>)
    returns (blockRecords: seq<BlockRecord>, pending: seq<Pending>)
    requires forall j :: 0 <= j < |numbers| ==> numbers[j] == start + j
    ensures blockRecords == BlockRecords(scope, start, items, |numbers|)
    ensures pending == PendingTxs(start, items, |numbers|)
  {
    hide BlockRecords, PendingTxs, PendingOf, BlockRecordOf, ItemAt;
    blockRecords, pending := [], [];
    CollectNone(scope, start, items);
    var i: nat := 0;
    while i < |numbers|
      invariant i <= |numbers|
      invariant blockRecords == BlockRecords(scope, start, items, i)
      invariant pending == PendingTxs(start, items, i)
    {
      CollectOne(scope, start, items, i);
      var block := ItemAt(items, i);
      if block.Some? {
        blockRecords := blockRecords + [BlockRecordOf(scope, numbers[i], block.value)];
        pending := pending + PendingOf(numbers[i], block.value);
      }
      i := i + 1;
    }
  }

  class Client {
    var lastBlock: int
    var lastKey: Option<StreamKey>
    var closed: bool

    ghost function State(): Cursor
      reads this
    {
      Cursor(lastKey, lastBlock)
    }

    constructor ()
      ensures State() == FRESH && !closed
    {
      lastBlock, lastKey, closed := -1, None, false;
    }

    /** One tick: a poll whose failures are swallowed, unless the client has gone. */
    method Tick(db: Database, a: Answer)
      requires lastBlock >= -1
      modifies this`lastBlock, this`lastKey, db
      ensures lastBlock >= -1
      ensures State() == if closed then old(State()) else PolledCursor(old(State()), a)
      ensures db.State() == if closed then old(db.State()) else PolledStore(old(State()), a, old(db.State()))
    {
      hide BlockRecords, PendingTxs, TxRecords, InsertBlocks, InsertTxs;
      if closed {
        return;
      }
      if lastKey != Some(a.key) {
        lastKey := Some(a.key);
        lastBlock := -1;
      }
      if a.height.None? {
        return;
      }
      var current := a.height.value;
      if current < 0 {
        return;
      }
      if lastBlock == -1 {
        // Blocks up to the first height seen are never asked for.
        lastBlock := current;
        return;
      }
      if current < lastBlock {
        lastBlock := current;
        return;
      }
      if current == lastBlock {
        return;
      }
      var start: nat := lastBlock + 1;
      var to: nat := if current <= lastBlock + MAX_BLOCKS_PER_TICK then current else lastBlock + MAX_BLOCKS_PER_TICK;
      var numbers := BatchNumbers(start, to);
      if a.blocks.None? {
        return;
      }
      var blockRecords, pending := Collect(a.key.scope, start, numbers, a.blocks.value);
      if pending != [] && a.receipts.None? {
        return;
      }
      var txRecords := TxRecords(a.key.scope, pending, a.receipts.GetOr([]));
      var ok := db.InsertBlocksAndTxs(blockRecords, txRecords, a.committed);
      if !ok || !a.announced {
        return;
      }
      lastBlock := to;
    }
  }

  // ---------- One client: what has been indexed ----------

  /** Of the first `n` numbers from `start` on, those that came back, and those that did not. */
  ghost function Came(start: nat, items: seq<Option<Block>>, n: nat): set<nat> {
    if n == 0 then {}
    else Came(start, items, n - 1) + (if ItemAt(items, n - 1).Some? then {start + n - 1} else {})
  }

  ghost function Missed(start: nat, items: seq<Option<Block>>, n: nat): set<nat> {
    if n == 0 then {}
    else Missed(start, items, n - 1) + (if ItemAt(items, n - 1).None? then {start + n - 1} else {})
  }

  /** The block numbers a poll puts into the table. */
  ghost function Indexed(c: Cursor, a: Answer): set<nat> {
    if Writes(c, a) then Came(Keyed(c, a.key).last + 1, a.blocks.value, BatchSize(c, a)) else {}
  }

  /** The block numbers a poll asks for, gets no block for, and moves past. */
  ghost function Skipped(c: Cursor, a: Answer): set<nat> {
    if Writes(c, a) then Missed(Keyed(c, a.key).last + 1, a.blocks.value, BatchSize(c, a)) else {}
  }

  ghost function CursorAfter(c: Cursor, answers: seq<Answer>): Cursor {
    if answers == [] then c
    else PolledCursor(CursorAfter(c, answers[..|answers| - 1]), answers[|answers| - 1])
  }

  ghost function IndexedBy(c: Cursor, answers: seq<Answer>): set<nat> {
    if answers == [] then {}
    else
      IndexedBy(c, answers[..|answers| - 1])
      + Indexed(CursorAfter(c, answers[..|answers| - 1]), answers[|answers| - 1])
  }

  ghost function SkippedBy(c: Cursor, answers: seq<Answer>): set<nat> {
    if answers == [] then {}
    else
      SkippedBy(c, answers[..|answers| - 1])
      + Skipped(CursorAfter(c, answers[..|answers| - 1]), answers[|answers| - 1])
  }

  /** The numbers above `first`, up to `last`. */
  ghost function Interval(first: nat, last: nat): set<nat> {
    if last <= first then {} else Interval(first, last - 1) + {last}
  }

  lemma {:induction false} InInterval(first: nat, last: nat, n: nat)
    ensures n in Interval(first, last) <==> first < n <= last
  {
    if last > first {
      InInterval(first, last - 1, n);
    }
  }

  /** Polls of one node whose height never falls below what the cursor has reached. */
  ghost predicate Steady(c: Cursor, key: StreamKey, answers: seq<Answer>) {
    forall i :: 0 <= i < |answers| ==>
      && answers[i].key == key
      && (answers[i].height.Some? && answers[i].height.value >= 0
          ==> answers[i].height.value >= CursorAfter(c, answers[..i]).last)
  }

  /** No poll fails between its write and moving the cursor. */
  ghost predicate AllAnnounced(answers: seq<Answer>) {
    forall i :: 0 <= i < |answers| ==> answers[i].announced
  }

  lemma PrefixSteady(c: Cursor, key: StreamKey, answers: seq<Answer>)
    requires answers != [] && Steady(c, key, answers)
    ensures Steady(c, key, answers[..|answers| - 1])
  {
    var before := answers[..|answers| - 1];
    forall i | 0 <= i < |before| ensures before[..i] == answers[..i] && before[i] == answers[i] {}
  }

  /** The last number the poll's write covers, or where the cursor is when it writes nothing. */
  ghost function WrittenTo(c: Cursor, a: Answer): int {
    if Writes(c, a) then LastOfBatch(Keyed(c, a.key).last, a.height.value) else Keyed(c, a.key).last
  }

  function Max(a: int, b: int): int {
    if a < b then b else a
  }

  /** The highest number any poll's write has covered. */
  ghost function Reach(c: Cursor, answers: seq<Answer>): int {
    if answers == [] then c.last
    else
      var before := answers[..|answers| - 1];
      Max(Reach(c, before), WrittenTo(CursorAfter(c, before), answers[|answers| - 1]))
  }

  lemma {:induction false} CameOrMissed(start: nat, items: seq<Option<Block>>, n: nat)
    requires start > 0
    ensures Came(start, items, n) + Missed(start, items, n) == Interval(start - 1, start - 1 + n)
    ensures Came(start, items, n) !! Missed(start, items, n)
  {
    if n > 0 {
      CameOrMissed(start, items, n - 1);
      InInterval(start - 1, start + n - 2, start + n - 1);
      assert start + n - 1 !in Came(start, items, n - 1) + Missed(start, items, n - 1);
    }
  }

  /** One poll accounts for every number its write covers, and moves there if it gets to announce it. */
  lemma PollAdvances(c: Cursor, a: Answer)
    requires c.key == Some(a.key) && c.last >= 0
    requires a.height.Some? && a.height.value >= 0 ==> a.height.value >= c.last
    ensures
      var c' := PolledCursor(c, a);
      && c'.key == c.key
      && c'.last == (if a.announced then WrittenTo(c, a) else c.last)
      && c.last <= WrittenTo(c, a) <= c.last + MAX_BLOCKS_PER_TICK
      && Indexed(c, a) + Skipped(c, a) == Interval(c.last, WrittenTo(c, a))
      && Indexed(c, a) !! Skipped(c, a)
      && (!Writes(c, a) ==> c' == c)
  {
    if Writes(c, a) {
      CameOrMissed(c.last + 1, a.blocks.value, BatchSize(c, a));
    }
  }

  /**
   * Between key changes and resets, whatever fails: the blocks indexed since the first
   * tip, and those the node gave no block for, are exactly the ones above it that some
   * write covered; the cursor is at most a batch behind, and nothing beyond it has been
   * covered if and only if it is not behind. No block up to the cursor is missing if
   * and only if each one left out by one poll came with another.
   */
  lemma {:induction false} WritesCoverTheInterval(key: StreamKey, first: nat, answers: seq<Answer>)
    requires Steady(Cursor(Some(key), first), key, answers)
    ensures
      var start := Cursor(Some(key), first);
      var c, reach := CursorAfter(start, answers), Reach(start, answers);
      && c.key == Some(key) && first <= c.last <= reach <= c.last + MAX_BLOCKS_PER_TICK
      && IndexedBy(start, answers) + SkippedBy(start, answers) == Interval(first, reach)
      && (IndexedBy(start, answers) + SkippedBy(start, answers) == Interval(first, c.last) <==> reach == c.last)
      && (Interval(first, c.last) <= IndexedBy(start, answers)
          <==> SkippedBy(start, answers) * Interval(first, c.last) <= IndexedBy(start, answers))
  {
    var start := Cursor(Some(key), first);
    if answers != [] {
      var before, a := answers[..|answers| - 1], answers[|answers| - 1];
      var c := CursorAfter(start, before);
      PrefixSteady(start, key, answers);
      WritesCoverTheInterval(key, first, before);
      PollAdvances(c, a);
      IntervalsOverlap(first, c.last, Reach(start, before), WrittenTo(c, a));
    }
    IntervalsJoin(first, CursorAfter(start, answers).last, Reach(start, answers));
    InInterval(CursorAfter(start, answers).last, Reach(start, answers), Reach(start, answers));
  }

  /** A stretch that starts inside another ends with it or extends it. */
  lemma {:induction false} IntervalsOverlap(first: nat, last: nat, reach: nat, to: nat)
    requires first <= last <= reach && last <= to
    ensures Interval(first, reach) + Interval(last, to) == Interval(first, Max(reach, to))
  {
    if reach <= to {
      IntervalsJoin(last, reach, to);
      IntervalsJoin(first, last, reach);
      IntervalsJoin(first, reach, to);
    } else {
      IntervalsJoin(last, to, reach);
      IntervalsJoin(first, last, reach);
    }
  }

  /**
   * So when no poll fails after its write, the blocks indexed since the first tip are
   * exactly those above it up to the cursor, except the ones the node gave no block for.
   */
  lemma {:induction false} IndexedIsTheInterval(key: StreamKey, first: nat, answers: seq<Answer>)
    requires Steady(Cursor(Some(key), first), key, answers) && AllAnnounced(answers)
    ensures
      var start := Cursor(Some(key), first);
      var c := CursorAfter(start, answers);
      && c.key == Some(key) && first <= c.last == Reach(start, answers)
      && IndexedBy(start, answers) == Interval(first, c.last) - SkippedBy(start, answers)
      && SkippedBy(start, answers) <= Interval(first, c.last)
      && (IndexedBy(start, answers) == Interval(first, c.last) <==> SkippedBy(start, answers) == {})
  {
    var start := Cursor(Some(key), first);
    WritesCoverTheInterval(key, first, answers);
    if answers != [] {
      var before, a := answers[..|answers| - 1], answers[|answers| - 1];
      PrefixSteady(start, key, answers);
      IndexedIsTheInterval(key, first, before);
      PollAdvances(CursorAfter(start, before), a);
      IntervalsJoin(first, CursorAfter(start, before).last, CursorAfter(start, answers).last);
    }
  }

  lemma {:induction false} OneItem(start: nat, item: Option<Block>)
    ensures Came(start, [item], 1) == if item.Some? then {start} else {}
    ensures Missed(start, [item], 1) == if item.Some? then {} else {start}
  {
    assert ItemAt([item], 0) == item;
    assert Came(start, [item], 0) == {} && Missed(start, [item], 0) == {};
  }

  /** A poll that fails after its write leaves the cursor behind what it indexed. */
  lemma {:induction false} UnannouncedPollLeavesTheCursorBehind(key: StreamKey, first: nat, block: Block)
    requires block.txs == []
    ensures
      var start := Cursor(Some(key), first);
      var poll := Answer(key, Some(first + 1), Some([Some(block)]), Some([]), true, false);
      && Steady(start, key, [poll])
      && CursorAfter(start, [poll]) == start && Reach(start, [poll]) == first + 1
      && IndexedBy(start, [poll]) == {first + 1} && SkippedBy(start, [poll]) == {}
  {
    var start := Cursor(Some(key), first);
    var poll := Answer(key, Some(first + 1), Some([Some(block)]), Some([]), true, false);
    assert [poll][..0] == [] && CursorAfter(start, []) == start && Reach(start, []) == first;
    assert BatchSize(start, poll) == 1 && PendingTxs(first + 1, [Some(block)], 1) == [];
    OneItem(first + 1, Some(block));
    assert IndexedBy(start, []) == {} && SkippedBy(start, []) == {};
  }

  /** A block the node leaves out of a batch is passed over and never asked for again. */
  lemma SkippedBlockIsNotIndexed(key: StreamKey, first: nat)
    ensures
      var start := Cursor(Some(key), first);
      var poll := Answer(key, Some(first + 1), Some([None]), Some([]), true, true);
      && Steady(start, key, [poll]) && AllAnnounced([poll])
      && CursorAfter(start, [poll]) == Cursor(Some(key), first + 1)
      && IndexedBy(start, [poll]) == {} && Interval(first, first + 1) == {first + 1}
  {
    var start := Cursor(Some(key), first);
    var poll := Answer(key, Some(first + 1), Some([None]), Some([]), true, true);
    assert [poll][..0] == [] && CursorAfter(start, []) == start;
    assert BatchSize(start, poll) == 1 && PendingTxs(first + 1, [None], 1) == [];
    OneItem(first + 1, None);
    InInterval(first, first + 1, first + 1);
    var asked := Interval(first, first + 1);
    forall n | n in asked ensures n == first + 1 {
      InInterval(first, first + 1, n);
    }
    assert IndexedBy(start, []) == {} && Indexed(start, poll) == {};
  }

  lemma {:induction false} IntervalsJoin(a: nat, b: nat, c: nat)
    requires a <= b <= c
    ensures Interval(a, c) == Interval(a, b) + Interval(b, c)
    ensures Interval(a, b) !! Interval(b, c)
    decreases c
  {
    if b < c {
      IntervalsJoin(a, b, c - 1);
      InInterval(a, b, c);
    }
  }

  // ---------- A client from the start ----------

  /** The height the poll reads is the first on its node, or below where the cursor was. */
  ghost predicate Tips(c: Cursor, a: Answer) {
    a.height.Some? && a.height.value >= 0 && (c.key != Some(a.key) || c.last < 0 || a.height.value < c.last)
  }

  /** Such a poll puts the cursor at that very height, and indexes nothing. */
  lemma TipSetsTheCursor(c: Cursor, a: Answer, store: Store)
    requires Tips(c, a)
    ensures PolledCursor(c, a) == Cursor(Some(a.key), a.height.value)
    ensures PolledStore(c, a, store) == store && Indexed(c, a) == {} && Skipped(c, a) == {}
  {}

  /** A poll that reads no height leaves the cursor, unless the node is another: then none has been seen on it. */
  lemma NoHeightNoTip(c: Cursor, a: Answer, store: Store)
    requires a.height.None? || a.height.value < 0
    ensures PolledCursor(c, a) == if c.key == Some(a.key) then c else Cursor(Some(a.key), -1)
    ensures PolledStore(c, a, store) == store && Indexed(c, a) == {} && Skipped(c, a) == {}
  {}

  /** A poll at the cursor's own height, or above it without reaching a committed write, changes nothing. */
  lemma NothingToDo(c: Cursor, a: Answer, store: Store)
    requires c.key == Some(a.key) && a.height.Some? && a.height.value >= c.last >= 0
    requires a.height.value == c.last || a.blocks.None? || (BatchBlocks(c, a) != [] && !a.committed)
    ensures PolledCursor(c, a) == c && PolledStore(c, a, store) == store
  {}

  /**
   * What a write needs: a tip seen on this node and a height above it, the blocks, the
   * receipts if any block that came has transactions, and the commit if any came.
   */
  lemma WritesNeedEverything(c: Cursor, a: Answer)
    requires c.last >= -1
    ensures Writes(c, a) <==>
      && c.key == Some(a.key) && a.height.Some? && 0 <= c.last < a.height.value && a.blocks.Some?
      && (var n := (if a.height.value - c.last < 200 then a.height.value - c.last else 200);
          && ((exists i: nat :: i < n && SomeTxs(ItemAt(a.blocks.value, i))) ==> a.receipts.Some?)
          && ((exists i: nat :: i < n && ItemAt(a.blocks.value, i).Some?) ==> a.committed))
  {
    if Behind(c, a) && a.blocks.Some? {
      NothingPending(c.last + 1, a.blocks.value, BatchSize(c, a));
      NothingCame(a.key.scope, c.last + 1, a.blocks.value, BatchSize(c, a));
    }
  }

  ghost predicate SomeTxs(item: Option<Block>) {
    item.Some? && item.value.txs != []
  }

  lemma {:induction false} NothingPending(start: nat, items: seq<Option<Block>>, n: nat)
    ensures PendingTxs(start, items, n) != [] <==> exists i: nat :: i < n && SomeTxs(ItemAt(items, i))
  {
    if n > 0 {
      NothingPending(start, items, n - 1);
      if SomeTxs(ItemAt(items, n - 1)) {
        assert |PendingOf(start + n - 1, ItemAt(items, n - 1).value)| > 0;
      }
    }
  }

  lemma {:induction false} NothingCame(scope: Scope, start: nat, items: seq<Option<Block>>, n: nat)
    ensures BlockRecords(scope, start, items, n) != [] <==> exists i: nat :: i < n && ItemAt(items, i).Some?
  {
    if n > 0 {
      NothingCame(scope, start, items, n - 1);
    }
  }

  /** No poll since the node last changed has read a height. */
  ghost predicate Heightless(answers: seq<Answer>) {
    answers == [] ||
    var n := |answers| - 1;
    && (answers[n].height.None? || answers[n].height.value < 0)
    && (n == 0 || answers[n - 1].key != answers[n].key || Heightless(answers[..n]))
  }

  /** Since poll `k`, a client fresh at the start has counted from the height that poll read. */
  ghost predicate CountsFrom(answers: seq<Answer>, k: nat)
    requires k < |answers|
  {
    && Tips(CursorAfter(FRESH, answers[..k]), answers[k])
    && var tip, since := Cursor(Some(answers[k].key), answers[k].height.value), answers[k + 1..];
    && CursorAfter(FRESH, answers) == CursorAfter(tip, since)
    && Steady(tip, answers[k].key, since)
    && IndexedBy(FRESH, answers) == IndexedBy(FRESH, answers[..k]) + IndexedBy(tip, since)
  }

  lemma {:induction false} SteadyAndOneMore(c: Cursor, key: StreamKey, answers: seq<Answer>, a: Answer)
    requires Steady(c, key, answers) && a.key == key
    requires a.height.Some? && a.height.value >= 0 ==> a.height.value >= CursorAfter(c, answers).last
    ensures Steady(c, key, answers + [a])
  {
    hide CursorAfter;
    var longer := answers + [a];
    assert longer[..|answers|] == answers;
    forall i | 0 <= i < |answers| ensures longer[i] == answers[i] && longer[..i] == answers[..i] {}
  }

  lemma {:induction false} OneMorePoll(c: Cursor, answers: seq<Answer>, a: Answer)
    ensures CursorAfter(c, answers + [a]) == PolledCursor(CursorAfter(c, answers), a)
    ensures IndexedBy(c, answers + [a]) == IndexedBy(c, answers) + Indexed(CursorAfter(c, answers), a)
  {
    hide Indexed, PolledCursor;
    assert (answers + [a])[..|answers|] == answers;
  }

  lemma {:induction false} OneMoreCounts(before: seq<Answer>, a: Answer, k: nat)
    requires k < |before| && CountsFrom(before, k)
    requires a.key == before[k].key
    requires a.height.Some? && a.height.value >= 0 ==> a.height.value >= CursorAfter(FRESH, before).last
    ensures CountsFrom(before + [a], k)
  {
    hide CursorAfter, IndexedBy, Indexed, PolledCursor, Steady;
    var tip, since := Cursor(Some(before[k].key), before[k].height.value), before[k + 1..];
    assert (before + [a])[..k] == before[..k] && (before + [a])[k + 1..] == since + [a];
    OneMorePoll(FRESH, before, a);
    OneMorePoll(tip, since, a);
    SteadyAndOneMore(tip, before[k].key, since, a);
  }

  lemma TipCounts(answers: seq<Answer>)
    requires answers != []
    requires Tips(CursorAfter(FRESH, answers[..|answers| - 1]), answers[|answers| - 1])
    ensures CountsFrom(answers, |answers| - 1)
  {
    var k := |answers| - 1;
    TipSetsTheCursor(CursorAfter(FRESH, answers[..k]), answers[k], Store(map[], map[]));
    assert answers[k + 1..] == [];
  }

  /**
   * Every run of a client from the start, through changes of node and heights that
   * fall: either no height has been read on the present node, or the client counts from
   * the last poll that read a first or a lower one, at the height it read, having
   * indexed nothing by it.
   */
  lemma {:induction false} RunCountsFromItsTip(answers: seq<Answer>) returns (k: nat)
    ensures
      var c := CursorAfter(FRESH, answers);
      && c.last >= -1
      && c.key == (if answers == [] then None else Some(answers[|answers| - 1].key))
      && (c.last < 0 <==> Heightless(answers))
      && (c.last >= 0 ==> k < |answers| && CountsFrom(answers, k) && answers[k].key == answers[|answers| - 1].key)
  {
    hide CountsFrom;
    k := 0;
    if answers != [] {
      var n := |answers| - 1;
      var before, a, c := answers[..n], answers[n], CursorAfter(FRESH, answers[..n]);
      k := RunCountsFromItsTip(before);
      if Tips(c, a) {
        k := n;
        TipCounts(answers);
      } else if c.last >= 0 && c.key == Some(a.key) {
        PollStays(c, a);
        OneMoreCounts(before, a, k);
        assert before + [a] == answers;
      }
    }
  }

  lemma PollStays(c: Cursor, a: Answer)
    requires c.key == Some(a.key) && c.last >= 0 && !Tips(c, a)
    ensures PolledCursor(c, a).key == c.key && PolledCursor(c, a).last >= c.last
  {}

  /** So what it has indexed since, with what the node skipped, is what lies above that height, as far as written. */
  lemma RunCoversFromItsTip(answers: seq<Answer>) returns (k: nat)
    requires !Heightless(answers)
    ensures k < |answers| && CountsFrom(answers, k)
    ensures
      var tip, since := Cursor(Some(answers[k].key), answers[k].height.value), answers[k + 1..];
      var c, reach := CursorAfter(FRESH, answers), Reach(tip, since);
      && answers[k].height.value <= c.last <= reach <= c.last + 200
      && IndexedBy(FRESH, answers) == IndexedBy(FRESH, answers[..k]) + IndexedBy(tip, since)
      && IndexedBy(tip, since) + SkippedBy(tip, since) == Interval(answers[k].height.value, reach)
  {
    k := RunCountsFromItsTip(answers);
    WritesCoverTheInterval(answers[k].key, answers[k].height.value, answers[k + 1..]);
  }

  /** Polls that all succeed, at one height. */
  ghost predicate Catching(key: StreamKey, height: nat, answers: seq<Answer>) {
    forall i :: 0 <= i < |answers| ==>
      && answers[i].key == key && answers[i].height == Some(height)
      && answers[i].blocks.Some? && answers[i].receipts.Some?
      && answers[i].committed && answers[i].announced
  }

  /** At a fixed height every successful poll closes the gap by 200, until the cursor is at the tip. */
  lemma {:induction false} CursorCatchesUp(key: StreamKey, first: nat, height: nat, answers: seq<Answer>)
    requires first <= height && Catching(key, height, answers)
    ensures
      var reached := first + MAX_BLOCKS_PER_TICK * |answers|;
      CursorAfter(Cursor(Some(key), first), answers) == Cursor(Some(key), if reached <= height then reached else height)
  {
    if answers != [] {
      CursorCatchesUp(key, first, height, answers[..|answers| - 1]);
    }
  }

  /** So the tip is reached after ceil(gap / 200) polls, and not before. */
  lemma {:induction false} PollsToReachTheTip(key: StreamKey, first: nat, height: nat, answers: seq<Answer>)
    requires first <= height && Catching(key, height, answers)
    ensures CursorAfter(Cursor(Some(key), first), answers).last == height
       <==> |answers| >= (height - first + MAX_BLOCKS_PER_TICK - 1) / MAX_BLOCKS_PER_TICK
  {
    CursorCatchesUp(key, first, height, answers);
  }

  // ---------- Many clients, one chain ----------

  /** A chain that never changes: each number has one block, each hash one receipt. */
  datatype History = History(blockAt: nat -> Block, receiptOf: nat -> Receipt)

  ghost predicate OneBlockPerTx(h: History) {
    forall m, n, tx :: tx in h.blockAt(m).txs && tx in h.blockAt(n).txs ==> m == n
  }

  /** The blocks a poll writes are the chain's. */
  ghost predicate Truthful(h: History, scope: Scope, c: Cursor, a: Answer) {
    && a.key.scope == scope
    && (Writes(c, a) ==> TrueBlocks(h, Keyed(c, a.key).last + 1, a.blocks.value, BatchSize(c, a)))
  }

  ghost predicate TrueBlocks(h: History, start: nat, items: seq<Option<Block>>, n: nat) {
    forall i: nat :: i < n && ItemAt(items, i).Some? ==> ItemAt(items, i) == Some(h.blockAt(start + i))
  }

  /** Every receipt that came is the chain's; any may have come back empty. */
  ghost predicate TrueReceipts(h: History, pending: seq<Pending>, receipts: seq<Option<Receipt>>) {
    forall i: nat :: i < |pending| && ItemAt(receipts, i).Some? ==>
      ItemAt(receipts, i) == Some(h.receiptOf(pending[i].hash))
  }

  /** Also the receipts a poll writes from are the chain's, as far as they came. */
  ghost predicate ReceiptsTruthful(h: History, c: Cursor, a: Answer) {
    Writes(c, a) ==> TrueReceipts(h, BatchPending(c, a), a.receipts.GetOr([]))
  }

  ghost predicate InBlocks(h: History, numbers: set<nat>, tx: nat) {
    exists n :: n in numbers && tx in h.blockAt(n).txs
  }

  /** The blocks table holds exactly the blocks of `numbers`, as the chain has them. */
  ghost predicate HoldsBlocks(h: History, scope: Scope, numbers: set<nat>, blocks: map<(Scope, nat), BlockRecord>) {
    && (forall key :: key in blocks <==> key.0 == scope && key.1 in numbers)
    && (forall n :: n in numbers ==>
          var b := h.blockAt(n);
          blocks[(scope, n)] == BlockRecord(scope, n, b.hash, b.timestamp, |b.txs|, b.gasUsed))
  }

  ghost function RowWith(h: History, scope: Scope, n: nat, tx: nat, receipt: Option<Receipt>): TxRecord {
    var time := h.blockAt(n).timestamp;
    if receipt.Some? then TxRecord(tx, scope, n, time, Some(receipt.value.gasUsed), receipt.value.status)
    else TxRecord(tx, scope, n, time, None, 1)
  }

  /** The transactions table holds exactly the transactions of the blocks of `numbers`, as the chain has them. */
  ghost predicate HoldsTxs(h: History, scope: Scope, numbers: set<nat>, txs: map<nat, TxRecord>) {
    && (forall tx :: tx in txs <==> InBlocks(h, numbers, tx))
    && (forall n, tx :: n in numbers && tx in h.blockAt(n).txs ==>
          txs[tx] == RowWith(h, scope, n, tx, Some(h.receiptOf(tx))))
  }

  ghost predicate Holds(h: History, scope: Scope, numbers: set<nat>, store: Store) {
    HoldsBlocks(h, scope, numbers, store.blocks) && HoldsTxs(h, scope, numbers, store.txs)
  }

  // ---------- Blocks landing in their table ----------

  lemma {:induction false} BlocksLand(
    h: History, scope: Scope, numbers: set<nat>, blocks: map<(Scope, nat), BlockRecord>,
    start: nat, items: seq<Option<Block>>, n: nat
  )
    requires HoldsBlocks(h, scope, numbers, blocks) && TrueBlocks(h, start, items, n)
    ensures HoldsBlocks(h, scope, numbers + Came(start, items, n),
                        InsertBlocks(blocks, BlockRecords(scope, start, items, n)))
  {
    hide HoldsBlocks;
    if n == 0 {
      assert numbers + Came(start, items, n) == numbers;
    } else {
      BlocksLand(h, scope, numbers, blocks, start, items, n - 1);
      var before := BlockRecords(scope, start, items, n - 1);
      var came := numbers + Came(start, items, n - 1);
      match ItemAt(items, n - 1)
      case Some(block) =>
        var number := start + (n - 1);
        var record := BlockRecordOf(scope, number, block);
        assert block == h.blockAt(number);
        assert (before + [record])[..|before|] == before;
        OneBlockLands(h, scope, came, InsertBlocks(blocks, before), number);
        assert numbers + Came(start, items, n) == came + {number};
      case None =>
        assert before + [] == before;
        assert numbers + Came(start, items, n) == came;
    }
  }

  lemma OneBlockLands(
    h: History, scope: Scope, numbers: set<nat>, blocks: map<(Scope, nat), BlockRecord>, n: nat
  )
    requires HoldsBlocks(h, scope, numbers, blocks)
    ensures HoldsBlocks(h, scope, numbers + {n}, blocks[(scope, n) := BlockRecordOf(scope, n, h.blockAt(n))])
  {}

  /** One truthful poll of any client adds exactly the blocks it indexed. */
  lemma PollLands(h: History, scope: Scope, numbers: set<nat>, store: Store, c: Cursor, a: Answer)
    requires HoldsBlocks(h, scope, numbers, store.blocks) && Truthful(h, scope, c, a)
    ensures HoldsBlocks(h, scope, numbers + Indexed(c, a), PolledStore(c, a, store).blocks)
  {
    hide HoldsBlocks, TrueBlocks, BlockRecords, InsertBlocks, Came;
    if Writes(c, a) {
      BlocksLand(h, scope, numbers, store.blocks, Keyed(c, a.key).last + 1, a.blocks.value, BatchSize(c, a));
    } else {
      assert numbers + Indexed(c, a) == numbers;
    }
  }

  // ---------- Transactions landing in theirs ----------

  /** The transactions last written with their receipt, after the first `n` of a batch. */
  ghost function Receipted(told: set<nat>, pending: seq<Pending>, receipts: seq<Option<Receipt>>, n: nat): set<nat>
    requires n <= |pending|
  {
    if n == 0 then told
    else
      var before, tx := Receipted(told, pending, receipts, n - 1), pending[n - 1].hash;
      if ItemAt(receipts, n - 1).Some? then before + {tx} else before - {tx}
  }

  /** A row says what the chain says of its transaction, with the receipt if it is one of `told`. */
  ghost predicate TrueRow(h: History, scope: Scope, told: set<nat>, tx: nat, row: TxRecord) {
    && tx in h.blockAt(row.blockNumber).txs
    && row == RowWith(h, scope, row.blockNumber, tx, if tx in told then Some(h.receiptOf(tx)) else None)
  }

  ghost predicate RowsTold(h: History, scope: Scope, told: set<nat>, txs: map<nat, TxRecord>) {
    told <= txs.Keys && forall tx :: tx in txs ==> TrueRow(h, scope, told, tx, txs[tx])
  }

  ghost predicate TruePending(h: History, p: Pending) {
    p.hash in h.blockAt(p.number).txs && p.timestamp == h.blockAt(p.number).timestamp
  }

  ghost predicate AllPendingTrue(h: History, pending: seq<Pending>) {
    forall i :: 0 <= i < |pending| ==> TruePending(h, pending[i])
  }

  ghost predicate Mentions(pending: seq<Pending>, tx: nat) {
    exists i :: 0 <= i < |pending| && pending[i].hash == tx
  }

  lemma MentionsConcat(a: seq<Pending>, b: seq<Pending>, tx: nat)
    ensures Mentions(a + b, tx) <==> Mentions(a, tx) || Mentions(b, tx)
  {
    if Mentions(a, tx) {
      var i :| 0 <= i < |a| && a[i].hash == tx;
      assert (a + b)[i].hash == tx;
    }
    if Mentions(b, tx) {
      var i :| 0 <= i < |b| && b[i].hash == tx;
      assert (a + b)[|a| + i].hash == tx;
    }
  }

  lemma {:induction false} TxsLand(
    h: History, scope: Scope, told: set<nat>, txs: map<nat, TxRecord>,
    pending: seq<Pending>, receipts: seq<Option<Receipt>>, n: nat
  )
    requires n <= |pending| && RowsTold(h, scope, told, txs)
    requires AllPendingTrue(h, pending) && TrueReceipts(h, pending, receipts)
    ensures
      var after := InsertTxs(txs, TxRecords(scope, pending, receipts)[..n]);
      && RowsTold(h, scope, Receipted(told, pending, receipts, n), after)
      && (forall tx :: tx in after <==> tx in txs || Mentions(pending[..n], tx))
  {
    hide RowsTold, Mentions;
    var records := TxRecords(scope, pending, receipts);
    if n == 0 {
      forall tx ensures !Mentions(pending[..0], tx) {
        NoneMentioned(tx);
      }
    } else {
      TxsLand(h, scope, told, txs, pending, receipts, n - 1);
      assert records[..n][..n - 1] == records[..n - 1];
      var before := InsertTxs(txs, records[..n - 1]);
      OneTxLands(h, scope, Receipted(told, pending, receipts, n - 1), before, pending[n - 1], ItemAt(receipts, n - 1));
      assert pending[..n] == pending[..n - 1] + [pending[n - 1]];
      forall tx ensures Mentions(pending[..n], tx) <==> Mentions(pending[..n - 1], tx) || tx == pending[n - 1].hash {
        MentionsConcat(pending[..n - 1], [pending[n - 1]], tx);
        OneMentioned(pending[n - 1], tx);
      }
    }
  }

  lemma NoneMentioned(tx: nat)
    ensures !Mentions([], tx)
  {}

  lemma OneMentioned(p: Pending, tx: nat)
    ensures Mentions([p], tx) <==> p.hash == tx
  {
    assert [p][0] == p;
  }

  lemma OneTxLands(
    h: History, scope: Scope, told: set<nat>, txs: map<nat, TxRecord>, p: Pending, receipt: Option<Receipt>
  )
    requires RowsTold(h, scope, told, txs) && TruePending(h, p)
    requires receipt.Some? ==> receipt == Some(h.receiptOf(p.hash))
    ensures RowsTold(h, scope, if receipt.Some? then told + {p.hash} else told - {p.hash},
                     txs[p.hash := TxRecordOf(scope, p.number, p.timestamp, p.hash, receipt)])
  {
    var told' := if receipt.Some? then told + {p.hash} else told - {p.hash};
    var row := TxRecordOf(scope, p.number, p.timestamp, p.hash, receipt);
    forall tx | tx in txs && tx != p.hash ensures TrueRow(h, scope, told', tx, txs[tx]) {
      assert TrueRow(h, scope, told, tx, txs[tx]);
    }
    assert row.blockNumber == p.number && TrueRow(h, scope, told', p.hash, row);
  }

  /** The transactions waiting for receipts are those of the blocks that came. */
  lemma {:induction false} PendingAreTheirs(h: History, start: nat, items: seq<Option<Block>>, n: nat)
    requires TrueBlocks(h, start, items, n)
    ensures
      var pending := PendingTxs(start, items, n);
      && AllPendingTrue(h, pending)
      && (forall tx :: Mentions(pending, tx) <==> InBlocks(h, Came(start, items, n), tx))
  {
    hide Mentions, InBlocks;
    if n == 0 {
      forall tx ensures !Mentions([], tx) && !InBlocks(h, {}, tx) {
        NoneMentioned(tx);
        NothingInNoBlocks(h, tx);
      }
    } else {
      PendingAreTheirs(h, start, items, n - 1);
      var before, came := PendingTxs(start, items, n - 1), Came(start, items, n - 1);
      match ItemAt(items, n - 1)
      case Some(block) =>
        var number := start + (n - 1);
        assert block == h.blockAt(number);
        assert AllPendingTrue(h, PendingOf(number, block));
        forall tx
          ensures Mentions(before + PendingOf(number, block), tx) <==> InBlocks(h, came + {number}, tx)
        {
          MentionsConcat(before, PendingOf(number, block), tx);
          MentionedByOne(number, block, tx);
          OneMoreBlock(h, came, number, tx);
        }
      case None =>
        assert before + [] == before && came + {} == came;
    }
  }

  lemma NothingInNoBlocks(h: History, tx: nat)
    ensures !InBlocks(h, {}, tx)
  {}

  lemma MentionedByOne(n: nat, block: Block, tx: nat)
    ensures Mentions(PendingOf(n, block), tx) <==> tx in block.txs
  {
    if tx in block.txs {
      var i :| 0 <= i < |block.txs| && block.txs[i] == tx;
      assert PendingOf(n, block)[i].hash == tx;
    }
  }

  lemma OneMoreBlock(h: History, numbers: set<nat>, n: nat, tx: nat)
    ensures InBlocks(h, numbers + {n}, tx) <==> InBlocks(h, numbers, tx) || tx in h.blockAt(n).txs
  {
    if tx in h.blockAt(n).txs {
      assert n in numbers + {n};
    }
    if InBlocks(h, numbers, tx) {
      var m :| m in numbers && tx in h.blockAt(m).txs;
      assert m in numbers + {n};
    }
  }

  lemma MoreBlocks(h: History, a: set<nat>, b: set<nat>, tx: nat)
    ensures InBlocks(h, a + b, tx) <==> InBlocks(h, a, tx) || InBlocks(h, b, tx)
  {
    if InBlocks(h, a, tx) {
      var m :| m in a && tx in h.blockAt(m).txs;
      assert m in a + b;
    }
    if InBlocks(h, b, tx) {
      var m :| m in b && tx in h.blockAt(m).txs;
      assert m in a + b;
    }
  }

  /** The transactions last written with their receipt, after one more poll. */
  ghost function ReceiptedAfter(told: set<nat>, c: Cursor, a: Answer): set<nat> {
    if Writes(c, a) then Receipted(told, BatchPending(c, a), a.receipts.GetOr([]), |BatchPending(c, a)|) else told
  }

  /** One row per transaction of the blocks indexed, with its receipt if it is one of `told`. */
  ghost predicate TxsTold(h: History, scope: Scope, numbers: set<nat>, told: set<nat>, txs: map<nat, TxRecord>) {
    RowsTold(h, scope, told, txs) && forall tx :: tx in txs <==> InBlocks(h, numbers, tx)
  }

  /** One poll whose receipts are true or empty: each transaction's row is what the poll knew of it. */
  lemma PollTells(h: History, scope: Scope, numbers: set<nat>, told: set<nat>, store: Store, c: Cursor, a: Answer)
    requires TxsTold(h, scope, numbers, told, store.txs)
    requires Truthful(h, scope, c, a) && ReceiptsTruthful(h, c, a)
    ensures TxsTold(h, scope, numbers + Indexed(c, a), ReceiptedAfter(told, c, a), PolledStore(c, a, store).txs)
  {
    hide RowsTold, Mentions, InBlocks, InsertTxs, TxRecords, Receipted, PendingTxs, TrueReceipts, TrueBlocks, Came;
    hide AllPendingTrue;
    if Writes(c, a) {
      var start, n, pending := Keyed(c, a.key).last + 1, BatchSize(c, a), BatchPending(c, a);
      PendingAreTheirs(h, start, a.blocks.value, n);
      TxsLand(h, scope, told, store.txs, pending, a.receipts.GetOr([]), |pending|);
      assert pending[..|pending|] == pending;
      AllRecords(a.key.scope, pending, a.receipts.GetOr([]));
      forall tx
        ensures InBlocks(h, numbers + Indexed(c, a), tx) <==> InBlocks(h, numbers, tx) || Mentions(pending, tx)
      {
        MoreBlocks(h, numbers, Indexed(c, a), tx);
      }
    } else {
      assert numbers + Indexed(c, a) == numbers;
    }
  }

  lemma AllRecords(scope: Scope, pending: seq<Pending>, receipts: seq<Option<Receipt>>)
    ensures TxRecords(scope, pending, receipts)[..|pending|] == TxRecords(scope, pending, receipts)
  {}

  // ---------- Interleavings ----------

  /** All clients, by name, and the store they share. */
  datatype System = System(clients: map<nat, Cursor>, store: Store)

  datatype Event = Event(client: nat, answer: Answer)

  const EMPTY_STORE := Store(map[], map[])
  const EMPTY := System(map[], EMPTY_STORE)

  function CursorOf(s: System, client: nat): Cursor {
    if client in s.clients then s.clients[client] else FRESH
  }

  function Happens(s: System, e: Event): System {
    var c := CursorOf(s, e.client);
    System(s.clients[e.client := PolledCursor(c, e.answer)], PolledStore(c, e.answer, s.store))
  }

  ghost function SystemAfter(events: seq<Event>): System {
    if events == [] then EMPTY
    else Happens(SystemAfter(events[..|events| - 1]), events[|events| - 1])
  }

  /** The cursor the last of some events finds. */
  ghost function CursorBeforeLast(events: seq<Event>): Cursor
    requires events != []
  {
    CursorOf(SystemAfter(events[..|events| - 1]), events[|events| - 1].client)
  }

  /** The union of everything any client's polls have indexed. */
  ghost function IndexedByAll(events: seq<Event>): set<nat> {
    if events == [] then {}
    else
      IndexedByAll(events[..|events| - 1]) + Indexed(CursorBeforeLast(events), events[|events| - 1].answer)
  }

  /** The transactions whose last write had their receipt. */
  ghost function ReceiptedByAll(events: seq<Event>): set<nat> {
    if events == [] then {}
    else
      ReceiptedAfter(ReceiptedByAll(events[..|events| - 1]), CursorBeforeLast(events), events[|events| - 1].answer)
  }

  /** Every poll reads the blocks of one chain. */
  ghost predicate AllTruthful(h: History, scope: Scope, events: seq<Event>) {
    events == [] ||
    (AllTruthful(h, scope, events[..|events| - 1])
     && Truthful(h, scope, CursorBeforeLast(events), events[|events| - 1].answer))
  }

  /** And its receipts, as far as they come. */
  ghost predicate AllReceiptsTruthful(h: History, events: seq<Event>) {
    events == [] ||
    (AllReceiptsTruthful(h, events[..|events| - 1])
     && ReceiptsTruthful(h, CursorBeforeLast(events), events[|events| - 1].answer))
  }

  /**
   * Any interleaving of any number of clients on one unchanging chain, whatever
   * fails before or after its write and is tried again, and whatever comes of the
   * receipts: the blocks table holds exactly the union of what the clients' polls
   * have indexed.
   */
  lemma {:induction false} BlocksAreTheUnion(h: History, scope: Scope, events: seq<Event>)
    requires AllTruthful(h, scope, events)
    ensures HoldsBlocks(h, scope, IndexedByAll(events), SystemAfter(events).store.blocks)
  {
    hide Truthful, Indexed, PolledStore;
    if events != [] {
      var before, e := events[..|events| - 1], events[|events| - 1];
      BlocksAreTheUnion(h, scope, before);
      PollLands(h, scope, IndexedByAll(before), SystemAfter(before).store, CursorBeforeLast(events), e.answer);
    }
  }

  /** With receipts true or empty: one row per indexed transaction, saying what its last write knew. */
  lemma {:induction false} TxsAreTold(h: History, scope: Scope, events: seq<Event>)
    requires AllTruthful(h, scope, events) && AllReceiptsTruthful(h, events)
    ensures TxsTold(h, scope, IndexedByAll(events), ReceiptedByAll(events), SystemAfter(events).store.txs)
  {
    hide Truthful, ReceiptsTruthful, Indexed, PolledStore, ReceiptedAfter, RowsTold;
    if events == [] {
      NothingTold(h, scope);
    } else {
      var before, e := events[..|events| - 1], events[|events| - 1];
      TxsAreTold(h, scope, before);
      PollTells(h, scope, IndexedByAll(before), ReceiptedByAll(before), SystemAfter(before).store,
                CursorBeforeLast(events), e.answer);
    }
  }

  lemma NothingTold(h: History, scope: Scope)
    ensures TxsTold(h, scope, {}, {}, map[])
  {}

  /**
   * With receipts true or empty: the tables hold exactly the union of what was indexed
   * if and only if the last write of every indexed transaction had its receipt.
   */
  lemma {:induction false} TablesAreTheUnion(h: History, scope: Scope, events: seq<Event>)
    requires OneBlockPerTx(h)
    requires AllTruthful(h, scope, events) && AllReceiptsTruthful(h, events)
    ensures Holds(h, scope, IndexedByAll(events), SystemAfter(events).store)
       <==> forall tx :: InBlocks(h, IndexedByAll(events), tx) ==> tx in ReceiptedByAll(events)
  {
    hide HoldsBlocks, HoldsTxs, TxsTold, AllTruthful, AllReceiptsTruthful, IndexedByAll, ReceiptedByAll, SystemAfter;
    hide InBlocks, OneBlockPerTx;
    BlocksAreTheUnion(h, scope, events);
    TxsAreTold(h, scope, events);
    ToldIsHeld(h, scope, IndexedByAll(events), ReceiptedByAll(events), SystemAfter(events).store.txs);
  }

  lemma ToldIsHeld(h: History, scope: Scope, numbers: set<nat>, told: set<nat>, txs: map<nat, TxRecord>)
    requires OneBlockPerTx(h) && TxsTold(h, scope, numbers, told, txs)
    ensures HoldsTxs(h, scope, numbers, txs) <==> forall tx :: InBlocks(h, numbers, tx) ==> tx in told
  {
    forall n, tx | n in numbers && tx in h.blockAt(n).txs
      ensures txs[tx] == RowWith(h, scope, n, tx, Some(h.receiptOf(tx))) <==> tx in told
    {
      assert InBlocks(h, numbers, tx);
      assert TrueRow(h, scope, told, tx, txs[tx]);
    }
  }

  /** Two tables that say the same of the same transactions are the same. */
  lemma TxsAreDetermined(
    h: History, scope: Scope, numbers: set<nat>, numbers': set<nat>, told: set<nat>, told': set<nat>,
    txs: map<nat, TxRecord>, txs': map<nat, TxRecord>
  )
    requires OneBlockPerTx(h)
    requires TxsTold(h, scope, numbers, told, txs) && TxsTold(h, scope, numbers', told', txs')
    ensures txs == txs' ==> told == told'
    ensures numbers == numbers' && told == told' ==> txs == txs'
  {
    hide InBlocks;
    if txs == txs' {
      forall tx ensures tx in told <==> tx in told' {
        if tx in txs {
          assert TrueRow(h, scope, told, tx, txs[tx]) && TrueRow(h, scope, told', tx, txs'[tx]);
        }
      }
    }
    if numbers == numbers' && told == told' {
      assert txs.Keys == txs'.Keys;
      forall tx | tx in txs ensures txs[tx] == txs'[tx] {
        assert TrueRow(h, scope, told, tx, txs[tx]) && TrueRow(h, scope, told', tx, txs'[tx]);
      }
    }
  }

  lemma BlocksAreDetermined(
    h: History, scope: Scope, numbers: set<nat>, numbers': set<nat>,
    blocks: map<(Scope, nat), BlockRecord>, blocks': map<(Scope, nat), BlockRecord>
  )
    requires HoldsBlocks(h, scope, numbers, blocks) && HoldsBlocks(h, scope, numbers', blocks')
    ensures blocks == blocks' <==> numbers == numbers'
  {
    if blocks == blocks' {
      forall n ensures n in numbers <==> n in numbers' {
        assert (scope, n) in blocks <==> (scope, n) in blocks';
      }
    }
    if numbers == numbers' {
      assert blocks.Keys == blocks'.Keys;
      forall key | key in blocks ensures blocks[key] == blocks'[key] {
        assert key == (scope, key.1);
      }
    }
  }

  /** Two interleavings leave the same blocks table if and only if they indexed the same numbers. */
  lemma {:induction false} OrderDoesNotMatter(h: History, scope: Scope, events: seq<Event>, others: seq<Event>)
    requires AllTruthful(h, scope, events) && AllTruthful(h, scope, others)
    ensures SystemAfter(events).store.blocks == SystemAfter(others).store.blocks
       <==> IndexedByAll(events) == IndexedByAll(others)
  {
    hide HoldsBlocks, AllTruthful, IndexedByAll, SystemAfter;
    BlocksAreTheUnion(h, scope, events);
    BlocksAreTheUnion(h, scope, others);
    BlocksAreDetermined(h, scope, IndexedByAll(events), IndexedByAll(others),
                        SystemAfter(events).store.blocks, SystemAfter(others).store.blocks);
  }

  /**
   * And the same transactions table too if and only if, besides, the same transactions
   * were last written with their receipts: of the order nothing else is left.
   */
  lemma {:induction false} OrderMattersForReceipts(h: History, scope: Scope, events: seq<Event>, others: seq<Event>)
    requires OneBlockPerTx(h)
    requires AllTruthful(h, scope, events) && AllReceiptsTruthful(h, events)
    requires AllTruthful(h, scope, others) && AllReceiptsTruthful(h, others)
    ensures
      SystemAfter(events).store == SystemAfter(others).store
      <==> IndexedByAll(events) == IndexedByAll(others) && ReceiptedByAll(events) == ReceiptedByAll(others)
  {
    hide TxsTold, AllTruthful, AllReceiptsTruthful, IndexedByAll, ReceiptedByAll, SystemAfter, OneBlockPerTx;
    OrderDoesNotMatter(h, scope, events, others);
    TxsAreTold(h, scope, events);
    TxsAreTold(h, scope, others);
    TxsAreDetermined(h, scope, IndexedByAll(events), IndexedByAll(others),
                     ReceiptedByAll(events), ReceiptedByAll(others),
                     SystemAfter(events).store.txs, SystemAfter(others).store.txs);
  }

  // ---------- When every receipt comes ----------

  ghost predicate ReceiptsCame(c: Cursor, a: Answer) {
    Writes(c, a) ==> forall i: nat :: i < |BatchPending(c, a)| ==> ItemAt(a.receipts.GetOr([]), i).Some?
  }

  ghost predicate AllReceiptsCame(events: seq<Event>) {
    events == [] ||
    (AllReceiptsCame(events[..|events| - 1]) && ReceiptsCame(CursorBeforeLast(events), events[|events| - 1].answer))
  }

  lemma {:induction false} AllReceipted(told: set<nat>, pending: seq<Pending>, receipts: seq<Option<Receipt>>, n: nat)
    requires n <= |pending| && forall i: nat :: i < n ==> ItemAt(receipts, i).Some?
    ensures told <= Receipted(told, pending, receipts, n)
    ensures forall i :: 0 <= i < n ==> pending[i].hash in Receipted(told, pending, receipts, n)
  {
    if n > 0 {
      AllReceipted(told, pending, receipts, n - 1);
    }
  }

  lemma {:induction false} CameMeansReceipted(h: History, scope: Scope, events: seq<Event>, tx: nat)
    requires AllTruthful(h, scope, events) && AllReceiptsCame(events)
    requires InBlocks(h, IndexedByAll(events), tx)
    ensures tx in ReceiptedByAll(events)
  {
    hide InBlocks, TrueBlocks, ItemAt, PendingTxs, AllPendingTrue;
    if events == [] {
      NothingInNoBlocks(h, tx);
    } else {
      var before, a, c := events[..|events| - 1], events[|events| - 1].answer, CursorBeforeLast(events);
      MoreBlocks(h, IndexedByAll(before), Indexed(c, a), tx);
      if InBlocks(h, IndexedByAll(before), tx) {
        CameMeansReceipted(h, scope, before, tx);
      } else if !Writes(c, a) {
        NothingInNoBlocks(h, tx);
      }
      if Writes(c, a) {
        PendingAreTheirs(h, Keyed(c, a.key).last + 1, a.blocks.value, BatchSize(c, a));
        AllReceipted(ReceiptedByAll(before), BatchPending(c, a), a.receipts.GetOr([]), |BatchPending(c, a)|);
      }
    }
  }

  /** When every receipt comes, both tables hold exactly the union, in whatever order the polls were made. */
  lemma {:induction false} UnionWhenReceiptsCome(h: History, scope: Scope, events: seq<Event>)
    requires OneBlockPerTx(h)
    requires AllTruthful(h, scope, events) && AllReceiptsTruthful(h, events) && AllReceiptsCame(events)
    ensures Holds(h, scope, IndexedByAll(events), SystemAfter(events).store)
  {
    hide Holds, InBlocks, IndexedByAll, ReceiptedByAll, SystemAfter, AllTruthful, AllReceiptsTruthful, AllReceiptsCame;
    TablesAreTheUnion(h, scope, events);
    forall tx | InBlocks(h, IndexedByAll(events), tx) ensures tx in ReceiptedByAll(events) {
      CameMeansReceipted(h, scope, events, tx);
    }
  }

  // ---------- Where an empty receipt shows ----------

  /** A run and one more event. */
  lemma {:induction false} OneMore(h: History, scope: Scope, events: seq<Event>, e: Event)
    ensures
      var longer, c := events + [e], CursorOf(SystemAfter(events), e.client);
      && SystemAfter(longer) == Happens(SystemAfter(events), e)
      && IndexedByAll(longer) == IndexedByAll(events) + Indexed(c, e.answer)
      && (AllTruthful(h, scope, longer) <==> AllTruthful(h, scope, events) && Truthful(h, scope, c, e.answer))
      && (AllReceiptsTruthful(h, longer) <==> AllReceiptsTruthful(h, events) && ReceiptsTruthful(h, c, e.answer))
  {
    hide Happens, Indexed, Truthful, ReceiptsTruthful;
    assert (events + [e])[..|events|] == events;
  }

  lemma {:induction false} NoEvents(h: History, scope: Scope)
    ensures SystemAfter([]) == EMPTY && IndexedByAll([]) == {}
    ensures AllTruthful(h, scope, []) && AllReceiptsTruthful(h, [])
  {}

  /** A poll of block 1 alone, with one transaction in it. */
  lemma {:induction false} OnePoll(h: History, c: Cursor, a: Answer, tx: nat, store: Store)
    requires c == Cursor(Some(a.key), 0) && a.height == Some(1) && h.blockAt(1).txs == [tx]
    requires a.blocks == Some([Some(h.blockAt(1))]) && a.receipts.Some? && a.committed
    ensures Indexed(c, a) == {1} && Truthful(h, a.key.scope, c, a)
    ensures PolledStore(c, a, store).txs == store.txs[tx := RowWith(h, a.key.scope, 1, tx, ItemAt(a.receipts.value, 0))]
    ensures ItemAt(a.receipts.value, 0).GetOr(h.receiptOf(tx)) == h.receiptOf(tx) ==> ReceiptsTruthful(h, c, a)
    ensures PolledCursor(c, a) == c.(last := if a.announced then 1 else 0)
  {
    var items := a.blocks.value;
    assert BatchSize(c, a) == 1;
    assert BlockRecords(a.key.scope, 1, items, 0) == [] && PendingTxs(1, items, 0) == [];
    assert Came(1, items, 0) == {} && Came(1, items, 1) == {1};
    assert BatchPending(c, a) == PendingOf(1, h.blockAt(1)) == [Pending(tx, 1, h.blockAt(1).timestamp)];
    var row := RowWith(h, a.key.scope, 1, tx, ItemAt(a.receipts.value, 0));
    assert BatchTxs(c, a) == [row];
    OneTx(store.txs, row);
  }

  lemma {:induction false} OneTx(txs: map<nat, TxRecord>, r: TxRecord)
    ensures InsertTxs(txs, [r]) == txs[r.hash := r]
  {
    assert [r][..0] == [];
  }

  /**
   * One client writes block 1 with its receipt, fails to announce it, and on trying
   * again gets the receipt back empty: the failed transaction's row now says it
   * succeeded, although the polls indexed the same block.
   */
  lemma {:induction false} EmptyReceiptOverwrites(h: History, key: StreamKey, tx: nat)
    requires h.blockAt(1).txs == [tx] && h.receiptOf(tx) == Receipt(21_000, 0)
    ensures
      var tip := Event(0, Answer(key, Some(0), None, None, false, false));
      var block := Some([Some(h.blockAt(1))]);
      var first := Event(0, Answer(key, Some(1), block, Some([Some(h.receiptOf(tx))]), true, false));
      var again := Event(0, Answer(key, Some(1), block, Some([None]), true, true));
      && AllTruthful(h, key.scope, [tip, first, again]) && AllReceiptsTruthful(h, [tip, first, again])
      && IndexedByAll([tip, first]) == IndexedByAll([tip, first, again]) == {1}
      && SystemAfter([tip, first]).store.txs == map[tx := RowWith(h, key.scope, 1, tx, Some(Receipt(21_000, 0)))]
      && SystemAfter([tip, first, again]).store.txs == map[tx := RowWith(h, key.scope, 1, tx, None)]
      && RowWith(h, key.scope, 1, tx, None).status == 1
  {
    hide SystemAfter, IndexedByAll, AllTruthful, AllReceiptsTruthful, Truthful, ReceiptsTruthful, PolledStore;
    var tip := Event(0, Answer(key, Some(0), None, None, false, false));
    var block := Some([Some(h.blockAt(1))]);
    var first := Event(0, Answer(key, Some(1), block, Some([Some(h.receiptOf(tx))]), true, false));
    var again := Event(0, Answer(key, Some(1), block, Some([None]), true, true));
    var c := Cursor(Some(key), 0);
    NoEvents(h, key.scope);
    TipOnly(h, tip.answer);
    OneMore(h, key.scope, [], tip);
    assert [] + [tip] == [tip] && [tip] + [first] == [tip, first] && [tip, first] + [again] == [tip, first, again];
    OneMore(h, key.scope, [tip], first);
    OnePoll(h, c, first.answer, tx, EMPTY_STORE);
    OneMore(h, key.scope, [tip, first], again);
    OnePoll(h, c, again.answer, tx, SystemAfter([tip, first]).store);
  }

  /** A fresh client's first poll, of a chain at block 0. */
  lemma TipOnly(h: History, a: Answer)
    requires a.height == Some(0)
    ensures PolledCursor(FRESH, a) == Cursor(Some(a.key), 0) && Indexed(FRESH, a) == {}
    ensures PolledStore(FRESH, a, EMPTY_STORE) == EMPTY_STORE
    ensures Truthful(h, a.key.scope, FRESH, a) && ReceiptsTruthful(h, FRESH, a)
  {}
}
