/**
 * Net storage changes: `netStorageDiff` over the rows of a trace, and what it says
 * about the storage machine the trace came from.
 */
module StorageDiff {
  import opened Options
  import opened Sequences
  import opened EvmTrace
  import opened TraceEntries
  import opened Words

  /** One storage slot of one contract. */
  type Cell = (Account, Word)

  datatype StorageDiffRow = StorageDiffRow(cell: Cell, before: Word, after: Word, writes: nat)

  // ---------- The fold ----------

  function Find(rows: seq<StorageDiffRow>, cell: Cell): (at: Option<nat>)
    ensures at.Some? ==> at.value < |rows| && rows[at.value].cell == cell
    ensures at.None? ==> forall i :: 0 <= i < |rows| ==> rows[i].cell != cell
  {
    if rows == [] then None
    else if rows[0].cell == cell then Some(0)
    else
      match Find(rows[1..], cell)
      case Some(i) => Some(i + 1)
      case None => None
  }

  /** One write: a new row, or a later value in the row the slot already has. */
  function Absorb(rows: seq<StorageDiffRow>, cell: Cell, previous: Option<Word>, value: Option<Word>)
    : seq<StorageDiffRow>
  {
    match Find(rows, cell)
    case Some(i) =>
      rows[i := rows[i].(after := value.GetOr(rows[i].after), writes := rows[i].writes + 1)]
    case None =>
      rows + [StorageDiffRow(cell, previous.GetOr(0), value.GetOr(0), 1)]
  }

  function AbsorbEntry(rows: seq<StorageDiffRow>, entry: TraceEntry): seq<StorageDiffRow> {
    if entry.kind != SStoreKind || entry.slot.None? then rows
    else Absorb(rows, (entry.context.GetOr(Nobody), entry.slot.value), entry.previousValue, entry.value)
  }

  function Collapse(rows: seq<StorageDiffRow>, entries: seq<TraceEntry>): seq<StorageDiffRow>
    decreases |entries|
  {
    if entries == [] then rows
    else Collapse(AbsorbEntry(rows, entries[0]), entries[1..])
  }

  /** The rows that say something changed: before and after differ. */
  function Changed(rows: seq<StorageDiffRow>): (changed: seq<StorageDiffRow>)
    ensures forall row :: row in changed <==> row in rows && row.before != row.after
  {
    if rows == [] then []
    else (if rows[0].before != rows[0].after then [rows[0]] else []) + Changed(rows[1..])
  }

  ghost predicate IsSubsequence<T(!new)>(a: seq<T>, b: seq<T>) {
    a == [] || (b != [] && ((a[0] == b[0] && IsSubsequence(a[1..], b[1..])) || IsSubsequence(a, b[1..])))
  }

  /** The changed rows keep their order. */
  lemma {:induction false} ChangedKeepsOrder(rows: seq<StorageDiffRow>)
    ensures IsSubsequence(Changed(rows), rows)
  {
    if rows != [] {
      ChangedKeepsOrder(rows[1..]);
      if rows[0].before != rows[0].after {
        DropFirst(rows[0], Changed(rows[1..]));
      } else {
        assert Changed(rows) == Changed(rows[1..]);
      }
    }
  }

  method NetStorageDiff(entries: seq<TraceEntry>) returns (diff: seq<StorageDiffRow>)
    ensures diff == Changed(Collapse([], entries))
  {
    var rows: seq<StorageDiffRow> := [];
    var i := 0;
    while i < |entries|
      invariant 0 <= i <= |entries|
      invariant Collapse(rows, entries[i..]) == Collapse([], entries)
    {
      var entry := entries[i];
      assert entries[i..][0] == entry && entries[i..][1..] == entries[i + 1..];
      if entry.kind == SStoreKind && entry.slot.Some? {
        var cell := (entry.context.GetOr(Nobody), entry.slot.value);
        var existing := Find(rows, cell);
        if existing.Some? {
          var row := rows[existing.value];
          rows := rows[existing.value := row.(after := entry.value.GetOr(row.after), writes := row.writes + 1)];
        } else {
          rows := rows + [StorageDiffRow(cell, entry.previousValue.GetOr(0), entry.value.GetOr(0), 1)];
        }
      }
      i := i + 1;
    }
    diff := Changed(rows);
  }

  // ---------- Access logs ----------

  /** A storage access as the trace shows it; a write carries its step's fallback. */
  datatype Access =
    | Read(cell: Cell, value: Word)
    | Write(cell: Cell, value: Word, fallback: Word)

  ghost function AccessOf(step: EvmStep, owner: Account, following: seq<EvmStep>): seq<Access> {
    var stack, n := step.stack, |step.stack|;
    if step.op == SLOAD && n >= 1 && following != [] && following[0].stack != [] then
      [Read((owner, stack[n - 1]), following[0].stack[|following[0].stack| - 1])]
    else if step.op == SSTORE && n >= 2 then
      var slot := stack[n - 1];
      [Write((owner, slot), stack[n - 2], if slot in step.storage then step.storage[slot] else 0)]
    else
      []
  }

  ghost function Log(steps: seq<EvmStep>, owners: seq<Account>): seq<Access>
    requires |steps| == |owners|
  {
    if steps == [] then []
    else AccessOf(steps[0], owners[0], steps[1..]) + Log(steps[1..], owners[1..])
  }

  /** The rows a log of accesses leads to, from what was seen and collapsed before. */
  ghost function Replay(log: seq<Access>, seen: map<Cell, Word>, rows: seq<StorageDiffRow>): seq<StorageDiffRow> {
    if log == [] then rows
    else
      var a := log[0];
      var next := if a.Read? then rows
                  else Absorb(rows, a.cell, Some(if a.cell in seen then seen[a.cell] else a.fallback), Some(a.value));
      Replay(log[1..], seen[a.cell := a.value], next)
  }

  /** The program's map keeps, per slot, exactly the last value the log mentions. */
  ghost predicate SameSeen(seen: map<SeenKey, Word>, cells: map<Cell, Word>) {
    (forall owner: Account, slot: Word ::
       (Some(owner), slot) in seen <==> (owner, slot) in cells) &&
    (forall owner: Account, slot: Word ::
       (owner, slot) in cells ==> seen[(Some(owner), slot)] == cells[(owner, slot)])
  }

  lemma {:induction false} CollapseIsReplay(
    steps: seq<EvmStep>, owners: seq<Account>, index: nat, seen: map<SeenKey, Word>,
    cells: map<Cell, Word>, depthOffset: nat, rows: seq<StorageDiffRow>
  )
    requires |steps| == |owners|
    requires SameSeen(seen, cells)
    ensures Collapse(rows, EntriesFrom(steps, Somes(owners), index, seen, depthOffset))
         == Replay(Log(steps, owners), cells, rows)
    decreases |steps|
  {
    if steps != [] {
      var step, owner := steps[0], owners[0];
      var access := AccessOf(step, owner, steps[1..]);
      var entry := EntryOf(index, step, Some(owner), steps[1..], seen, depthOffset);
      var seen' := SeenAfter(step, Some(owner), steps[1..], seen);
      assert Somes(owners)[1..] == Somes(owners[1..]);
      var rest := EntriesFrom(steps[1..], Somes(owners[1..]), index + 1, seen', depthOffset);
      assert EntriesFrom(steps, Somes(owners), index, seen, depthOffset) == [entry] + rest;
      assert ([entry] + rest)[1..] == rest;
      AbsorbOne(step, owner, steps[1..], index, seen, cells, depthOffset, rows);
      var cells' := if access == [] then cells else cells[access[0].cell := access[0].value];
      CollapseIsReplay(steps[1..], owners[1..], index + 1, seen', cells', depthOffset, AbsorbEntry(rows, entry));
      if access == [] {
        assert Log(steps, owners) == Log(steps[1..], owners[1..]);
      } else {
        assert Log(steps, owners)[1..] == Log(steps[1..], owners[1..]);
      }
    }
  }

  /** One step, seen as a row and as an access. */
  lemma AbsorbOne(
    step: EvmStep, owner: Account, following: seq<EvmStep>, index: nat, seen: map<SeenKey, Word>,
    cells: map<Cell, Word>, depthOffset: nat, rows: seq<StorageDiffRow>
  )
    requires SameSeen(seen, cells)
    ensures
      var access := AccessOf(step, owner, following);
      var entry := EntryOf(index, step, Some(owner), following, seen, depthOffset);
      && |access| <= 1
      && SameSeen(SeenAfter(step, Some(owner), following, seen),
                  if access == [] then cells else cells[access[0].cell := access[0].value])
      && AbsorbEntry(rows, entry) ==
         if access == [] || access[0].Read? then rows
         else
           var a := access[0];
           Absorb(rows, a.cell, Some(if a.cell in cells then cells[a.cell] else a.fallback), Some(a.value))
  {}

  // ---------- What a log says ----------

  /** The last value each slot was written, and nothing for slots only read. */
  ghost function Writes(log: seq<Access>): map<Cell, Word> {
    if log == [] then map[]
    else
      var a := log[|log| - 1];
      var before := Writes(log[..|log| - 1]);
      if a.Write? then before[a.cell := a.value] else before
  }

  /** The last value each slot was read or written. */
  ghost function Seen(log: seq<Access>): map<Cell, Word> {
    if log == [] then map[]
    else Seen(log[..|log| - 1])[log[|log| - 1].cell := log[|log| - 1].value]
  }

  /** What the program takes for a slot's original value: what it knew at the first write. */
  ghost function Before(log: seq<Access>, cell: Cell): Word
    requires cell in Writes(log)
  {
    var before := log[..|log| - 1];
    if cell in Writes(before) then Before(before, cell)
    else if cell in Seen(before) then Seen(before)[cell]
    else log[|log| - 1].fallback
  }

  ghost function WriteCount(log: seq<Access>, cell: Cell): nat {
    if log == [] then 0
    else
      WriteCount(log[..|log| - 1], cell) +
      (if log[|log| - 1].Write? && log[|log| - 1].cell == cell then 1 else 0)
  }

  ghost predicate Distinct(rows: seq<StorageDiffRow>) {
    forall i, j :: 0 <= i < j < |rows| ==> rows[i].cell != rows[j].cell
  }

  ghost predicate RowFor(row: StorageDiffRow, log: seq<Access>) {
    && row.cell in Writes(log)
    && row.before == Before(log, row.cell)
    && row.after == Writes(log)[row.cell]
    && row.writes == WriteCount(log, row.cell)
  }

  ghost function Cells(rows: seq<StorageDiffRow>): (cells: seq<Cell>)
    ensures |cells| == |rows|
  {
    seq(|rows|, i requires 0 <= i < |rows| => rows[i].cell)
  }

  /** The written slots, each where it was first written. */
  ghost function FirstWritten(log: seq<Access>): seq<Cell> {
    if log == [] then []
    else
      var before, a := log[..|log| - 1], log[|log| - 1];
      FirstWritten(before) + (if a.Write? && a.cell !in Writes(before) then [a.cell] else [])
  }

  /** One row per written slot, in order of first write, saying what the log says of it. */
  ghost predicate Summarizes(rows: seq<StorageDiffRow>, log: seq<Access>) {
    && Distinct(rows)
    && Cells(rows) == FirstWritten(log)
    && (forall i :: 0 <= i < |rows| ==> RowFor(rows[i], log))
    && (forall cell :: cell in Writes(log) ==> Find(rows, cell).Some?)
  }

  /** Appending an access changes what the log says of that access's slot only. */
  lemma OtherRows(row: StorageDiffRow, log: seq<Access>, a: Access)
    requires RowFor(row, log)
    requires a.Read? || row.cell != a.cell
    ensures RowFor(row, log + [a])
  {
    assert (log + [a])[..|log|] == log;
  }

  lemma ReadSummarizes(rows: seq<StorageDiffRow>, log: seq<Access>, a: Access)
    requires Summarizes(rows, log) && a.Read?
    ensures Summarizes(rows, log + [a])
  {
    assert (log + [a])[..|log|] == log;
    forall i | 0 <= i < |rows| ensures RowFor(rows[i], log + [a]) {
      OtherRows(rows[i], log, a);
    }
  }

  lemma {:induction false} RewriteSummarizes(rows: seq<StorageDiffRow>, log: seq<Access>, a: Access, previous: Word)
    requires Summarizes(rows, log) && a.Write? && a.cell in Writes(log)
    ensures Summarizes(Absorb(rows, a.cell, Some(previous), Some(a.value)), log + [a])
  {
    assert (log + [a])[..|log|] == log;
    var at := Find(rows, a.cell).value;
    var rows' := Absorb(rows, a.cell, Some(previous), Some(a.value));
    assert RowFor(rows[at], log);
    assert Cells(rows') == Cells(rows);
    forall i | 0 <= i < |rows'| ensures RowFor(rows'[i], log + [a]) {
      if i != at {
        OtherRows(rows[i], log, a);
      }
    }
    forall cell | cell in Writes(log + [a]) ensures Find(rows', cell).Some? {
      var i := Find(rows, cell).value;
      assert rows'[i].cell == cell;
    }
  }

  lemma {:induction false} NoRowBeforeWrite(rows: seq<StorageDiffRow>, log: seq<Access>, cell: Cell)
    requires Summarizes(rows, log) && cell !in Writes(log)
    ensures Find(rows, cell).None?
  {
    forall i | 0 <= i < |rows| ensures rows[i].cell != cell {
      assert RowFor(rows[i], log);
    }
  }

  lemma {:induction false} FirstWriteSummarizes(rows: seq<StorageDiffRow>, log: seq<Access>, a: Access)
    requires Summarizes(rows, log) && a.Write? && a.cell !in Writes(log)
    ensures Summarizes(
      Absorb(rows, a.cell, Some(if a.cell in Seen(log) then Seen(log)[a.cell] else a.fallback), Some(a.value)),
      log + [a])
  {
    assert (log + [a])[..|log|] == log;
    var previous := if a.cell in Seen(log) then Seen(log)[a.cell] else a.fallback;
    NoRowBeforeWrite(rows, log, a.cell);
    var row := StorageDiffRow(a.cell, previous, a.value, 1);
    assert RowFor(row, log + [a]) by {
      NoWritesNoCount(log, a.cell);
    }
    forall i | 0 <= i < |rows| ensures RowFor(rows[i], log + [a]) {
      OtherRows(rows[i], log, a);
    }
    assert Writes(log + [a]).Keys == Writes(log).Keys + {a.cell};
    AppendRow(rows, log, row, log + [a]);
  }

  lemma {:induction false} AppendRow(
    rows: seq<StorageDiffRow>, log: seq<Access>, row: StorageDiffRow, log': seq<Access>
  )
    requires Summarizes(rows, log) && Find(rows, row.cell).None?
    requires RowFor(row, log')
    requires forall i :: 0 <= i < |rows| ==> RowFor(rows[i], log')
    requires Writes(log').Keys == Writes(log).Keys + {row.cell}
    requires FirstWritten(log') == FirstWritten(log) + [row.cell]
    ensures Summarizes(rows + [row], log')
  {
    hide RowFor, Writes, Find, FirstWritten;
    var rows' := rows + [row];
    assert Cells(rows') == Cells(rows) + [row.cell];
    forall cell | cell in Writes(log') ensures Find(rows', cell).Some? {
      var at := if cell in Writes(log) then Find(rows, cell).value else |rows|;
      assert rows'[at].cell == cell;
    }
    forall i | 0 <= i < |rows'| ensures RowFor(rows'[i], log') {
      assert rows'[i] == if i < |rows| then rows[i] else row;
    }
  }

  lemma {:induction false} NoWritesNoCount(log: seq<Access>, cell: Cell)
    requires cell !in Writes(log)
    ensures WriteCount(log, cell) == 0
  {
    if log != [] {
      NoWritesNoCount(log[..|log| - 1], cell);
    }
  }

  lemma {:induction false} ReplaySummarizes(done: seq<Access>, log: seq<Access>, rows: seq<StorageDiffRow>)
    requires Summarizes(rows, done)
    ensures Summarizes(Replay(log, Seen(done), rows), done + log)
    decreases |log|
  {
    if log == [] {
      assert done + log == done;
    } else {
      var a := log[0];
      if a.Read? {
        ReadSummarizes(rows, done, a);
      } else if a.cell in Writes(done) {
        RewriteSummarizes(rows, done, a, if a.cell in Seen(done) then Seen(done)[a.cell] else a.fallback);
      } else {
        FirstWriteSummarizes(rows, done, a);
      }
      assert (done + [a])[..|done|] == done;
      assert Seen(done + [a]) == Seen(done)[a.cell := a.value];
      assert done + log == (done + [a]) + log[1..];
      ReplaySummarizes(done + [a], log[1..],
        if a.Read? then rows
        else
          Absorb(rows, a.cell, Some(if a.cell in Seen(done) then Seen(done)[a.cell] else a.fallback), Some(a.value)));
    }
  }

  // ---------- The storage machine ----------

  /** Chain storage; an absent cell is zero. */
  type World = map<Cell, Word>

  function ReadCell(w: World, cell: Cell): Word {
    if cell in w then w[cell] else 0
  }

  function StepWorld(s: EvmStep, owner: Account, w: World): World {
    if s.op == SSTORE && |s.stack| >= 2 then
      w[(owner, s.stack[|s.stack| - 1]) := s.stack[|s.stack| - 2]]
    else
      w
  }

  /**
   * Storage at the end of a frame, before asking whether it reverts. The step a
   * frame ends on stores nothing: a frame that ends on a store ran out of gas there.
   */
  ghost function Exec(f: Frame, owner: Account, w: World): World
    requires WellFormed(f, owner)
  {
    match f
    case Halt(_, _) => w
    case Run(s, r) =>
      Exec(r, owner, StepWorld(s, owner, w))
    case Enter(s, created, c, r) =>
      Exec(r, owner, if c.Reverts() then w else Exec(c, CalleeOwner(s, created, owner), w))
  }

  /** Storage after the transaction. */
  ghost function FinalWorld(f: Frame, owner: Account, w: World): World
    requires WellFormed(f, owner)
  {
    if f.Reverts() then w else Exec(f, owner, w)
  }

  /** The accesses the trace shows of a frame, in trace order, up to the steps that follow it. */
  ghost function FrameLog(f: Frame, owner: Account, following: seq<EvmStep>): seq<Access>
    requires WellFormed(f, owner)
  {
    match f
    case Halt(s, _) => AccessOf(s, owner, following)
    case Run(s, r) => AccessOf(s, owner, r.Steps()) + FrameLog(r, owner, following)
    case Enter(s, created, c, r) =>
      FrameLog(c, CalleeOwner(s, created, owner), r.Steps()) + FrameLog(r, owner, following)
  }

  /** The accesses that happened and were not undone by a frame inside this one. */
  ghost function Kept(f: Frame, owner: Account): seq<Access>
    requires WellFormed(f, owner)
  {
    match f
    case Halt(_, _) => []
    case Run(s, r) => AccessOf(s, owner, r.Steps()) + Kept(r, owner)
    case Enter(s, created, c, r) =>
      (if c.Reverts() then [] else Kept(c, CalleeOwner(s, created, owner))) + Kept(r, owner)
  }

  /** The last write to each slot that no frame undid. */
  ghost function KeptWrites(f: Frame, owner: Account): map<Cell, Word>
    requires WellFormed(f, owner)
  {
    if f.Reverts() then map[] else Writes(Kept(f, owner))
  }

  // ---------- From the flat trace to the nested execution ----------

  /** A frame's log needs no more of what follows the frame than the next step. */
  lemma {:induction false} NextStepOnly(f: Frame, owner: Account, a: seq<EvmStep>, b: seq<EvmStep>)
    requires WellFormed(f, owner)
    requires a != [] && b != [] && a[0] == b[0]
    ensures FrameLog(f, owner, a) == FrameLog(f, owner, b)
    decreases f
  {
    match f
    case Halt(_, _) =>
    case Run(_, r) => NextStepOnly(r, owner, a, b);
    case Enter(_, _, _, r) => NextStepOnly(r, owner, a, b);
  }

  /** The log of a frame's steps, whatever steps follow. */
  lemma {:induction false} LogOfFrame(f: Frame, owner: Account, later: seq<EvmStep>, laterOwners: seq<Account>)
    requires WellFormed(f, owner) && |later| == |laterOwners|
    ensures Log(f.Steps() + later, Owners(f, owner) + laterOwners)
         == FrameLog(f, owner, later) + Log(later, laterOwners)
    decreases f
  {
    hide Log, AccessOf, CalleeOwner;
    match f
    case Halt(s, _) =>
      LogCons(s, later, owner, laterOwners);
    case Run(s, r) =>
      RunLog(f, owner, later, laterOwners);
      LogOfFrame(r, owner, later, laterOwners);
      Associate(AccessOf(s, owner, r.Steps()), FrameLog(r, owner, later), Log(later, laterOwners));
    case Enter(s, created, c, r) =>
      var callee := CalleeOwner(s, created, owner);
      EnterLog(f, owner, later, laterOwners);
      LogOfFrame(c, callee, r.Steps() + later, Owners(r, owner) + laterOwners);
      NextStepOnly(c, callee, r.Steps() + later, r.Steps());
      LogOfFrame(r, owner, later, laterOwners);
      Associate(FrameLog(c, callee, r.Steps()), FrameLog(r, owner, later), Log(later, laterOwners));
  }

  lemma {:induction false} LogCons(s: EvmStep, steps: seq<EvmStep>, owner: Account, owners: seq<Account>)
    requires |steps| == |owners|
    ensures Log([s] + steps, [owner] + owners) == AccessOf(s, owner, steps) + Log(steps, owners)
  {
    assert ([s] + steps)[1..] == steps && ([owner] + owners)[1..] == owners;
  }

  lemma {:induction false} EnterLog(f: Frame, owner: Account, later: seq<EvmStep>, laterOwners: seq<Account>)
    requires f.Enter? && WellFormed(f, owner) && |later| == |laterOwners|
    ensures
      var callee := CalleeOwner(f.step, f.created, owner);
      Log(f.Steps() + later, Owners(f, owner) + laterOwners)
      == Log(f.callee.Steps() + (f.rest.Steps() + later),
             Owners(f.callee, callee) + (Owners(f.rest, owner) + laterOwners))
  {
    var callee := CalleeOwner(f.step, f.created, owner);
    var steps := f.callee.Steps() + (f.rest.Steps() + later);
    var owners := Owners(f.callee, callee) + (Owners(f.rest, owner) + laterOwners);
    LogCons(f.step, steps, owner, owners);
    Regroup(f.step, f.callee.Steps(), f.rest.Steps(), later);
    Regroup(owner, Owners(f.callee, callee), Owners(f.rest, owner), laterOwners);
    assert AccessOf(f.step, owner, steps) == [];
  }

  lemma {:induction false} RunLog(f: Frame, owner: Account, later: seq<EvmStep>, laterOwners: seq<Account>)
    requires f.Run? && WellFormed(f, owner) && |later| == |laterOwners|
    ensures Log(f.Steps() + later, Owners(f, owner) + laterOwners)
         == AccessOf(f.step, owner, f.rest.Steps()) + Log(f.rest.Steps() + later, Owners(f.rest, owner) + laterOwners)
  {
    var steps, owners := f.rest.Steps() + later, Owners(f.rest, owner) + laterOwners;
    LogCons(f.step, steps, owner, owners);
    Associate([f.step], f.rest.Steps(), later);
    Associate([owner], Owners(f.rest, owner), laterOwners);
    assert steps[0] == f.rest.Steps()[0];
  }

  /** A whole trace, with nothing after it. */
  lemma {:induction false} LogOfTrace(f: Frame, owner: Account)
    requires WellFormed(f, owner)
    ensures Log(f.Steps(), Owners(f, owner)) == FrameLog(f, owner, [])
  {
    hide FrameLog, Owners;
    LogOfFrame(f, owner, [], []);
    assert f.Steps() + [] == f.Steps() && Owners(f, owner) + [] == Owners(f, owner);
  }

  /** The rows of an attributable execution are those of its steps under their true owners. */
  lemma {:induction false} RowsOfOwners(f: Frame, options: BuildOptions)
    requires WellFormed(f, RootContext(options)) && f.AtDepth(1)
    requires Attributable(f, RootContext(options))
    ensures StepEntries(f.Steps(), options)
         == EntriesFrom(f.Steps(), Somes(Owners(f, RootContext(options))), 0, map[], |RootEntries(options)|)
  {
    hide EntriesFrom, Contexts, Owners, RootEntries;
    FrameContexts(f, RootContext(options), [RootContext(options)], [RootContext(options)]);
  }

  // ---------- What the writes of a log do ----------

  lemma {:induction false} WritesConcat(a: seq<Access>, b: seq<Access>)
    ensures Writes(a + b) == Writes(a) + Writes(b)
    decreases |b|
  {
    if b == [] {
      assert a + b == a;
    } else {
      var b' := b[..|b| - 1];
      assert (a + b)[..|a + b| - 1] == a + b';
      WritesConcat(a, b');
    }
  }

  lemma MergeAssociates(a: World, b: World, c: World)
    ensures (a + b) + c == a + (b + c)
  {}

  /** The step's effect on storage is the step's entry in the log. */
  lemma StepIsLogged(s: EvmStep, owner: Account, following: seq<EvmStep>, w: World)
    ensures StepWorld(s, owner, w) == w + Writes(AccessOf(s, owner, following))
  {
    var access := AccessOf(s, owner, following);
    if access != [] {
      assert access[..0] == [];
    }
  }

  /** The machine ends with the kept writes on top of what it had. */
  lemma {:induction false} ExecKeeps(f: Frame, owner: Account, w: World)
    requires WellFormed(f, owner)
    ensures Exec(f, owner, w) == w + Writes(Kept(f, owner))
    decreases f
  {
    hide AccessOf, StepWorld, CalleeOwner;
    match f
    case Halt(_, _) =>
    case Run(s, r) =>
      var access := AccessOf(s, owner, r.Steps());
      StepIsLogged(s, owner, r.Steps(), w);
      ExecKeeps(r, owner, w + Writes(access));
      WritesConcat(access, Kept(r, owner));
      MergeAssociates(w, Writes(access), Writes(Kept(r, owner)));
    case Enter(s, created, c, r) =>
      var callee := CalleeOwner(s, created, owner);
      var inside := if c.Reverts() then [] else Kept(c, callee);
      ExecKeeps(c, callee, w);
      assert w == w + Writes([]);
      ExecKeeps(r, owner, w + Writes(inside));
      WritesConcat(inside, Kept(r, owner));
      MergeAssociates(w, Writes(inside), Writes(Kept(r, owner)));
  }

  /** Every kept write is one the trace shows. */
  lemma {:induction false} KeptAreShown(f: Frame, owner: Account, following: seq<EvmStep>)
    requires WellFormed(f, owner)
    ensures Writes(Kept(f, owner)).Keys <= Writes(FrameLog(f, owner, following)).Keys
    decreases f
  {
    hide AccessOf, CalleeOwner;
    match f
    case Halt(_, _) =>
    case Run(s, r) =>
      KeptAreShown(r, owner, following);
      WritesConcat(AccessOf(s, owner, r.Steps()), Kept(r, owner));
      WritesConcat(AccessOf(s, owner, r.Steps()), FrameLog(r, owner, following));
    case Enter(s, created, c, r) =>
      var callee := CalleeOwner(s, created, owner);
      KeptAreShown(c, callee, r.Steps());
      KeptAreShown(r, owner, following);
      WritesConcat(if c.Reverts() then [] else Kept(c, callee), Kept(r, owner));
      WritesConcat(FrameLog(c, callee, r.Steps()), FrameLog(r, owner, following));
  }

  /** When nothing is undone, every access shown is kept. */
  lemma {:induction false} NothingIsUndone(f: Frame, owner: Account, following: seq<EvmStep>)
    requires WellFormed(f, owner) && Lawful(f) && f.NothingReverts()
    ensures !f.Reverts() && NoFrameEndsOnALoad(f)
    ensures Kept(f, owner) == FrameLog(f, owner, following)
    decreases f
  {
    match f
    case Halt(_, _) =>
    case Run(_, r) => NothingIsUndone(r, owner, following);
    case Enter(s, created, c, r) =>
      NothingIsUndone(c, CalleeOwner(s, created, owner), r.Steps());
      NothingIsUndone(r, owner, following);
  }

  /** A frame, reverted or not, leaves alone every slot its log does not write. */
  lemma {:induction false} UnwrittenStays(f: Frame, owner: Account, following: seq<EvmStep>, w: World)
    requires WellFormed(f, owner)
    ensures
      var w' := if f.Reverts() then w else Exec(f, owner, w);
      forall cell :: cell !in Writes(FrameLog(f, owner, following)) ==> ReadCell(w', cell) == ReadCell(w, cell)
  {
    hide Exec, Writes, Kept, FrameLog;
    ExecKeeps(f, owner, w);
    KeptAreShown(f, owner, following);
  }

  // ---------- Loads ----------

  /** A load leaves its slot's value on top of the next step's stack. */
  ghost predicate LoadIsTrue(s: EvmStep, owner: Account, following: seq<EvmStep>, w: World) {
    s.op == SLOAD && |s.stack| >= 1 && following != [] && following[0].stack != [] ==>
      following[0].stack[|following[0].stack| - 1] == ReadCell(w, (owner, s.stack[|s.stack| - 1]))
  }

  /**
   * Every load that was followed by another step of its frame put the slot's value on
   * that step's stack.
   */
  ghost predicate LoadsAreTrue(f: Frame, owner: Account, w: World)
    requires WellFormed(f, owner)
  {
    match f
    case Halt(_, _) => true
    case Run(s, r) =>
      && LoadIsTrue(s, owner, r.Steps(), w)
      && LoadsAreTrue(r, owner, StepWorld(s, owner, w))
    case Enter(s, created, c, r) =>
      var callee := CalleeOwner(s, created, owner);
      && LoadsAreTrue(c, callee, w)
      && LoadsAreTrue(r, owner, if c.Reverts() then w else Exec(c, callee, w))
  }

  /**
   * No frame ran out of gas on a load. Of such a load the trace shows whatever the
   * caller's stack has on top next.
   */
  ghost predicate NoFrameEndsOnALoad(f: Frame) {
    match f
    case Halt(s, _) => s.op != SLOAD
    case Run(_, r) => NoFrameEndsOnALoad(r)
    case Enter(_, _, c, r) => NoFrameEndsOnALoad(c) && NoFrameEndsOnALoad(r)
  }

  /** A slot read before it was ever written still holds its original value. */
  ghost predicate EarlyReadsAreOriginal(log: seq<Access>, w: World) {
    forall i :: 0 <= i < |log| && log[i].Read? && log[i].cell !in Writes(log[..i])
      ==> log[i].value == ReadCell(w, log[i].cell)
  }

  lemma {:induction false} EarlyReadsConcat(a: seq<Access>, b: seq<Access>, w: World, w': World)
    requires EarlyReadsAreOriginal(a, w) && EarlyReadsAreOriginal(b, w')
    requires forall cell :: cell !in Writes(a) ==> ReadCell(w', cell) == ReadCell(w, cell)
    ensures EarlyReadsAreOriginal(a + b, w)
  {
    hide Writes, ReadCell;
    var log := a + b;
    forall i | 0 <= i < |log| && log[i].Read? && log[i].cell !in Writes(log[..i])
      ensures log[i].value == ReadCell(w, log[i].cell)
    {
      PrefixOfConcat(a, b, i);
      if i >= |a| {
        WritesConcat(a, b[..i - |a|]);
        assert log[i] == b[i - |a|];
      }
    }
  }

  lemma {:induction false} FrameReads(f: Frame, owner: Account, w: World, following: seq<EvmStep>)
    requires WellFormed(f, owner) && LoadsAreTrue(f, owner, w) && NoFrameEndsOnALoad(f)
    ensures EarlyReadsAreOriginal(FrameLog(f, owner, following), w)
    decreases f
  {
    hide Writes, ReadCell, StepWorld, CalleeOwner;
    match f
    case Halt(_, _) =>
    case Run(s, r) =>
      var access, w' := AccessOf(s, owner, r.Steps()), StepWorld(s, owner, w);
      FrameReads(r, owner, w', following);
      UnwrittenByStep(s, owner, r.Steps(), w);
      EarlyReadsConcat(access, FrameLog(r, owner, following), w, w');
    case Enter(s, created, c, r) =>
      var callee := CalleeOwner(s, created, owner);
      var w' := if c.Reverts() then w else Exec(c, callee, w);
      FrameReads(c, callee, w, r.Steps());
      FrameReads(r, owner, w', following);
      UnwrittenStays(c, callee, r.Steps(), w);
      EarlyReadsConcat(FrameLog(c, callee, r.Steps()), FrameLog(r, owner, following), w, w');
  }

  lemma UnwrittenByStep(s: EvmStep, owner: Account, following: seq<EvmStep>, w: World)
    ensures forall cell :: cell !in Writes(AccessOf(s, owner, following))
              ==> ReadCell(StepWorld(s, owner, w), cell) == ReadCell(w, cell)
  {
    hide Writes, AccessOf, StepWorld;
    StepIsLogged(s, owner, following, w);
  }

  // ---------- When the original value is known ----------

  /**
   * Every slot whose first access is a write had its original value in that step's
   * storage map (or was absent from it, and zero).
   */
  ghost predicate HonestMaps(log: seq<Access>, w: World) {
    forall i :: 0 <= i < |log| && log[i].Write? && log[i].cell !in Seen(log[..i])
      ==> log[i].fallback == ReadCell(w, log[i].cell)
  }

  lemma {:induction false} SeenOrWritten(log: seq<Access>, w: World, cell: Cell)
    requires EarlyReadsAreOriginal(log, w)
    ensures cell in Writes(log) ==> cell in Seen(log)
    ensures cell in Seen(log) && cell !in Writes(log) ==> Seen(log)[cell] == ReadCell(w, cell)
  {
    if log != [] {
      var before := log[..|log| - 1];
      PrefixReads(log, w);
      SeenOrWritten(before, w, cell);
    }
  }

  lemma PrefixReads(log: seq<Access>, w: World)
    requires log != [] && EarlyReadsAreOriginal(log, w)
    ensures EarlyReadsAreOriginal(log[..|log| - 1], w)
  {
    var before := log[..|log| - 1];
    forall i | 0 <= i < |before| ensures before[..i] == log[..i] && before[i] == log[i] {}
  }

  lemma HonestLast(log: seq<Access>, w: World)
    requires log != []
    ensures
      var n := |log| - 1;
      HonestMaps(log, w)
      <==> (HonestMaps(log[..n], w)
            && (log[n].Write? && log[n].cell !in Seen(log[..n]) ==> log[n].fallback == ReadCell(w, log[n].cell)))
  {
    hide Seen, ReadCell;
    var before := log[..|log| - 1];
    forall i | 0 <= i < |before| ensures before[..i] == log[..i] && before[i] == log[i] {}
  }

  lemma NoMaps(w: World)
    ensures HonestMaps([], w)
  {}

  lemma {:induction false} HonestIsKnown(log: seq<Access>, w: World)
    requires EarlyReadsAreOriginal(log, w)
    ensures HonestMaps(log, w) <==> forall cell :: cell in Writes(log) ==> Before(log, cell) == ReadCell(w, cell)
  {
    hide HonestMaps, EarlyReadsAreOriginal, ReadCell;
    if log == [] {
      NoMaps(w);
    } else {
      var n := |log| - 1;
      var before, a := log[..n], log[n];
      PrefixReads(log, w);
      HonestIsKnown(before, w);
      SeenOrWritten(before, w, a.cell);
      HonestLast(log, w);
      forall cell | cell in Writes(before) ensures Before(log, cell) == Before(before, cell) {}
      if a.Write? && a.cell !in Writes(before) {
        assert Before(log, a.cell) == if a.cell in Seen(before) then ReadCell(w, a.cell) else a.fallback;
      }
    }
  }

  // ---------- The main results ----------

  /** The rows are the difference between two states of the chain: no more, no less. */
  ghost predicate IsDiff(diff: seq<StorageDiffRow>, initial: World, final: World) {
    && Distinct(diff)
    && (forall row :: row in diff ==>
          && row.before == ReadCell(initial, row.cell) && row.after == ReadCell(final, row.cell)
          && row.before != row.after)
    && (forall cell :: ReadCell(initial, cell) != ReadCell(final, cell) ==>
          exists row :: row in diff && row.cell == cell)
  }

  ghost function DiffOf(f: Frame, options: BuildOptions): seq<StorageDiffRow> {
    Changed(Collapse([], Entries(f.Steps(), options)))
  }

  lemma {:induction false} ChangedDistinct(rows: seq<StorageDiffRow>)
    requires Distinct(rows)
    ensures Distinct(Changed(rows))
  {
    if rows != [] {
      ChangedDistinct(rows[1..]);
      var rest := Changed(rows[1..]);
      forall i | 0 <= i < |rest| ensures rest[i].cell != rows[0].cell {
        assert rest[i] in rest;
      }
    }
  }

  /** The synthesized root row is no write. */
  lemma RootRowIsNoWrite(steps: seq<EvmStep>, options: BuildOptions)
    ensures Collapse([], Entries(steps, options)) == Collapse([], StepEntries(steps, options))
  {
    hide EntriesFrom, Contexts;
    var entries := StepEntries(steps, options);
    assert Entries(steps, options) == RootEntries(options) + entries;
    if HasRoot(options) {
      assert Entries(steps, options)[1..] == entries;
    }
  }

  /** The diff of a trace, in terms of its access log alone. */
  lemma DiffOfLog(f: Frame, options: BuildOptions) returns (rows: seq<StorageDiffRow>)
    requires WellFormed(f, RootContext(options)) && f.AtDepth(1)
    requires Attributable(f, RootContext(options))
    ensures Summarizes(rows, FrameLog(f, RootContext(options), []))
    ensures DiffOf(f, options) == Changed(rows)
  {
    hide Log, FrameLog, Entries, EntriesFrom, StepEntries, Replay, Collapse, Owners;
    var owner := RootContext(options);
    var log := FrameLog(f, owner, []);
    RootRowIsNoWrite(f.Steps(), options);
    RowsOfOwners(f, options);
    CollapseIsReplay(f.Steps(), Owners(f, owner), 0, map[], map[], |RootEntries(options)|, []);
    LogOfTrace(f, owner);
    ReplaySummarizes([], log, []);
    assert [] + log == log;
    rows := Replay(log, map[], []);
  }

  /** What the log says of a written slot matches what happened to it. */
  ghost predicate Tells(log: seq<Access>, cell: Cell, start: Word, end: Word)
    requires cell in Writes(log)
  {
    || (Before(log, cell) == start && Writes(log)[cell] == end)
    || (Before(log, cell) == Writes(log)[cell] && start == end)
  }

  /** Whether the rows are the true difference depends only on what they say of written slots. */
  lemma {:induction false} DiffIffRows(rows: seq<StorageDiffRow>, log: seq<Access>, initial: World, final: World)
    requires Summarizes(rows, log)
    requires forall cell :: cell !in Writes(log) ==> ReadCell(final, cell) == ReadCell(initial, cell)
    ensures IsDiff(Changed(rows), initial, final) <==>
            forall cell :: cell in Writes(log) ==> Tells(log, cell, ReadCell(initial, cell), ReadCell(final, cell))
  {
    hide *;
    if IsDiff(Changed(rows), initial, final) {
      DiffTells(rows, log, initial, final);
    }
    if forall cell :: cell in Writes(log) ==> Tells(log, cell, ReadCell(initial, cell), ReadCell(final, cell)) {
      TellsDiff(rows, log, initial, final);
    }
  }

  lemma {:induction false} DiffTells(rows: seq<StorageDiffRow>, log: seq<Access>, initial: World, final: World)
    requires Summarizes(rows, log) && IsDiff(Changed(rows), initial, final)
    ensures forall cell :: cell in Writes(log) ==> Tells(log, cell, ReadCell(initial, cell), ReadCell(final, cell))
  {
    var diff := Changed(rows);
    forall cell | cell in Writes(log) ensures Tells(log, cell, ReadCell(initial, cell), ReadCell(final, cell)) {
      var row := rows[Find(rows, cell).value];
      assert RowFor(row, log) && row in rows;
      if row.before == row.after {
        assert forall other :: other in diff ==> other in rows && other.cell != cell;
      }
    }
  }

  lemma {:induction false} TellsDiff(rows: seq<StorageDiffRow>, log: seq<Access>, initial: World, final: World)
    requires Summarizes(rows, log)
    requires forall cell :: cell !in Writes(log) ==> ReadCell(final, cell) == ReadCell(initial, cell)
    requires forall cell :: cell in Writes(log) ==> Tells(log, cell, ReadCell(initial, cell), ReadCell(final, cell))
    ensures IsDiff(Changed(rows), initial, final)
  {
    hide Writes, Before, ReadCell;
    var diff := Changed(rows);
    ChangedDistinct(rows);
    forall row | row in diff
      ensures
        && row.before == ReadCell(initial, row.cell) && row.after == ReadCell(final, row.cell)
        && row.before != row.after
    {
      assert row in rows;
      var i :| 0 <= i < |rows| && rows[i] == row;
      assert RowFor(rows[i], log);
    }
    forall cell | ReadCell(initial, cell) != ReadCell(final, cell)
      ensures exists row :: row in diff && row.cell == cell
    {
      var row := rows[Find(rows, cell).value];
      assert RowFor(row, log);
      assert row in rows && row in diff;
    }
  }

  /** What a slot ends with: its last kept write, or its initial value if none is kept. */
  ghost function EndsWith(f: Frame, owner: Account, w: World, cell: Cell): Word
    requires WellFormed(f, owner)
  {
    if cell in KeptWrites(f, owner) then KeptWrites(f, owner)[cell] else ReadCell(w, cell)
  }

  lemma {:induction false} FinalIsKept(f: Frame, owner: Account, w: World, cell: Cell)
    requires WellFormed(f, owner)
    ensures ReadCell(FinalWorld(f, owner, w), cell) == EndsWith(f, owner, w, cell)
  {
    hide Exec, Kept, Writes;
    ExecKeeps(f, owner, w);
  }

  /**
   * For every attributable execution, frames undone or out of gas included: the rows
   * are the true difference if and only if, for each slot the trace writes, the first
   * value known of it is its initial value and the last write shown is the last one
   * kept (its initial value, if none is); or else the two shown are equal, and so are
   * the two real ones.
   */
  lemma {:induction false} DiffIsTrueExactlyWhen(f: Frame, options: BuildOptions, w: World)
    requires WellFormed(f, RootContext(options)) && f.AtDepth(1)
    requires Attributable(f, RootContext(options))
    ensures
      var owner := RootContext(options);
      var log := FrameLog(f, owner, []);
      IsDiff(DiffOf(f, options), w, FinalWorld(f, owner, w))
      <==> forall cell :: cell in Writes(log) ==> Tells(log, cell, ReadCell(w, cell), EndsWith(f, owner, w, cell))
  {
    var owner := RootContext(options);
    var log := FrameLog(f, owner, []);
    var final := FinalWorld(f, owner, w);
    hide IsDiff, DiffOf, Summarizes, Changed, Exec, Writes, Before, FrameLog, EndsWith, ReadCell;
    hide WellFormed, Attributable, Tells;
    var rows := DiffOfLog(f, options);
    UnwrittenStays(f, owner, [], w);
    DiffIffRows(rows, log, w, final);
    forall cell ensures ReadCell(final, cell) == EndsWith(f, owner, w, cell) {
      FinalIsKept(f, owner, w, cell);
    }
  }

  /**
   * With truthful loads and storage maps: the rows are the true difference if and
   * only if the last write the trace shows for each slot is the last one no frame
   * undid, or its initial value when every write of it was undone.
   */
  lemma {:induction false} DiffWithReverts(f: Frame, options: BuildOptions, w: World)
    requires WellFormed(f, RootContext(options)) && f.AtDepth(1)
    requires Attributable(f, RootContext(options))
    requires LoadsAreTrue(f, RootContext(options), w) && NoFrameEndsOnALoad(f)
    requires HonestMaps(FrameLog(f, RootContext(options), []), w)
    ensures
      var owner := RootContext(options);
      var log := FrameLog(f, owner, []);
      IsDiff(DiffOf(f, options), w, FinalWorld(f, owner, w))
      <==> forall cell :: cell in Writes(log) ==> Writes(log)[cell] == EndsWith(f, owner, w, cell)
  {
    var owner := RootContext(options);
    var log := FrameLog(f, owner, []);
    hide IsDiff, DiffOf, FinalWorld, Writes, Before, FrameLog, EndsWith, ReadCell;
    hide WellFormed, Attributable, LoadsAreTrue, HonestMaps, EarlyReadsAreOriginal;
    DiffIsTrueExactlyWhen(f, options, w);
    FrameReads(f, owner, w, []);
    HonestIsKnown(log, w);
  }

  /**
   * No frame undone: the rows list exactly the slots whose value changed, with the
   * true value before and after, if and only if the storage maps told the truth
   * about the slots that are written before anything else is known of them.
   */
  lemma {:induction false} DiffIsExact(f: Frame, options: BuildOptions, w: World)
    requires WellFormed(f, RootContext(options)) && f.AtDepth(1)
    requires Attributable(f, RootContext(options))
    requires LoadsAreTrue(f, RootContext(options), w)
    requires Lawful(f) && f.NothingReverts()
    ensures IsDiff(DiffOf(f, options), w, FinalWorld(f, RootContext(options), w))
       <==> HonestMaps(FrameLog(f, RootContext(options), []), w)
  {
    var owner := RootContext(options);
    var log := FrameLog(f, owner, []);
    hide IsDiff, DiffOf, FinalWorld, Writes, Before, FrameLog, Kept, ReadCell;
    hide WellFormed, Attributable, LoadsAreTrue, HonestMaps, EarlyReadsAreOriginal;
    DiffIsTrueExactlyWhen(f, options, w);
    NothingIsUndone(f, owner, []);
    FrameReads(f, owner, w, []);
    HonestIsKnown(log, w);
  }

  // ---------- Where the preconditions bite ----------

  /** A frame that stores `value` in slot 0 and stops, or reverts if `undone`. */
  ghost function Storing(store: EvmStep, last: EvmStep, undone: bool): Frame {
    Run(store, Halt(last, undone))
  }

  lemma {:induction false} StoringLog(
    store: EvmStep, last: EvmStep, undone: bool, owner: Account, following: seq<EvmStep>
  )
    requires StoresSlot(store) && last.op == if undone then REVERT else STOP
    ensures
      var f := Storing(store, last, undone);
      && WellFormed(f, owner) && Lawful(f) && Attributable(f, owner)
      && LoadsAreTrue(f, owner, map[]) && NoFrameEndsOnALoad(f)
      && f.Reverts() == undone
      && FrameLog(f, owner, following) == [Write((owner, Peek(store.stack, 0)), Peek(store.stack, 1), Fallback(store))]
  {
    var halt := Halt(last, undone);
    assert WellFormed(halt, owner) && Lawful(halt) && Attributable(halt, owner);
    assert LoadsAreTrue(halt, owner, StepWorld(store, owner, map[])) && NoFrameEndsOnALoad(halt);
    assert halt.Reverts() == undone && FrameLog(halt, owner, following) == [];
  }

  lemma OneWrite(cell: Cell, value: Word, fallback: Word)
    ensures Writes([Write(cell, value, fallback)]) == map[cell := value]
    ensures HonestMaps([Write(cell, value, fallback)], map[]) <==> fallback == 0
  {
    var log := [Write(cell, value, fallback)];
    assert log[..0] == [];
    assert log[0].Write? && log[0].cell !in Seen(log[..0]);
  }

  /**
   * A node whose storage map already holds the new value on the storing step makes
   * the change disappear.
   */
  lemma MapWithNewValueHidesTheChange(store: EvmStep, last: EvmStep, owner: nat)
    requires store.op == SSTORE && store.stack == [7, 0] && store.storage == map[0 := 7]
    requires last.op == STOP && store.depth == last.depth == 1
    ensures
      var f := Storing(store, last, false);
      var options := BuildOptions(Some(Account(owner)), None);
      && WellFormed(f, Account(owner)) && Attributable(f, Account(owner)) && LoadsAreTrue(f, Account(owner), map[])
      && !IsDiff(DiffOf(f, options), map[], FinalWorld(f, Account(owner), map[]))
  {
    hide IsDiff, DiffOf, FinalWorld, HonestMaps;
    var f := Storing(store, last, false);
    StoringLog(store, last, false, Account(owner), []);
    OneWrite((Account(owner), 0), 7, 7);
    assert f.AtDepth(1) && f.NothingReverts() by {
      assert Halt(last, false).AtDepth(1) && Halt(last, false).NothingReverts();
    }
    DiffIsExact(f, BuildOptions(Some(Account(owner)), None), map[]);
  }

  /** A call into a frame that is undone, after which the caller stops. */
  ghost function CallAndStop(call: EvmStep, callee: Frame, last: EvmStep): Frame {
    Enter(call, Nobody, callee, Halt(last, false))
  }

  lemma {:induction false} UndoneLog(call: EvmStep, callee: Frame, last: EvmStep, owner: Account)
    requires call.op == CALL && HasTarget(call) && last.op == STOP
    requires WellFormed(callee, Target(call)) && Attributable(callee, Target(call))
    requires LoadsAreTrue(callee, Target(call), map[]) && NoFrameEndsOnALoad(callee)
    requires callee.Reverts()
    ensures
      var f := CallAndStop(call, callee, last);
      && WellFormed(f, owner) && Attributable(f, owner)
      && LoadsAreTrue(f, owner, map[]) && NoFrameEndsOnALoad(f)
      && FinalWorld(f, owner, map[]) == map[] && KeptWrites(f, owner) == map[]
      && FrameLog(f, owner, []) == FrameLog(callee, Target(call), [last])
  {
    var halt := Halt(last, false);
    assert WellFormed(halt, owner) && Attributable(halt, owner);
    assert LoadsAreTrue(halt, owner, map[]) && NoFrameEndsOnALoad(halt);
    assert !halt.Reverts() && Kept(halt, owner) == [] && halt.Steps() == [last];
    assert FrameLog(halt, owner, []) == [] && Exec(halt, owner, map[]) == map[];
  }

  /** One undone write to a fresh slot is enough to make the diff wrong. */
  lemma {:induction false} OneUndoneWrite(f: Frame, options: BuildOptions, cell: Cell)
    requires WellFormed(f, RootContext(options)) && f.AtDepth(1)
    requires Attributable(f, RootContext(options))
    requires LoadsAreTrue(f, RootContext(options), map[]) && NoFrameEndsOnALoad(f)
    requires FrameLog(f, RootContext(options), []) == [Write(cell, 7, 0)]
    requires KeptWrites(f, RootContext(options)) == map[]
    ensures !IsDiff(DiffOf(f, options), map[], FinalWorld(f, RootContext(options), map[]))
  {
    hide IsDiff, DiffOf, FinalWorld, HonestMaps, KeptWrites, FrameLog;
    OneWrite(cell, 7, 0);
    assert Writes([Write(cell, 7, 0)])[cell] != EndsWith(f, RootContext(options), map[], cell);
    DiffWithReverts(f, options, map[]);
  }

  /** A write made by a callee that reverts is reported although it never happened. */
  lemma UndoneWriteIsReported(call: EvmStep, store: EvmStep, fail: EvmStep, last: EvmStep, owner: nat)
    requires call.op == CALL && |call.stack| == 7 && call.depth == last.depth == 1
    requires store.op == SSTORE && store.stack == [7, 0] && store.storage == map[] && store.depth == fail.depth == 2
    requires fail.op == REVERT && last.op == STOP
    ensures
      var f := CallAndStop(call, Storing(store, fail, true), last);
      && WellFormed(f, Account(owner)) && FinalWorld(f, Account(owner), map[]) == map[]
      && !IsDiff(DiffOf(f, BuildOptions(Some(Account(owner)), None)), map[], map[])
  {
    hide IsDiff, DiffOf, FinalWorld, HonestMaps, KeptWrites, FrameLog, LoadsAreTrue, NoFrameEndsOnALoad;
    hide WellFormed, Attributable, Lawful, Exec;
    var f := CallAndStop(call, Storing(store, fail, true), last);
    StoringLog(store, fail, true, Target(call), [last]);
    UndoneLog(call, Storing(store, fail, true), last, Account(owner));
    assert f.AtDepth(1) by {
      assert Halt(fail, true).AtDepth(2);
      assert Storing(store, fail, true).AtDepth(2) && Halt(last, false).AtDepth(1);
    }
    OneUndoneWrite(f, BuildOptions(Some(Account(owner)), None), (Target(call), 0));
  }

  /** So is a store its frame could not pay for. */
  lemma UnpaidWriteIsReported(call: EvmStep, store: EvmStep, last: EvmStep, owner: nat)
    requires call.op == CALL && |call.stack| == 7 && call.depth == last.depth == 1
    requires store.op == SSTORE && store.stack == [7, 0] && store.storage == map[] && store.depth == 2
    requires last.op == STOP
    ensures
      var f := CallAndStop(call, Halt(store, true), last);
      && WellFormed(f, Account(owner)) && Lawful(f) && FinalWorld(f, Account(owner), map[]) == map[]
      && !IsDiff(DiffOf(f, BuildOptions(Some(Account(owner)), None)), map[], map[])
  {
    hide IsDiff, DiffOf, FinalWorld, HonestMaps, KeptWrites;
    var callee := Halt(store, true);
    var f := CallAndStop(call, callee, last);
    assert WellFormed(callee, Target(call)) && Attributable(callee, Target(call)) && Lawful(callee);
    assert LoadsAreTrue(callee, Target(call), map[]) && NoFrameEndsOnALoad(callee) && callee.Reverts();
    assert FrameLog(callee, Target(call), [last]) == [Write((Target(call), 0), 7, 0)];
    UndoneLog(call, callee, last, Account(owner));
    assert f.AtDepth(1) && Lawful(f) by {
      assert callee.AtDepth(2) && Halt(last, false).AtDepth(1) && Lawful(Halt(last, false));
    }
    OneUndoneWrite(f, BuildOptions(Some(Account(owner)), None), (Target(call), 0));
  }
}
