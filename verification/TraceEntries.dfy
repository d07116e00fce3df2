/**
 * From opcode steps to trace rows: `structLogsToEntries`.
 *
 * The program keeps a stack of storage owners, driven by the depth of each step,
 * and remembers the last value seen in each slot.
 */
module TraceEntries {
  import opened Options
  import opened Sequences
  import opened EvmTrace
  import opened Words

  datatype RootCall = RootCall(
    from: Option<Account>,
    to: Option<Account>,
    value: Option<Word>,
    gas: Option<int>,
    gasUsed: Option<int>,
    failed: bool
  )

  datatype BuildOptions = BuildOptions(rootAddress: Option<Account>, rootCall: Option<RootCall>)

  datatype TraceEntry = TraceEntry(
    idx: int,
    op: Opcode,
    kind: TraceKind,
    gas: int,
    gasCost: int,
    depth: nat,
    pc: nat,
    context: Option<Account>,
    slot: Option<Word>,
    value: Option<Word>,
    previousValue: Option<Word>,
    to: Option<Account>,
    from: Option<Account>,
    callValue: Option<Word>,
    failed: bool
  )

  /** What `storageSeen` is keyed by. */
  type SeenKey = (Option<Account>, Word)

  // ---------- The context stack ----------

  /** The stack once every context above `depth` has been popped. */
  function PopTo(stack: seq<Account>, depth: nat): (popped: seq<Account>)
    ensures popped <= stack && |popped| <= depth
  {
    if |stack| > depth then stack[..depth] else stack
  }

  function Top(stack: seq<Account>): Option<Account> {
    if stack == [] then None else Some(stack[|stack| - 1])
  }

  /** The stack after a step: a call with a readable target pushes a context. */
  function Pushed(step: EvmStep, stack: seq<Account>): seq<Account> {
    if !HasTarget(step) then stack
    else if ClassifyOp(step.op) == DelegateCallKind then stack + [Top(stack).GetOr(Nobody)]
    else stack + [Target(step)]
  }

  /** The context the program attributes to each step. */
  function Contexts(steps: seq<EvmStep>, stack: seq<Account>): (contexts: seq<Option<Account>>)
    ensures |contexts| == |steps|
  {
    if steps == [] then []
    else
      var popped := PopTo(stack, steps[0].depth);
      [Top(popped)] + Contexts(steps[1..], Pushed(steps[0], popped))
  }

  /** The context stack after a whole list of steps. */
  ghost function StackAfter(steps: seq<EvmStep>, stack: seq<Account>): seq<Account> {
    if steps == [] then stack
    else StackAfter(steps[1..], Pushed(steps[0], PopTo(stack, steps[0].depth)))
  }

  lemma {:induction false} ContextsConcat(a: seq<EvmStep>, b: seq<EvmStep>, stack: seq<Account>)
    ensures Contexts(a + b, stack) == Contexts(a, stack) + Contexts(b, StackAfter(a, stack))
    ensures StackAfter(a + b, stack) == StackAfter(b, StackAfter(a, stack))
  {
    if a == [] {
      assert a + b == b;
    } else {
      assert (a + b)[1..] == a[1..] + b;
      ContextsConcat(a[1..], b, Pushed(a[0], PopTo(stack, a[0].depth)));
    }
  }

  // ---------- Storage seen so far ----------

  /** The value a load put on the stack, which only the following step shows. */
  function LoadedValue(following: seq<EvmStep>): Option<Word> {
    if following == [] || following[0].stack == [] then None
    else Some(Peek(following[0].stack, 0))
  }

  function SeenAfter(step: EvmStep, context: Option<Account>, following: seq<EvmStep>, seen: map<SeenKey, Word>)
    : map<SeenKey, Word>
  {
    if LoadsSlot(step) && LoadedValue(following).Some? then
      seen[(context, Peek(step.stack, 0)) := LoadedValue(following).value]
    else if StoresSlot(step) then
      seen[(context, Peek(step.stack, 0)) := Peek(step.stack, 1)]
    else
      seen
  }

  /** The step's own storage map, the fallback for a slot not seen before. */
  function Fallback(step: EvmStep): Word
    requires StoresSlot(step)
  {
    var slot := Peek(step.stack, 0);
    if slot in step.storage then step.storage[slot] else 0
  }

  // ---------- Rows ----------

  function HasRoot(options: BuildOptions): bool {
    options.rootCall.Some? &&
    (options.rootCall.value.to.GetOr(Nobody) != Nobody || options.rootCall.value.from.GetOr(Nobody) != Nobody)
  }

  function RootEntries(options: BuildOptions): seq<TraceEntry> {
    if !HasRoot(options) then []
    else
      var call := options.rootCall.value;
      [TraceEntry(-1, CALL, CallKind, call.gas.GetOr(0), call.gasUsed.GetOr(0), 1, 0, call.to,
                  None, None, None, call.to, call.from, call.value, call.failed)]
  }

  function EntryOf(
    index: nat, step: EvmStep, context: Option<Account>, following: seq<EvmStep>,
    seen: map<SeenKey, Word>, depthOffset: nat
  ): TraceEntry {
    var kind := ClassifyOp(step.op);
    var key := if LoadsSlot(step) || StoresSlot(step) then Some((context, Peek(step.stack, 0))) else None;
    TraceEntry(
      index, step.op, kind, step.gas, step.gasCost, step.depth + depthOffset, step.pc, context,
      if key.Some? then Some(key.value.1) else None,
      if LoadsSlot(step) then LoadedValue(following)
      else if StoresSlot(step) then Some(Peek(step.stack, 1))
      else None,
      if StoresSlot(step) then
        Some(if key.value in seen then seen[key.value] else Fallback(step))
      else None,
      if HasTarget(step) then Some(Target(step)) else None,
      if HasTarget(step) then context else None,
      if kind == CallKind && HasTarget(step) then Some(Peek(step.stack, 2)) else None,
      false)
  }

  function EntriesFrom(
    steps: seq<EvmStep>, contexts: seq<Option<Account>>, index: nat,
    seen: map<SeenKey, Word>, depthOffset: nat
  ): (entries: seq<TraceEntry>)
    requires |contexts| == |steps|
    ensures |entries| == |steps|
  {
    if steps == [] then []
    else
      [EntryOf(index, steps[0], contexts[0], steps[1..], seen, depthOffset)]
      + EntriesFrom(steps[1..], contexts[1..], index + 1,
                    SeenAfter(steps[0], contexts[0], steps[1..], seen), depthOffset)
  }

  function RootContext(options: BuildOptions): Account {
    options.rootAddress.GetOr(Nobody)
  }

  /** The rows of a whole trace. */
  function Entries(steps: seq<EvmStep>, options: BuildOptions): seq<TraceEntry> {
    RootEntries(options) +
    EntriesFrom(steps, Contexts(steps, [RootContext(options)]), 0, map[], |RootEntries(options)|)
  }

  /** Row `i` is numbered, named and attributed by step `i`. */
  lemma {:induction false} EntriesFromAt(
    steps: seq<EvmStep>, contexts: seq<Option<Account>>, index: nat,
    seen: map<SeenKey, Word>, depthOffset: nat, i: nat
  )
    requires |contexts| == |steps| && i < |steps|
    ensures
      var entry := EntriesFrom(steps, contexts, index, seen, depthOffset)[i];
      entry.context == contexts[i] && entry.idx == index + i && entry.op == steps[i].op
  {
    if i > 0 {
      EntriesFromAt(steps[1..], contexts[1..], index + 1,
                    SeenAfter(steps[0], contexts[0], steps[1..], seen), depthOffset, i - 1);
    }
  }

  /** The rows that stand for steps, without the synthesized root row. */
  ghost function StepEntries(steps: seq<EvmStep>, options: BuildOptions): seq<TraceEntry> {
    Entries(steps, options)[|RootEntries(options)|..]
  }

  // ---------- What each row says ----------

  /** What `storageSeen` holds when the walk reaches step `i`. */
  ghost function SeenBefore(steps: seq<EvmStep>, contexts: seq<Option<Account>>, i: nat): map<SeenKey, Word>
    requires |contexts| == |steps| && i <= |steps|
  {
    if i == 0 then map[]
    else SeenAfter(steps[i - 1], contexts[i - 1], steps[i..], SeenBefore(steps, contexts, i - 1))
  }

  lemma {:induction false} RowOfSuffix(
    steps: seq<EvmStep>, contexts: seq<Option<Account>>, depthOffset: nat, from: nat, i: nat
  )
    requires |contexts| == |steps| && from <= i < |steps|
    ensures
      EntriesFrom(steps[from..], contexts[from..], from, SeenBefore(steps, contexts, from), depthOffset)[i - from]
      == EntryOf(i, steps[i], contexts[i], steps[i + 1..], SeenBefore(steps, contexts, i), depthOffset)
    decreases i - from
  {
    hide EntryOf, SeenAfter;
    assert steps[from..][1..] == steps[from + 1..] && contexts[from..][1..] == contexts[from + 1..];
    if from < i {
      RowOfSuffix(steps, contexts, depthOffset, from + 1, i);
    }
  }

  lemma {:induction false} RowAt(steps: seq<EvmStep>, options: BuildOptions, i: nat)
    requires i < |steps|
    ensures |StepEntries(steps, options)| == |steps|
    ensures
      var contexts := Contexts(steps, [RootContext(options)]);
      StepEntries(steps, options)[i]
      == EntryOf(i, steps[i], contexts[i], steps[i + 1..], SeenBefore(steps, contexts, i), |RootEntries(options)|)
  {
    hide EntryOf, SeenAfter, EntriesFrom, RootEntries;
    var contexts := Contexts(steps, [RootContext(options)]);
    RowOfSuffix(steps, contexts, |RootEntries(options)|, 0, i);
    assert steps[0..] == steps && contexts[0..] == contexts;
  }

  /**
   * Every row, read off the raw stacks: the slot is on top; a load's value is on top of
   * the next step's stack, a store's is second; a call's address is second and its
   * value third, where the stack is deep enough for all its operands.
   */
  lemma {:induction false} RowSaysItsStep(steps: seq<EvmStep>, options: BuildOptions, i: nat)
    requires i < |steps|
    ensures |StepEntries(steps, options)| == |steps|
    ensures
      var row, step, stack, n := StepEntries(steps, options)[i], steps[i], steps[i].stack, |steps[i].stack|;
      var loads, stores := step.op == SLOAD && n >= 1, step.op == SSTORE && n >= 2;
      var paying := (step.op == CALL || step.op == CALLCODE) && n >= 7;
      var calls := paying || ((step.op == STATICCALL || step.op == DELEGATECALL) && n >= 6);
      && row.idx == i && row.op == step.op && row.gas == step.gas && row.gasCost == step.gasCost
      && row.pc == step.pc && !row.failed
      && row.depth == step.depth + |Entries(steps, options)| - |steps|
      && row.slot == (if loads || stores then Some(stack[n - 1]) else None)
      && row.value ==
           (if loads && i + 1 < |steps| && steps[i + 1].stack != [] then
              Some(steps[i + 1].stack[|steps[i + 1].stack| - 1])
            else if stores then Some(stack[n - 2])
            else None)
      && (row.previousValue.Some? <==> stores)
      && row.to ==
           (if calls then Some(Account(stack[n - 2] % 0x1_0000000000_0000000000_0000000000_0000000000)) else None)
      && row.from == (if calls then row.context else None)
      && row.callValue == (if paying then Some(stack[n - 3]) else None)
  {
    hide Contexts, SeenBefore, EntriesFrom, RootEntries;
    RowAt(steps, options, i);
    if i + 1 < |steps| {
      assert steps[i + 1..][0] == steps[i + 1];
    }
  }

  /** The kind of a row, by its mnemonic. */
  lemma KindSaysTheMnemonic(op: Opcode)
    ensures ClassifyOp(op) == CallKind <==> op in {CALL, CALLCODE}
    ensures ClassifyOp(op) == DelegateCallKind <==> op == DELEGATECALL
    ensures ClassifyOp(op) == StaticCallKind <==> op == STATICCALL
    ensures ClassifyOp(op) == CreateKind <==> op in {CREATE, CREATE2}
    ensures ClassifyOp(op) == SLoadKind <==> op == SLOAD
    ensures ClassifyOp(op) == SStoreKind <==> op == SSTORE
    ensures ClassifyOp(op) == LogKind <==> op.LOG?
    ensures ClassifyOp(op) == JumpKind <==> op in {JUMP, JUMPI, JUMPDEST}
    ensures ClassifyOp(op) == ReturnKind <==> op in {RETURN, STOP}
    ensures ClassifyOp(op) == RevertKind <==> op in {REVERT, INVALID}
  {}

  /** The row that stands for the transaction itself, there exactly when a party of it is known. */
  lemma RootRowSaysItsCall(steps: seq<EvmStep>, options: BuildOptions)
    ensures
      var rows, call := Entries(steps, options), options.rootCall;
      var known := call.Some? &&
        ((call.value.to.Some? && call.value.to != Some(Nobody))
         || (call.value.from.Some? && call.value.from != Some(Nobody)));
      && |rows| == |steps| + (if known then 1 else 0)
      && (known ==>
            && rows[0].idx == -1 && rows[0].depth == 1 && rows[0].op == CALL && rows[0].kind == CallKind
            && rows[0].context == rows[0].to == call.value.to && rows[0].from == call.value.from
            && rows[0].callValue == call.value.value && rows[0].failed == call.value.failed
            && (call.value.gas.Some? ==> rows[0].gas == call.value.gas.value)
            && (call.value.gasUsed.Some? ==> rows[0].gasCost == call.value.gasUsed.value)
            && rows[0].slot == rows[0].value == rows[0].previousValue == None)
  {
    hide EntriesFrom, Contexts;
  }

  /** The row shows what the slot was read or written as. */
  ghost predicate ShowsSlot(row: TraceEntry, context: Option<Account>, slot: Word) {
    row.context == context && row.slot == Some(slot) && row.value.Some?
  }

  ghost function LastShown(rows: seq<TraceEntry>, key: SeenKey): Option<Word> {
    if rows == [] then None
    else
      var last := rows[|rows| - 1];
      if ShowsSlot(last, key.0, key.1) then last.value else LastShown(rows[..|rows| - 1], key)
  }

  /** The map kept along the walk is the last value shown of each slot. */
  lemma {:induction false} SeenIsLastShown(steps: seq<EvmStep>, options: BuildOptions, i: nat, key: SeenKey)
    requires i <= |steps|
    ensures |StepEntries(steps, options)| == |steps|
    ensures
      var seen := SeenBefore(steps, Contexts(steps, [RootContext(options)]), i);
      LastShown(StepEntries(steps, options)[..i], key) == if key in seen then Some(seen[key]) else None
  {
    hide Contexts, StepEntries;
    if i > 0 {
      SeenIsLastShown(steps, options, i - 1, key);
      RowAt(steps, options, i - 1);
      var rows := StepEntries(steps, options);
      assert rows[..i][..i - 1] == rows[..i - 1];
    } else {
      RowsAreSteps(steps, options);
    }
  }

  lemma RowsAreSteps(steps: seq<EvmStep>, options: BuildOptions)
    ensures |StepEntries(steps, options)| == |steps|
  {
    hide EntriesFrom, Contexts, RootEntries;
  }

  lemma {:induction false} LastShownAt(rows: seq<TraceEntry>, key: SeenKey, j: nat)
    requires j < |rows| && ShowsSlot(rows[j], key.0, key.1)
    requires forall k :: j < k < |rows| ==> !ShowsSlot(rows[k], key.0, key.1)
    ensures LastShown(rows, key) == rows[j].value
  {
    if j < |rows| - 1 {
      LastShownAt(rows[..|rows| - 1], key, j);
    }
  }

  lemma {:induction false} NeverShown(rows: seq<TraceEntry>, key: SeenKey)
    requires forall k :: 0 <= k < |rows| ==> !ShowsSlot(rows[k], key.0, key.1)
    ensures LastShown(rows, key) == None
  {
    if rows != [] {
      NeverShown(rows[..|rows| - 1], key);
    }
  }

  /** A store's row recalls the value of the last row before it that shows its slot. */
  lemma {:induction false} PreviousIsLastShown(steps: seq<EvmStep>, options: BuildOptions, i: nat, j: nat)
    requires j < i < |steps| == |StepEntries(steps, options)|
    requires
      var rows := StepEntries(steps, options);
      && steps[i].op == SSTORE && |steps[i].stack| >= 2
      && ShowsSlot(rows[j], rows[i].context, steps[i].stack[|steps[i].stack| - 1])
      && forall k :: j < k < i ==> !ShowsSlot(rows[k], rows[i].context, steps[i].stack[|steps[i].stack| - 1])
    ensures StepEntries(steps, options)[i].previousValue == StepEntries(steps, options)[j].value
  {
    hide StepEntries, SeenBefore, Contexts;
    var rows := StepEntries(steps, options);
    var key := (rows[i].context, steps[i].stack[|steps[i].stack| - 1]);
    SeenIsLastShown(steps, options, i, key);
    RowAt(steps, options, i);
    LastShownAt(rows[..i], key, j);
  }

  /** And if no row before it does, what the step's own storage map has there, or zero. */
  lemma {:induction false} PreviousIsTheMapsOtherwise(steps: seq<EvmStep>, options: BuildOptions, i: nat)
    requires i < |steps| == |StepEntries(steps, options)|
    requires
      var rows := StepEntries(steps, options);
      && steps[i].op == SSTORE && |steps[i].stack| >= 2
      && forall k :: 0 <= k < i ==> !ShowsSlot(rows[k], rows[i].context, steps[i].stack[|steps[i].stack| - 1])
    ensures
      var slot := steps[i].stack[|steps[i].stack| - 1];
      StepEntries(steps, options)[i].previousValue
      == Some(if slot in steps[i].storage then steps[i].storage[slot] else 0)
  {
    hide StepEntries, SeenBefore, Contexts;
    var rows := StepEntries(steps, options);
    var key := (rows[i].context, steps[i].stack[|steps[i].stack| - 1]);
    SeenIsLastShown(steps, options, i, key);
    RowAt(steps, options, i);
    NeverShown(rows[..i], key);
  }

  /** What is left of the walk at `index`: everything still to be emitted. */
  ghost function Remaining(
    steps: seq<EvmStep>, index: nat, stack: seq<Account>, seen: map<SeenKey, Word>, depthOffset: nat
  ): seq<TraceEntry>
    requires index <= |steps|
  {
    EntriesFrom(steps[index..], Contexts(steps[index..], stack), index, seen, depthOffset)
  }

  lemma RemainingNone(steps: seq<EvmStep>, stack: seq<Account>, seen: map<SeenKey, Word>, depthOffset: nat)
    ensures Remaining(steps, |steps|, stack, seen, depthOffset) == []
  {}

  lemma RemainingStep(
    steps: seq<EvmStep>, index: nat, stack: seq<Account>, seen: map<SeenKey, Word>, depthOffset: nat
  )
    requires index < |steps|
    ensures
      var step := steps[index];
      var popped := PopTo(stack, step.depth);
      var context := Top(popped);
      Remaining(steps, index, stack, seen, depthOffset)
      == [EntryOf(index, step, context, steps[index + 1..], seen, depthOffset)]
       + Remaining(steps, index + 1, Pushed(step, popped),
                   SeenAfter(step, context, steps[index + 1..], seen), depthOffset)
  {
    var suffix := steps[index..];
    assert suffix[0] == steps[index] && suffix[1..] == steps[index + 1..];
    var contexts := Contexts(suffix, stack);
    assert contexts[1..] == Contexts(suffix[1..], Pushed(suffix[0], PopTo(stack, suffix[0].depth)));
  }

  method StructLogsToEntries(steps: seq<EvmStep>, options: BuildOptions) returns (entries: seq<TraceEntry>)
    ensures entries == Entries(steps, options)
  {
    hide EntriesFrom, Contexts, Fallback, LoadedValue, SeenAfter;
    entries := RootEntries(options);
    var contextStack := [RootContext(options)];
    var storageSeen: map<SeenKey, Word> := map[];
    var depthOffset := if HasRoot(options) then 1 else 0;

    ghost var all := Entries(steps, options);
    var index := 0;
    assert steps[0..] == steps;
    while index < |steps|
      invariant 0 <= index <= |steps|
      invariant entries + Remaining(steps, index, contextStack, storageSeen, depthOffset) == all
    {
      RemainingStep(steps, index, contextStack, storageSeen, depthOffset);
      var step := steps[index];
      ghost var onEntry := contextStack;
      while |contextStack| > step.depth
        invariant PopTo(contextStack, step.depth) == PopTo(onEntry, step.depth)
      {
        contextStack := contextStack[..|contextStack| - 1];
      }
      ghost var popped := PopTo(onEntry, step.depth);
      assert contextStack == popped;
      var context := Top(contextStack);
      var entry := EntryOf(index, step, context, steps[index + 1..], storageSeen, depthOffset);
      storageSeen := SeenAfter(step, context, steps[index + 1..], storageSeen);
      if entry.to.Some? {
        contextStack := contextStack +
          [if entry.kind == DelegateCallKind then context.GetOr(Nobody) else entry.to.value];
      }
      assert contextStack == Pushed(step, popped);
      index := index + 1;
      Associate(entries, [entry], Remaining(steps, index, contextStack, storageSeen, depthOffset));
      entries := entries + [entry];
    }
    RemainingNone(steps, contextStack, storageSeen, depthOffset);
  }

  // ---------- Whose storage a step ran on ----------

  /** Every frame that was entered is one whose owner the program can tell. */
  predicate Attributable(f: Frame, owner: Account)
    requires WellFormed(f, owner)
  {
    match f
    case Halt(_, _) => true
    case Run(_, r) => Attributable(r, owner)
    case Enter(s, created, c, r) =>
      && !IsCreate(s.op)
      && (s.op == CALLCODE ==> Account(s.stack[|s.stack| - 2] % ADDRESS_SPACE) == owner)
      && Attributable(c, CalleeOwner(s, created, owner))
      && Attributable(r, owner)
  }

  ghost function Somes(accounts: seq<Account>): (contexts: seq<Option<Account>>)
    ensures |contexts| == |accounts|
  {
    seq(|accounts|, i requires 0 <= i < |accounts| => Some(accounts[i]))
  }

  lemma SomesConcat(a: seq<Account>, b: seq<Account>)
    ensures Somes(a + b) == Somes(a) + Somes(b)
  {}

  /** After popping, the stack holds exactly the owners of the live frames. */
  ghost predicate Live(stack: seq<Account>, live: seq<Account>) {
    PopTo(stack, |live|) == live
  }

  /** Returning from a frame uncovers the frames that were live below it. */
  lemma LiveBelow(stack: seq<Account>, live: seq<Account>, callee: Account)
    requires Live(stack, live + [callee])
    ensures Live(stack, live)
  {
    assert stack[..|live| + 1] == live + [callee];
    assert stack[..|live|] == stack[..|live| + 1][..|live|] == (live + [callee])[..|live|] == live;
  }

  /**
   * The invariant of the flat walk: from a stack whose live part ends in the
   * frame's owner, the contexts of the frame's steps are its true owners exactly
   * when the frame is attributable, and then the live part is there again after.
   */
  lemma {:induction false} FrameContexts(f: Frame, owner: Account, live: seq<Account>, stack: seq<Account>)
    requires live != [] && live[|live| - 1] == owner
    requires WellFormed(f, owner) && f.AtDepth(|live|)
    requires Live(stack, live)
    ensures Contexts(f.Steps(), stack) == Somes(Owners(f, owner)) <==> Attributable(f, owner)
    ensures Attributable(f, owner) ==> Live(StackAfter(f.Steps(), stack), live)
    decreases f
  {
    hide Contexts, StackAfter, Owners, Somes, Pushed, Live, CalleeOwner, HasTarget, IsCall, IsCreate;
    var pushed := Pushed(f.step, live);
    match f
    case Halt(_, _) =>
      HaltContexts(f, owner, live, stack);
    case Run(s, r) =>
      RunContexts(f, owner, live, stack);
      FrameContexts(r, owner, live, pushed);
    case Enter(s, created, c, r) =>
      var callee := CalleeOwner(s, created, owner);
      var after := StackAfter(c.Steps(), pushed);
      EnterSplits(f, owner, live, stack);
      EnterContexts(s, created, c, owner, live);
      if Live(pushed, live + [callee]) {
        FrameContexts(c, callee, live + [callee], pushed);
        if Attributable(c, callee) {
          LiveBelow(after, live, callee);
          FrameContexts(r, owner, live, after);
        }
      }
  }

  /** The walk over a frame's last step, whatever it is. */
  lemma {:induction false} HaltContexts(f: Frame, owner: Account, live: seq<Account>, stack: seq<Account>)
    requires live != [] && live[|live| - 1] == owner
    requires f.Halt? && f.AtDepth(|live|)
    requires Live(stack, live)
    ensures Contexts(f.Steps(), stack) == Somes(Owners(f, owner))
    ensures Live(StackAfter(f.Steps(), stack), live)
  {
    assert f.Steps()[1..] == [];
  }

  /** The walk over a frame that starts with a plain step. */
  lemma {:induction false} RunContexts(f: Frame, owner: Account, live: seq<Account>, stack: seq<Account>)
    requires live != [] && live[|live| - 1] == owner
    requires f.Run? && WellFormed(f, owner) && f.AtDepth(|live|)
    requires Live(stack, live)
    ensures Live(Pushed(f.step, live), live)
    ensures Contexts(f.Steps(), stack) == Somes(Owners(f, owner))
       <==> Contexts(f.rest.Steps(), Pushed(f.step, live)) == Somes(Owners(f.rest, owner))
    ensures StackAfter(f.Steps(), stack) == StackAfter(f.rest.Steps(), Pushed(f.step, live))
  {
    hide ClassifyOp;
    assert f.Steps()[1..] == f.rest.Steps();
    SomesConcat([owner], Owners(f.rest, owner));
    OneThen(Some(owner), Contexts(f.rest.Steps(), Pushed(f.step, live)), Somes(Owners(f.rest, owner)));
    assert Somes([owner]) == [Some(owner)];
  }

  /** The walk over a frame that starts by entering another. */
  lemma {:induction false} EnterSplits(f: Frame, owner: Account, live: seq<Account>, stack: seq<Account>)
    requires live != [] && live[|live| - 1] == owner
    requires f.Enter? && WellFormed(f, owner) && f.AtDepth(|live|)
    requires Live(stack, live)
    ensures
      var pushed := Pushed(f.step, live);
      var callee := CalleeOwner(f.step, f.created, owner);
      var after := StackAfter(f.callee.Steps(), pushed);
      && (Contexts(f.Steps(), stack) == Somes(Owners(f, owner))
          <==>
          (Contexts(f.callee.Steps(), pushed) == Somes(Owners(f.callee, callee))
           && Contexts(f.rest.Steps(), after) == Somes(Owners(f.rest, owner))))
      && StackAfter(f.Steps(), stack) == StackAfter(f.rest.Steps(), after)
  {
    hide ClassifyOp, CalleeOwner, Pushed;
    var pushed := Pushed(f.step, live);
    var callee := CalleeOwner(f.step, f.created, owner);
    var inside, later := f.callee.Steps(), f.rest.Steps();
    var innerOwners, laterOwners := Owners(f.callee, callee), Owners(f.rest, owner);
    var after := StackAfter(inside, pushed);
    Regroup(f.step, inside, later, []);
    ContextsConcat(inside, later, pushed);
    Associate([owner], innerOwners, laterOwners);
    SomesConcat([owner], innerOwners + laterOwners);
    SomesConcat(innerOwners, laterOwners);
    assert Somes([owner]) == [Some(owner)];
    OneThen(Some(owner), Contexts(inside + later, pushed), Somes(innerOwners + laterOwners));
    SplitEqual(Contexts(inside, pushed), Contexts(later, after), Somes(innerOwners), Somes(laterOwners));
  }

  /** A frame's first step: what the walk calls its context, and whose storage it ran on. */
  lemma {:induction false} FirstStep(c: Frame, callee: Account, stack: seq<Account>)
    requires WellFormed(c, callee)
    ensures Contexts(c.Steps(), stack)[0] == Top(PopTo(stack, c.step.depth))
    ensures Somes(Owners(c, callee))[0] == Some(callee)
  {}

  /** The stack a call or creation leaves is live for the callee exactly when its owner can be told. */
  lemma PushedIsLive(s: EvmStep, created: Account, owner: Account, live: seq<Account>)
    requires live != [] && live[|live| - 1] == owner
    requires IsCall(s.op) || IsCreate(s.op)
    requires HasOperands(s)
    requires IsCreate(s.op) ==> created != owner
    ensures
      var callee := CalleeOwner(s, created, owner);
      var pushed := Pushed(s, live);
      var told := !IsCreate(s.op) && (s.op == CALLCODE ==> Target(s) == owner);
      && PopTo(pushed, |live| + 1) == pushed
      && (told <==> Live(pushed, live + [callee]))
      && (!told ==> Top(pushed) != Some(callee))
  {
    hide Live;
    var callee := CalleeOwner(s, created, owner);
    var pushed := Pushed(s, live);
    assert (live + [callee])[|live|] == callee;
    assert Live(pushed, live + [callee]) <==> pushed == live + [callee] by {
      LiveIsAll(pushed, live + [callee]);
    }
  }

  lemma LiveIsAll(stack: seq<Account>, live: seq<Account>)
    requires |stack| <= |live|
    ensures Live(stack, live) <==> stack == live
  {}

  /** Entering a frame: the pushed stack is live for the callee, or its first step is misattributed. */
  lemma {:induction false} EnterContexts(s: EvmStep, created: Account, c: Frame, owner: Account, live: seq<Account>)
    requires live != [] && live[|live| - 1] == owner
    requires IsCall(s.op) || IsCreate(s.op)
    requires HasOperands(s)
    requires IsCreate(s.op) ==> created != owner
    requires WellFormed(c, CalleeOwner(s, created, owner)) && c.AtDepth(|live| + 1)
    ensures
      var callee := CalleeOwner(s, created, owner);
      var told := !IsCreate(s.op) && (s.op == CALLCODE ==> Target(s) == owner);
      && (told <==> Live(Pushed(s, live), live + [callee]))
      && (!told ==> Contexts(c.Steps(), Pushed(s, live)) != Somes(Owners(c, callee)))
  {
    hide Pushed, Live, Top, CalleeOwner, Contexts, Owners, Somes, Target;
    PushedIsLive(s, created, owner, live);
    FirstStep(c, CalleeOwner(s, created, owner), Pushed(s, live));
  }

  /**
   * Attribution: every row of the trace names the contract whose storage the step
   * really ran on, if and only if no creation frame was entered and every CALLCODE
   * that entered code targeted the running contract itself.
   */
  lemma {:induction false} ContextsAreOwners(f: Frame, options: BuildOptions)
    requires WellFormed(f, RootContext(options)) && f.AtDepth(1)
    ensures
      var entries := StepEntries(f.Steps(), options);
      |entries| == |f.Steps()| &&
      ((forall i :: 0 <= i < |entries| ==> entries[i].context == Some(Owners(f, RootContext(options))[i]))
       <==> Attributable(f, RootContext(options)))
  {
    var owner := RootContext(options);
    var contexts := Contexts(f.Steps(), [owner]);
    var entries := StepEntries(f.Steps(), options);
    FrameContexts(f, owner, [owner], [owner]);
    assert entries == EntriesFrom(f.Steps(), contexts, 0, map[], |RootEntries(options)|);
    forall i | 0 <= i < |entries| ensures entries[i].context == contexts[i] {
      EntriesFromAt(f.Steps(), contexts, 0, map[], |RootEntries(options)|, i);
    }
    if forall i :: 0 <= i < |entries| ==> entries[i].context == Some(Owners(f, owner)[i]) {
      assert forall i :: 0 <= i < |entries| ==> contexts[i] == entries[i].context == Somes(Owners(f, owner))[i];
      assert contexts == Somes(Owners(f, owner));
    }
    if contexts == Somes(Owners(f, owner)) {
      assert forall i :: 0 <= i < |entries| ==> entries[i].context == contexts[i] == Some(Owners(f, owner)[i]);
    }
  }

  /**
   * The attribution really fails: code entered by CALLCODE keeps the caller's
   * storage, and the program names the code's address instead.
   */
  lemma CallCodeIsMisattributed(s: EvmStep, body: EvmStep, last: EvmStep, owner: nat)
    requires s.op == CALLCODE && |s.stack| == 7 && s.stack[5] == owner + 1 < ADDRESS_SPACE && s.depth == 1
    requires body.op == STOP && body.depth == 2
    requires last.op == STOP && last.depth == 1
    ensures
      var f := Enter(s, Nobody, Halt(body, false), Halt(last, false));
      var options := BuildOptions(Some(Account(owner)), None);
      && WellFormed(f, Account(owner)) && f.AtDepth(1)
      && Owners(f, Account(owner))[1] == Account(owner)
      && |StepEntries(f.Steps(), options)| == 3
      && StepEntries(f.Steps(), options)[1].context == Some(Account(owner + 1))
  {
    var f := Enter(s, Nobody, Halt(body, false), Halt(last, false));
    var steps := f.Steps();
    var contexts := Contexts(steps, [Account(owner)]);
    assert f.Steps() == [s] + Halt(body, false).Steps() + Halt(last, false).Steps() == [s, body, last];
    assert steps[1..] == [body, last];
    assert PopTo([Account(owner)], 1) == [Account(owner)];
    assert Pushed(s, [Account(owner)]) == [Account(owner), Account(owner + 1)];
    assert contexts[1] == Contexts(steps[1..], [Account(owner), Account(owner + 1)])[0];
    EntriesFromAt(steps, contexts, 0, map[], 0, 1);
    assert StepEntries(steps, BuildOptions(Some(Account(owner)), None))
        == EntriesFrom(steps, contexts, 0, map[], 0);
  }
}
