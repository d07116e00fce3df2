/**
 * The value a write replaced: the `previousValue` of every SSTORE row, against the
 * storage machine the trace came from.
 */
module PreviousValues {
  import opened Options
  import opened Sequences
  import opened EvmTrace
  import opened TraceEntries
  import opened StorageDiff
  import opened Words

  /** The previous values the rows show, one per write, in trace order. */
  function Shown(entries: seq<TraceEntry>): seq<Word> {
    if entries == [] then []
    else (if entries[0].previousValue.Some? then [entries[0].previousValue.value] else []) + Shown(entries[1..])
  }

  /** The value each SSTORE's slot held when the machine reached it, in trace order. */
  ghost function Held(f: Frame, owner: Account, w: World): seq<Word>
    requires WellFormed(f, owner)
  {
    match f
    case Halt(s, _) => HeldAt(s, owner, w)
    case Run(s, r) => HeldAt(s, owner, w) + Held(r, owner, StepWorld(s, owner, w))
    case Enter(s, created, c, r) =>
      var callee := CalleeOwner(s, created, owner);
      Held(c, callee, w) + Held(r, owner, if c.Reverts() then w else Exec(c, callee, w))
  }

  ghost function HeldAt(s: EvmStep, owner: Account, w: World): seq<Word> {
    if s.op == SSTORE && |s.stack| >= 2 then [ReadCell(w, (owner, s.stack[|s.stack| - 1]))] else []
  }

  /** What a log of accesses makes the rows show, from what was known before it. */
  ghost function Recalled(log: seq<Access>, known: map<Cell, Word>): seq<Word> {
    if log == [] then []
    else
      RecalledAt(log[0], known) + Recalled(log[1..], known[log[0].cell := log[0].value])
  }

  ghost function RecalledAt(a: Access, known: map<Cell, Word>): seq<Word> {
    if a.Read? then [] else [if a.cell in known then known[a.cell] else a.fallback]
  }

  lemma {:induction false} ShownIsRecalled(
    steps: seq<EvmStep>, owners: seq<Account>, index: nat, seen: map<SeenKey, Word>,
    known: map<Cell, Word>, depthOffset: nat
  )
    requires |steps| == |owners| && SameSeen(seen, known)
    ensures Shown(EntriesFrom(steps, Somes(owners), index, seen, depthOffset)) == Recalled(Log(steps, owners), known)
    decreases |steps|
  {
    hide EntryOf, AccessOf, SeenAfter, SameSeen;
    if steps != [] {
      var step, owner := steps[0], owners[0];
      var access := AccessOf(step, owner, steps[1..]);
      var entry := EntryOf(index, step, Some(owner), steps[1..], seen, depthOffset);
      var seen' := SeenAfter(step, Some(owner), steps[1..], seen);
      var rest := EntriesFrom(steps[1..], Somes(owners[1..]), index + 1, seen', depthOffset);
      assert Somes(owners)[1..] == Somes(owners[1..]);
      DropFirst(entry, rest);
      AbsorbOne(step, owner, steps[1..], index, seen, known, depthOffset, []);
      ShowOne(step, owner, steps[1..], index, seen, known, depthOffset);
      var known' := if access == [] then known else known[access[0].cell := access[0].value];
      ShownIsRecalled(steps[1..], owners[1..], index + 1, seen', known', depthOffset);
      if access == [] {
        assert Log(steps, owners) == Log(steps[1..], owners[1..]);
      } else {
        assert Log(steps, owners)[1..] == Log(steps[1..], owners[1..]);
      }
    }
  }

  lemma ShowOne(
    step: EvmStep, owner: Account, following: seq<EvmStep>, index: nat, seen: map<SeenKey, Word>,
    known: map<Cell, Word>, depthOffset: nat
  )
    requires SameSeen(seen, known)
    ensures
      var access := AccessOf(step, owner, following);
      EntryOf(index, step, Some(owner), following, seen, depthOffset).previousValue ==
      if access == [] || access[0].Read? then None
      else Some(if access[0].cell in known then known[access[0].cell] else access[0].fallback)
  {}

  lemma {:induction false} SeenConcat(a: seq<Access>, b: seq<Access>)
    ensures Seen(a + b) == Seen(a) + Seen(b)
    decreases |b|
  {
    if b == [] {
      assert a + b == a;
    } else {
      var b' := b[..|b| - 1];
      assert (a + b)[..|a + b| - 1] == a + b';
      SeenConcat(a, b');
    }
  }

  lemma {:induction false} RecalledConcat(a: seq<Access>, b: seq<Access>, known: map<Cell, Word>)
    ensures Recalled(a + b, known) == Recalled(a, known) + Recalled(b, known + Seen(a))
    decreases |a|
  {
    if a == [] {
      assert a + b == b && known + Seen(a) == known;
    } else {
      var first, rest := a[0], a[1..];
      var known' := known[first.cell := first.value];
      assert (a + b)[1..] == rest + b;
      RecalledConcat(rest, b, known');
      KnownAfter(a, known);
      Associate(RecalledAt(first, known), Recalled(rest, known'), Recalled(b, known' + Seen(rest)));
    }
  }

  /** Knowing the first access and then the rest is knowing all of them. */
  lemma {:induction false} KnownAfter(a: seq<Access>, known: map<Cell, Word>)
    requires a != []
    ensures known[a[0].cell := a[0].value] + Seen(a[1..]) == known + Seen(a)
  {
    var first, rest := a[0], a[1..];
    SeenConcat([first], rest);
    assert [first] + rest == a && [first][..0] == [];
    assert Seen([first]) == map[first.cell := first.value];
  }

  // ---------- What the trace lets a reader know ----------

  /**
   * Where a reader of the trace stands: the last value shown of each slot, the last
   * write to it that no frame undid, and the slots whose last access still stands.
   */
  datatype Ledger = Ledger(shown: map<Cell, Word>, kept: map<Cell, Word>, standing: set<Cell>)

  ghost function Gained(ledger: Ledger, log: seq<Access>): Ledger {
    Ledger(ledger.shown + Seen(log), ledger.kept + Writes(log), ledger.standing + Seen(log).Keys)
  }

  /** Accesses shown that did not happen, or were undone. */
  ghost function Lost(ledger: Ledger, log: seq<Access>): Ledger {
    Ledger(ledger.shown + Seen(log), ledger.kept, ledger.standing - Seen(log).Keys)
  }

  /** The ledger when the caller of an entered frame goes on. */
  ghost function Returned(c: Frame, callee: Account, ledger: Ledger, following: seq<EvmStep>): Ledger
    requires WellFormed(c, callee)
    decreases c, 1
  {
    if c.Reverts() then Lost(ledger, FrameLog(c, callee, following)) else After(c, callee, ledger, following)
  }

  ghost function After(f: Frame, owner: Account, ledger: Ledger, following: seq<EvmStep>): Ledger
    requires WellFormed(f, owner)
    decreases f, 0
  {
    match f
    case Halt(s, _) => Lost(ledger, AccessOf(s, owner, following))
    case Run(s, r) => After(r, owner, Gained(ledger, AccessOf(s, owner, r.Steps())), following)
    case Enter(s, created, c, r) =>
      After(r, owner, Returned(c, CalleeOwner(s, created, owner), ledger, r.Steps()), following)
  }

  /**
   * A write whose slot's last access stands is told by that access. Of any other the
   * program shows the last value seen all the same, or the storage map's if none was;
   * that has to be the last write kept so far, or the initial value if none is.
   */
  ghost predicate WriteTold(access: seq<Access>, initial: World, ledger: Ledger) {
    forall a :: a in access && a.Write? && a.cell !in ledger.standing ==>
      (if a.cell in ledger.shown then ledger.shown[a.cell] else a.fallback) == ReadCell(initial + ledger.kept, a.cell)
  }

  ghost predicate Told(f: Frame, owner: Account, initial: World, ledger: Ledger, following: seq<EvmStep>)
    requires WellFormed(f, owner)
  {
    match f
    case Halt(s, _) => WriteTold(AccessOf(s, owner, following), initial, ledger)
    case Run(s, r) =>
      var access := AccessOf(s, owner, r.Steps());
      WriteTold(access, initial, ledger) && Told(r, owner, initial, Gained(ledger, access), following)
    case Enter(s, created, c, r) =>
      var callee := CalleeOwner(s, created, owner);
      && Told(c, callee, initial, ledger, r.Steps())
      && Told(r, owner, initial, Returned(c, callee, ledger, r.Steps()), following)
  }

  /** The ledger is right about the machine. */
  ghost predicate Accurate(ledger: Ledger, initial: World, w: World) {
    && w == initial + ledger.kept
    && forall cell :: cell in ledger.standing ==> cell in ledger.shown && ledger.shown[cell] == ReadCell(w, cell)
  }

  /** One step, whether its frame goes on or ends there. */
  lemma StepHeld(s: EvmStep, owner: Account, following: seq<EvmStep>, initial: World, w: World, ledger: Ledger)
    requires Accurate(ledger, initial, w)
    ensures
      var access := AccessOf(s, owner, following);
      && |Recalled(access, ledger.shown)| == |HeldAt(s, owner, w)|
      && (Recalled(access, ledger.shown) == HeldAt(s, owner, w) <==> WriteTold(access, initial, ledger))
  {
    var access := AccessOf(s, owner, following);
    if access != [] {
      assert access == [access[0]] && access[1..] == [];
      var known := ledger.shown;
      assert Recalled(access, known)
          == RecalledAt(access[0], known) + Recalled([], known[access[0].cell := access[0].value])
          == RecalledAt(access[0], known);
    }
  }

  lemma StepWrites(s: EvmStep, owner: Account, following: seq<EvmStep>)
    ensures
      var access := AccessOf(s, owner, following);
      Writes(access) == if access != [] && access[0].Write? then map[access[0].cell := access[0].value] else map[]
  {
    var access := AccessOf(s, owner, following);
    if access != [] {
      assert access[..0] == [];
    }
  }

  lemma StepGained(s: EvmStep, owner: Account, following: seq<EvmStep>, initial: World, w: World, ledger: Ledger)
    requires Accurate(ledger, initial, w)
    requires LoadIsTrue(s, owner, following, w)
    ensures Accurate(Gained(ledger, AccessOf(s, owner, following)), initial, StepWorld(s, owner, w))
  {
    hide Writes, StepWorld, Fallback, LoadedValue;
    var access := AccessOf(s, owner, following);
    StepIsLogged(s, owner, following, w);
    MergeAssociates(initial, ledger.kept, Writes(access));
    StepWrites(s, owner, following);
    if access != [] {
      assert access[..0] == [] && access[0] in access;
      assert Seen(access) == map[access[0].cell := access[0].value];
    }
  }

  lemma LossIsAccurate(ledger: Ledger, log: seq<Access>, initial: World, w: World)
    requires Accurate(ledger, initial, w)
    ensures Accurate(Lost(ledger, log), initial, w)
  {}

  /** Two stretches of an execution, one after the other. */
  lemma {:induction false} Joined(a: seq<Access>, b: seq<Access>, known: map<Cell, Word>, x: seq<Word>, y: seq<Word>)
    requires |Recalled(a, known)| == |x|
    ensures |Recalled(a + b, known)| == |Recalled(a, known)| + |Recalled(b, known + Seen(a))|
    ensures Recalled(a + b, known) == x + y <==> Recalled(a, known) == x && Recalled(b, known + Seen(a)) == y
    ensures known + Seen(a + b) == (known + Seen(a)) + Seen(b)
  {
    hide Recalled, Seen;
    RecalledConcat(a, b, known);
    SplitEqual(Recalled(a, known), Recalled(b, known + Seen(a)), x, y);
    SeenConcat(a, b);
  }

  /** The rows of a frame show what its slots held, exactly when the frame is told; the ledger stays right. */
  lemma {:induction false} FramesAreTold(
    f: Frame, owner: Account, initial: World, w: World, ledger: Ledger, following: seq<EvmStep>
  )
    requires WellFormed(f, owner) && LoadsAreTrue(f, owner, w)
    requires Accurate(ledger, initial, w)
    ensures
      var shown := Recalled(FrameLog(f, owner, following), ledger.shown);
      && |shown| == |Held(f, owner, w)|
      && (shown == Held(f, owner, w) <==> Told(f, owner, initial, ledger, following))
    ensures After(f, owner, ledger, following).shown == ledger.shown + Seen(FrameLog(f, owner, following))
    ensures Accurate(After(f, owner, ledger, following), initial, Exec(f, owner, w))
    decreases f
  {
    hide Accurate, WriteTold, AccessOf, StepWorld, Recalled, Seen, Writes, CalleeOwner, HeldAt, LoadIsTrue;
    match f
    case Halt(s, _) =>
      StepHeld(s, owner, following, initial, w, ledger);
      LossIsAccurate(ledger, AccessOf(s, owner, following), initial, w);
    case Run(s, r) =>
      var access, w' := AccessOf(s, owner, r.Steps()), StepWorld(s, owner, w);
      StepHeld(s, owner, r.Steps(), initial, w, ledger);
      StepGained(s, owner, r.Steps(), initial, w, ledger);
      FramesAreTold(r, owner, initial, w', Gained(ledger, access), following);
      Joined(access, FrameLog(r, owner, following), ledger.shown, HeldAt(s, owner, w), Held(r, owner, w'));
    case Enter(s, created, c, r) =>
      var callee := CalleeOwner(s, created, owner);
      var log, w' := FrameLog(c, callee, r.Steps()), if c.Reverts() then w else Exec(c, callee, w);
      FramesAreTold(c, callee, initial, w, ledger, r.Steps());
      LossIsAccurate(ledger, log, initial, w);
      FramesAreTold(r, owner, initial, w', Returned(c, callee, ledger, r.Steps()), following);
      Joined(log, FrameLog(r, owner, following), ledger.shown, Held(c, callee, w), Held(r, owner, w'));
  }

  /** What the rows show depends on the log of accesses alone. */
  lemma {:induction false} RowsRecall(f: Frame, options: BuildOptions)
    requires WellFormed(f, RootContext(options)) && f.AtDepth(1)
    requires Attributable(f, RootContext(options))
    ensures Shown(StepEntries(f.Steps(), options)) == Recalled(FrameLog(f, RootContext(options), []), map[])
  {
    hide Log, FrameLog, EntriesFrom, StepEntries, Recalled, Shown, Owners;
    var owner := RootContext(options);
    RowsOfOwners(f, options);
    ShownIsRecalled(f.Steps(), Owners(f, owner), 0, map[], map[], |RootEntries(options)|);
    LogOfTrace(f, owner);
  }

  const NOTHING_SHOWN: Ledger := Ledger(map[], map[], {})

  /**
   * For every attributable execution, frames undone or out of gas included: every
   * SSTORE row shows the value its slot held just then, if and only if each write
   * whose slot has no standing access is told.
   */
  lemma {:induction false} RowsShowHeldValuesExactlyWhen(f: Frame, options: BuildOptions, w: World)
    requires WellFormed(f, RootContext(options)) && f.AtDepth(1)
    requires Attributable(f, RootContext(options))
    requires LoadsAreTrue(f, RootContext(options), w)
    ensures Shown(StepEntries(f.Steps(), options)) == Held(f, RootContext(options), w)
       <==> Told(f, RootContext(options), w, NOTHING_SHOWN, [])
  {
    hide FrameLog, Held, LoadsAreTrue, Attributable, Recalled, Shown, Told, After;
    RowsRecall(f, options);
    assert Accurate(NOTHING_SHOWN, w, w);
    FramesAreTold(f, RootContext(options), w, w, NOTHING_SHOWN, []);
  }

  // ---------- When the storage maps are truthful ----------

  /** Every write to a slot not shown before has the slot's initial value in its storage map. */
  ghost predicate BlindWritesTold(log: seq<Access>, known: map<Cell, Word>, w: World) {
    log == [] ||
    (BlindTold(log[0], known, w) && BlindWritesTold(log[1..], known[log[0].cell := log[0].value], w))
  }

  ghost predicate BlindTold(a: Access, known: map<Cell, Word>, w: World) {
    a.Write? && a.cell !in known ==> a.fallback == ReadCell(w, a.cell)
  }

  lemma {:induction false} BlindConcat(a: seq<Access>, b: seq<Access>, known: map<Cell, Word>, w: World)
    ensures BlindWritesTold(a + b, known, w) <==> BlindWritesTold(a, known, w) && BlindWritesTold(b, known + Seen(a), w)
    decreases |a|
  {
    hide BlindTold;
    if a == [] {
      assert a + b == b && known + Seen(a) == known;
    } else {
      assert (a + b)[1..] == a[1..] + b;
      BlindConcat(a[1..], b, known[a[0].cell := a[0].value], w);
      KnownAfter(a, known);
    }
  }

  lemma {:induction false} ToldIsHonest(log: seq<Access>, w: World)
    ensures BlindWritesTold(log, map[], w) <==> HonestMaps(log, w)
  {
    if log != [] {
      var before, a := log[..|log| - 1], log[|log| - 1];
      ToldIsHonest(before, w);
      HonestLast(log, w);
      BlindConcat(before, [a], map[], w);
      assert before + [a] == log && map[] + Seen(before) == Seen(before);
      assert BlindWritesTold([a], Seen(before), w) <==> BlindTold(a, Seen(before), w);
    }
  }

  lemma {:induction false} WritesAreSeen(log: seq<Access>)
    ensures Writes(log).Keys <= Seen(log).Keys
  {
    if log != [] {
      WritesAreSeen(log[..|log| - 1]);
    }
  }

  /**
   * Where the program recalls an access that no longer stands: the value recalled is
   * the last write to the slot that no frame undid, or its initial value.
   */
  ghost predicate RecallsRight(access: seq<Access>, initial: World, ledger: Ledger) {
    forall a :: a in access && a.Write? && a.cell in ledger.shown && a.cell !in ledger.standing ==>
      ledger.shown[a.cell] == ReadCell(initial + ledger.kept, a.cell)
  }

  ghost predicate NothingStaleRecalled(
    f: Frame, owner: Account, initial: World, ledger: Ledger, following: seq<EvmStep>
  )
    requires WellFormed(f, owner)
  {
    match f
    case Halt(s, _) => RecallsRight(AccessOf(s, owner, following), initial, ledger)
    case Run(s, r) =>
      var access := AccessOf(s, owner, r.Steps());
      && RecallsRight(access, initial, ledger)
      && NothingStaleRecalled(r, owner, initial, Gained(ledger, access), following)
    case Enter(s, created, c, r) =>
      var callee := CalleeOwner(s, created, owner);
      && NothingStaleRecalled(c, callee, initial, ledger, r.Steps())
      && NothingStaleRecalled(r, owner, initial, Returned(c, callee, ledger, r.Steps()), following)
  }

  /** A slot with a write kept, or with a standing access, has been shown. */
  ghost predicate ShownCoversAll(ledger: Ledger) {
    ledger.kept.Keys <= ledger.shown.Keys && ledger.standing <= ledger.shown.Keys
  }

  lemma {:induction false} AfterShown(f: Frame, owner: Account, ledger: Ledger, following: seq<EvmStep>)
    requires WellFormed(f, owner)
    ensures After(f, owner, ledger, following).shown == ledger.shown + Seen(FrameLog(f, owner, following))
    ensures ShownCoversAll(ledger) ==> ShownCoversAll(After(f, owner, ledger, following))
    decreases f
  {
    hide ShownCoversAll, Seen, Writes, AccessOf, CalleeOwner, Gained, Lost;
    match f
    case Halt(s, _) =>
      StepCovers(ledger, AccessOf(s, owner, following));
    case Run(s, r) =>
      var access, log := AccessOf(s, owner, r.Steps()), FrameLog(r, owner, following);
      StepCovers(ledger, access);
      AfterShown(r, owner, Gained(ledger, access), following);
      SeenConcat(access, log);
      MergeAssociates(ledger.shown, Seen(access), Seen(log));
    case Enter(s, created, c, r) =>
      var callee := CalleeOwner(s, created, owner);
      var inside, log := FrameLog(c, callee, r.Steps()), FrameLog(r, owner, following);
      AfterShown(c, callee, ledger, r.Steps());
      StepCovers(ledger, inside);
      AfterShown(r, owner, Returned(c, callee, ledger, r.Steps()), following);
      SeenConcat(inside, log);
      MergeAssociates(ledger.shown, Seen(inside), Seen(log));
  }

  lemma {:induction false} StepCovers(ledger: Ledger, log: seq<Access>)
    ensures Gained(ledger, log).shown == Lost(ledger, log).shown == ledger.shown + Seen(log)
    ensures ShownCoversAll(ledger) ==> ShownCoversAll(Gained(ledger, log)) && ShownCoversAll(Lost(ledger, log))
  {
    WritesAreSeen(log);
  }

  /** A write is told when its map is, if the slot is new, and the recall is right, if it is not. */
  lemma {:induction false} StepRecalls(
    s: EvmStep, owner: Account, following: seq<EvmStep>, initial: World, ledger: Ledger
  )
    requires ShownCoversAll(ledger) && BlindWritesTold(AccessOf(s, owner, following), ledger.shown, initial)
    ensures
      var access := AccessOf(s, owner, following);
      WriteTold(access, initial, ledger) <==> RecallsRight(access, initial, ledger)
  {
    var access := AccessOf(s, owner, following);
    if access != [] {
      assert access == [access[0]];
      assert BlindTold(access[0], ledger.shown, initial);
    }
  }

  lemma {:induction false} ToldIsNothingStale(
    f: Frame, owner: Account, initial: World, ledger: Ledger, following: seq<EvmStep>
  )
    requires WellFormed(f, owner) && ShownCoversAll(ledger)
    requires BlindWritesTold(FrameLog(f, owner, following), ledger.shown, initial)
    ensures Told(f, owner, initial, ledger, following) <==> NothingStaleRecalled(f, owner, initial, ledger, following)
    decreases f
  {
    hide ShownCoversAll, WriteTold, RecallsRight, BlindWritesTold, Seen, Writes, AccessOf, CalleeOwner;
    hide Gained, Lost, After;
    match f
    case Halt(s, _) =>
      StepRecalls(s, owner, following, initial, ledger);
    case Run(s, r) =>
      var access := AccessOf(s, owner, r.Steps());
      BlindConcat(access, FrameLog(r, owner, following), ledger.shown, initial);
      StepRecalls(s, owner, r.Steps(), initial, ledger);
      StepCovers(ledger, access);
      ToldIsNothingStale(r, owner, initial, Gained(ledger, access), following);
    case Enter(s, created, c, r) =>
      var callee := CalleeOwner(s, created, owner);
      var inside := FrameLog(c, callee, r.Steps());
      BlindConcat(inside, FrameLog(r, owner, following), ledger.shown, initial);
      ToldIsNothingStale(c, callee, initial, ledger, r.Steps());
      AfterShown(c, callee, ledger, r.Steps());
      StepCovers(ledger, inside);
      ToldIsNothingStale(r, owner, initial, Returned(c, callee, ledger, r.Steps()), following);
  }

  /**
   * With truthful storage maps, frames undone or out of gas included: every SSTORE row
   * shows the value its slot held just then, if and only if, wherever the program
   * recalls an access that was undone, its value is the last write to the slot no
   * frame has undone so far, or the initial value.
   */
  lemma {:induction false} RowsShowHeldValuesWithReverts(f: Frame, options: BuildOptions, w: World)
    requires WellFormed(f, RootContext(options)) && f.AtDepth(1)
    requires Attributable(f, RootContext(options))
    requires LoadsAreTrue(f, RootContext(options), w)
    requires HonestMaps(FrameLog(f, RootContext(options), []), w)
    ensures Shown(StepEntries(f.Steps(), options)) == Held(f, RootContext(options), w)
       <==> NothingStaleRecalled(f, RootContext(options), w, NOTHING_SHOWN, [])
  {
    hide FrameLog, Held, LoadsAreTrue, Attributable, Shown, StepEntries, Told, After, HonestMaps, BlindWritesTold;
    hide NothingStaleRecalled;
    RowsShowHeldValuesExactlyWhen(f, options, w);
    ToldIsHonest(FrameLog(f, RootContext(options), []), w);
    ToldIsNothingStale(f, RootContext(options), w, NOTHING_SHOWN, []);
  }

  // ---------- When nothing is undone ----------

  /** Every access shown so far stands. */
  ghost predicate AllStands(ledger: Ledger) {
    ledger.standing == ledger.shown.Keys && ledger.kept.Keys <= ledger.shown.Keys
  }

  lemma {:induction false} StepStands(
    s: EvmStep, owner: Account, following: seq<EvmStep>, initial: World, ledger: Ledger
  )
    requires AllStands(ledger)
    ensures
      var access := AccessOf(s, owner, following);
      && AllStands(Gained(ledger, access))
      && (WriteTold(access, initial, ledger) <==> BlindWritesTold(access, ledger.shown, initial))
  {
    var access := AccessOf(s, owner, following);
    WritesAreSeen(access);
    if access != [] {
      assert access == [access[0]] && access[0] in access;
      assert BlindWritesTold(access, ledger.shown, initial) <==> BlindTold(access[0], ledger.shown, initial);
    }
  }

  lemma {:induction false} ToldIsBlindTold(
    f: Frame, owner: Account, initial: World, ledger: Ledger, following: seq<EvmStep>
  )
    requires WellFormed(f, owner) && Lawful(f) && f.NothingReverts()
    requires AllStands(ledger)
    ensures Told(f, owner, initial, ledger, following)
       <==> BlindWritesTold(FrameLog(f, owner, following), ledger.shown, initial)
    ensures AllStands(After(f, owner, ledger, following))
    decreases f
  {
    hide AllStands, WriteTold, BlindWritesTold, Seen, Writes, CalleeOwner;
    match f
    case Halt(s, _) =>
      StepStands(s, owner, following, initial, ledger);
      assert AccessOf(s, owner, following) == [];
      assert Gained(ledger, []) == Lost(ledger, []) by {
        NothingLost(ledger);
      }
    case Run(s, r) =>
      var access, log := AccessOf(s, owner, r.Steps()), FrameLog(r, owner, following);
      StepStands(s, owner, r.Steps(), initial, ledger);
      ToldIsBlindTold(r, owner, initial, Gained(ledger, access), following);
      BlindConcat(access, log, ledger.shown, initial);
    case Enter(s, created, c, r) =>
      var callee := CalleeOwner(s, created, owner);
      var inside, log := FrameLog(c, callee, r.Steps()), FrameLog(r, owner, following);
      NothingIsUndone(c, callee, r.Steps());
      ToldIsBlindTold(c, callee, initial, ledger, r.Steps());
      AfterShown(c, callee, ledger, r.Steps());
      ToldIsBlindTold(r, owner, initial, After(c, callee, ledger, r.Steps()), following);
      BlindConcat(inside, log, ledger.shown, initial);
  }

  lemma NothingLost(ledger: Ledger)
    ensures Gained(ledger, []) == Lost(ledger, []) == ledger
  {}

  /**
   * In a trace where no frame was undone, every SSTORE row shows the value its slot
   * held just before the write, if and only if the storage maps told the truth about
   * the slots written before anything else was known of them.
   */
  lemma {:induction false} RowsShowReplacedValues(f: Frame, options: BuildOptions, w: World)
    requires WellFormed(f, RootContext(options)) && f.AtDepth(1)
    requires Attributable(f, RootContext(options))
    requires LoadsAreTrue(f, RootContext(options), w)
    requires Lawful(f) && f.NothingReverts()
    ensures Shown(StepEntries(f.Steps(), options)) == Held(f, RootContext(options), w)
       <==> HonestMaps(FrameLog(f, RootContext(options), []), w)
  {
    hide FrameLog, Held, LoadsAreTrue, Attributable, Shown, StepEntries, Told, After, Lawful;
    hide HonestMaps, BlindWritesTold;
    RowsShowHeldValuesExactlyWhen(f, options, w);
    ToldIsBlindTold(f, RootContext(options), w, NOTHING_SHOWN, []);
    ToldIsHonest(FrameLog(f, RootContext(options), []), w);
  }

  // ---------- Where an undone write shows ----------

  /** A contract calls itself, stores 7 and reverts there, and then stores 9. */
  ghost function StoreTwice(call: EvmStep, store: EvmStep, fail: EvmStep, again: EvmStep, last: EvmStep): Frame {
    Enter(call, Nobody, Storing(store, fail, true), Storing(again, last, false))
  }

  lemma {:induction false} StoreTwiceLog(
    call: EvmStep, store: EvmStep, fail: EvmStep, again: EvmStep, last: EvmStep, owner: Account
  )
    requires call.op == CALL && HasTarget(call) && Target(call) == owner
    requires StoresSlot(store) && StoresSlot(again) && fail.op == REVERT && last.op == STOP
    requires call.depth == again.depth == last.depth == 1 && store.depth == fail.depth == 2
    ensures
      var f := StoreTwice(call, store, fail, again, last);
      && WellFormed(f, owner) && Lawful(f) && f.AtDepth(1) && Attributable(f, owner)
      && FrameLog(f, owner, []) ==
           [Write((owner, Peek(store.stack, 0)), Peek(store.stack, 1), Fallback(store)),
            Write((owner, Peek(again.stack, 0)), Peek(again.stack, 1), Fallback(again))]
  {
    hide Fallback, LoadsAreTrue, NoFrameEndsOnALoad, Exec, AccessOf;
    var first, second := Storing(store, fail, true), Storing(again, last, false);
    StoringLog(store, fail, true, owner, second.Steps());
    StoringLog(again, last, false, owner, []);
    assert Halt(fail, true).AtDepth(2) && first.AtDepth(2) && Halt(last, false).AtDepth(1) && second.AtDepth(1);
  }

  /** The second write's row shows 7 as the value it replaced; the slot held zero. */
  lemma UndoneWriteIsRecalled(call: EvmStep, store: EvmStep, fail: EvmStep, again: EvmStep, last: EvmStep, owner: nat)
    requires call.op == CALL && |call.stack| == 7 && call.stack[5] == owner < ADDRESS_SPACE
    requires store.op == again.op == SSTORE && store.stack == [7, 0] && again.stack == [9, 0]
    requires store.storage == again.storage == map[] && fail.op == REVERT && last.op == STOP
    requires call.depth == again.depth == last.depth == 1 && store.depth == fail.depth == 2
    ensures
      var f := StoreTwice(call, store, fail, again, last);
      var options := BuildOptions(Some(Account(owner)), None);
      && WellFormed(f, Account(owner)) && Lawful(f) && f.AtDepth(1)
      && Held(f, Account(owner), map[]) == [0, 0]
      && Shown(StepEntries(f.Steps(), options)) == [0, 7]
  {
    hide Shown, StepEntries, Recalled, FrameLog, Exec, Attributable, Lawful;
    var me := Account(owner);
    StoreTwiceLog(call, store, fail, again, last, me);
    StoringHeld(store, fail, true, me);
    StoringHeld(again, last, false, me);
    assert Storing(store, fail, true).Reverts() by {
      assert Halt(fail, true).Reverts();
    }
    var f := StoreTwice(call, store, fail, again, last);
    assert FrameLog(f, me, []) == [Write((me, 0), 7, 0), Write((me, 0), 9, 0)];
    RecallTwo((me, 0));
    RowsRecall(f, BuildOptions(Some(me), None));
  }

  lemma {:induction false} StoringHeld(store: EvmStep, last: EvmStep, undone: bool, owner: Account)
    requires StoresSlot(store) && last.op == if undone then REVERT else STOP
    ensures Held(Storing(store, last, undone), owner, map[]) == [0]
  {
    assert Held(Halt(last, undone), owner, StepWorld(store, owner, map[])) == [];
  }

  lemma RecallTwo(cell: Cell)
    ensures Recalled([Write(cell, 7, 0), Write(cell, 9, 0)], map[]) == [0, 7]
  {
    var log := [Write(cell, 7, 0), Write(cell, 9, 0)];
    assert log[1..] == [Write(cell, 9, 0)] && log[1..][1..] == [];
    assert Recalled([], map[cell := 9]) == [];
    assert Recalled(log[1..], map[cell := 7]) == [7] + Recalled([], map[cell := 9]);
  }
}
