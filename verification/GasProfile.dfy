/**
 * Gas attribution: `profileGas`.
 *
 * Every step is charged once, a call only for what it did not hand to its callee,
 * and the charges are tallied by category, by opcode and by frame.
 */
module GasProfile {
  import opened Options
  import opened Sequences
  import opened EvmTrace

  datatype Category = StorageWrite | StorageRead | CallOverhead | Log | Memory | Compute

  function Categorize(op: Opcode): Category {
    match op
    case SSTORE => StorageWrite
    case SLOAD => StorageRead
    case CALL | DELEGATECALL | STATICCALL | CALLCODE | CREATE | CREATE2 => CallOverhead
    case LOG(_) => Log
    case MSTORE | MSTORE8 | MLOAD | MCOPY => Memory
    case CALLDATACOPY | CODECOPY | RETURNDATACOPY | EXTCODECOPY => Memory
    case _ => Compute
  }

  /** The opcodes whose cost includes the gas handed to a callee. */
  predicate IsCallOp(op: Opcode) {
    op in {CALL, DELEGATECALL, STATICCALL, CALLCODE, CREATE, CREATE2}
  }

  function AtLeastZero(x: int): nat {
    if x < 0 then 0 else x
  }

  /** What a step is charged, given the steps after it. */
  function SelfCost(step: EvmStep, following: seq<EvmStep>): nat {
    if IsCallOp(step.op) && following != [] && following[0].depth > step.depth then
      AtLeastZero(step.gasCost - following[0].gas)
    else
      AtLeastZero(step.gasCost)
  }

  function Costs(steps: seq<EvmStep>): (costs: seq<nat>)
    ensures |costs| == |steps|
  {
    if steps == [] then [] else [SelfCost(steps[0], steps[1..])] + Costs(steps[1..])
  }

  /** The charge of step `i`, from the step and the one after it. */
  lemma {:induction false} CostAt(steps: seq<EvmStep>, i: nat)
    requires i < |steps|
    ensures Costs(steps)[i] ==
      var calls := steps[i].op in {CALL, CALLCODE, DELEGATECALL, STATICCALL, CREATE, CREATE2};
      var cost := if calls && i + 1 < |steps| && steps[i + 1].depth > steps[i].depth then
                    steps[i].gasCost - steps[i + 1].gas
                  else
                    steps[i].gasCost;
      if cost < 0 then 0 else cost
  {
    if i > 0 {
      CostAt(steps[1..], i - 1);
    }
  }

  function Sum(costs: seq<nat>): nat {
    if costs == [] then 0 else Sum(costs[..|costs| - 1]) + costs[|costs| - 1]
  }

  lemma {:induction false} SumConcat(a: seq<nat>, b: seq<nat>)
    ensures Sum(a + b) == Sum(a) + Sum(b)
    decreases |b|
  {
    if b == [] {
      assert a + b == a;
    } else {
      assert (a + b)[..|a + b| - 1] == a + b[..|b| - 1];
      SumConcat(a, b[..|b| - 1]);
    }
  }

  // ---------- Tallies ----------

  /** One entry of an insertion-ordered map from keys to totals. */
  datatype Bucket<K> = Bucket(key: K, gas: nat, count: nat)

  function Bump<K(==)>(buckets: seq<Bucket<K>>, key: K, gas: nat): seq<Bucket<K>> {
    if buckets == [] then [Bucket(key, gas, 1)]
    else if buckets[0].key == key then
      [Bucket(key, buckets[0].gas + gas, buckets[0].count + 1)] + buckets[1..]
    else
      [buckets[0]] + Bump(buckets[1..], key, gas)
  }

  /** The tally of the first `n` charges. */
  function Tally<K(==)>(keys: seq<K>, costs: seq<nat>, n: nat): seq<Bucket<K>>
    requires n <= |keys| == |costs|
  {
    if n == 0 then [] else Bump(Tally(keys, costs, n - 1), keys[n - 1], costs[n - 1])
  }

  ghost function GasFor<K>(keys: seq<K>, costs: seq<nat>, n: nat, key: K): nat
    requires n <= |keys| == |costs|
  {
    if n == 0 then 0 else GasFor(keys, costs, n - 1, key) + (if keys[n - 1] == key then costs[n - 1] else 0)
  }

  ghost function CountFor<K>(keys: seq<K>, n: nat, key: K): nat
    requires n <= |keys|
  {
    if n == 0 then 0 else CountFor(keys, n - 1, key) + (if keys[n - 1] == key then 1 else 0)
  }

  ghost function TotalGas<K>(buckets: seq<Bucket<K>>): nat {
    if buckets == [] then 0 else buckets[0].gas + TotalGas(buckets[1..])
  }

  ghost function TotalCount<K>(buckets: seq<Bucket<K>>): nat {
    if buckets == [] then 0 else buckets[0].count + TotalCount(buckets[1..])
  }

  ghost predicate DistinctKeys<K>(buckets: seq<Bucket<K>>) {
    forall i, j :: 0 <= i < j < |buckets| ==> buckets[i].key != buckets[j].key
  }

  lemma {:induction false} BumpTotals<K>(buckets: seq<Bucket<K>>, key: K, gas: nat)
    ensures TotalGas(Bump(buckets, key, gas)) == TotalGas(buckets) + gas
    ensures TotalCount(Bump(buckets, key, gas)) == TotalCount(buckets) + 1
  {
    if buckets != [] && buckets[0].key != key {
      BumpTotals(buckets[1..], key, gas);
      DropFirst(buckets[0], Bump(buckets[1..], key, gas));
    }
  }

  /** Bumping touches the key's own bucket and nothing else. */
  lemma {:induction false} BumpBuckets<K>(buckets: seq<Bucket<K>>, key: K, gas: nat)
    requires DistinctKeys(buckets)
    ensures
      var bumped := Bump(buckets, key, gas);
      && |buckets| <= |bumped| <= |buckets| + 1
      && (forall i :: 0 <= i < |buckets| ==>
            bumped[i] ==
            if buckets[i].key == key then Bucket(key, buckets[i].gas + gas, buckets[i].count + 1) else buckets[i])
      && (|bumped| == |buckets| + 1 ==> bumped[|buckets|] == Bucket(key, gas, 1))
      && (|bumped| == |buckets| + 1 <==> forall i :: 0 <= i < |buckets| ==> buckets[i].key != key)
  {
    if buckets != [] && buckets[0].key != key {
      BumpBuckets(buckets[1..], key, gas);
    }
  }

  lemma {:induction false} BumpDistinct<K>(buckets: seq<Bucket<K>>, key: K, gas: nat)
    requires DistinctKeys(buckets)
    ensures DistinctKeys(Bump(buckets, key, gas))
  {
    BumpBuckets(buckets, key, gas);
  }

  /** Each bucket holds exactly the charges made under its key, and every key has a bucket. */
  ghost predicate ExactTally<K>(buckets: seq<Bucket<K>>, keys: seq<K>, costs: seq<nat>, n: nat)
    requires n <= |keys| == |costs|
  {
    && DistinctKeys(buckets)
    && (forall i :: 0 <= i < |buckets| ==> BucketHolds(buckets[i], keys, costs, n))
    && (forall i :: 0 <= i < n ==> HasKey(buckets, keys[i]))
  }

  ghost predicate BucketHolds<K>(bucket: Bucket<K>, keys: seq<K>, costs: seq<nat>, n: nat)
    requires n <= |keys| == |costs|
  {
    bucket.gas == GasFor(keys, costs, n, bucket.key) && bucket.count == CountFor(keys, n, bucket.key)
  }

  ghost predicate HasKey<K>(buckets: seq<Bucket<K>>, key: K) {
    exists j :: 0 <= j < |buckets| && buckets[j].key == key
  }

  lemma {:induction false} BumpKeepsKeys<K>(buckets: seq<Bucket<K>>, key: K, gas: nat)
    requires DistinctKeys(buckets)
    ensures HasKey(Bump(buckets, key, gas), key)
    ensures forall k :: HasKey(buckets, k) ==> HasKey(Bump(buckets, key, gas), k)
  {
    var bumped := Bump(buckets, key, gas);
    BumpBuckets(buckets, key, gas);
    forall k | HasKey(buckets, k) ensures HasKey(bumped, k) {
      var j :| 0 <= j < |buckets| && buckets[j].key == k;
      assert bumped[j].key == k;
    }
    if |bumped| > |buckets| {
      assert bumped[|buckets|].key == key;
    }
  }

  lemma {:induction false} TallyIsExact<K>(keys: seq<K>, costs: seq<nat>, n: nat)
    requires n <= |keys| == |costs|
    ensures ExactTally(Tally(keys, costs, n), keys, costs, n)
  {
    if n > 0 {
      TallyIsExact(keys, costs, n - 1);
      var before, key, gas := Tally(keys, costs, n - 1), keys[n - 1], costs[n - 1];
      var after := Bump(before, key, gas);
      BumpDistinct(before, key, gas);
      BumpKeepsKeys(before, key, gas);
      forall i | 0 <= i < |after| ensures BucketHolds(after[i], keys, costs, n) {
        BumpHolds(before, keys, costs, n, i);
      }
    }
  }

  lemma BumpHolds<K>(before: seq<Bucket<K>>, keys: seq<K>, costs: seq<nat>, n: nat, i: nat)
    requires 0 < n <= |keys| == |costs|
    requires ExactTally(before, keys, costs, n - 1)
    requires i < |Bump(before, keys[n - 1], costs[n - 1])|
    ensures BucketHolds(Bump(before, keys[n - 1], costs[n - 1])[i], keys, costs, n)
  {
    var key := keys[n - 1];
    BumpBuckets(before, key, costs[n - 1]);
    if i < |before| {
      assert BucketHolds(before[i], keys, costs, n - 1);
    } else {
      forall m | 0 <= m < n - 1 ensures keys[m] != key {
        assert HasKey(before, keys[m]);
      }
      NoCharges(keys, costs, n - 1, key);
    }
  }

  lemma {:induction false} TallyTotals<K>(keys: seq<K>, costs: seq<nat>, n: nat)
    requires n <= |keys| == |costs|
    ensures TotalGas(Tally(keys, costs, n)) == Sum(costs[..n])
    ensures TotalCount(Tally(keys, costs, n)) == n
  {
    if n > 0 {
      TallyTotals(keys, costs, n - 1);
      BumpTotals(Tally(keys, costs, n - 1), keys[n - 1], costs[n - 1]);
      assert costs[..n][..n - 1] == costs[..n - 1];
    }
  }

  lemma {:induction false} NoCharges<K>(keys: seq<K>, costs: seq<nat>, n: nat, key: K)
    requires n <= |keys| == |costs|
    requires forall i :: 0 <= i < n ==> keys[i] != key
    ensures GasFor(keys, costs, n, key) == 0 && CountFor(keys, n, key) == 0
  {
    if n > 0 {
      NoCharges(keys, costs, n - 1, key);
    }
  }

  // ---------- Ranking ----------

  ghost predicate Descending<K>(buckets: seq<Bucket<K>>) {
    forall i, j :: 0 <= i < j < |buckets| ==> buckets[i].gas >= buckets[j].gas
  }

  /** A stable descending sort: equal entries stay in insertion order. */
  function Place<K>(sorted: seq<Bucket<K>>, bucket: Bucket<K>): seq<Bucket<K>> {
    if sorted == [] || sorted[0].gas < bucket.gas then [bucket] + sorted
    else [sorted[0]] + Place(sorted[1..], bucket)
  }

  function SortByGas<K>(buckets: seq<Bucket<K>>): seq<Bucket<K>> {
    if buckets == [] then []
    else Place(SortByGas(buckets[..|buckets| - 1]), buckets[|buckets| - 1])
  }

  /** The rows of one cost, in order. */
  ghost function WithGas<K>(buckets: seq<Bucket<K>>, gas: nat): seq<Bucket<K>> {
    if buckets == [] then []
    else WithGas(buckets[..|buckets| - 1], gas) +
         (if buckets[|buckets| - 1].gas == gas then [buckets[|buckets| - 1]] else [])
  }

  lemma {:induction false} WithGasConcat<K>(a: seq<Bucket<K>>, b: seq<Bucket<K>>, gas: nat)
    ensures WithGas(a + b, gas) == WithGas(a, gas) + WithGas(b, gas)
    decreases |b|
  {
    if b == [] {
      assert a + b == a;
    } else {
      assert (a + b)[..|a + b| - 1] == a + b[..|b| - 1];
      WithGasConcat(a, b[..|b| - 1], gas);
    }
  }

  lemma {:induction false} NoneCostThat<K>(buckets: seq<Bucket<K>>, gas: nat)
    requires forall i :: 0 <= i < |buckets| ==> buckets[i].gas != gas
    ensures WithGas(buckets, gas) == []
  {
    if buckets != [] {
      NoneCostThat(buckets[..|buckets| - 1], gas);
    }
  }

  /** A row put in front of cheaper ones might as well be behind them. */
  lemma {:induction false} FrontOrBack<K>(sorted: seq<Bucket<K>>, bucket: Bucket<K>, gas: nat)
    requires forall i :: 0 <= i < |sorted| ==> sorted[i].gas < bucket.gas
    ensures WithGas([bucket] + sorted, gas) == WithGas(sorted + [bucket], gas)
  {
    WithGasConcat([bucket], sorted, gas);
    WithGasConcat(sorted, [bucket], gas);
    if gas == bucket.gas {
      NoneCostThat(sorted, gas);
    } else {
      NoneCostThat([bucket], gas);
    }
  }

  lemma {:induction false} PlaceLast<K>(sorted: seq<Bucket<K>>, bucket: Bucket<K>, gas: nat)
    requires Descending(sorted)
    ensures WithGas(Place(sorted, bucket), gas) == WithGas(sorted + [bucket], gas)
  {
    hide WithGas;
    if sorted == [] || sorted[0].gas < bucket.gas {
      FrontOrBack(sorted, bucket, gas);
    } else {
      var first, rest := sorted[0], sorted[1..];
      PlaceLast(rest, bucket, gas);
      WithGasConcat([first], Place(rest, bucket), gas);
      WithGasConcat([first], rest + [bucket], gas);
      assert [first] + (rest + [bucket]) == sorted + [bucket];
    }
  }

  /** Rows that cost the same stay in the order they came in. */
  lemma {:induction false} SortIsStable<K>(buckets: seq<Bucket<K>>, gas: nat)
    ensures WithGas(SortByGas(buckets), gas) == WithGas(buckets, gas)
  {
    if buckets != [] {
      var n := |buckets| - 1;
      SortIsStable(buckets[..n], gas);
      SortSorts(buckets[..n]);
      PlaceLast(SortByGas(buckets[..n]), buckets[n], gas);
      WithGasConcat(SortByGas(buckets[..n]), [buckets[n]], gas);
      assert [buckets[n]][..0] == [];
    }
  }

  const TOP_ROWS := 12

  function FirstRows<K>(buckets: seq<Bucket<K>>): seq<Bucket<K>> {
    if |buckets| <= TOP_ROWS then buckets else buckets[..TOP_ROWS]
  }

  lemma {:induction false} PlaceMembers<K>(sorted: seq<Bucket<K>>, bucket: Bucket<K>)
    ensures multiset(Place(sorted, bucket)) == multiset(sorted) + multiset{bucket}
  {
    if sorted != [] && sorted[0].gas >= bucket.gas {
      PlaceMembers(sorted[1..], bucket);
      assert sorted == [sorted[0]] + sorted[1..];
    }
  }

  lemma {:induction false} PlaceSorts<K>(sorted: seq<Bucket<K>>, bucket: Bucket<K>)
    requires Descending(sorted)
    ensures Descending(Place(sorted, bucket))
  {
    if sorted != [] && sorted[0].gas >= bucket.gas {
      var rest := sorted[1..];
      PlaceSorts(rest, bucket);
      PlaceMembers(rest, bucket);
      var placed := Place(rest, bucket);
      forall i | 0 <= i < |placed| ensures placed[i].gas <= sorted[0].gas {
        assert placed[i] in multiset(placed);
        assert placed[i] == bucket || placed[i] in rest;
      }
    }
  }

  lemma {:induction false} SortSorts<K>(buckets: seq<Bucket<K>>)
    ensures Descending(SortByGas(buckets))
    ensures multiset(SortByGas(buckets)) == multiset(buckets)
  {
    if buckets != [] {
      var n := |buckets| - 1;
      SortSorts(buckets[..n]);
      PlaceSorts(SortByGas(buckets[..n]), buckets[n]);
      PlaceMembers(SortByGas(buckets[..n]), buckets[n]);
      assert buckets == buckets[..n] + [buckets[n]];
    }
  }

  /** What is cut off after the first twelve rows is what is left, and none of it costs more. */
  lemma {:induction false} TopIsTop<K>(buckets: seq<Bucket<K>>)
    ensures
      var sorted := SortByGas(buckets);
      var kept, cut := FirstRows(sorted), sorted[|FirstRows(sorted)|..];
      && multiset(kept) + multiset(cut) == multiset(buckets)
      && |kept| == (if |buckets| <= 12 then |buckets| else 12)
      && (forall k, c :: k in kept && c in cut ==> c.gas <= k.gas)
      && Descending(kept)
  {
    var sorted := SortByGas(buckets);
    SortSorts(buckets);
    var n := |FirstRows(sorted)|;
    assert sorted == sorted[..n] + sorted[n..];
    assert |multiset(sorted)| == |sorted| && |multiset(buckets)| == |buckets|;
  }

  // ---------- The profile ----------

  /** A frame, as the tally identifies it. */
  type FrameKey = (nat, Account)

  type Byte = b: nat | b < 0x100

  datatype Calldata = Calldata(zeroBytes: nat, nonZeroBytes: nat, gas: nat)

  /** A bucket and its share of the execution gas. */
  datatype Row<K> = Row(bucket: Bucket<K>, share: real)

  datatype GasProfile = GasProfile(
    gasUsed: Option<int>,
    intrinsic: nat,
    calldata: Calldata,
    execution: nat,
    unaccounted: Option<int>,
    categories: seq<Row<Category>>,
    topOps: seq<Row<Opcode>>,
    topSteps: seq<Bucket<nat>>,
    frames: seq<Row<FrameKey>>
  )

  /** An execution that cost nothing is shared out as if it had cost one. */
  function WithShares<K>(buckets: seq<Bucket<K>>, execution: nat): (rows: seq<Row<K>>)
    ensures |rows| == |buckets|
    ensures forall i :: 0 <= i < |rows| ==>
      rows[i].bucket == buckets[i] && (execution > 0 ==> rows[i].share * execution as real == buckets[i].gas as real)
  {
    var total: nat := if execution == 0 then 1 else execution;
    seq(|buckets|, i requires 0 <= i < |buckets| => Row(buckets[i], buckets[i].gas as real / total as real))
  }

  ghost function TotalShare<K>(rows: seq<Row<K>>): real {
    if rows == [] then 0.0 else rows[0].share + TotalShare(rows[1..])
  }

  lemma {:induction false} SharesOfTotal<K>(buckets: seq<Bucket<K>>, execution: nat)
    ensures TotalShare(WithShares(buckets, execution))
         == TotalGas(buckets) as real / (if execution == 0 then 1 else execution) as real
  {
    if buckets != [] {
      var total: nat := if execution == 0 then 1 else execution;
      SharesOfTotal(buckets[1..], execution);
      assert WithShares(buckets, execution)[1..] == WithShares(buckets[1..], execution);
      DivideSum(buckets[0].gas as real, TotalGas(buckets[1..]) as real, total as real);
    }
  }

  lemma DivideSum(a: real, b: real, c: real)
    requires c != 0.0
    ensures (a + b) / c == a / c + b / c
  {}

  const INTRINSIC_BASE := 21_000
  const CREATE_BASE := 32_000
  const CALLDATA_ZERO_GAS := 4
  const CALLDATA_NONZERO_GAS := 16

  function ContextAt(contexts: seq<Option<Account>>, i: nat): Option<Account> {
    if i < |contexts| then contexts[i] else None
  }

  function CategoryKeys(steps: seq<EvmStep>): (keys: seq<Category>)
    ensures |keys| == |steps|
  {
    seq(|steps|, i requires 0 <= i < |steps| => Categorize(steps[i].op))
  }

  function OpKeys(steps: seq<EvmStep>): (keys: seq<Opcode>)
    ensures |keys| == |steps|
  {
    seq(|steps|, i requires 0 <= i < |steps| => steps[i].op)
  }

  function FrameKeys(steps: seq<EvmStep>, contexts: seq<Option<Account>>): (keys: seq<FrameKey>)
    ensures |keys| == |steps|
  {
    seq(|steps|, i requires 0 <= i < |steps| => (steps[i].depth, ContextAt(contexts, i).GetOr(Nobody)))
  }

  /** The steps that cost something, by index, in trace order. */
  function CostlySteps(costs: seq<nat>, n: nat): seq<Bucket<nat>>
    requires n <= |costs|
  {
    if n == 0 then []
    else if costs[n - 1] > 0 then CostlySteps(costs, n - 1) + [Bucket(n - 1, costs[n - 1], 1)]
    else CostlySteps(costs, n - 1)
  }

  method CountCalldata(input: seq<Byte>) returns (calldata: Calldata)
    ensures calldata.zeroBytes == multiset(input)[0]
    ensures calldata.zeroBytes + calldata.nonZeroBytes == |input|
    ensures calldata.gas == 4 * calldata.zeroBytes + 16 * calldata.nonZeroBytes
  {
    var zeroBytes: nat, nonZeroBytes: nat := 0, 0;
    var i := 0;
    while i < |input|
      invariant 0 <= i <= |input|
      invariant zeroBytes == multiset(input[..i])[0] && zeroBytes + nonZeroBytes == i
    {
      assert input[..i + 1][..i] == input[..i] && input[..i + 1] == input[..i] + [input[i]];
      assert multiset(input[..i + 1]) == multiset(input[..i]) + multiset{input[i]};
      if input[i] == 0 {
        zeroBytes := zeroBytes + 1;
      } else {
        nonZeroBytes := nonZeroBytes + 1;
      }
      i := i + 1;
    }
    assert input[..i] == input;
    calldata := Calldata(
      zeroBytes, nonZeroBytes, zeroBytes * CALLDATA_ZERO_GAS + nonZeroBytes * CALLDATA_NONZERO_GAS);
  }

  /** What each step is tallied under. */
  lemma KeysSayTheStep(steps: seq<EvmStep>, contexts: seq<Option<Account>>, i: nat)
    requires i < |steps|
    ensures
      var op, category := steps[i].op, CategoryKeys(steps)[i];
      && (category == StorageWrite <==> op == SSTORE)
      && (category == StorageRead <==> op == SLOAD)
      && (category == CallOverhead <==> op in {CALL, DELEGATECALL, STATICCALL, CALLCODE, CREATE, CREATE2})
      && (category == Log <==> op.LOG?)
      && (category == Memory <==>
            op in {MSTORE, MSTORE8, MLOAD, MCOPY, CALLDATACOPY, CODECOPY, RETURNDATACOPY, EXTCODECOPY})
    ensures OpKeys(steps)[i] == steps[i].op
    ensures FrameKeys(steps, contexts)[i] ==
      (steps[i].depth, if i < |contexts| && contexts[i].Some? then contexts[i].value else Nobody)
  {}

  /** The steps ranked are exactly those that cost something, each with its own charge, in order. */
  lemma {:induction false} CostlyStepsSayTheirs(costs: seq<nat>, n: nat)
    requires n <= |costs|
    ensures
      var rows := CostlySteps(costs, n);
      && (forall k :: 0 <= k < |rows| ==> rows[k].key < n && rows[k].gas == costs[rows[k].key] > 0)
      && (forall i :: 0 <= i < n && costs[i] > 0 ==> HasKey(rows, i))
      && (forall j, k :: 0 <= j < k < |rows| ==> rows[j].key < rows[k].key)
  {
    hide HasKey;
    if n > 0 {
      CostlyStepsSayTheirs(costs, n - 1);
      var before := CostlySteps(costs, n - 1);
      if costs[n - 1] > 0 {
        forall i | 0 <= i < n && costs[i] > 0 ensures HasKey(before + [Bucket(n - 1, costs[n - 1], 1)], i) {
          KeysAppended(before, Bucket(n - 1, costs[n - 1], 1), i);
        }
      }
    }
  }

  lemma KeysAppended<K>(buckets: seq<Bucket<K>>, bucket: Bucket<K>, key: K)
    ensures HasKey(buckets + [bucket], key) <==> HasKey(buckets, key) || bucket.key == key
  {
    if HasKey(buckets, key) {
      var j :| 0 <= j < |buckets| && buckets[j].key == key;
      assert (buckets + [bucket])[j].key == key;
    }
    if bucket.key == key {
      assert (buckets + [bucket])[|buckets|].key == key;
    }
  }

  lemma SumStep(costs: seq<nat>, i: nat)
    requires i < |costs|
    ensures Sum(costs[..i + 1]) == Sum(costs[..i]) + costs[i]
  {
    assert costs[..i + 1][..i] == costs[..i];
  }

  /** Everything the loop accumulates. */
  datatype Totals = Totals(
    execution: nat,
    categories: seq<Bucket<Category>>,
    ops: seq<Bucket<Opcode>>,
    frames: seq<Bucket<FrameKey>>,
    stepCosts: seq<Bucket<nat>>
  )

  /** The totals after the first `n` steps. */
  ghost function TotalsAt(steps: seq<EvmStep>, contexts: seq<Option<Account>>, n: nat): Totals
    requires n <= |steps|
  {
    var costs := Costs(steps);
    Totals(
      Sum(costs[..n]),
      Tally(CategoryKeys(steps), costs, n),
      Tally(OpKeys(steps), costs, n),
      Tally(FrameKeys(steps, contexts), costs, n),
      CostlySteps(costs, n))
  }

  lemma {:induction false} TotalsStep(steps: seq<EvmStep>, contexts: seq<Option<Account>>, n: nat)
    requires n < |steps|
    ensures
      var cost, step, before := Costs(steps)[n], steps[n], TotalsAt(steps, contexts, n);
      TotalsAt(steps, contexts, n + 1) == Totals(
        before.execution + cost,
        Bump(before.categories, Categorize(step.op), cost),
        Bump(before.ops, step.op, cost),
        Bump(before.frames, (step.depth, ContextAt(contexts, n).GetOr(Nobody)), cost),
        if cost > 0 then before.stepCosts + [Bucket(n, cost, 1)] else before.stepCosts)
  {
    hide Costs, Bump, Categorize, Sum;
    SumStep(Costs(steps), n);
  }

  lemma TotalsNone(steps: seq<EvmStep>, contexts: seq<Option<Account>>)
    ensures TotalsAt(steps, contexts, 0) == Totals(0, [], [], [], [])
  {}

  lemma {:induction false} TotalsAll(steps: seq<EvmStep>, contexts: seq<Option<Account>>)
    ensures
      var costs, n := Costs(steps), |steps|;
      TotalsAt(steps, contexts, n) == Totals(
        Sum(costs), Tally(CategoryKeys(steps), costs, n), Tally(OpKeys(steps), costs, n),
        Tally(FrameKeys(steps, contexts), costs, n), CostlySteps(costs, n))
  {
    assert Costs(steps)[..|steps|] == Costs(steps);
  }

  method ProfileGas(
    steps: seq<EvmStep>, contexts: seq<Option<Account>>, input: seq<Byte>, gasUsed: Option<int>, isCreate: bool
  ) returns (profile: GasProfile)
    ensures
      var costs := Costs(steps);
      && profile.execution == Sum(costs)
      && profile.calldata.zeroBytes == multiset(input)[0]
      && profile.calldata.zeroBytes + profile.calldata.nonZeroBytes == |input|
      && profile.calldata.gas == 4 * profile.calldata.zeroBytes + 16 * profile.calldata.nonZeroBytes
      && profile.intrinsic == 21_000 + profile.calldata.gas + (if isCreate then 32_000 else 0)
      && profile.gasUsed == gasUsed
      && profile.unaccounted ==
           (if gasUsed.Some? then Some(gasUsed.value - profile.intrinsic - profile.execution) else None)
      && profile.categories == WithShares(SortByGas(Tally(CategoryKeys(steps), costs, |steps|)), Sum(costs))
      && profile.topOps == WithShares(FirstRows(SortByGas(Tally(OpKeys(steps), costs, |steps|))), Sum(costs))
      && profile.topSteps == FirstRows(SortByGas(CostlySteps(costs, |steps|)))
      && profile.frames == WithShares(SortByGas(Tally(FrameKeys(steps, contexts), costs, |steps|)), Sum(costs))
  {
    hide TotalsAt, Costs, Sum, Tally, CategoryKeys, OpKeys, FrameKeys, CostlySteps, Bump, Categorize;
    hide SortByGas, FirstRows, WithShares;
    var calldata := CountCalldata(input);
    var intrinsic: nat := INTRINSIC_BASE + calldata.gas + (if isCreate then CREATE_BASE else 0);

    TotalsNone(steps, contexts);
    ghost var totals := TotalsAt(steps, contexts, 0);
    var categoryTotals: seq<Bucket<Category>> := [];
    var opTotals: seq<Bucket<Opcode>> := [];
    var frameTotals: seq<Bucket<FrameKey>> := [];
    var stepCosts: seq<Bucket<nat>> := [];
    var execution: nat := 0;
    var index := 0;
    while index < |steps|
      invariant 0 <= index <= |steps|
      invariant Totals(execution, categoryTotals, opTotals, frameTotals, stepCosts) == totals
      invariant totals == TotalsAt(steps, contexts, index)
    {
      var step := steps[index];
      var selfCost := step.gasCost;
      if IsCallOp(step.op) && index + 1 < |steps| && steps[index + 1].depth > step.depth {
        selfCost := AtLeastZero(step.gasCost - steps[index + 1].gas);
      }
      if selfCost < 0 {
        selfCost := 0;
      }
      CostAt(steps, index);
      TotalsStep(steps, contexts, index);

      var frameKey := (step.depth, ContextAt(contexts, index).GetOr(Nobody));
      execution := execution + selfCost;
      categoryTotals := Bump(categoryTotals, Categorize(step.op), selfCost);
      opTotals := Bump(opTotals, step.op, selfCost);
      frameTotals := Bump(frameTotals, frameKey, selfCost);
      if selfCost > 0 {
        stepCosts := stepCosts + [Bucket(index, selfCost, 1)];
      }
      index := index + 1;
      totals := TotalsAt(steps, contexts, index);
    }
    TotalsAll(steps, contexts);
    profile := GasProfile(
      gasUsed, intrinsic, calldata, execution,
      if gasUsed.Some? then Some(gasUsed.value - intrinsic - execution) else None,
      WithShares(SortByGas(categoryTotals), execution), WithShares(FirstRows(SortByGas(opTotals)), execution),
      FirstRows(SortByGas(stepCosts)), WithShares(SortByGas(frameTotals), execution));
  }

  lemma {:induction false} PlaceTotals<K>(sorted: seq<Bucket<K>>, bucket: Bucket<K>)
    ensures TotalGas(Place(sorted, bucket)) == TotalGas(sorted) + bucket.gas
    ensures TotalCount(Place(sorted, bucket)) == TotalCount(sorted) + bucket.count
  {
    if sorted == [] || sorted[0].gas < bucket.gas {
      DropFirst(bucket, sorted);
    } else {
      PlaceTotals(sorted[1..], bucket);
      DropFirst(sorted[0], Place(sorted[1..], bucket));
    }
  }

  lemma {:induction false} LastTotals<K>(buckets: seq<Bucket<K>>)
    requires buckets != []
    ensures
      var n := |buckets| - 1;
      && TotalGas(buckets) == TotalGas(buckets[..n]) + buckets[n].gas
      && TotalCount(buckets) == TotalCount(buckets[..n]) + buckets[n].count
  {
    var n := |buckets| - 1;
    if n > 0 {
      LastTotals(buckets[1..]);
      assert buckets[1..][..n - 1] == buckets[..n][1..];
    }
  }

  lemma {:induction false} SortTotals<K>(buckets: seq<Bucket<K>>)
    ensures TotalGas(SortByGas(buckets)) == TotalGas(buckets)
    ensures TotalCount(SortByGas(buckets)) == TotalCount(buckets)
  {
    if buckets != [] {
      var n := |buckets| - 1;
      SortTotals(buckets[..n]);
      PlaceTotals(SortByGas(buckets[..n]), buckets[n]);
      LastTotals(buckets);
    }
  }

  /**
   * For every trace, well-formed or not: the tallies by category, by opcode and by
   * frame each account for all of the execution gas and all of the steps, and every
   * row holds exactly the charges and the steps of its own key.
   */
  lemma {:induction false} TalliesPartitionExecution(steps: seq<EvmStep>, contexts: seq<Option<Account>>)
    ensures
      var costs, n := Costs(steps), |steps|;
      var categories := SortByGas(Tally(CategoryKeys(steps), costs, n));
      var ops := SortByGas(Tally(OpKeys(steps), costs, n));
      var frames := SortByGas(Tally(FrameKeys(steps, contexts), costs, n));
      && TotalGas(categories) == TotalGas(ops) == TotalGas(frames) == Sum(costs)
      && TotalCount(categories) == TotalCount(ops) == TotalCount(frames) == n
      && (forall row :: row in categories ==> BucketHolds(row, CategoryKeys(steps), costs, n))
      && (forall row :: row in ops ==> BucketHolds(row, OpKeys(steps), costs, n))
      && (forall row :: row in frames ==> BucketHolds(row, FrameKeys(steps, contexts), costs, n))
  {
    hide SortByGas, Tally, Costs, CategoryKeys, OpKeys, FrameKeys, TotalGas, TotalCount, BucketHolds;
    SortedTally(CategoryKeys(steps), Costs(steps));
    SortedTally(OpKeys(steps), Costs(steps));
    SortedTally(FrameKeys(steps, contexts), Costs(steps));
  }

  /** The shares by category, and those by frame, add up to the whole, if anything was spent. */
  lemma {:induction false} SharesAddUp(steps: seq<EvmStep>, contexts: seq<Option<Account>>)
    ensures
      var costs, n := Costs(steps), |steps|;
      var categories := WithShares(SortByGas(Tally(CategoryKeys(steps), costs, n)), Sum(costs));
      var frames := WithShares(SortByGas(Tally(FrameKeys(steps, contexts), costs, n)), Sum(costs));
      TotalShare(categories) == TotalShare(frames) == if Sum(costs) == 0 then 0.0 else 1.0
  {
    hide SortByGas, Tally, Costs, CategoryKeys, FrameKeys, TotalGas, TotalShare, Sum, WithShares;
    var costs, n := Costs(steps), |steps|;
    TalliesPartitionExecution(steps, contexts);
    SharesOfTotal(SortByGas(Tally(CategoryKeys(steps), costs, n)), Sum(costs));
    SharesOfTotal(SortByGas(Tally(FrameKeys(steps, contexts), costs, n)), Sum(costs));
  }

  lemma {:induction false} SortedTally<K>(keys: seq<K>, costs: seq<nat>)
    requires |keys| == |costs|
    ensures
      var rows := SortByGas(Tally(keys, costs, |keys|));
      && TotalGas(rows) == Sum(costs) && TotalCount(rows) == |keys|
      && (forall row :: row in rows ==> BucketHolds(row, keys, costs, |keys|))
  {
    var tally := Tally(keys, costs, |keys|);
    TallyIsExact(keys, costs, |keys|);
    TallyTotals(keys, costs, |keys|);
    SortSorts(tally);
    SortTotals(tally);
    assert costs[..|keys|] == costs;
    forall row | row in SortByGas(tally) ensures BucketHolds(row, keys, costs, |keys|) {
      assert row in multiset(tally);
      var i :| 0 <= i < |tally| && tally[i] == row;
    }
  }

  // ---------- Gas over nested calls ----------

  /** A frame that ends neither well nor on REVERT keeps none of its gas. */
  predicate Exceptional(last: EvmStep, reverted: bool) {
    reverted && last.op != REVERT
  }

  /** Gas a frame hands back: what its last step leaves, or nothing. */
  function Remainder(f: Frame): int {
    match f
    case Halt(s, reverted) => if Exceptional(s, reverted) then 0 else s.gas - s.gasCost
    case Run(_, r) => Remainder(r)
    case Enter(_, _, _, r) => Remainder(r)
  }

  /** What exceptional ends took beyond the cost of the step they happened on. */
  function Burned(f: Frame): int {
    match f
    case Halt(s, reverted) => if Exceptional(s, reverted) then s.gas - s.gasCost else 0
    case Run(_, r) => Burned(r)
    case Enter(_, _, c, r) => Burned(c) + Burned(r)
  }

  /**
   * How gas moves: a plain step leaves `gas - gasCost`; a call that enters a frame
   * leaves that plus what the frame hands back, its `gasCost` including what it
   * forwarded; a call that enters nothing leaves at least `gas - gasCost`.
   */
  predicate GasLaw(f: Frame) {
    && f.step.gasCost >= 0
    && match f
       case Halt(_, _) => true
       case Run(s, r) =>
         && GasLaw(r)
         && if IsCall(s.op) || IsCreate(s.op) then r.step.gas >= s.gas - s.gasCost
            else r.step.gas == s.gas - s.gasCost
       case Enter(s, _, c, r) =>
         && (IsCall(s.op) || IsCreate(s.op)) && GasLaw(c) && GasLaw(r)
         && r.step.gas == s.gas - s.gasCost + Remainder(c)
  }

  /** Gas charged that was not spent: calls that entered nothing and got gas back, or cost less than they forwarded. */
  ghost function Overcharge(f: Frame): nat
    requires GasLaw(f)
  {
    match f
    case Halt(_, _) => 0
    case Run(s, r) =>
      (if IsCall(s.op) || IsCreate(s.op) then r.step.gas - (s.gas - s.gasCost) else 0) + Overcharge(r)
    case Enter(s, _, c, r) => AtLeastZero(c.step.gas - s.gasCost) + Overcharge(c) + Overcharge(r)
  }

  /** Every unentered call kept its whole cost, and every entered one cost at least what it forwarded. */
  ghost predicate ChargesAreReal(f: Frame) {
    match f
    case Halt(_, _) => true
    case Run(s, r) =>
      (IsCall(s.op) || IsCreate(s.op) ==> r.step.gas == s.gas - s.gasCost) && ChargesAreReal(r)
    case Enter(s, _, c, r) => c.step.gas <= s.gasCost && ChargesAreReal(c) && ChargesAreReal(r)
  }

  lemma {:induction false} OverchargeIsZero(f: Frame)
    requires GasLaw(f)
    ensures Overcharge(f) == 0 <==> ChargesAreReal(f)
  {
    match f
    case Halt(_, _) =>
    case Run(_, r) => OverchargeIsZero(r);
    case Enter(_, _, c, r) => OverchargeIsZero(c); OverchargeIsZero(r);
  }

  lemma {:induction false} CostsCons(step: EvmStep, rest: seq<EvmStep>)
    ensures Sum(Costs([step] + rest)) == SelfCost(step, rest) + Sum(Costs(rest))
  {
    DropFirst(step, rest);
    SumConcat([SelfCost(step, rest)], Costs(rest));
    assert [SelfCost(step, rest)][..0] == [];
  }

  /** A step whose frame goes on or ends is charged its cost. */
  lemma PlainCharge(s: EvmStep, following: seq<EvmStep>)
    requires s.gasCost >= 0
    requires following != [] ==> following[0].depth <= s.depth
    ensures SelfCost(s, following) == s.gasCost
  {}

  /** A call that enters a frame is charged its cost less what the frame starts with, if that is not negative. */
  lemma EnteringCharge(s: EvmStep, following: seq<EvmStep>)
    requires IsCallOp(s.op) && following != [] && following[0].depth > s.depth
    ensures SelfCost(s, following) == s.gasCost - following[0].gas + AtLeastZero(following[0].gas - s.gasCost)
  {}

  /** A frame that starts with a plain step. */
  lemma {:induction false} RunCharge(f: Frame, depth: nat, later: seq<EvmStep>)
    requires f.Run? && f.step.gasCost >= 0 && f.AtDepth(depth)
    ensures Sum(Costs(f.Steps() + later)) == f.step.gasCost + Sum(Costs(f.rest.Steps() + later))
  {
    hide Costs, Sum, SelfCost;
    var following := f.rest.Steps() + later;
    Associate([f.step], f.rest.Steps(), later);
    CostsCons(f.step, following);
    assert following[0] == f.rest.step;
    PlainCharge(f.step, following);
  }

  /** A frame that starts by entering another. */
  lemma {:induction false} EnterCharge(f: Frame, depth: nat, later: seq<EvmStep>)
    requires f.Enter? && IsCallOp(f.step.op) && f.AtDepth(depth)
    ensures Sum(Costs(f.Steps() + later))
         == f.step.gasCost - f.callee.step.gas + AtLeastZero(f.callee.step.gas - f.step.gasCost)
          + Sum(Costs(f.callee.Steps() + (f.rest.Steps() + later)))
  {
    hide Costs, Sum, SelfCost, AtLeastZero, IsCallOp;
    var following := f.callee.Steps() + (f.rest.Steps() + later);
    Regroup(f.step, f.callee.Steps(), f.rest.Steps(), later);
    CostsCons(f.step, following);
    assert following[0] == f.callee.step;
    EnteringCharge(f.step, following);
  }

  lemma {:induction false} HaltCharge(s: EvmStep, later: seq<EvmStep>)
    requires s.gasCost >= 0 && (later != [] ==> later[0].depth <= s.depth)
    ensures Sum(Costs([s] + later)) == s.gasCost + Sum(Costs(later))
  {
    hide Costs, Sum, SelfCost;
    CostsCons(s, later);
    PlainCharge(s, later);
  }

  /**
   * A frame's steps are charged the gas they used, plus the overcharge, less what was
   * burned, whatever steps of its callers follow them.
   */
  lemma {:induction false} FrameGas(f: Frame, depth: nat, later: seq<EvmStep>)
    requires GasLaw(f) && f.AtDepth(depth)
    requires later != [] ==> later[0].depth <= depth
    ensures Sum(Costs(f.Steps() + later))
         == f.step.gas - Remainder(f) + Overcharge(f) - Burned(f) + Sum(Costs(later))
    decreases f
  {
    hide Costs, Sum, AtLeastZero;
    match f
    case Halt(s, _) =>
      HaltCharge(s, later);
    case Run(_, r) =>
      RunCharge(f, depth, later);
      FrameGas(r, depth, later);
    case Enter(_, _, c, r) =>
      EnterCharge(f, depth, later);
      assert (r.Steps() + later)[0] == r.step;
      FrameGas(c, depth + 1, r.Steps() + later);
      FrameGas(r, depth, later);
  }

  /**
   * Gas telescopes over nested calls: `execution` is the gas the root frame used
   * plus the overcharge less the burned gas. Where none is burned it is exact if and
   * only if no call that entered nothing got gas back and every entered call cost at
   * least what it forwarded.
   */
  lemma {:induction false} ExecutionTelescopes(f: Frame)
    requires GasLaw(f) && f.AtDepth(1)
    ensures Sum(Costs(f.Steps())) == f.step.gas - Remainder(f) + Overcharge(f) - Burned(f)
    ensures Burned(f) == 0 ==> (Sum(Costs(f.Steps())) == f.step.gas - Remainder(f) <==> ChargesAreReal(f))
  {
    FrameGas(f, 1, []);
    assert f.Steps() + [] == f.Steps();
    OverchargeIsZero(f);
  }

  /**
   * Against the receipt: the transaction starts with its gas limit less what the chain
   * charged up front, and is billed what it used less a refund. What the profile leaves
   * unaccounted is what its own intrinsic cost misses of that charge (init-code words,
   * access lists), and the burned gas, less the refund and the overcharge.
   */
  lemma {:induction false} UnaccountedIsRefundAndOvercharge(
    f: Frame, gasLimit: int, charged: nat, intrinsic: nat, refund: nat, gasUsed: int
  )
    requires GasLaw(f) && f.AtDepth(1)
    requires f.step.gas == gasLimit - charged
    requires gasUsed == gasLimit - Remainder(f) - refund
    ensures
      var unaccounted := gasUsed - intrinsic - Sum(Costs(f.Steps()));
      && unaccounted == (charged - intrinsic) + Burned(f) - (refund + Overcharge(f))
      && (charged == intrinsic && Burned(f) == 0 ==> (unaccounted == 0 <==> refund == 0 && ChargesAreReal(f)))
  {
    ExecutionTelescopes(f);
    OverchargeIsZero(f);
  }

  /** A call to an account without code gets what it forwarded back, and is charged for it all the same. */
  lemma UnenteredCallIsOvercharged(call: EvmStep, last: EvmStep, forwarded: nat)
    requires call.op == CALL && last.op == STOP && call.depth == last.depth == 1
    requires call.gas == 50_000 && call.gasCost == 2_600 + forwarded && last.gasCost == 0
    requires last.gas == 50_000 - 2_600
    ensures
      var f := Run(call, Halt(last, false));
      && GasLaw(f) && f.AtDepth(1)
      && Sum(Costs(f.Steps())) == (f.step.gas - Remainder(f)) + forwarded
  {
    var rest := Halt(last, false);
    var f := Run(call, rest);
    assert GasLaw(rest) && rest.AtDepth(1) && Remainder(rest) == 47_400;
    assert GasLaw(f) && f.AtDepth(1);
    assert Overcharge(rest) == 0;
    ExecutionTelescopes(f);
  }
}
