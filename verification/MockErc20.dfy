/**
 * The token the state patcher installs: `MockERC20`.
 *
 * The contract's storage is updated in place, one call at a time, and its balance
 * arithmetic is unchecked. `TokenState` is that storage as a value; the laws of
 * whole runs are stated over it.
 */
module MockErc20 {
  import opened Words

  const UINT_SPACE: nat := 0x1_0000000000000000_0000000000000000_0000000000000000_0000000000000000
  const UINT_MAX: nat := UINT_SPACE - 1

  /** A 256-bit unsigned word. */
  type Uint = x: nat | x < UINT_SPACE witness 0

  const ZERO_ADDRESS: Address := 0

  datatype Event =
    | Transferred(from: Address, to: Address, value: Uint)
    | Approved(owner: Address, spender: Address, value: Uint)

  datatype Call =
    | TransferCall(sender: Address, to: Address, value: Uint)
    | ApproveCall(sender: Address, spender: Address, value: Uint)
    | TransferFromCall(sender: Address, from: Address, to: Address, value: Uint)

  /** Absent mapping entries are zero. */
  type Balances = map<Address, Uint>
  type Allowances = map<(Address, Address), Uint>

  datatype TokenState = TokenState(
    balances: Balances,
    allowances: Allowances,
    totalSupply: Uint,
    events: seq<Event>
  )

  function BalanceIn(balances: Balances, a: Address): Uint {
    if a in balances then balances[a] else 0
  }

  function AllowanceIn(allowances: Allowances, owner: Address, spender: Address): Uint {
    if (owner, spender) in allowances then allowances[(owner, spender)] else 0
  }

  /** Arithmetic inside `unchecked`: modulo 2^256. */
  function UncheckedAdd(a: Uint, b: Uint): Uint {
    (a + b) % UINT_SPACE
  }

  function UncheckedSub(a: Uint, b: Uint): Uint {
    (a - b) % UINT_SPACE
  }

  // ---------- The contract ----------

  function Created(supply: Uint, holder: Address): TokenState {
    if supply > 0 then
      TokenState(map[holder := supply], map[], supply, [Transferred(ZERO_ADDRESS, holder, supply)])
    else
      TokenState(map[], map[], supply, [])
  }

  /** The two balance updates of `_move`, the second reading what the first wrote. */
  function Debited(balances: Balances, from: Address, value: Uint): Balances {
    balances[from := UncheckedSub(BalanceIn(balances, from), value)]
  }

  function Credited(balances: Balances, to: Address, value: Uint): Balances {
    balances[to := UncheckedAdd(BalanceIn(balances, to), value)]
  }

  /** Whether the call's `require`s hold; a call that fails one has no effect. */
  predicate Succeeds(s: TokenState, c: Call) {
    match c
    case TransferCall(sender, _, value) => BalanceIn(s.balances, sender) >= value
    case ApproveCall(_, _, _) => true
    case TransferFromCall(sender, from, _, value) =>
      AllowanceIn(s.allowances, from, sender) >= value && BalanceIn(s.balances, from) >= value
  }

  function Moved(s: TokenState, from: Address, to: Address, value: Uint): TokenState {
    s.(balances := Credited(Debited(s.balances, from, value), to, value),
       events := s.events + [Transferred(from, to, value)])
  }

  /** What is left of an allowance after spending from it; the maximum is never used up. */
  function SpendAllowance(s: TokenState, owner: Address, spender: Address, value: Uint): TokenState
    requires AllowanceIn(s.allowances, owner, spender) >= value
  {
    var allowed := AllowanceIn(s.allowances, owner, spender);
    if allowed != UINT_MAX then s.(allowances := s.allowances[(owner, spender) := allowed - value]) else s
  }

  function Step(s: TokenState, c: Call): TokenState {
    if !Succeeds(s, c) then s
    else
      match c
      case TransferCall(sender, to, value) => Moved(s, sender, to, value)
      case ApproveCall(sender, spender, value) =>
        s.(allowances := s.allowances[(sender, spender) := value],
           events := s.events + [Approved(sender, spender, value)])
      case TransferFromCall(sender, from, to, value) =>
        Moved(SpendAllowance(s, from, sender, value), from, to, value)
  }

  // ---------- What a transfer does ----------

  /** The value goes from one account to the other and to no third, and one event says so. */
  ghost predicate Pays(before: TokenState, after: TokenState, from: Address, to: Address, value: Uint) {
    && (from != to ==>
          && BalanceIn(after.balances, from) == BalanceIn(before.balances, from) - value
          && BalanceIn(after.balances, to) == BalanceIn(before.balances, to) + value)
    && (forall a :: (a != from && a != to) || from == to ==>
          BalanceIn(after.balances, a) == BalanceIn(before.balances, a))
    && after.totalSupply == before.totalSupply
    && after.events == before.events + [Transferred(from, to, value)]
  }

  /** The spender's allowance falls by the value, unless it is the maximum; every other stays. */
  ghost predicate Spends(before: Allowances, after: Allowances, owner: Address, spender: Address, value: Uint) {
    forall o, s :: AllowanceIn(after, o, s) == AllowanceIn(before, o, s) -
      (if o == owner && s == spender && AllowanceIn(before, o, s) != UINT_SPACE - 1 then value else 0)
  }

  /** Between accounts of a token whose balances sum to its supply, a transfer that succeeds pays exactly. */
  lemma TransfersPay(s: TokenState, c: Call)
    requires Conserved(s) && Succeeds(s, c)
    ensures c.TransferCall? ==> Pays(s, Step(s, c), c.sender, c.to, c.value)
    ensures c.TransferFromCall? ==> Pays(s, Step(s, c), c.from, c.to, c.value)
  {
    match c
    case TransferCall(sender, to, value) => MovePays(s, sender, to, value);
    case ApproveCall(_, _, _) =>
    case TransferFromCall(sender, from, to, value) => MovePays(SpendAllowance(s, from, sender, value), from, to, value);
  }

  lemma MovePays(s: TokenState, from: Address, to: Address, value: Uint)
    requires Conserved(s) && BalanceIn(s.balances, from) >= value
    ensures Pays(s, Moved(s, from, to, value), from, to, value)
  {
    MoveIsExact(s.balances, s.totalSupply, from, to, value);
  }

  class MockERC20 {
    var balanceOf: Balances
    var allowance: Allowances
    var totalSupply: Uint
    var events: seq<Event>

    ghost function State(): TokenState
      reads this
    {
      TokenState(balanceOf, allowance, totalSupply, events)
    }

    constructor (supply: Uint, holder: Address)
      ensures State() == Created(supply, holder)
      ensures totalSupply == supply && allowance == map[]
      ensures forall a :: BalanceIn(balanceOf, a) == if a == holder then supply else 0
      ensures events == if supply > 0 then [Transferred(0, holder, supply)] else []
    {
      totalSupply := supply;
      allowance := map[];
      balanceOf := map[];
      events := [];
      new;
      if supply > 0 {
        balanceOf := balanceOf[holder := supply];
        events := events + [Transferred(ZERO_ADDRESS, holder, supply)];
      }
    }

    method Transfer(sender: Address, to: Address, value: Uint) returns (ok: bool)
      modifies this
      ensures ok == Succeeds(old(State()), TransferCall(sender, to, value))
      ensures State() == Step(old(State()), TransferCall(sender, to, value))
      ensures ok <==> BalanceIn(old(balanceOf), sender) >= value
      ensures ok && Conserved(old(State())) ==> Pays(old(State()), State(), sender, to, value)
      ensures allowance == old(allowance) && (!ok ==> State() == old(State()))
    {
      if Conserved(State()) && Succeeds(State(), TransferCall(sender, to, value)) {
        TransfersPay(State(), TransferCall(sender, to, value));
      }
      ok := Move(sender, to, value);
    }

    method Approve(sender: Address, spender: Address, value: Uint)
      modifies this
      ensures State() == Step(old(State()), ApproveCall(sender, spender, value))
      ensures forall o, s ::
        AllowanceIn(allowance, o, s)
        == (if o == sender && s == spender then value else AllowanceIn(old(allowance), o, s))
      ensures balanceOf == old(balanceOf) && totalSupply == old(totalSupply)
      ensures events == old(events) + [Approved(sender, spender, value)]
    {
      allowance := allowance[(sender, spender) := value];
      events := events + [Approved(sender, spender, value)];
    }

    method TransferFrom(sender: Address, from: Address, to: Address, value: Uint) returns (ok: bool)
      modifies this
      ensures ok == Succeeds(old(State()), TransferFromCall(sender, from, to, value))
      ensures State() == Step(old(State()), TransferFromCall(sender, from, to, value))
      ensures ok <==> AllowanceIn(old(allowance), from, sender) >= value && BalanceIn(old(balanceOf), from) >= value
      ensures ok && Conserved(old(State())) ==> Pays(old(State()), State(), from, to, value)
      ensures ok ==> Spends(old(allowance), allowance, from, sender, value)
      ensures !ok ==> State() == old(State())
    {
      if Conserved(State()) && Succeeds(State(), TransferFromCall(sender, from, to, value)) {
        TransfersPay(State(), TransferFromCall(sender, from, to, value));
      }
      var allowanceBefore := allowance;
      var allowed := AllowanceIn(allowance, from, sender);
      if allowed < value {
        return false;
      }
      if allowed != UINT_MAX {
        allowance := allowance[(from, sender) := allowed - value];
      }
      ok := Move(from, to, value);
      if !ok {
        // The whole call is undone by the failing `require`.
        allowance := allowanceBefore;
      }
    }

    method Move(from: Address, to: Address, value: Uint) returns (ok: bool)
      modifies this
      ensures ok == (BalanceIn(old(balanceOf), from) >= value)
      ensures State() == if ok then Moved(old(State()), from, to, value) else old(State())
    {
      if BalanceIn(balanceOf, from) < value {
        return false;
      }
      balanceOf := balanceOf[from := UncheckedSub(BalanceIn(balanceOf, from), value)];
      balanceOf := balanceOf[to := UncheckedAdd(BalanceIn(balanceOf, to), value)];
      events := events + [Transferred(from, to, value)];
      ok := true;
    }
  }

  // ---------- The sum of all balances ----------

  ghost function Total(balances: map<Address, Uint>): nat
    decreases |balances|
  {
    if balances == map[] then 0
    else
      var a :| a in balances;
      balances[a] + Total(balances - {a})
  }

  lemma {:induction false} TotalWithout(balances: Balances, a: Address)
    requires a in balances
    ensures Total(balances) == balances[a] + Total(balances - {a})
    decreases |balances|
  {
    var b :| b in balances && Total(balances) == balances[b] + Total(balances - {b});
    if a != b {
      TotalWithout(balances - {b}, a);
      TotalWithout(balances - {a}, b);
      assert (balances - {a}) - {b} == (balances - {b}) - {a};
    }
  }

  lemma TotalUpdate(balances: Balances, a: Address, value: Uint)
    ensures Total(balances[a := value]) == Total(balances) - BalanceIn(balances, a) + value
  {
    var updated := balances[a := value];
    TotalWithout(updated, a);
    assert updated - {a} == balances - {a};
    if a in balances {
      TotalWithout(balances, a);
    } else {
      assert balances - {a} == balances;
    }
  }

  lemma {:induction false} BalanceBelowTotal(balances: Balances, a: Address)
    ensures BalanceIn(balances, a) <= Total(balances)
  {
    if a in balances {
      TotalWithout(balances, a);
    }
  }

  // ---------- Runs ----------

  function Run(s: TokenState, calls: seq<Call>): TokenState {
    if calls == [] then s else Step(Run(s, calls[..|calls| - 1]), calls[|calls| - 1])
  }

  /** Everything that exists is in someone's balance. */
  ghost predicate Conserved(s: TokenState) {
    Total(s.balances) == s.totalSupply
  }

  /** The unchecked updates of a move between any two accounts give the plain difference and sum. */
  ghost predicate MovesExactly(balances: Balances, from: Address, to: Address, value: Uint) {
    var debited := Debited(balances, from, value);
    && BalanceIn(debited, from) == BalanceIn(balances, from) - value
    && BalanceIn(Credited(debited, to, value), to) == BalanceIn(debited, to) + value
  }

  lemma {:induction false} MoveIsExact(balances: Balances, supply: Uint, from: Address, to: Address, value: Uint)
    requires Total(balances) == supply && BalanceIn(balances, from) >= value
    ensures MovesExactly(balances, from, to, value)
    ensures Total(Credited(Debited(balances, from, value), to, value)) == supply
  {
    var debited := Debited(balances, from, value);
    TotalUpdate(balances, from, UncheckedSub(BalanceIn(balances, from), value));
    BalanceBelowTotal(debited, to);
    assert BalanceIn(debited, to) + value <= supply;
    TotalUpdate(debited, to, UncheckedAdd(BalanceIn(debited, to), value));
  }

  lemma StepConserves(s: TokenState, c: Call)
    requires Conserved(s)
    ensures Conserved(Step(s, c)) && Step(s, c).totalSupply == s.totalSupply
  {
    if Succeeds(s, c) {
      match c
      case TransferCall(sender, to, value) => MoveIsExact(s.balances, s.totalSupply, sender, to, value);
      case ApproveCall(_, _, _) =>
      case TransferFromCall(_, from, to, value) => MoveIsExact(s.balances, s.totalSupply, from, to, value);
    }
  }

  /**
   * Over every run from deployment the balances sum to the supply, so the unchecked
   * arithmetic of a move that passes its `require` never wraps, whoever it is
   * between.
   */
  lemma {:induction false} SupplyIsConserved(supply: Uint, holder: Address, calls: seq<Call>)
    ensures
      var s := Run(Created(supply, holder), calls);
      && Total(s.balances) == s.totalSupply == supply
      && (forall from, to, value: Uint :: BalanceIn(s.balances, from) >= value
            ==> MovesExactly(s.balances, from, to, value))
  {
    var s := Run(Created(supply, holder), calls);
    if calls == [] {
      var none: Balances := map[];
      assert none[holder := supply] == map[holder := supply];
      TotalUpdate(none, holder, supply);
    } else {
      SupplyIsConserved(supply, holder, calls[..|calls| - 1]);
      StepConserves(Run(Created(supply, holder), calls[..|calls| - 1]), calls[|calls| - 1]);
    }
    forall from, to, value: Uint | BalanceIn(s.balances, from) >= value
      ensures MovesExactly(s.balances, from, to, value)
    {
      MoveIsExact(s.balances, s.totalSupply, from, to, value);
    }
  }

  // ---------- Replaying the events ----------

  /**
   * What an indexer that has seen only the events believes each account holds.
   * A transfer from the zero address is a mint: it credits and debits nobody.
   */
  ghost function Replayed(events: seq<Event>, a: Address): int {
    if events == [] then 0
    else
      var before, e := Replayed(events[..|events| - 1], a), events[|events| - 1];
      match e
      case Approved(_, _, _) => before
      case Transferred(from, to, value) =>
        before - (if from == a && from != ZERO_ADDRESS then value else 0) + (if to == a then value else 0)
  }

  /** What a call moves out of the zero address. */
  ghost function TakenFromZero(s: TokenState, c: Call): nat {
    if !Succeeds(s, c) then 0
    else
      match c
      case TransferCall(sender, _, value) => if sender == ZERO_ADDRESS then value else 0
      case ApproveCall(_, _, _) => 0
      case TransferFromCall(_, from, _, value) => if from == ZERO_ADDRESS then value else 0
  }

  /** What has been transferred out of the zero address by calls, not minted. */
  ghost function OutOfZero(s: TokenState, calls: seq<Call>): nat {
    if calls == [] then 0
    else
      OutOfZero(s, calls[..|calls| - 1])
      + TakenFromZero(Run(s, calls[..|calls| - 1]), calls[|calls| - 1])
  }

  /** Replaying one more transfer event. */
  lemma {:induction false} ReplayMove(s: TokenState, from: Address, to: Address, value: Uint, a: Address)
    requires Conserved(s) && BalanceIn(s.balances, from) >= value
    ensures
      var s' := Moved(s, from, to, value);
      Replayed(s'.events, a) - BalanceIn(s'.balances, a)
      == Replayed(s.events, a) - BalanceIn(s.balances, a) + (if a == from == ZERO_ADDRESS then value else 0)
  {
    MoveIsExact(s.balances, s.totalSupply, from, to, value);
    var e := Transferred(from, to, value);
    assert (s.events + [e])[..|s.events|] == s.events;
  }

  lemma {:induction false} ReplayDrift(supply: Uint, holder: Address, calls: seq<Call>, a: Address)
    ensures
      var s := Run(Created(supply, holder), calls);
      Replayed(s.events, a)
      == BalanceIn(s.balances, a) + (if a == ZERO_ADDRESS then OutOfZero(Created(supply, holder), calls) else 0)
  {
    var start := Created(supply, holder);
    if calls == [] {
      assert start.events != [] ==> start.events[..0] == [];
    } else {
      SupplyIsConserved(supply, holder, calls[..|calls| - 1]);
      ReplayDrift(supply, holder, calls[..|calls| - 1], a);
      ReplayStep(Run(start, calls[..|calls| - 1]), calls[|calls| - 1], a);
    }
  }

  lemma {:induction false} ReplayApproval(
    events: seq<Event>, owner: Address, spender: Address, value: Uint, a: Address
  )
    ensures Replayed(events + [Approved(owner, spender, value)], a) == Replayed(events, a)
  {
    assert (events + [Approved(owner, spender, value)])[..|events|] == events;
  }

  lemma {:induction false} ReplayStep(s: TokenState, c: Call, a: Address)
    requires Conserved(s)
    ensures
      var s' := Step(s, c);
      Replayed(s'.events, a) - BalanceIn(s'.balances, a)
      == Replayed(s.events, a) - BalanceIn(s.balances, a) + (if a == ZERO_ADDRESS then TakenFromZero(s, c) else 0)
  {
    hide Replayed, Moved, Total, BalanceIn;
    if Succeeds(s, c) {
      match c
      case TransferCall(sender, to, value) => ReplayMove(s, sender, to, value, a);
      case ApproveCall(sender, spender, value) =>
        ReplayApproval(s.events, sender, spender, value, a);
      case TransferFromCall(sender, from, to, value) =>
        ReplayMove(SpendAllowance(s, from, sender, value), from, to, value, a);
    }
  }

  /**
   * Over every run, replaying the Transfer events gives every account's balance,
   * if and only if nothing was moved out of the zero address after deployment.
   */
  lemma {:induction false} EventsReplayBalances(supply: Uint, holder: Address, calls: seq<Call>)
    ensures
      var s := Run(Created(supply, holder), calls);
      (forall a :: Replayed(s.events, a) == BalanceIn(s.balances, a))
      <==> OutOfZero(Created(supply, holder), calls) == 0
  {
    var s := Run(Created(supply, holder), calls);
    ReplayDrift(supply, holder, calls, ZERO_ADDRESS);
    if OutOfZero(Created(supply, holder), calls) == 0 {
      forall a ensures Replayed(s.events, a) == BalanceIn(s.balances, a) {
        ReplayDrift(supply, holder, calls, a);
      }
    }
  }

  ghost predicate ZeroGrantsNothing(s: TokenState) {
    forall spender :: AllowanceIn(s.allowances, ZERO_ADDRESS, spender) == 0
  }

  lemma StepGrantsNothing(s: TokenState, c: Call)
    requires ZeroGrantsNothing(s) && c.sender != ZERO_ADDRESS
    ensures ZeroGrantsNothing(Step(s, c)) && TakenFromZero(s, c) == 0
  {
    assert AllowanceIn(s.allowances, ZERO_ADDRESS, c.sender) == 0;
    forall spender ensures AllowanceIn(Step(s, c).allowances, ZERO_ADDRESS, spender) == 0 {
      assert AllowanceIn(s.allowances, ZERO_ADDRESS, spender) == 0;
    }
  }

  /** With no call sent by the zero address, as on any chain that checks signatures, nothing moves out of it. */
  lemma {:induction false} NobodySpendsFromZero(supply: Uint, holder: Address, calls: seq<Call>)
    requires forall i :: 0 <= i < |calls| ==> calls[i].sender != ZERO_ADDRESS
    ensures OutOfZero(Created(supply, holder), calls) == 0
    ensures ZeroGrantsNothing(Run(Created(supply, holder), calls))
  {
    if calls != [] {
      NobodySpendsFromZero(supply, holder, calls[..|calls| - 1]);
      StepGrantsNothing(Run(Created(supply, holder), calls[..|calls| - 1]), calls[|calls| - 1]);
    }
  }

  /** The failure is real: tokens minted to the zero address and then moved from there are counted twice. */
  lemma SpendingFromZeroBreaksReplay(supply: Uint, to: Address)
    requires supply > 0 && to != ZERO_ADDRESS
    ensures
      var s := Run(Created(supply, ZERO_ADDRESS), [TransferCall(ZERO_ADDRESS, to, supply)]);
      BalanceIn(s.balances, ZERO_ADDRESS) == 0 && Replayed(s.events, ZERO_ADDRESS) == supply
  {
    var start, calls := Created(supply, ZERO_ADDRESS), [TransferCall(ZERO_ADDRESS, to, supply)];
    assert calls[..0] == [] && Run(start, []) == start;
    assert start.events[..0] == [];
    assert Replayed(start.events, ZERO_ADDRESS) == supply;
    var s := Run(start, calls);
    assert s == Step(start, calls[0]);
    assert Succeeds(start, calls[0]);
    assert s.events[..|s.events| - 1] == start.events;
  }

  // ---------- Allowances ----------

  /** What `spender` has moved out of `owner`'s account through `transferFrom`. */
  ghost function Spent(s: TokenState, calls: seq<Call>, owner: Address, spender: Address): nat {
    if calls == [] then 0
    else
      var before, c := Run(s, calls[..|calls| - 1]), calls[|calls| - 1];
      Spent(s, calls[..|calls| - 1], owner, spender) +
      (if c.TransferFromCall? && c.sender == spender && c.from == owner && Succeeds(before, c) then c.value else 0)
  }

  /**
   * Since an approval of `value`, and until the next one for the same spender: what
   * the spender has moved plus what it may still move is `value`, unless `value` is
   * the maximum, which never runs down.
   */
  lemma {:induction false} AllowanceIsAccounted(
    s: TokenState, owner: Address, spender: Address, value: Uint, calls: seq<Call>
  )
    requires forall i :: 0 <= i < |calls| ==>
      !(calls[i].ApproveCall? && calls[i].sender == owner && calls[i].spender == spender)
    ensures
      var approved := Step(s, ApproveCall(owner, spender, value));
      var remaining := AllowanceIn(Run(approved, calls).allowances, owner, spender);
      if value == UINT_MAX then remaining == UINT_MAX
      else Spent(approved, calls, owner, spender) + remaining == value
  {
    if calls != [] {
      AllowanceIsAccounted(s, owner, spender, value, calls[..|calls| - 1]);
    }
  }
}
