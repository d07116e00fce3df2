/**
 * Forcing a token balance: `detectBalanceSlot` and `setTokenBalance`.
 *
 * The hash is a parameter; the program relies on it only to send different pairs of
 * words to different keys.
 */
module TokenBalances {
  import opened Options
  import opened Node
  import MockErc20
  import opened Words

  type Keccak = (nat, nat) -> Word

  ghost predicate CollisionFree(keccak: Keccak) {
    forall a, b, c, d :: keccak(a, b) == keccak(c, d) ==> a == c && b == d
  }

  const MAX_SLOT := 20
  const PROBE_AMOUNT: Word := 1_000_000_000_000_000_000
  const MOCK_BALANCE_SLOT := 0

  /** `balances[holder]` in the Solidity layout, where the key comes first. */
  function SolidityKey(keccak: Keccak, holder: Address, slot: nat): Word {
    keccak(holder, slot)
  }

  /** The same in the Vyper layout, where the slot comes first. */
  function VyperKey(keccak: Keccak, holder: Address, slot: nat): Word {
    keccak(slot, holder)
  }

  /** Where a token's code looks a balance up. */
  function BalanceKey(keccak: Keccak, layout: Layout, holder: Address, slot: nat): Word {
    match layout
    case Solidity => SolidityKey(keccak, holder, slot)
    case Vyper => VyperKey(keccak, holder, slot)
  }

  /** What `balanceOf` answers; `None` when the call reverts. */
  function BalanceOf(keccak: Keccak, chain: Chain, token: Address, holder: Address): Option<Word> {
    if token !in chain.code then Some(0)
    else
      match chain.code[token]
      case BalancesAt(Solidity, slot) => Some(Cell(chain, token, keccak(holder, slot)))
      case BalancesAt(Vyper, slot) => Some(Cell(chain, token, keccak(slot, holder)))
      case Broken => None
  }

  /** What the program makes of it: any failure reads as zero. */
  function Fetched(keccak: Keccak, chain: Chain, token: Address, holder: Address, reply: Reply): Word {
    if reply == Answered then BalanceOf(keccak, chain, token, holder).GetOr(0) else 0
  }

  predicate WorkingToken(chain: Chain, token: Address) {
    token in chain.code && chain.code[token].BalancesAt?
  }

  /** The slot the program settles on for a working token whose mapping is at `at`. */
  function SlotSettled(balance: Word, at: nat): nat {
    if balance == PROBE_AMOUNT || at > MAX_SLOT then 0 else at
  }

  /** The key each probe writes: both layouts of slot 0, then both of slot 1, and so on. */
  function ProbeKey(keccak: Keccak, holder: Address, probe: nat): Word {
    BalanceKey(keccak, if probe % 2 == 0 then Solidity else Vyper, holder, probe / 2)
  }

  lemma ProbesMiss(keccak: Keccak, holder: Address, layout: Layout, slot: nat, probe: nat)
    requires CollisionFree(keccak) && probe / 2 != slot
    ensures ProbeKey(keccak, holder, probe) != BalanceKey(keccak, layout, holder, slot)
  {}

  /** What one probe shows of a working token: its slot, unless the balance is the probe amount already. */
  lemma ProbeTells(keccak: Keccak, chain: Chain, token: Address, holder: Address, probe: nat)
    requires CollisionFree(keccak)
    ensures WorkingToken(chain, token) ==>
      var code := chain.code[token];
      var target := BalanceKey(keccak, code.layout, holder, code.slot);
      var key := ProbeKey(keccak, holder, probe);
      var probed := Stored(chain, token, key, PROBE_AMOUNT);
      && (key == target ==> probe / 2 == code.slot && BalanceOf(keccak, probed, token, holder) == Some(PROBE_AMOUNT))
      && (probe == code.slot * 2 + (if code.layout == Solidity then 0 else 1) ==> key == target)
      && (key != target ==>
            && BalanceOf(keccak, probed, token, holder) == BalanceOf(keccak, chain, token, holder)
            && BalanceOf(keccak, Stored(probed, token, key, 0), token, holder)
               == BalanceOf(keccak, chain, token, holder))
  {
    if WorkingToken(chain, token) && probe / 2 != chain.code[token].slot {
      ProbesMiss(keccak, holder, chain.code[token].layout, chain.code[token].slot, probe);
    }
  }

  /** The answer due for a working token when every call is answered. */
  function SlotDetected(balance: Word, at: nat): Option<nat> {
    if balance == PROBE_AMOUNT || at <= MAX_SLOT then Some(SlotSettled(balance, at)) else None
  }

  /**
   * Probes the layouts of every slot in turn. `reply` is the fate of each remote call
   * from number `first` on; `used` numbers the calls made.
   */
  method ProbeSlots(
    node: Anvil, keccak: Keccak, token: Address, wallet: Address, reply: nat -> Reply, first: nat
  ) returns (slot: Option<nat>, used: nat)
    requires CollisionFree(keccak)
    modifies node`chain
    ensures slot.Some? ==> slot.value <= MAX_SLOT
    // A slot is found only by an answered balance.
    ensures slot.Some? ==> used > first && reply(used - 1) == Answered
    ensures
      (forall k :: reply(k) == Answered) && WorkingToken(old(node.chain), token) ==>
        slot == SlotDetected(BalanceOf(keccak, old(node.chain), token, wallet).value, old(node.chain).code[token].slot)
  {
    hide ProbeKey, BalanceKey, CollisionFree;
    slot, used := None, first;
    ghost var start := node.chain;
    ghost var healthy := (forall k :: reply(k) == Answered) && WorkingToken(start, token);
    var probe: nat := 0;
    while probe / 2 <= MAX_SLOT
      invariant probe <= 2 * MAX_SLOT + 2 && used >= first
      invariant node.chain.code == start.code
      invariant healthy ==>
        && BalanceOf(keccak, node.chain, token, wallet) == BalanceOf(keccak, start, token, wallet)
        && (probe > 0 ==> BalanceOf(keccak, start, token, wallet) != Some(PROBE_AMOUNT))
        && start.code[token].slot * 2 + (if start.code[token].layout == Solidity then 0 else 1) >= probe
      decreases 2 * MAX_SLOT + 2 - probe
    {
      var key := ProbeKey(keccak, wallet, probe);
      ProbeTells(keccak, node.chain, token, wallet, probe);
      var written := node.SetStorageAt(token, key, PROBE_AMOUNT, reply(used));
      used := used + 1;
      if !written {
        return;
      }
      var balance := Fetched(keccak, node.chain, token, wallet, reply(used));
      used := used + 1;
      if balance == PROBE_AMOUNT {
        slot := Some(probe / 2);
        return;
      }
      written := node.SetStorageAt(token, key, 0, reply(used));
      used := used + 1;
      if !written {
        return;
      }
      probe := probe + 1;
    }
  }

  /** Probing inside a snapshot that is gone back to, whatever happened. */
  method DetectBalanceSlot(
    node: Anvil, keccak: Keccak, token: Address, wallet: Address, reply: nat -> Reply, first: nat
  ) returns (slot: Option<nat>, used: nat, ghost dirty: Chain)
    requires CollisionFree(keccak)
    modifies node
    ensures node.State() == Bracketed(old(node.State()), dirty, reply(first), reply(used))
    ensures slot.Some? ==> slot.value <= MAX_SLOT
    ensures
      (forall k :: reply(k) == Answered) && WorkingToken(old(node.chain), token) ==>
        slot == SlotDetected(BalanceOf(keccak, old(node.chain), token, wallet).value, old(node.chain).code[token].slot)
  {
    slot, used, dirty := None, first, node.chain;
    var snapshotId := node.EvmSnapshot(reply(used));
    if snapshotId.None? {
      return;
    }
    slot, used := ProbeSlots(node, keccak, token, wallet, reply, first + 1);
    dirty := node.chain;
    var _ := node.EvmRevert(snapshotId.value, reply(used));
  }

  // ---------- Installing the built-in token ----------

  /** A slot and the word a constructor leaves in it. */
  type SlotWrite = (Word, Word)

  function Written(chain: Chain, token: Address, writes: seq<SlotWrite>): Chain {
    if writes == [] then chain
    else
      var last := writes[|writes| - 1];
      Stored(Written(chain, token, writes[..|writes| - 1]), token, last.0, last.1)
  }

  /**
   * What the built-in token's constructor writes: supply, name, symbol and decimals
   * (`scalars`), and the holder's balance unless it is zero.
   */
  function ConstructorWrites(
    keccak: Keccak, supply: MockErc20.Uint, holder: Address, scalars: seq<SlotWrite>
  ): seq<SlotWrite> {
    scalars + (if supply > 0 then [(SolidityKey(keccak, holder, MOCK_BALANCE_SLOT), supply)] else [])
  }

  const MOCK_CODE := BalancesAt(Solidity, MOCK_BALANCE_SLOT)

  function Installed(
    keccak: Keccak, chain: Chain, token: Address, supply: MockErc20.Uint, holder: Address, scalars: seq<SlotWrite>
  ): Chain {
    Written(Coded(chain, token, MOCK_CODE), token, ConstructorWrites(keccak, supply, holder, scalars))
  }

  /** No balance lives in a slot of the token's other fields. */
  ghost predicate Apart(keccak: Keccak, scalars: seq<SlotWrite>) {
    forall i, a: Address :: 0 <= i < |scalars| ==> scalars[i].0 != SolidityKey(keccak, a, MOCK_BALANCE_SLOT)
  }

  lemma {:induction false} WrittenElsewhere(chain: Chain, token: Address, writes: seq<SlotWrite>, key: Word)
    requires forall i :: 0 <= i < |writes| ==> writes[i].0 != key
    ensures Cell(Written(chain, token, writes), token, key) == Cell(chain, token, key)
    ensures Written(chain, token, writes).code == chain.code
  {
    if writes != [] {
      WrittenElsewhere(chain, token, writes[..|writes| - 1], key);
    }
  }

  /** An installed token's balances: the supply for its holder, and what the address's storage already held. */
  lemma InstalledBalance(
    keccak: Keccak, chain: Chain, token: Address, supply: MockErc20.Uint, holder: Address, scalars: seq<SlotWrite>,
    a: Address
  )
    requires CollisionFree(keccak) && Apart(keccak, scalars)
    ensures BalanceOf(keccak, Installed(keccak, chain, token, supply, holder, scalars), token, a)
         == Some(if a == holder && supply > 0 then supply else Cell(chain, token, keccak(a, 0)))
  {
    var coded, writes := Coded(chain, token, MOCK_CODE), ConstructorWrites(keccak, supply, holder, scalars);
    var key := SolidityKey(keccak, a, MOCK_BALANCE_SLOT);
    WrittenElsewhere(coded, token, scalars, key);
    if supply > 0 {
      assert writes[..|writes| - 1] == scalars;
    } else {
      assert writes == scalars;
    }
  }

  /**
   * The installed token shows the balances of a freshly created one if and only if
   * the address had nothing else in the slots of its balances.
   */
  lemma InstalledIsCreated(
    keccak: Keccak, chain: Chain, token: Address, supply: MockErc20.Uint, holder: Address, scalars: seq<SlotWrite>
  )
    requires CollisionFree(keccak) && Apart(keccak, scalars)
    ensures
      var after := Installed(keccak, chain, token, supply, holder, scalars);
      var created := MockErc20.Created(supply, holder).balances;
      (forall a :: BalanceOf(keccak, after, token, a) == Some(MockErc20.BalanceIn(created, a)))
      <==>
      (forall a :: (a == holder && supply > 0) || Cell(chain, token, keccak(a, 0)) == 0)
  {
    hide Installed, BalanceOf, Cell, CollisionFree, Apart;
    var after := Installed(keccak, chain, token, supply, holder, scalars);
    var created := MockErc20.Created(supply, holder).balances;
    forall a ensures
      BalanceOf(keccak, after, token, a) == Some(MockErc20.BalanceIn(created, a)) <==>
      ((a == holder && supply > 0) || Cell(chain, token, keccak(a, 0)) == 0)
    {
      InstalledBalance(keccak, chain, token, supply, holder, scalars, a);
    }
  }

  /** The address as it was, or with code and some first part of the slots written. */
  ghost predicate PartlyInstalled(
    keccak: Keccak, before: Chain, after: Chain, token: Address, supply: MockErc20.Uint, holder: Address,
    scalars: seq<SlotWrite>
  ) {
    var writes := ConstructorWrites(keccak, supply, holder, scalars);
    after == before ||
    exists n :: 0 <= n <= |writes| && after == Written(Coded(before, token, MOCK_CODE), token, writes[..n])
  }

  /**
   * `deployAt`: simulates the constructor with two calls that change nothing, then
   * writes code and slots one call at a time, stopping where a call fails.
   */
  method DeployAt(
    node: Anvil, keccak: Keccak, token: Address, supply: MockErc20.Uint, holder: Address, scalars: seq<SlotWrite>,
    reply: nat -> Reply, first: nat
  ) returns (ok: bool)
    modifies node`chain
    ensures PartlyInstalled(keccak, old(node.chain), node.chain, token, supply, holder, scalars)
    ensures ok ==> node.chain == Installed(keccak, old(node.chain), token, supply, holder, scalars)
    ensures ok <==>
      forall k :: first <= k < first + 3 + |ConstructorWrites(keccak, supply, holder, scalars)| ==> reply(k) == Answered
  {
    if reply(first) != Answered || reply(first + 1) != Answered {
      return false;
    }
    var writes := ConstructorWrites(keccak, supply, holder, scalars);
    ok := node.SetCode(token, MOCK_CODE, reply(first + 2));
    ghost var coded := Coded(old(node.chain), token, MOCK_CODE);
    assert Written(coded, token, writes[..0]) == coded;
    if !ok {
      return;
    }
    var i := 0;
    while i < |writes|
      invariant 0 <= i <= |writes|
      invariant node.chain == Written(coded, token, writes[..i])
      invariant forall k :: first <= k < first + 3 + i ==> reply(k) == Answered
    {
      assert writes[..i + 1][..i] == writes[..i];
      ok := node.SetStorageAt(token, writes[i].0, writes[i].1, reply(first + 3 + i));
      if !ok {
        return;
      }
      i := i + 1;
    }
    assert writes[..i] == writes;
  }

  /** Whether the program finds a token it can leave alone: code, and an answer to `balanceOf`. */
  predicate Usable(keccak: Keccak, chain: Chain, token: Address, reply: nat -> Reply) {
    reply(0) == Answered && token in chain.code && reply(1) == Answered && BalanceOf(keccak, chain, token, 1).Some?
  }

  /** Leaves a usable token alone, and installs the built-in one otherwise. */
  method EnsureContractExists(
    node: Anvil, keccak: Keccak, token: Address, holder: Address, amount: MockErc20.Uint, scalars: seq<SlotWrite>,
    reply: nat -> Reply
  ) returns (ok: bool, injected: bool)
    modifies node`chain
    ensures
      Usable(keccak, old(node.chain), token, reply) <==>
      reply(0) == reply(1) == Answered && token in old(node.chain).code && old(node.chain).code[token] != Broken
    ensures Usable(keccak, old(node.chain), token, reply) ==> ok && !injected && node.chain == old(node.chain)
    ensures !Usable(keccak, old(node.chain), token, reply) ==>
      && injected == ok
      && PartlyInstalled(keccak, old(node.chain), node.chain, token, amount, holder, scalars)
      && (ok ==> node.chain == Installed(keccak, old(node.chain), token, amount, holder, scalars))
      && ((forall k :: k >= 2 ==> reply(k) == Answered) ==> ok)
  {
    if reply(0) == Answered && token in node.chain.code {
      if reply(1) == Answered && BalanceOf(keccak, node.chain, token, 1).Some? {
        return true, false;
      }
    }
    ok := DeployAt(node, keccak, token, amount, holder, scalars, reply, 2);
    injected := ok;
  }

  // ---------- Setting a balance ----------

  /** Whether a working token's holder reads `amount` once `slot` of the Solidity layout is written. */
  predicate ReadsBack(code: Code, balance: Word, holder: Address, slot: nat, amount: Word)
    requires code.BalancesAt?
  {
    balance == amount || (slot == code.slot && (code.layout == Solidity || holder == code.slot))
  }

  /** Solidity's key for the holder is Vyper's for somebody else when the two numbers are swapped. */
  predicate HitsOther(code: Code, holder: Address, slot: nat, other: Address)
    requires code.BalancesAt?
  {
    code.layout == Vyper && holder == code.slot && other == slot
  }

  /**
   * Writing a slot of the Solidity layout changes the holder's balance if and only if
   * the slot is the token's and its layout is Solidity's, or the two layouts coincide
   * for this holder; it changes anybody else's only where the two layouts cross.
   */
  lemma BalanceAfterWrite(keccak: Keccak, chain: Chain, token: Address, holder: Address, slot: nat, amount: Word)
    requires CollisionFree(keccak) && WorkingToken(chain, token)
    ensures
      var after := Stored(chain, token, SolidityKey(keccak, holder, slot), amount);
      var balance := BalanceOf(keccak, chain, token, holder).value;
      && BalanceOf(keccak, after, token, holder)
         == Some(if ReadsBack(chain.code[token], balance, holder, slot, amount) then amount else balance)
      && (forall other :: other != holder ==>
            BalanceOf(keccak, after, token, other)
            == if HitsOther(chain.code[token], holder, slot, other) then Some(amount)
               else BalanceOf(keccak, chain, token, other))
  {}

  /** `setTokenBalance` without the announcement. */
  method SetTokenBalance(
    node: Anvil, keccak: Keccak, token: Address, wallet: Address, amount: MockErc20.Uint,
    mappingSlot: Option<nat>, scalars: seq<SlotWrite>, reply: nat -> Reply
  ) returns (ok: bool, injected: bool, slot: nat, used: nat)
    requires CollisionFree(keccak)
    modifies node
    // Whatever fails, as long as probing is rolled back: at most the one cell of a usable token changes.
    ensures Usable(keccak, old(node.chain), token, reply)
            && (mappingSlot.Some? || RolledBack(reply(2), reply(used))) ==>
      && !injected && node.saved == old(node.saved)
      && (node.chain == old(node.chain)
          || node.chain == Stored(old(node.chain), token, keccak(wallet, slot), amount))
      && (slot <= 20 || mappingSlot == Some(slot))
    // An address without one is left alone, or with the built-in token up to where a call failed.
    ensures !Usable(keccak, old(node.chain), token, reply) ==>
      && injected == ok && node.saved == old(node.saved)
      && PartlyInstalled(keccak, old(node.chain), node.chain, token, amount, wallet, scalars)
    // When every call is answered: that cell is written, at the slot the program settles on.
    ensures
      (forall k :: reply(k) == Answered) && WorkingToken(old(node.chain), token) ==>
        && ok && !injected && node.saved == old(node.saved)
        && node.chain == Stored(old(node.chain), token, keccak(wallet, slot), amount)
        && slot == mappingSlot.GetOr(
             SlotSettled(BalanceOf(keccak, old(node.chain), token, wallet).value, old(node.chain).code[token].slot))
    // So the amount is read back exactly when that slot and Solidity's layout are the token's.
    ensures
      (forall k :: reply(k) == Answered) && WorkingToken(old(node.chain), token) ==>
        var balance := BalanceOf(keccak, old(node.chain), token, wallet).value;
        var code := old(node.chain).code[token];
        var (layout, at) := (code.layout, code.slot);
        && (BalanceOf(keccak, node.chain, token, wallet) == Some(amount)
            <==> ReadsBack(code, balance, wallet, slot, amount))
        && (mappingSlot.None? ==>
             (BalanceOf(keccak, node.chain, token, wallet) == Some(amount)
              <==>
              (balance == amount ||
               (at <= 20 && (layout == Solidity || wallet == at)
                && (balance != 1_000_000_000_000_000_000 || at == 0)))))
        && (forall other :: other != wallet ==>
             BalanceOf(keccak, node.chain, token, other)
             == if HitsOther(code, wallet, slot, other) then Some(amount)
                else BalanceOf(keccak, old(node.chain), token, other))
    // Without a usable token the built-in one is installed, crediting the wallet.
    ensures
      (forall k :: reply(k) == Answered) && !WorkingToken(old(node.chain), token) && Apart(keccak, scalars) ==>
        && ok && injected && node.saved == old(node.saved)
        && node.chain == Installed(keccak, old(node.chain), token, amount, wallet, scalars)
        && (BalanceOf(keccak, node.chain, token, wallet) == Some(amount)
            <==> amount > 0 || Cell(old(node.chain), token, keccak(wallet, 0)) == 0)
  {
    hide Installed, Apart, PartlyInstalled;
    slot, used := MOCK_BALANCE_SLOT, 2;
    ok, injected := EnsureContractExists(node, keccak, token, wallet, amount, scalars, reply);
    if !ok || injected {
      if Apart(keccak, scalars) {
        InstalledBalance(keccak, old(node.chain), token, amount, wallet, scalars, wallet);
      }
      return;
    }
    ghost var before := node.State();
    if mappingSlot.Some? {
      slot := mappingSlot.value;
    } else {
      var found;
      ghost var dirty;
      found, used, dirty := DetectBalanceSlot(node, keccak, token, wallet, reply, 2);
      BracketGivesBack(before, dirty, reply(2), reply(used));
      slot := found.GetOr(0);
    }
    ok := node.SetStorageAt(token, SolidityKey(keccak, wallet, slot), amount, reply(used + 1));
    if WorkingToken(old(node.chain), token) {
      BalanceAfterWrite(keccak, old(node.chain), token, wallet, slot, amount);
    }
  }

  // ---------- Where the amount does not read back ----------

  /** A holder of exactly the probe amount keeps it, on a token with its mapping at slot 3. */
  method ProbeAmountDefeatsDetection(
    node: Anvil, keccak: Keccak, token: Address, wallet: Address, amount: MockErc20.Uint, reply: nat -> Reply
  )
    requires CollisionFree(keccak) && forall k :: reply(k) == Answered
    requires token in node.chain.code && node.chain.code[token] == BalancesAt(Solidity, 3)
    requires BalanceOf(keccak, node.chain, token, wallet) == Some(PROBE_AMOUNT) && amount != PROBE_AMOUNT
    modifies node
    ensures BalanceOf(keccak, node.chain, token, wallet) == Some(PROBE_AMOUNT)
  {
    var ok, injected, slot, used := SetTokenBalance(node, keccak, token, wallet, amount, None, [], reply);
    BalanceAfterWrite(keccak, old(node.chain), token, wallet, slot, amount);
  }

  /** A token in Vyper's layout is found, and then written in Solidity's: the balance stays. */
  method VyperBalanceIsNotSet(
    node: Anvil, keccak: Keccak, token: Address, wallet: Address, amount: MockErc20.Uint, reply: nat -> Reply
  )
    requires CollisionFree(keccak) && forall k :: reply(k) == Answered
    requires token in node.chain.code && node.chain.code[token] == BalancesAt(Vyper, 1) && wallet != 1
    modifies node
    ensures BalanceOf(keccak, node.chain, token, wallet) == BalanceOf(keccak, old(node.chain), token, wallet)
  {
    var ok, injected, slot, used := SetTokenBalance(node, keccak, token, wallet, amount, None, [], reply);
    BalanceAfterWrite(keccak, old(node.chain), token, wallet, slot, amount);
  }

  /** A mapping one slot beyond the last one probed: slot 0 is written, and the balance stays. */
  method SlotBeyondReachIsNotSet(
    node: Anvil, keccak: Keccak, token: Address, wallet: Address, amount: MockErc20.Uint, reply: nat -> Reply
  )
    requires CollisionFree(keccak) && forall k :: reply(k) == Answered
    requires token in node.chain.code && node.chain.code[token] == BalancesAt(Solidity, MAX_SLOT + 1)
    modifies node
    ensures BalanceOf(keccak, node.chain, token, wallet) == BalanceOf(keccak, old(node.chain), token, wallet)
  {
    var ok, injected, slot, used := SetTokenBalance(node, keccak, token, wallet, amount, None, [], reply);
    BalanceAfterWrite(keccak, old(node.chain), token, wallet, slot, amount);
  }
}
