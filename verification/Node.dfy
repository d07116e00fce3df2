/**
 * The development node, as far as the control API changes it: chain state and the
 * stack of snapshots it can be taken back to.
 *
 * Every remote call carries its fate: answered, lost before it had any effect, or
 * late, when the effect happened and the answer never arrived.
 */
module Node {
  import opened Options
  import opened Words

  datatype Reply = Answered | Lost | Late

  /** How a token contract lays out its balances, and code whose `balanceOf` reverts. */
  datatype Layout = Solidity | Vyper

  datatype Code = BalancesAt(layout: Layout, slot: nat) | Broken

  /** Absent storage cells are zero; an address without an entry has no code. */
  datatype Chain = Chain(storage: map<(Address, Word), Word>, code: map<Address, Code>, height: nat)

  datatype Saved = Saved(id: nat, chain: Chain)

  datatype NodeState = NodeState(chain: Chain, saved: seq<Saved>, nextId: nat)

  function Cell(chain: Chain, token: Address, key: Word): Word {
    if (token, key) in chain.storage then chain.storage[(token, key)] else 0
  }

  function Stored(chain: Chain, token: Address, key: Word, value: Word): Chain {
    chain.(storage := chain.storage[(token, key) := value])
  }

  function Coded(chain: Chain, token: Address, code: Code): Chain {
    chain.(code := chain.code[token := code])
  }

  /** Snapshot ids are handed out in increasing order and never reused. */
  ghost predicate ValidNode(n: NodeState) {
    && (forall i :: 0 <= i < |n.saved| ==> n.saved[i].id < n.nextId)
    && (forall i, j :: 0 <= i < j < |n.saved| ==> n.saved[i].id < n.saved[j].id)
  }

  function IndexOf(saved: seq<Saved>, id: nat): (at: Option<nat>)
    ensures at.Some? ==> at.value < |saved| && saved[at.value].id == id
    ensures at.None? ==> forall i :: 0 <= i < |saved| ==> saved[i].id != id
  {
    if saved == [] then None
    else if saved[|saved| - 1].id == id then Some(|saved| - 1)
    else IndexOf(saved[..|saved| - 1], id)
  }

  predicate Alive(n: NodeState, id: nat) {
    IndexOf(n.saved, id).Some?
  }

  function TakeSnapshot(n: NodeState): NodeState {
    NodeState(n.chain, n.saved + [Saved(n.nextId, n.chain)], n.nextId + 1)
  }

  /** Going back consumes the snapshot and every one taken after it. */
  function RevertTo(n: NodeState, id: nat): NodeState {
    match IndexOf(n.saved, id)
    case Some(i) => NodeState(n.saved[i].chain, n.saved[..i], n.nextId)
    case None => n
  }

  /** Taking a snapshot, leaving the chain in some other state, and going back. */
  function Bracketed(n: NodeState, dirty: Chain, taking: Reply, goingBack: Reply): NodeState {
    match taking
    case Lost => n
    case Late => TakeSnapshot(n)
    case Answered =>
      var used := TakeSnapshot(n).(chain := dirty);
      if goingBack == Lost then used else RevertTo(used, n.nextId)
  }

  /** The node and its older snapshots are as they were; only an id has been spent. */
  ghost predicate GivenBack(before: NodeState, after: NodeState) {
    after.chain == before.chain && after.saved == before.saved && after.nextId >= before.nextId
  }

  /** A snapshot that was never taken, or was confirmed and then gone back to. */
  predicate RolledBack(taking: Reply, goingBack: Reply) {
    taking == Lost || (taking == Answered && goingBack != Lost)
  }

  /** A bracketed run gives everything back exactly when it was rolled back. */
  lemma BracketGivesBack(n: NodeState, dirty: Chain, taking: Reply, goingBack: Reply)
    ensures GivenBack(n, Bracketed(n, dirty, taking, goingBack)) <==> RolledBack(taking, goingBack)
  {
    var taken := TakeSnapshot(n);
    assert taken.saved[..|n.saved|] == n.saved;
    assert taken.saved[|n.saved|].id == n.nextId;
  }

  class Anvil {
    var chain: Chain
    var saved: seq<Saved>
    var nextId: nat

    ghost function State(): NodeState
      reads this
    {
      NodeState(chain, saved, nextId)
    }

    constructor (initial: Chain)
      ensures State() == NodeState(initial, [], 0)
    {
      chain, saved, nextId := initial, [], 0;
    }

    method EvmSnapshot(reply: Reply) returns (id: Option<nat>)
      modifies this
      ensures State() == if reply == Lost then old(State()) else TakeSnapshot(old(State()))
      ensures id == if reply == Answered then Some(old(nextId)) else None
    {
      id := None;
      if reply != Lost {
        saved := saved + [Saved(nextId, chain)];
        if reply == Answered {
          id := Some(nextId);
        }
        nextId := nextId + 1;
      }
    }

    method EvmRevert(id: nat, reply: Reply) returns (reverted: Option<bool>)
      modifies this
      ensures State() == if reply == Lost then old(State()) else RevertTo(old(State()), id)
      ensures reverted == if reply == Answered then Some(Alive(old(State()), id)) else None
    {
      reverted := None;
      if reply != Lost {
        var at := IndexOf(saved, id);
        if at.Some? {
          chain := saved[at.value].chain;
          saved := saved[..at.value];
        }
        if reply == Answered {
          reverted := Some(at.Some?);
        }
      }
    }

    method SetStorageAt(token: Address, key: Word, value: Word, reply: Reply) returns (ok: bool)
      modifies this`chain
      ensures chain == if reply == Lost then old(chain) else Stored(old(chain), token, key, value)
      ensures ok == (reply == Answered)
    {
      if reply != Lost {
        chain := Stored(chain, token, key, value);
      }
      ok := reply == Answered;
    }

    method SetCode(token: Address, code: Code, reply: Reply) returns (ok: bool)
      modifies this`chain
      ensures chain == if reply == Lost then old(chain) else Coded(old(chain), token, code)
      ensures ok == (reply == Answered)
    {
      if reply != Lost {
        chain := Coded(chain, token, code);
      }
      ok := reply == Answered;
    }

    /** Anything else that changes the chain: a transaction, a mined block. */
    method Apply(after: Chain, reply: Reply) returns (ok: bool)
      modifies this`chain
      ensures chain == if reply == Lost then old(chain) else after
      ensures ok == (reply == Answered)
    {
      if reply != Lost {
        chain := after;
      }
      ok := reply == Answered;
    }
  }
}
