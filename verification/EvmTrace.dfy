/**
 * The opcode trace a node returns, and the execution it came from.
 *
 * A trace is a flat list of steps. A `Frame` is the same list before it was
 * flattened: the steps of one call frame in order, with the frames its calls
 * entered nested where they ran. Steps are kept raw, so whatever a node puts in
 * the fields nobody reads (program counters, the rest of the stack, gas) is
 * unconstrained.
 */
module EvmTrace {
  import opened Words

  /** Mnemonics the program tells apart; every other opcode is `OTHER`. */
  datatype Opcode =
    | CALL | CALLCODE | DELEGATECALL | STATICCALL | CREATE | CREATE2
    | SLOAD | SSTORE | LOG(topics: nat)
    | JUMP | JUMPI | JUMPDEST
    | RETURN | STOP | REVERT | INVALID
    | MSTORE | MSTORE8 | MLOAD | MCOPY
    | CALLDATACOPY | CODECOPY | RETURNDATACOPY | EXTCODECOPY
    | OTHER(mnemonic: string)

  datatype TraceKind =
    | CallKind | DelegateCallKind | StaticCallKind | CreateKind
    | SLoadKind | SStoreKind | LogKind | JumpKind | ReturnKind | RevertKind | OtherKind

  /** A contract address; `Nobody` is the empty string the program falls back to. */
  datatype Account = Nobody | Account(address: Address)

  datatype EvmStep = EvmStep(
    pc: nat,
    op: Opcode,
    gas: int,
    gasCost: int,
    depth: nat,
    stack: seq<Word>,
    storage: map<Word, Word>
  )

  function ClassifyOp(op: Opcode): TraceKind {
    match op
    case CALL | CALLCODE => CallKind
    case DELEGATECALL => DelegateCallKind
    case STATICCALL => StaticCallKind
    case CREATE | CREATE2 => CreateKind
    case SLOAD => SLoadKind
    case SSTORE => SStoreKind
    case LOG(_) => LogKind
    case JUMP | JUMPI | JUMPDEST => JumpKind
    case RETURN | STOP => ReturnKind
    case REVERT | INVALID => RevertKind
    case _ => OtherKind
  }

  const ADDRESS_SPACE: nat := 0x1_0000000000_0000000000_0000000000_0000000000

  function Peek(stack: seq<Word>, below: nat): Word
    requires below < |stack|
  {
    stack[|stack| - 1 - below]
  }

  /** The call forms whose target address the program reads off the stack. */
  predicate HasTarget(step: EvmStep) {
    match ClassifyOp(step.op)
    case CallKind => |step.stack| >= 7
    case StaticCallKind | DelegateCallKind => |step.stack| >= 6
    case _ => false
  }

  /** The low 20 bytes of the address operand. */
  function Target(step: EvmStep): Account
    requires HasTarget(step)
  {
    Account(Peek(step.stack, 1) % ADDRESS_SPACE)
  }

  predicate LoadsSlot(step: EvmStep) {
    step.op == SLOAD && |step.stack| >= 1
  }

  predicate StoresSlot(step: EvmStep) {
    step.op == SSTORE && |step.stack| >= 2
  }

  // ---------- Executions ----------

  /**
   * The steps of one call frame. `Halt` ends the frame and says whether its
   * effects were undone; `Enter` is a call or creation whose callee had code, with
   * the address a creation gave the new contract. A call that enters nothing (no
   * code, a precompile, a failed precondition) is an ordinary `Run`.
   */
  datatype Frame =
    | Halt(step: EvmStep, reverted: bool)
    | Run(step: EvmStep, rest: Frame)
    | Enter(step: EvmStep, created: Account, callee: Frame, rest: Frame)
  {
    /** The flattening the node reports. */
    function Steps(): (steps: seq<EvmStep>)
      ensures |steps| > 0 && steps[0] == step
    {
      match this
      case Halt(s, _) => [s]
      case Run(s, r) => [s] + r.Steps()
      case Enter(s, _, c, r) => [s] + c.Steps() + r.Steps()
    }

    predicate Reverts() {
      match this
      case Halt(_, reverted) => reverted
      case Run(_, r) => r.Reverts()
      case Enter(_, _, _, r) => r.Reverts()
    }

    /** No frame below this one, nor this one, was undone. */
    predicate NothingReverts() {
      match this
      case Halt(_, reverted) => !reverted
      case Run(_, r) => r.NothingReverts()
      case Enter(_, _, c, r) => c.NothingReverts() && r.NothingReverts()
    }

    /** Nesting depth as the node counts it: the root frame is 1. */
    predicate AtDepth(depth: nat) {
      step.depth == depth &&
      match this
      case Halt(_, _) => true
      case Run(_, r) => r.AtDepth(depth)
      case Enter(_, _, c, r) => c.AtDepth(depth + 1) && r.AtDepth(depth)
    }
  }

  predicate IsCall(op: Opcode) {
    op == CALL || op == CALLCODE || op == DELEGATECALL || op == STATICCALL
  }

  predicate IsCreate(op: Opcode) {
    op == CREATE || op == CREATE2
  }

  /** What the EVM pops for a call: gas, address, a value for two of the forms, and two memory ranges. */
  predicate HasOperands(step: EvmStep) {
    match step.op
    case CALL | CALLCODE => |step.stack| >= 7
    case DELEGATECALL | STATICCALL => |step.stack| >= 6
    case _ => true
  }

  /** Whose storage the entered frame runs on. The address is the operand just below the gas. */
  function CalleeOwner(step: EvmStep, created: Account, owner: Account): Account
    requires HasOperands(step)
  {
    match step.op
    case CALL | STATICCALL => Account(step.stack[|step.stack| - 2] % ADDRESS_SPACE)
    case CREATE | CREATE2 => created
    case _ => owner
  }

  /**
   * What the EVM guarantees of the calls of a frame running on `owner`'s storage: a
   * frame is entered by a call with its operands on the stack or by a creation, and
   * a created contract is not its creator. Frames may end on any step, for want of
   * gas for instance.
   */
  predicate WellFormed(f: Frame, owner: Account) {
    match f
    case Halt(_, _) => true
    case Run(_, r) => WellFormed(r, owner)
    case Enter(s, created, c, r) =>
      && (IsCall(s.op) || IsCreate(s.op))
      && HasOperands(s)
      && (IsCreate(s.op) ==> created != owner)
      && WellFormed(c, CalleeOwner(s, created, owner))
      && WellFormed(r, owner)
  }

  /** The EVM's law of storage accesses a frame ends on: they failed, so the frame is undone. */
  predicate Lawful(f: Frame) {
    match f
    case Halt(s, reverted) => s.op == SLOAD || s.op == SSTORE ==> reverted
    case Run(_, r) => Lawful(r)
    case Enter(_, _, c, r) => Lawful(c) && Lawful(r)
  }

  /** The storage owner of each step, in trace order. */
  ghost function Owners(f: Frame, owner: Account): (owners: seq<Account>)
    requires WellFormed(f, owner)
    ensures |owners| == |f.Steps()|
  {
    match f
    case Halt(_, _) => [owner]
    case Run(_, r) => [owner] + Owners(r, owner)
    case Enter(s, created, c, r) =>
      [owner] + Owners(c, CalleeOwner(s, created, owner)) + Owners(r, owner)
  }
}
