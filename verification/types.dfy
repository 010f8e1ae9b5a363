/** Data model of the multi-signature wallet contract `Counter`: its storage
    layout, the `TxStruct` ledger entry, the error enum, the events it logs,
    and the result of a call. */
module Types {

  /** An account address; the zero address is the null identity. The
      160-bit width of addresses is not modelled. */
  type Address = nat

  const ZERO_ADDRESS: Address := 0

  /** Modulus of the contract's `U256` arithmetic. */
  const U256_MODULUS: nat := 0x1_0000_0000_0000_0000_0000_0000_0000_0000_0000_0000_0000_0000_0000_0000_0000_0000

  type Byte = bv8

  /** One ledger entry, the storage struct `TxStruct`. */
  datatype TxStruct = TxStruct(
    to: Address,
    value: nat,
    data: seq<Byte>,
    executed: bool,
    numConfirmations: nat)

  /** The error enum `MultiSigError` returned by the external methods. */
  datatype MultiSigError =
    | ZeroOwners
    | NotOwner
    | TxDoesNotExist
    | TxAlreadyExecuted
    | TxAlreadyConfirmed
    | TxNotConfirmed
    | ExecuteFailed

  /** The reasons for which a call panics (or, in the Solidity reference,
      fails a `require` or a checked addition) instead of returning an error. */
  datatype PanicReason =
    | InvalidConfirmationNumber
    | InvalidOwner
    | OwnerNotUnique
    | ArithmeticOverflow

  /** Why a call failed: an `Err` returned by the method, or a panic. Either way
      the host reverts the call, so the wallet is left as it was. */
  datatype Failure =
    | Revert(error: MultiSigError)
    | Panicked(reason: PanicReason)

  datatype Result<+T> = Ok(value: T) | Err(failure: Failure)

  /** The events the contract logs (the deposit event is not modelled). */
  datatype Event =
    | SubmitTransaction(owner: Address, txIndex: nat, to: Address, value: nat, data: seq<Byte>)
    | ConfirmTransaction(owner: Address, txIndex: nat)
    | RevokeConfirmation(owner: Address, txIndex: nat)
    | ExecuteTransaction(owner: Address, txIndex: nat)

  /** The contract's persistent storage plus the log of emitted events.
      `ownerSet` is the `is_owner` mapping and `confirmed` the `is_confirmed`
      mapping, each represented by the keys that hold `true` (storage mappings
      read `false` for every key never set, and clearing a cell stores `false`). */
  datatype Wallet = Wallet(
    owners: seq<Address>,
    ownerSet: set<Address>,
    required: nat,
    transactions: seq<TxStruct>,
    confirmed: set<(nat, Address)>,
    log: seq<Event>)

  /** Storage of a freshly deployed contract: every slot zero. */
  function Deployed(): (w: Wallet)
    ensures w.owners == [] && w.ownerSet == {} && w.required == 0
    ensures w.transactions == [] && w.confirmed == {} && w.log == []
  {
    Wallet([], {}, 0, [], {}, [])
  }

  /** The contract's `uint256 - 1`, which wraps around below zero. */
  function DecrementU256(x: nat): (r: nat)
    ensures r < U256_MODULUS
    ensures x == 0 ==> r == U256_MODULUS - 1
    ensures 0 < x <= U256_MODULUS ==> r == x - 1
  {
    (x - 1) % U256_MODULUS
  }
}
