/**
 Plain data shared by the registry lookup: bytes, 32-byte identifiers,
 20-byte account addresses, the error values the lookup can return, and the
 shape of the one read-only call it issues.
 */
module Types {

  newtype byte = x: int | 0 <= x < 256

  /** A 32-byte service identifier (a `common.Hash` in the node). */
  type Hash = s: seq<byte> | |s| == 32 witness seq(32, _ => 0)

  /** A 20-byte account address (a `common.Address` in the node). */
  type Address = s: seq<byte> | |s| == 20 witness seq(20, _ => 0)

  /** The all-zero address, which the registry returns for an unbound identifier. */
  const ZeroAddress: Address := [0, 0, 0, 0, 0, 0, 0, 0, 0, 0, 0, 0, 0, 0, 0, 0, 0, 0, 0, 0]

  datatype Option<+T> = None | Some(value: T)

  /**
   Error values. The first two are the lookup's own errors; the others stand
   for whatever the static call can fail with. Errors are compared by value:
   each constructor stands for one distinct sentinel error value, and
   `OtherError` for any further error, identified by its message.
   */
  datatype Error =
    | ErrRegistryContractNotDeployed
    | ErrSmartContractNotDeployed
    | ErrEmptyArguments      // the decoder found no return data
    | ErrExecutionReverted
    | OtherError(message: string)

  /** The registry function the lookup invokes, as named in its ABI. */
  const GetAddressForMethod: string := "getAddressFor"

  /** One read-only call: target, ABI method, its single `bytes32` argument and the gas ceiling. */
  datatype CallRequest = CallRequest(to: Address, methodName: string, identifier: Hash, gas: nat)

  /** What the static call plus decoding of its `address` output produced. */
  datatype CallOutcome = Returned(decoded: Address) | Failed(err: Error)
}
