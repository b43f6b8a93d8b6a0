/**
 The registry lookup: resolve a 32-byte service identifier to the address the
 on-chain registry currently binds it to, through one bounded read-only call
 made inside a "no gas" scope, and sort the outcome into five cases.
 */
module Registry {
  import opened Types
  import opened NoGas

  /** The registry's fixed address and the gas ceiling for one lookup (node configuration). */
  datatype Params = Params(registryAddress: Address, maxGasForGetAddressFor: nat)

  /**
   What the lookup sees of the virtual machine: the set of addresses that hold
   contract code in this execution context, and the outcome, decoded as an
   `address`, of any read-only call it could issue.
   */
  datatype ContractCaller = ContractCaller(code: set<Address>, staticCall: CallRequest -> CallOutcome)

  /** `evm.ContractDeployed(addr)`: the context holds contract code at `addr`. */
  predicate ContractDeployed(evm: ContractCaller, addr: Address) {
    addr in evm.code
  }

  /** Go's `(*common.Address, error)` return pair; `None` is `nil`. */
  datatype Lookup = Lookup(addr: Option<Address>, err: Option<Error>)

  /** A lookup's return pair together with the trace of what it did. */
  datatype Resolution = Resolution(ret: Lookup, trace: seq<Event>)

  function Succeed(a: Address): Lookup {
    Lookup(Some(a), None)
  }

  function Fail(e: Error): Lookup {
    Lookup(None, Some(e))
  }

  /** The call `getAddressFor(registryId)` against the registry, bounded by the gas ceiling. */
  function AddressForRequest(p: Params, registryId: Hash): CallRequest
  {
    CallRequest(p.registryAddress, GetAddressForMethod, registryId, p.maxGasForGetAddressFor)
  }

  /**
   Sorting the static call's outcome: an empty result means a registry proxy
   with no implementation and is reported like a missing registry; any other
   failure passes through untouched; a zero address means the identifier is
   unbound. A revert is one of the "other" failures.
   */
  function ClassifyCall(outcome: CallOutcome): (l: Lookup)
    ensures l.addr.Some? != l.err.Some?
    ensures l.addr.Some? ==> outcome == Returned(l.addr.value) && l.addr.value != ZeroAddress
    ensures outcome == Failed(ErrEmptyArguments) ==> l.err == Some(ErrRegistryContractNotDeployed)
    ensures outcome.Failed? && outcome.err != ErrEmptyArguments ==> l.err == Some(outcome.err)
    ensures outcome == Returned(ZeroAddress) ==> l.err == Some(ErrSmartContractNotDeployed)
    ensures outcome.Returned? && outcome.decoded != ZeroAddress ==> l == Succeed(outcome.decoded)
  {
    match outcome
    case Failed(e) =>
      if e == ErrEmptyArguments then Fail(ErrRegistryContractNotDeployed) else Fail(e)
    case Returned(a) =>
      if a == ZeroAddress then Fail(ErrSmartContractNotDeployed) else Succeed(a)
  }

  /** Everything after the scope is opened: the deployment guard, then at most one call. */
  function LookupBody(p: Params, evm: ContractCaller, registryId: Hash): (Lookup, seq<Event>) {
    if !ContractDeployed(evm, p.registryAddress) then
      (Fail(ErrRegistryContractNotDeployed), [CodeQuery(p.registryAddress)])
    else
      var req := AddressForRequest(p, registryId);
      (ClassifyCall(evm.staticCall(req)), [CodeQuery(p.registryAddress), StaticCall(req)])
  }

  /**
   `GetRegisteredAddress`. The no-gas scope is opened before the deployment
   check and its release is deferred, so every return path runs inside it.
   */
  function GetRegisteredAddress(p: Params, evm: ContractCaller, registryId: Hash): (r: Resolution)
    // the scope is opened first, released last, and each exactly once; nothing
    // else happens besides the one deployment check and at most one call
    ensures |r.trace| == if ContractDeployed(evm, p.registryAddress) then 4 else 3
    ensures r.trace[0] == StartNoGas && r.trace[|r.trace| - 1] == ReleaseNoGas
    // registry absent: fixed error, and no call is issued
    ensures !ContractDeployed(evm, p.registryAddress) ==>
      r.ret == Fail(ErrRegistryContractNotDeployed)
      && forall i :: 0 <= i < |r.trace| ==> !r.trace[i].StaticCall?
    // registry present: exactly one call, the last thing before the release, with
    // the fixed target, method, identifier and ceiling
    ensures ContractDeployed(evm, p.registryAddress) ==>
      r.trace[|r.trace| - 2] == StaticCall(AddressForRequest(p, registryId))
    ensures forall i, j :: 0 <= i < |r.trace| && 0 <= j < |r.trace| && r.trace[i].StaticCall? && r.trace[j].StaticCall? ==> i == j
    ensures forall i :: 0 <= i < |r.trace| && r.trace[i].StaticCall? ==>
      r.trace[i].req.to == p.registryAddress
      && r.trace[i].req.methodName == GetAddressForMethod
      && r.trace[i].req.identifier == registryId
      && r.trace[i].req.gas == p.maxGasForGetAddressFor
    // empty result: merged with the absent registry
    ensures ContractDeployed(evm, p.registryAddress)
      ==> (evm.staticCall(AddressForRequest(p, registryId)) == Failed(ErrEmptyArguments)
           ==> r.ret == Fail(ErrRegistryContractNotDeployed))
    // any other failure: propagated unchanged
    ensures ContractDeployed(evm, p.registryAddress)
      ==> forall e :: (evm.staticCall(AddressForRequest(p, registryId)) == Failed(e) && e != ErrEmptyArguments)
           ==> r.ret == Fail(e)
    // zero address: the identifier is unbound
    ensures ContractDeployed(evm, p.registryAddress)
      ==> (evm.staticCall(AddressForRequest(p, registryId)) == Returned(ZeroAddress)
           ==> r.ret == Fail(ErrSmartContractNotDeployed))
    // non-zero address: success with exactly that address
    ensures ContractDeployed(evm, p.registryAddress)
      ==> forall a :: (evm.staticCall(AddressForRequest(p, registryId)) == Returned(a) && a != ZeroAddress)
           ==> r.ret == Succeed(a)
    // exactly one of address and error is nil; a returned address is never zero
    ensures r.ret.addr.Some? != r.ret.err.Some?
    ensures r.ret.addr.Some? ==> r.ret.addr.value != ZeroAddress
    // the deployment guard, on the registry address, is the first thing done inside the scope
    ensures r.trace[1] == CodeQuery(p.registryAddress)
    ensures forall i :: 0 < i < |r.trace| ==> r.trace[i] != StartNoGas
    ensures forall i :: 0 <= i < |r.trace| - 1 ==> r.trace[i] != ReleaseNoGas
  {
    var inner := LookupBody(p, evm, registryId);
    Resolution(inner.0, WithNoGas(inner.1))
  }

  /** Reading the return pair back: an address comes out exactly when the registry binds a non-zero one. */
  lemma SucceedsIff(p: Params, evm: ContractCaller, registryId: Hash, a: Address)
    ensures GetRegisteredAddress(p, evm, registryId).ret.addr == Some(a) <==>
      ContractDeployed(evm, p.registryAddress)
      && evm.staticCall(AddressForRequest(p, registryId)) == Returned(a)
      && a != ZeroAddress
  {
  }

  /**
   `ErrRegistryContractNotDeployed` comes back exactly when the registry has
   no code, the call produced an empty result, or the call itself failed with
   that very error value: the three are indistinguishable to the caller.
   */
  lemma RegistryNotDeployedIff(p: Params, evm: ContractCaller, registryId: Hash)
    ensures GetRegisteredAddress(p, evm, registryId).ret.err == Some(ErrRegistryContractNotDeployed) <==>
      !ContractDeployed(evm, p.registryAddress)
      || evm.staticCall(AddressForRequest(p, registryId)) == Failed(ErrEmptyArguments)
      || evm.staticCall(AddressForRequest(p, registryId)) == Failed(ErrRegistryContractNotDeployed)
  {
  }

  /**
   `ErrSmartContractNotDeployed` comes back exactly when the deployed registry
   returned the zero address, or the call failed with that same error value.
   */
  lemma SmartContractNotDeployedIff(p: Params, evm: ContractCaller, registryId: Hash)
    ensures GetRegisteredAddress(p, evm, registryId).ret.err == Some(ErrSmartContractNotDeployed) <==>
      ContractDeployed(evm, p.registryAddress)
      && (evm.staticCall(AddressForRequest(p, registryId)) == Returned(ZeroAddress)
          || evm.staticCall(AddressForRequest(p, registryId)) == Failed(ErrSmartContractNotDeployed))
  {
  }

  /**
   Any error other than the lookup's own two comes back exactly when the
   deployed registry's call failed with it; `ErrEmptyArguments` never escapes.
   */
  lemma OtherErrorIff(p: Params, evm: ContractCaller, registryId: Hash, e: Error)
    requires e != ErrRegistryContractNotDeployed && e != ErrSmartContractNotDeployed
    ensures GetRegisteredAddress(p, evm, registryId).ret.err == Some(e) <==>
      ContractDeployed(evm, p.registryAddress)
      && evm.staticCall(AddressForRequest(p, registryId)) == Failed(e)
      && e != ErrEmptyArguments
  {
  }

  /**
   Nothing is remembered between lookups: the result depends only on the
   context's code at the registry address and its answer to this one request,
   so two contexts that agree there agree on the result, and two deployed
   contexts binding the identifier to different non-zero addresses disagree.
   */
  lemma ResultFollowsContext(p: Params, c1: ContractCaller, c2: ContractCaller, registryId: Hash)
    ensures (ContractDeployed(c1, p.registryAddress) == ContractDeployed(c2, p.registryAddress)
             && c1.staticCall(AddressForRequest(p, registryId)) == c2.staticCall(AddressForRequest(p, registryId)))
      ==> GetRegisteredAddress(p, c1, registryId) == GetRegisteredAddress(p, c2, registryId)
    ensures forall a1, a2 ::
      ContractDeployed(c1, p.registryAddress) && ContractDeployed(c2, p.registryAddress)
      && c1.staticCall(AddressForRequest(p, registryId)) == Returned(a1)
      && c2.staticCall(AddressForRequest(p, registryId)) == Returned(a2)
      && a1 != ZeroAddress && a2 != ZeroAddress && a1 != a2 ==>
      GetRegisteredAddress(p, c1, registryId).ret != GetRegisteredAddress(p, c2, registryId).ret
  {
  }

  /** Event `k` of trace `t`, replayed from `s`, finds gas off and the caller's flag saved. */
  ghost predicate RunsUncharged(s: MeterState, t: seq<Event>, k: nat)
    requires k < |t|
  {
    Replay(s, t[..k + 1]) == Some(MeterState(false, s.saved + [s.charged]))
  }

  /**
   Whatever the outcome, the lookup leaves gas metering as it found it, and
   both the deployment check and the call run with gas not charged.
   */
  lemma LookupRestoresMetering(p: Params, evm: ContractCaller, registryId: Hash)
    ensures Restores(GetRegisteredAddress(p, evm, registryId).trace)
    ensures forall s: MeterState, k: nat :: 0 < k < |GetRegisteredAddress(p, evm, registryId).trace| - 1 ==>
      RunsUncharged(s, GetRegisteredAddress(p, evm, registryId).trace, k)
  {
    var body := LookupBody(p, evm, registryId).1;
    assert ScopeFree(body);
    ScopedBodyRestores(body);
    forall s: MeterState, k: nat | 0 < k < |body| + 1
      ensures RunsUncharged(s, WithNoGas(body), k)
    {
      ScopedBodyUncharged(s, body, k - 1);
    }
  }

  /** The traces of lookups made one after another in the same context. */
  function SerialTrace(p: Params, evm: ContractCaller, ids: seq<Hash>): seq<Event>
    decreases |ids|
  {
    if |ids| == 0 then []
    else GetRegisteredAddress(p, evm, ids[0]).trace + SerialTrace(p, evm, ids[1..])
  }

  /** Lookups serialized on one context each restore metering, so the whole run does too. */
  lemma {:induction false} SerialLookupsRestoreMetering(p: Params, evm: ContractCaller, ids: seq<Hash>)
    ensures Restores(SerialTrace(p, evm, ids))
    decreases |ids|
  {
    if |ids| == 0 {
      forall s ensures Replay(s, SerialTrace(p, evm, ids)) == Some(s) {
      }
    } else {
      LookupRestoresMetering(p, evm, ids[0]);
      SerialLookupsRestoreMetering(p, evm, ids[1..]);
      SequenceRestores(GetRegisteredAddress(p, evm, ids[0]).trace, SerialTrace(p, evm, ids[1..]));
    }
  }

  /**
   A lookup made from code that is already inside a no-gas scope (a system
   call resolving a service) still leaves the enclosing scope balanced.
   */
  lemma NestedLookupRestoresMetering(p: Params, evm: ContractCaller, registryId: Hash)
    ensures Restores(WithNoGas(GetRegisteredAddress(p, evm, registryId).trace))
  {
    LookupRestoresMetering(p, evm, registryId);
  }
}
