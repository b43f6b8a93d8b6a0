# Registry address lookup

A Dafny model of the lookup a Celo node uses to find which contract currently
implements a protocol service. Such a service might be "Validators". The
lookup takes a 32-byte registry identifier. It asks the registry contract at
its fixed address, through one read-only call capped by a fixed gas ceiling.
The whole lookup runs inside a "no gas" scope. The scope's release is
deferred, so it runs on every return path.

The lookup has five outcomes:

| registry code | static call | returned pair |
|---|---|---|
| absent | not issued | `(nil, ErrRegistryContractNotDeployed)` |
| present | fails with `ErrEmptyArguments`, i.e. a proxy with no implementation | `(nil, ErrRegistryContractNotDeployed)` |
| present | fails with any other error `e`, reverts included | `(nil, e)` |
| present | decodes the zero address | `(nil, ErrSmartContractNotDeployed)` |
| present | decodes a non-zero address `A` | `(&A, nil)` |

Files:

- `types.dfy` (module `Types`) holds the shared data:
  - bytes, 32-byte hashes, 20-byte addresses and the zero address;
  - the error values, as distinct constants compared by value, like Go's `==` on sentinel errors;
  - the call request, and the outcome of the call after decoding.
- `nogas.dfy` (module `NoGas`) models the no-gas scope. The metering state is the current "gas is charged" flag plus a stack of the flags saved by enclosing scopes. Opening the scope pushes the flag and turns charging off. The release pops the flag and restores it. A lookup is observed as a trace of events, and `Replay` runs that trace against a metering state.
- `registry.dfy` (module `Registry`) holds the lookup itself and its properties.

The virtual machine is a plain value, `ContractCaller`. It holds the set of addresses that have code, and a total function giving the decoded outcome of any read-only call. The registry address and the gas ceiling are node configuration. They are passed in as a `Params` value.

## Model

| member | source | states |
|---|---|---|
| `Registry.GetRegisteredAddress` | contracts/registry.go:37-64 | Covers all five outcomes. With no registry code the result is `ErrRegistryContractNotDeployed` and no call is issued. An empty result gives that same error. Any other call error comes back unchanged. A zero address gives `ErrSmartContractNotDeployed`. A non-zero address comes back as the result. Exactly one of address and error is nil, and a returned address is never zero. The scope is opened first and released last, each exactly once. The deployment check comes first inside the scope. Besides it, the only other event is at most one call. The call is the last event before the release, and it carries the fixed target, `getAddressFor`, the given identifier and the fixed gas ceiling. |
| `Registry.ClassifyCall` | contracts/registry.go:50-63 | Sorts a call outcome: an empty result maps to `ErrRegistryContractNotDeployed`, any other error passes through unchanged, a zero address maps to `ErrSmartContractNotDeployed`, and a non-zero decoded address succeeds with exactly that address. An address comes out only in that last case. |
| `Registry.SucceedsIff` | contracts/registry.go:59-63 | An address `a` is returned if and only if the registry has code, the call decodes `a`, and `a` is non-zero. |
| `Registry.RegistryNotDeployedIff` | contracts/registry.go:41-56 | `ErrRegistryContractNotDeployed` is returned if and only if one of three things happened: the registry has no code, the call gave an empty result, or the call itself failed with that same error value. |
| `Registry.SmartContractNotDeployedIff` | contracts/registry.go:55-61 | `ErrSmartContractNotDeployed` is returned if and only if the registry has code and the call either decoded the zero address or itself failed with that same error value. |
| `Registry.OtherErrorIff` | contracts/registry.go:50-57 | Any other error `e` is returned if and only if the registry has code, the call failed with `e`, and `e` is not `ErrEmptyArguments`. So `ErrEmptyArguments` never escapes, and `ErrExecutionReverted` is propagated rather than merged. |
| `Registry.ResultFollowsContext` | contracts/registry.go:37-64 | Nothing is cached between lookups. Two contexts that agree on the registry's code and on the answer to this one request give the same result. Two deployed contexts that bind the identifier to different non-zero addresses give different results. |
| `Registry.LookupRestoresMetering` | contracts/registry.go:38 | Whatever the outcome, the lookup's trace leaves every metering state as it found it. Every event between open and release, the deployment check and the call included, runs with gas not charged. |
| `Registry.SerialLookupsRestoreMetering` | contracts/registry.go:38 | Any number of lookups made one after another on one context together leave metering as they found it. |
| `Registry.NestedLookupRestoresMetering` | contracts/registry.go:38 | A lookup made from code that is already inside a no-gas scope leaves the enclosing scope balanced. |
| `NoGas.Step` | contracts/registry.go:38 | The scope semantics assumed for `evm.StartNoGas()` and its release action. Opening saves the current flag on the stack and turns charging off. A release fails only when no scope is open; otherwise it pops the most recently saved flag back, so it undoes exactly the latest open. Events that are not scope events leave the state alone. |
| `NoGas.WithNoGas` | contracts/registry.go:38 | The deferred-release wrapper opens first and releases last. The wrapped trace leaves every metering state as it found it when the body opens and releases nothing, and also when the body itself restores metering, as a nested scope does. |
| `NoGas.ScopedBodyRestores` | contracts/registry.go:38 | Opening the scope, running a body that opens and releases nothing, then releasing restores every metering state. |
| `NoGas.ScopedBodyUncharged` | contracts/registry.go:38 | Each event of such a body runs with charging off, and the caller's flag sits on top of the saved stack. |
| `NoGas.WithNoGasRestores` | contracts/registry.go:38 | A scope wrapped around a body that restores metering restores metering itself. |
| `NoGas.ReplayAppend` | contracts/registry.go:38 | Replaying two traces one after the other gives the same state as replaying their concatenation. |
| `NoGas.ScopeFreeReplay` | contracts/registry.go:41-46 | Events that neither open nor release a scope do not change metering. These are the deployment check and the static call. |

## Left out

- The ABI JSON text and its parsing into `getAddressForFuncABI` (contracts/registry.go:13-35). It is library parsing, and its error is discarded. The model names the function `getAddressFor` and treats the ABI as fixed.
- The internals of `StaticCallFromSystem`, the EVM, ABI encoding and decoding, and gas metering. They are not part of this model. The call is a total function from request to decoded outcome, given as part of `ContractCaller`.
- How `ContractDeployed` inspects state. It is modelled as membership in a set of addresses with code.
- The values of `params.RegistrySmartContractAddress` and `params.MaxGasForGetAddressFor`. They are defined in a package that is not part of this model, so they are fields of `Params`.
- The inside of `evm.StartNoGas`, which is not part of this model. Its scope is modelled as a strictly nested push and pop of the "gas is charged" flag, which is what the deferred release relies on.
- Enforcement of the gas ceiling, and concurrency across execution contexts. Both belong to the virtual machine. The model only shows that the ceiling is passed unchanged with the call.
- Panics and abnormal unwinding. In Go the deferred release also runs when `ContractDeployed` or `StaticCallFromSystem` panics. The model's call outcome is total and never panics, so it states release only on the five return paths.
- The commented-out alternative at contracts/registry.go:53, which would also map execution reverts to `ErrRegistryContractNotDeployed`. It is not live code, so a revert is modelled as an ordinary propagated error.
