# Wasm runtime core: artifact/instance bookkeeping and the host side of the guest boundary

This project models two parts of the Exonum Wasm runtime and proves properties about them.

The first part is the runtime's bookkeeping (`runtimes/wasm/src/lib.rs`). It has four pieces of state:

- the catalog of available artifacts, fixed when `WasmRuntimeBuilder::build` runs;
- the set of deployed artifacts;
- the started service instances, indexed by numeric id;
- the same instances indexed by name.

The model is the class `WasmRuntime.WasmRuntime`. It has one field for each piece of state, and its methods change the fields in place, as the Rust methods do. The Rust methods that only read state are Dafny functions, except `artifacts_to_pretty_string`. That one is a method, because it walks the hash map's keys in an unspecified order (see "## Left out").

The pure functions `Added` and `Removed` act on a `ServiceTable` value, which holds both indices. They describe what adding or removing an instance does to the two indices. The lemmas about them state exactly when the indices stay in agreement: each index is the inverse of the other, so no id is bound to two names and no name to two ids.

The second part is `VMLogic` (`runtimes/wasm/src/vm/logic.rs`), the host functions one guest call may use. Its state is:

- a register file, a map from `u64` ids to byte vectors;
- the `ReturnData` outcome of the call;
- the guest's linear memory, modelled as a byte array.

Every memory access is bounds-checked first. The check `FitsMemory(offset, len, size)` is `offset + len <= size`, computed over mathematical integers, so it cannot wrap around. The host functions are proved against the pure functions `GetVec`, `SetSlice` and `Splice`. Round-trip and frame laws are proved about those functions.

The modules are:

- `Base`: integer ranges, `Bytes`, `Result`, `Option`;
- `Text`: decimal rendering, `join`, and the `Mentions` predicate used for error descriptions;
- `VmError`: the enums in `vm/error.rs`;
- `VmLogic`: `logic.rs`;
- `WasmRuntime`: `lib.rs`.

Where the code panics because the core misused the runtime, the model has a precondition instead. Those places are:

- deploying an artifact that is already deployed;
- creating a service from an artifact outside the catalog;
- executing for an unknown instance id.

## Model

| member | source | states |
|---|---|---|
| WasmRuntime.WasmRuntimeBuilder.constructor | runtimes/wasm/src/lib.rs:109 | a new builder has an empty catalog |
| WasmRuntime.WasmRuntimeBuilder.WithFactory | runtimes/wasm/src/lib.rs:111-117 | the catalog gains the factory under the factory's own artifact id; a later factory with the same id replaces the earlier one; a catalog keyed by artifact stays keyed by artifact |
| WasmRuntime.WasmRuntimeBuilder.Build | runtimes/wasm/src/lib.rs:119-129 | the new runtime has the builder's catalog; nothing is deployed or started; `changed_services_since_last_block` is true; the runtime invariant holds when the catalog is keyed by artifact |
| WasmRuntime.WasmRuntime.Build | runtimes/wasm/src/lib.rs:119-129 | the runtime's initial state: the given catalog, an empty deployed set, both instance indices empty, the change flag set |
| WasmRuntime.WasmRuntime.IsArtifactDeployed | runtimes/wasm/src/lib.rs:253-255 | true exactly when the id is in the deployed set |
| WasmRuntime.WasmRuntime.Deploy | runtimes/wasm/src/lib.rs:174-193 | requires the artifact not yet deployed (the source panics otherwise); succeeds iff the artifact is in the catalog, and then adds exactly that id, after which it is deployed; otherwise returns `UnableToDeploy` with the deployed set unchanged, and the description names the artifact and every available artifact; catalog and instance indices are untouched; the runtime invariant is preserved |
| WasmRuntime.WasmRuntime.DeployArtifact | runtimes/wasm/src/lib.rs:244-251 | a non-empty spec yields an `IncorrectArtifactId` error and leaves the deployed set unchanged; an empty spec behaves as `deploy`, whose double-deploy precondition applies only on that path: success iff the artifact is in the catalog, after which it is deployed; otherwise `UnableToDeploy` with the set unchanged and a description naming the artifact and every available artifact |
| WasmRuntime.WasmRuntime.UnloadArtifact | runtimes/wasm/src/lib.rs:257-265 | removes exactly that id, after which it is not deployed; an artifact that was not deployed leaves the set as it was; the runtime invariant is preserved |
| WasmRuntime.WasmRuntime.AddStartedService | runtimes/wasm/src/lib.rs:163-167 | afterwards `started_services[id]` is the instance and `started_services_by_name[name]` is its id; every other binding is unchanged; when the indices agreed before, they agree afterwards iff neither the id nor the name was bound to another partner |
| WasmRuntime.WasmRuntime.RemoveStartedService | runtimes/wasm/src/lib.rs:169-172 | deletes exactly the spec's name from the name index and its id from the id index; every other binding is unchanged; agreement is kept iff the id and name were partners or both unbound |
| WasmRuntime.Added | runtimes/wasm/src/lib.rs:163-167 | the instance is found under its id and its name; the key sets grow by exactly those keys; every other entry keeps its value |
| WasmRuntime.Removed | runtimes/wasm/src/lib.rs:169-172 | the key sets shrink by exactly the given id and name; every remaining entry keeps its value |
| WasmRuntime.AddedAgreesIff | runtimes/wasm/src/lib.rs:163-167 | for agreeing indices, adding an instance keeps them in agreement if and only if its id and name are not bound to different partners (both directions) |
| WasmRuntime.RemovedAgreesIff | runtimes/wasm/src/lib.rs:169-172 | for agreeing indices, removing an id and a name keeps agreement if and only if they were partners of each other or both unbound |
| WasmRuntime.AddedThenRemoved | runtimes/wasm/src/lib.rs:163-172 | adding an instance whose id and name are both unbound, then removing it, restores both indices exactly |
| WasmRuntime.Instance.Descriptor | runtimes/wasm/src/lib.rs:101 | the descriptor carries the instance's id and name |
| WasmRuntime.WasmRuntime.NewService | runtimes/wasm/src/lib.rs:195-214 | requires the artifact in the catalog (the source panics otherwise); always `Ok`; the instance's id and name come from the descriptor, its artifact is the requested one, and its service is the one the factory creates; the runtime is not changed |
| WasmRuntime.WasmRuntime.ArtifactsToPrettyString | runtimes/wasm/src/lib.rs:216-226 | "None" for an empty catalog; otherwise the join with ", " of the rendered catalog keys, each listed exactly once in some order, so every available artifact is mentioned |
| WasmRuntime.UnableToDeployDescription | runtimes/wasm/src/lib.rs:182-187 | the `UnableToDeploy` description text; it ends with the rendered list of available artifacts |
| WasmRuntime.DescriptionMentionsArtifact | runtimes/wasm/src/lib.rs:182-187 | the `UnableToDeploy` description names the rejected artifact |
| WasmRuntime.DescriptionKeepsMentions | runtimes/wasm/src/lib.rs:182-187 | the description mentions everything the rendered list of available artifacts mentions |
| WasmRuntime.DisplayAll | runtimes/wasm/src/lib.rs:221-224 | one rendered string per artifact id, in the same order, each the `runtime:name:version` form of its id |
| Text.Join | runtimes/wasm/src/lib.rs:225 | `join(", ")`: the parts in order with the separator between neighbours; `Text.JoinContains` proves where each part sits |
| Text.JoinContains | runtimes/wasm/src/lib.rs:221-225 | each part of a join appears unchanged at its computed offset in the joined string |
| Text.JoinMentions | runtimes/wasm/src/lib.rs:221-225 | a join mentions each of its parts |
| WasmRuntime.WasmRuntime.IsSupported | runtimes/wasm/src/lib.rs:238-242 | no runtime feature is supported |
| WasmRuntime.WasmRuntime.Migrate | runtimes/wasm/src/lib.rs:291-297 | migration always fails with `NotSupported` |
| WasmRuntime.WasmRuntime.ExecuteTarget | runtimes/wasm/src/lib.rs:299-308 | requires the instance id to be started (the source panics otherwise); returns a started instance which, when the indices agree, carries that id and is the instance its name leads back to |
| VmLogic.VMLogic.constructor | runtimes/wasm/src/vm/logic.rs:32-40 | a fresh logic borrows the given memory, has `return_data == None` (so its outcome is `None`) and an empty register file |
| VmLogic.VMLogic.Outcome | runtimes/wasm/src/vm/logic.rs:80-82 | the accumulated return data |
| VmLogic.VMLogic.TryFitMem | runtimes/wasm/src/vm/logic.rs:42-48 | succeeds iff the range `[offset, offset + len)` lies inside memory; otherwise `HostError` |
| VmLogic.FitsMemoryIsOverflowSafe | runtimes/wasm/src/vm/logic.rs:42-48 | for a memory below 2^64 bytes, the integer bounds check agrees with a `checked_add` check that rejects overflowing sums, and a passing check bounds both offset and length |
| VmLogic.VMLogic.MemoryGetVec | runtimes/wasm/src/vm/logic.rs:50-55 | `HostError` without reading iff the range does not fit; otherwise a buffer of exactly `len` bytes equal to `mem[offset..offset+len]`; memory is unchanged |
| VmLogic.Splice | runtimes/wasm/src/vm/logic.rs:57-61 | writing a buffer keeps the memory length, puts the buffer at the offset, and leaves every byte outside the range unchanged |
| VmLogic.VMLogic.WriteMemory | runtimes/wasm/src/vm/logic.rs:59 | the byte copy that writes the buffer at the offset, with everything else unchanged |
| VmLogic.VMLogic.MemorySetSlice | runtimes/wasm/src/vm/logic.rs:57-61 | `HostError` with memory unchanged iff the range does not fit; otherwise `mem[offset..offset+|buf|] == buf`; every byte outside the range is unchanged |
| VmLogic.GetVec | runtimes/wasm/src/vm/logic.rs:50-55 | reference for `memory_get_vec`: `Ok` iff the range fits, then exactly `len` bytes equal to memory from `offset` on; otherwise `HostError` |
| VmLogic.SetSlice | runtimes/wasm/src/vm/logic.rs:57-61 | reference for `memory_set_slice`: the length is kept; a fitting range holds `buf` afterwards; every byte outside the range is unchanged; a range that does not fit leaves memory as it was |
| VmLogic.SetThenGet | runtimes/wasm/src/vm/logic.rs:50-61 | round trip: after a successful set of `buf` at `offset`, a get of `|buf|` bytes at `offset` returns `buf` |
| VmLogic.SetLeavesDisjointGet | runtimes/wasm/src/vm/logic.rs:50-61 | a set does not change the result of a get over a disjoint range, whether or not either fits |
| VmLogic.SetWhatWasRead | runtimes/wasm/src/vm/logic.rs:50-61 | writing back the bytes just read leaves memory unchanged |
| VmLogic.FailedSetChangesNothing | runtimes/wasm/src/vm/logic.rs:50-61 | a set whose range does not fit leaves memory unchanged, and the get over that range fails with `HostError` |
| VmLogic.VMLogic.InternalReadRegister | runtimes/wasm/src/vm/logic.rs:63-69 | `Ok` with a copy of the register's bytes iff the register is present; otherwise `HostError` |
| VmLogic.VMLogic.ReadRegister | runtimes/wasm/src/vm/logic.rs:71-74 | an absent register gives `HostError` with memory unchanged; a present one behaves as `memory_set_slice(ptr, registers[id])`; the register file and return data are never modified |
| VmLogic.VMLogic.RegisterLen | runtimes/wasm/src/vm/logic.rs:76-78 | always succeeds; the register's length when present, the sentinel `u64::MAX` when absent; no state changes |
| VmLogic.VMLogic.RegisterLenSentinel | runtimes/wasm/src/vm/logic.rs:76-78 | the answer is `u64::MAX` if and only if the register is absent or holds exactly `u64::MAX` bytes, so the sentinel cannot tell those two cases apart |

## Left out

- `MemoryLike` and its Wasmer implementation (`vm/memory.rs`) are not part of this model. Guest memory is a byte array. `fits_memory` is the integer check `offset + len <= size`. `read_memory` and `write_memory` are byte-copy loops.
- No host function in `logic.rs` writes a register or the return data. The register file is therefore a field with arbitrary contents, and every property holds for any contents. The guest counter service declares a `value_return` import, but the host has no implementation of it: `logic.rs` defines none, and the import object built in `imports.rs` registers only `read_register` and `register_len`.
- `outcome` consumes the logic object in Rust. The model reads the field; ownership transfer is not modelled.
- `deploy_artifact` wraps its result in a one-shot `Receiver`. The model returns the result directly.
- `initialize`, the `blockchain` handle and the `api_notifier` channel are not modelled. They hold external collaborators: the blockchain and an asynchronous channel.
- `initiate_adding_service` and `execute` call `initialize` and `call` on an opaque `dyn Service` inside `catch_panic`. Only their bookkeeping is modelled: `NewService` and the lookup `ExecuteTarget`. Panic containment and the call's result are not modelled.
- `initiate_resuming_service` panics through `unreachable!` (lib.rs:284), and `update_service_status` panics through `unimplemented!` (lib.rs:288). Neither has behaviour to model; in particular, no status reconciliation exists.
- `execute` panics (`expect`) for an unknown instance id; it does not return `IncorrectCallInfo`. The model follows the code and makes this a precondition.
- `before_transactions`, `after_transactions` and `after_commit` only return `Ok(())` or do nothing. They carry no state change.
- There is no dispatcher from method ids to guest exports in the runtime's sources. Dispatch and `UnknownTransaction` are not modelled.
- `service.rs` reads bytecode from a fixed filesystem path and calls the Wasmer engine, which is foreign code. `imports.rs` is unsafe pointer glue. The guest counter service in `wasm-services` is compiled to Wasm. None of these is modelled.
- The `debug_assert` in `unload_artifact` is not modelled. A debug build panics when the artifact was not deployed; the model follows a release build, where that unload changes nothing.
- The description text of an `IncorrectArtifactId` error comes from the runtime's `error` module, which is not part of this model. `DeployArtifact` promises only the error kind; its body uses an empty placeholder description.
- `ArtifactId`, `ServiceFactory` and `Service` come from the core library, which is not part of this model. An artifact id is rendered as `runtime:name:version`. A factory always creates the same opaque service handle. `Version` is kept as its text.
- `WithoutMigrations` only makes `migration_scripts` return `NotSupported`. The catalog stores the factory itself. `Migrate` states the refusal.
- The order of `available_artifacts.keys()` in a hash map is unspecified. `ArtifactsToPrettyString` therefore states its result for the order it picked, which it returns as a ghost value.
