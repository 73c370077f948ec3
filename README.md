# ShadeLink permission contract, modelled in Dafny

The ShadeLink permission contract is a NEAR smart contract. For each MPC
derivation path it stores the owner wallets and an allowlist of
pre-approved operations: swaps, limit orders, stop-losses and
take-profits. Authorised TEE relayers use it in three ways:

- to register owner wallets, each time with a single-use nonce and a
  signature from the wallet;
- to add or remove allowlisted operations, signed by one of the path's
  owner wallets;
- to request a chain signature for an allowlisted operation.

The contract checks each request against the allowlist, against the
operation's expiry and, when a price is supplied, against the
operation's trigger. It then marks the operation executed, takes it out
of the active-operations index and calls the MPC signer contract. A
callback receives the signer's answer. The owner signs with NEAR
(Ed25519 over a SHA-256 digest), Solana (Ed25519) or EVM (personal_sign
with secp256k1 recovery).

The model has these layers:

- `wrappers.dfy`: the `Option`, `Result` and `Outcome` values.
- `bytes.dfy` (`Bytes`): strings as UTF-8 bytes, decimal rendering and
  the hex codec.
- `collections.dfy` (`Collections`): the element order of near_sdk's
  `UnorderedSet` and `UnorderedMap`. An insertion appends; a removal is
  `swap_remove`.
- `types.dfy` (`Types`): the records of `types.rs`.
- `signature.dfy` (`Signature`): the owner-signature checks of
  `signature.rs`. The host's cryptographic primitives are a `Host` value
  passed in. The model fixes only the sizes of their results (32-byte
  digests, 64-byte recovered keys) and the arguments the NEAR runtime's
  `ecrecover` accepts (a 64-byte signature, a recovery id below 4).
- `keys.dfy` (`Keys`): the `:`-joined index keys and the `{path}-{n}`
  operation ids, kept structured, with the joining and splitting the
  source performs. The join of the active-index key is not injective
  once a path holds a ':' (`Keys.JoinActiveKeyCollides`); it is injective
  on the entries the contract creates itself (`Keys.GeneratedJoinInjective`).
- `engine.dfy` (`Engine`): every entry point of `lib.rs` as a transition
  on a `State` value.
  - A panic is `Failure(error)`. The host discards every write of a call
    that panics, so a failure leaves the state unchanged.
  - The block timestamp `now` and the predecessor account `caller` are
    parameters.
- `invariant.dfy` (`Invariant`): the invariant that every entry point
  preserves.
  - The active index lists each stored, unexecuted operation exactly
    once, and nothing else.
  - Every operation is filed under the id its path's counter gave it.
  - The key vector of each allowlist matches its map.
  - Owner addresses are distinct within each path.
  - Every wallet in the reverse lookup is bound to a path that lists it.
- `properties.dfy` (`Properties`): the promises across calls:
  - nonce replay rejection;
  - fresh operation ids;
  - at-most-once execution;
  - compensation after a failed signature;
  - idempotent removal;
  - expiry and price gating;
  - what polling the index returns.
- `trace.dfy` (`Trace`): arbitrary runs of calls. It proves the
  invariant, that consumed nonces are permanent, and that an executed
  operation stays unusable unless a compensating failure arrives.
- `contract.dfy` (`Contract`): the contract object as a class with the
  seven fields of `PermissionContract`, updated in place.
  - Each mutating method is proved to move the object exactly as the
    `Engine` transition does, to leave it untouched on an abort, and to
    keep the invariant.
  - `GetActiveOperations` is the source's polling loop, proved equal to
    `Engine.ActiveOperations`.

### Where the code departs from its comments or its evident intent

- The callback. The comment at `lib.rs:421` promises that a failed
  signature reverts the executed flag. The code writes that compensation
  and then panics (`lib.rs:433`), and a panic discards the call's
  writes. Both versions are modelled; see "## Findings".
- NEAR signatures. The comments at `types.rs:13` and `signature.rs:26`
  say that NEAR wallets sign a NEP-413 payload. The code checks Ed25519
  over the SHA-256 digest of the raw message, and the model follows the
  code (`Signature.VerifyNear`).
- Price freshness. A price timestamp in the future, or no timestamp at
  all, passes the freshness check (`lib.rs:561-567`), as the code does.
- Removal from the index. `remove_allowed_operation` removes the joined
  string "{path}:{id}" (`lib.rs:297-298`), which can be another path's
  entry. The model's state removes the structured pair; the string
  removal is `Engine.RemoveAllowedOperationAsWritten`. See "## Findings".
- EVM recovery. `verify_evm_signature` passes all 65 signature bytes to
  `env::ecrecover` (`signature.rs:64`), and the NEAR runtime takes only
  64. The model's check passes r and s; the call as written is
  `Signature.VerifyEvmAsWritten`. See "## Findings".

## Model

| member | source | states |
|---|---|---|
| Bytes.Decimal | contracts/permission/src/lib.rs:223 | `format!("{}", n)`: at least one digit, all decimal digits, no leading zero unless n is 0, one digit exactly when n < 10 |
| Bytes.DecimalRoundTrip | contracts/permission/src/lib.rs:223 | parsing the decimal rendering of n gives back n |
| Bytes.DecimalInjective | contracts/permission/src/lib.rs:223 | distinct numbers render as distinct digit strings |
| Bytes.DecimalLengthMonotone | contracts/permission/src/signature.rs:102 | a larger length never renders with fewer digits |
| Bytes.DecimalHasNoSeparator | contracts/permission/src/lib.rs:122 | a rendered nonce never contains ':' or '-' |
| Bytes.HexEncode | contracts/permission/src/lib.rs:368 | `hex::encode`: two hex digits per byte, high nibble first |
| Bytes.HexDecode | contracts/permission/src/signature.rs:85-88 | `hex::decode` succeeds exactly on an even number of hex digits, halving the length |
| Bytes.HexRoundTrip | contracts/permission/src/signature.rs:85-88 | decoding an encoding gives back the bytes |
| Collections.Insert | contracts/permission/src/lib.rs:248 | `UnorderedSet::insert`: membership gains x, no duplicates are introduced, the existing order is kept as a prefix |
| Collections.Remove | contracts/permission/src/lib.rs:298 | `UnorderedSet::remove`: drops x and only x, shortens by one when x was present, keeps the set duplicate-free |
| Types.Trigger | contracts/permission/src/types.rs:33-68 | only the three conditional orders carry a trigger price; a swap has none |
| Types.ConditionOf | contracts/permission/src/types.rs:41-49 | only a limit order states a price condition |
| Types.NewOperation | contracts/permission/src/lib.rs:227-238 | the caller's fields are copied; id, path, nonce and creation time are the contract's; the operation starts unexecuted |
| Types.Values | contracts/permission/src/types.rs:140 | `UnorderedMap::values` yields only stored operations, at most one per key |
| Types.ToView | contracts/permission/src/types.rs:136-144 | the view copies the wallets and the counter and lists only stored operations |
| Types.ViewListsAllOperations | contracts/permission/src/types.rs:136-144 | for a well-kept map the view lists every stored operation, once per key, in key-vector order |
| Signature.VerifyEd25519 | contracts/permission/src/signature.rs:5-23 | only a 64-byte signature with a 32-byte key reaches the host verifier; anything else is false |
| Signature.VerifySolana | contracts/permission/src/signature.rs:35-38 | the Ed25519 check over the raw message |
| Signature.VerifyNear | contracts/permission/src/signature.rs:27-31 | the Solana check applied to the SHA-256 digest of the message |
| Signature.EthSignedMessage | contracts/permission/src/signature.rs:101-106 | the 26-byte personal_sign prefix, the decimal length, then the message |
| Signature.EthSignedMessageInjective | contracts/permission/src/signature.rs:101-106 | distinct messages give distinct signed payloads |
| Signature.EthSignedMessageHello | contracts/permission/src/signature.rs:125-131 | "Hello" is framed with length 5 |
| Signature.RecoveryId | contracts/permission/src/signature.rs:59-61 | a v of 27 or more is lowered by 27; a smaller v is used as it is |
| Signature.StripHexPrefix | contracts/permission/src/signature.rs:80 | only a leading lower-case "0x" is removed, once |
| Signature.ParseEvmAddress | contracts/permission/src/signature.rs:79-97 | succeeds exactly on 40 hex digits after the optional "0x"; the 20 bytes re-encode to those digits in lower case |
| Signature.HexDecodeEncodes | contracts/permission/src/signature.rs:85-96 | re-encoding decoded hex gives the digits back in lower case |
| Signature.EvmAddressRoundTrip | contracts/permission/src/signature.rs:79-97 | every 20-byte address parses back from its hex form, with or without "0x" |
| Signature.EvmAddressPrefixOptional | contracts/permission/src/signature.rs:113-123 | the address parses the same with or without "0x" |
| Signature.AddressOf | contracts/permission/src/signature.rs:70-72 | the address is the last 20 bytes of the Keccak-256 digest of the recovered key |
| Signature.Recover | contracts/permission/src/signature.rs:55-64 | the key comes from the host's `ecrecover` over the Keccak-256 digest of the framed message, given r and s and the recovery id, which are arguments the runtime accepts |
| Signature.VerifyEvmAsWritten | contracts/permission/src/signature.rs:42-76 | as written: a signature that is not 65 bytes, or an address that does not parse, is false; every other input hands the host 65 bytes and aborts; no input verifies |
| Signature.EvmCallAsWrittenIsRefused | contracts/permission/src/signature.rs:59-64 | the 65-byte call never meets the runtime's argument check, while r and s with the recovery id do exactly when v is below 4 or between 27 and 30 |
| Signature.VerifyEvmAsWrittenDiffers | contracts/permission/src/signature.rs:42-76 | where the as-written check does not abort it agrees with the intended one, and every signature the intended one accepts makes the as-written one abort |
| Signature.VerifyEvm | contracts/permission/src/signature.rs:42-76 | the check as intended: true exactly when the signature has 65 bytes, the address parses, the recovery id is one the host takes, the host recovers a key from r and s and that key's address is the parsed address; every failure is false, never an abort |
| Keys.JoinActiveKey | contracts/permission/src/lib.rs:247 | the index key "{path}:{id}" contains the separator |
| Keys.JoinActiveKeyCollides | contracts/permission/src/lib.rs:247 | the join is not injective: ("a:b", "a:b-1") and ("a", "b:a:b-1") are distinct keys with the same string |
| Keys.JoinActiveKeySamePath | contracts/permission/src/lib.rs:297 | two keys of one path with the same string are the same key |
| Keys.JoinActiveKeyInjectiveColonFree | contracts/permission/src/lib.rs:297 | a key whose path and id hold no ':' is the only key with its string |
| Keys.GeneratedJoinInjective | contracts/permission/src/lib.rs:223-247 | keys the contract creates, "{path}:{path}-{n}", have distinct strings for distinct (path, n) |
| Keys.JoinNonceKey | contracts/permission/src/lib.rs:122 | "{address}:{nonce}": the address, then ':', and no ':' after it |
| Keys.SplitActiveKey | contracts/permission/src/lib.rs:452-455 | splits at the first ':'; fails exactly when there is none; re-joining the parts gives the key back and the path part holds no ':' |
| Keys.SplitJoinRoundTrip | contracts/permission/src/lib.rs:451-455 | splitting a joined key returns the original parts exactly when its path holds no ':' |
| Keys.JoinNonceKeyInjective | contracts/permission/src/lib.rs:122 | the "{address}:{nonce}" key is unambiguous, even for an address that holds ':' |
| Keys.OperationId | contracts/permission/src/lib.rs:223 | the id is the path, '-', then the decimal rendering of the counter |
| Keys.OperationIdInjective | contracts/permission/src/lib.rs:223-224 | distinct counter values give distinct ids for a path |
| Keys.OperationIdColonFree | contracts/permission/src/lib.rs:223 | an id built from a colon-free path holds no ':' |
| Engine.New | contracts/permission/src/lib.rs:67-77 | the owner and signer contract are set; every collection is empty |
| Engine.RegisterTeeRelayer | contracts/permission/src/lib.rs:84-88 | aborts with NotOwner exactly when the caller is not the owner; otherwise the relayer set gains the account and nothing else changes |
| Engine.RemoveTeeRelayer | contracts/permission/src/lib.rs:91-95 | aborts with NotOwner exactly when the caller is not the owner; otherwise the relayer set loses the account and nothing else changes |
| Engine.UpdateMpcContract | contracts/permission/src/lib.rs:98-101 | aborts with NotOwner exactly when the caller is not the owner; otherwise only the signer contract changes |
| Engine.VerifyUserSignature | contracts/permission/src/lib.rs:539-552 | dispatches each wallet type to its scheme; a passing signature has the scheme's length |
| Engine.FindWallet | contracts/permission/src/lib.rs:206-210 | finds a wallet with the address exactly when one exists |
| Engine.WithWallet | contracts/permission/src/lib.rs:156-176 | creates the path with the wallet and counter 1, appends an address not yet listed, or leaves the path alone; other paths are unchanged |
| Engine.RegisterMessage | contracts/permission/src/lib.rs:140-147 | the canonical message: 50 fixed bytes plus path and nonce, the nonce after the last space |
| Engine.RegisterMessageInjective | contracts/permission/src/lib.rs:140-147 | a canonical message names exactly one (path, nonce) pair, even when the path holds " with nonce: " |
| Engine.RegisterWallet | contracts/permission/src/lib.rs:109-186 | succeeds exactly when the caller is a relayer, the (address, nonce) pair is unused, the signature verifies and the message is the canonical one; the errors come in source order: NotRelayer, NonceAlreadyUsed, InvalidSignature, then MessageMismatch; on success it consumes the pair, binds the wallet to the path and changes nothing else |
| Engine.AuthorizeOwner | contracts/permission/src/lib.rs:197-220 | passes exactly when the caller is a relayer, the path is known, the signer is one of its wallets and that wallet's signature verifies; the errors come in source order: NotRelayer, NoPermissions, SignerNotAuthorized, then InvalidSignature |
| Engine.PutOperation | contracts/permission/src/lib.rs:241-243 | the map gets the entry and the key vector gets the id if new; wallets and counter are unchanged |
| Engine.AddAllowedOperation | contracts/permission/src/lib.rs:189-256 | succeeds exactly when the owner checks pass, else aborts with their error; on success the id is "{path}-{n}" for the counter n, the counter becomes n+1, the new unexecuted operation is stored and its key enters the index, and nothing else changes |
| Engine.RemoveAllowedOperation | contracts/permission/src/lib.rs:259-304 | the removal as intended: succeeds exactly when the owner checks pass, else aborts with their error; on success the id leaves the map, the key vector and the index entry of its own path, and nothing else changes, including when the id was absent |
| Engine.FindJoined | contracts/permission/src/lib.rs:297-298 | the first index entry whose string is the given one, or none exactly when no entry has it |
| Engine.RemoveAllowedOperationAsWritten | contracts/permission/src/lib.rs:259-304 | as written: the same checks and allowlist writes, but the index loses the entry whose string is "{path}:{id}", whichever path it belongs to |
| Engine.PriceIsStale | contracts/permission/src/lib.rs:561-567 | a report is stale exactly when its timestamp is more than `MaxPriceAge` (60 s in nanoseconds) before now; a missing or future timestamp is not |
| Engine.ValidatePriceCondition | contracts/permission/src/lib.rs:554-606 | a stale price fails first; otherwise a swap passes, Above and take-profit need price >= trigger, and Below and stop-loss need price <= trigger |
| Engine.ExecutionGate | contracts/permission/src/lib.rs:323-343 | passes exactly when the operation is stored, unexecuted and, if it expires, not yet expired |
| Engine.SignAllowed | contracts/permission/src/lib.rs:312-402 | succeeds exactly when the caller is a relayer, the gate passes, a supplied price meets the condition and the key type is Eddsa or Ecdsa; on success only that operation becomes executed and leaves the index; the request carries the path, domain 1 with the hex payload under `Eddsa` or domain 0 under Ecdsa, and the callback names the same path and operation |
| Engine.OnMpcSignComplete | contracts/permission/src/lib.rs:420-432 | a signature passes through with no state change; on failure a still-stored operation becomes unexecuted and re-enters the index, and the failure is reported |
| Engine.OnMpcSignCompleteAsWritten | contracts/permission/src/lib.rs:406-436 | as the host runs the code: a signature passes through, and a failure aborts, so the compensation is lost |
| Engine.IsOperationAllowed | contracts/permission/src/lib.rs:489-508 | true exactly when the execution gate would pass |
| Engine.GetOperation | contracts/permission/src/lib.rs:478-486 | the stored operation, or none exactly when path or id is unknown |
| Engine.GetOperations | contracts/permission/src/lib.rs:469-475 | nothing for an unknown path; otherwise only stored operations of the path |
| Engine.GetPathForWallet | contracts/permission/src/lib.rs:511-513 | the bound path exactly when the address is bound |
| Engine.IsTeeRelayer | contracts/permission/src/lib.rs:516-518 | true exactly for a registered relayer |
| Engine.AsUsize | contracts/permission/src/lib.rs:451 | `as usize` on wasm32: the value below 2^32 congruent to the argument modulo 2^32, so every value that fits is kept |
| Engine.Page | contracts/permission/src/lib.rs:449-451 | `skip(from).take(limit)`: the length is bounded by limit and what remains after skipping, and the i-th element is the (from+i)-th key |
| Engine.Resolve | contracts/permission/src/lib.rs:452-461 | a resolved entry names a known path |
| Engine.ResolveAll | contracts/permission/src/lib.rs:451-463 | never more results than entries |
| Engine.ActiveOperations | contracts/permission/src/lib.rs:443-466 | at most `limit as usize` results |
| Invariant.InvNew | contracts/permission/src/lib.rs:67-77 | the initial state satisfies the invariant |
| Invariant.NextIdIsFresh | contracts/permission/src/lib.rs:222-224 | in a well-formed permission set the counter's next id is not yet stored |
| Invariant.InvRelayers | contracts/permission/src/lib.rs:84-101 | the admin methods keep the invariant |
| Invariant.InvRegisterWallet | contracts/permission/src/lib.rs:109-186 | registering keeps the invariant, including distinct addresses per path and wallets bound in the reverse lookup |
| Invariant.InvAddAllowedOperation | contracts/permission/src/lib.rs:189-256 | adding keeps the invariant |
| Invariant.InvAfterAdd | contracts/permission/src/lib.rs:222-248 | storing the counter's next operation and indexing it keeps the invariant |
| Invariant.InvRemoveAllowedOperation | contracts/permission/src/lib.rs:259-304 | the removal as intended keeps the invariant |
| Invariant.InvSetExecuted | contracts/permission/src/lib.rs:352-359 | flipping the executed flag, with the matching index removal or insertion, keeps the invariant |
| Invariant.InvSignAllowed | contracts/permission/src/lib.rs:312-402 | a successful signature request keeps the invariant |
| Invariant.InvOnMpcSignComplete | contracts/permission/src/lib.rs:420-432 | the compensating callback keeps the invariant |
| Properties.RegistrationNonceIsSingleUse | contracts/permission/src/lib.rs:121-127 | after a successful registration the same (address, nonce) is refused, with NonceAlreadyUsed for a relayer |
| Properties.RegisteredWalletIsBound | contracts/permission/src/lib.rs:156-180 | after registering, the address maps to the path, the path lists it once among distinct addresses, and a new path starts with just that wallet and counter 1 |
| Properties.AddedOperationIsFreshAndActive | contracts/permission/src/lib.rs:222-248 | the new id was not stored, the allowlist grows by one, the key newly enters the index, and the operation is allowed unless its expiry has passed |
| Properties.SuccessiveIdsDiffer | contracts/permission/src/lib.rs:223-224 | two additions to a path get ids for counters n and n+1, which differ |
| Properties.RemoveIsIdempotent | contracts/permission/src/lib.rs:292-298 | removing the same operation a second time succeeds and changes nothing |
| Properties.RemoveAbsentChangesNothing | contracts/permission/src/lib.rs:292-298 | an authorised removal of an id neither stored nor indexed leaves the state as it is |
| Properties.IndexedIdIsGenerated | contracts/permission/src/lib.rs:222-248 | under the invariant every indexed entry is stored and carries the id its path's counter gave it |
| Properties.IndexedJoinIsUnique | contracts/permission/src/lib.rs:247 | under the invariant no two index entries share a string, as in the source's set of strings |
| Properties.RemovalAsWrittenDropsOtherEntry | contracts/permission/src/lib.rs:292-298 | as written, an authorised removal whose "{path}:{id}" is another live entry's string takes that entry out of the index while its operation stays stored and unexecuted, so the index is no longer exact |
| Properties.RemovalAsWrittenAgreesOnColonFreePaths | contracts/permission/src/lib.rs:292-298 | while no indexed path holds ':', the removal as written is the removal as intended |
| Properties.RemovalKeepsOtherPaths | contracts/permission/src/lib.rs:292-298 | the removal as intended leaves every other path's index entries and permissions as they were |
| Properties.SignSucceedsIffAllowed | contracts/permission/src/lib.rs:324-343 | with no price and a known key type, a relayer's request succeeds exactly when `is_operation_allowed` holds |
| Properties.SignAllowedAtMostOnce | contracts/permission/src/lib.rs:336 | after a successful request the operation is executed and out of the index, is no longer allowed, and a second request fails with AlreadyExecuted |
| Properties.FailedSignatureRestoresOperation | contracts/permission/src/lib.rs:420-432 | with the compensation, request-then-failure restores the permissions exactly and the index up to order, and the same request succeeds again |
| Properties.FailureUndoesMark | contracts/permission/src/lib.rs:352-359 | marking a live operation executed and then compensating restores the permissions exactly and the index up to order |
| Properties.FlipTwiceRestores | contracts/permission/src/lib.rs:353-354 | marking an unexecuted operation executed, then unexecuted, gives back the permission set |
| Properties.SignDependsOnPermissions | contracts/permission/src/lib.rs:321-350 | admission of a request depends only on relayers and permissions, not on the index |
| Properties.FailedSignatureStrandsOperationAsWritten | contracts/permission/src/lib.rs:420-433 | as written, the failed callback aborts and the operation stays executed and unindexed, so every later request fails with AlreadyExecuted |
| Properties.StopLossScenario | contracts/permission/src/lib.rs:590-594 | an example of the stop-loss rule: a trigger of 50 refuses a fresh price of 60 and accepts 40 |
| Properties.ExpiryBoundary | contracts/permission/src/lib.rs:499-503 | an operation expiring at T is allowed exactly before T while unexecuted |
| Properties.ColonPathIsNeverResolved | contracts/permission/src/lib.rs:452-461 | under the invariant, an index entry whose path holds ':' is silently dropped by polling |
| Properties.ColonFreeEntryResolves | contracts/permission/src/lib.rs:452-461 | for a colon-free path, polling returns exactly the stored operation, if any |
| Properties.PolledOperationsAreLive | contracts/permission/src/lib.rs:451-463 | every operation polled from index entries is unexecuted and belongs to the path it is returned with |
| Properties.PollingIsComplete | contracts/permission/src/lib.rs:451-463 | for stored, colon-free entries polling returns one result per entry, in index order |
| Properties.ActiveOperationsAreLive | contracts/permission/src/lib.rs:443-466 | `get_active_operations` returns only unexecuted operations with their own path |
| Properties.ActiveOperationsAreComplete | contracts/permission/src/lib.rs:443-466 | when no indexed path holds ':', a page loses no entry |
| Trace.StepPreservesInv | contracts/permission/src/lib.rs:84-436 | every call, committed or aborted, keeps the invariant, with removal as intended |
| Trace.RunPreservesInv | contracts/permission/src/lib.rs:84-436 | every state reachable by any sequence of calls satisfies the invariant, with removal as intended |
| Trace.RunKeepsNonces | contracts/permission/src/lib.rs:121-127 | consumed registration nonces are never released |
| Trace.RegistrationNeverReplays | contracts/permission/src/lib.rs:121-127 | after a successful registration, no later registration with the same (address, nonce) succeeds, whatever happens in between |
| Trace.StepKeepsSpent | contracts/permission/src/lib.rs:336-359 | a spent operation stays spent through any call other than its compensating failure |
| Trace.AddKeepsSpent | contracts/permission/src/lib.rs:222-224 | a later addition never reissues a spent id |
| Trace.CompleteKeepsSpent | contracts/permission/src/lib.rs:420-432 | a callback about another operation, or a success, leaves a spent operation spent |
| Trace.RunKeepsSpent | contracts/permission/src/lib.rs:336-359 | a spent operation stays spent through any run without a compensating failure for it |
| Trace.SignSpends | contracts/permission/src/lib.rs:352-359 | a successful request spends its operation |
| Trace.AtMostOnceUntilCompensated | contracts/permission/src/lib.rs:336-359 | after a successful request, no run free of a compensating failure makes the operation allowed or requestable again |
| Trace.StrandedAsWritten | contracts/permission/src/lib.rs:420-433 | with the callback as written, an operation whose signing failed can never be requested again |
| Contract.PermissionContract.constructor | contracts/permission/src/lib.rs:67-77 | the object starts as the initial state, satisfying the invariant |
| Contract.PermissionContract.RegisterTeeRelayer | contracts/permission/src/lib.rs:84-88 | moves the object as the transition does, unchanged on abort, keeping the invariant |
| Contract.PermissionContract.RemoveTeeRelayer | contracts/permission/src/lib.rs:91-95 | moves the object as the transition does, unchanged on abort, keeping the invariant |
| Contract.PermissionContract.UpdateMpcContract | contracts/permission/src/lib.rs:98-101 | moves the object as the transition does, unchanged on abort, keeping the invariant |
| Contract.PermissionContract.RegisterWallet | contracts/permission/src/lib.rs:109-186 | moves the object as the transition does, unchanged on abort, keeping the invariant |
| Contract.PermissionContract.Authorize | contracts/permission/src/lib.rs:197-220 | the in-place owner checks give the same verdict as `AuthorizeOwner` |
| Contract.PermissionContract.AddAllowedOperation | contracts/permission/src/lib.rs:189-256 | returns the new id and moves the object as the transition does, unchanged on abort, keeping the invariant |
| Contract.PermissionContract.StoreNewOperation | contracts/permission/src/lib.rs:222-248 | the writes of an addition: counter advanced, operation stored, key indexed, nothing else |
| Contract.PermissionContract.RemoveAllowedOperation | contracts/permission/src/lib.rs:259-304 | moves the object as the transition does, unchanged on abort, keeping the invariant |
| Contract.PermissionContract.SignAllowed | contracts/permission/src/lib.rs:312-402 | returns the pending request and moves the object as the transition does, unchanged on abort, keeping the invariant |
| Contract.PermissionContract.SetExecuted | contracts/permission/src/lib.rs:352-359 | flips one operation's flag and removes its key from the index or inserts it; nothing else changes |
| Contract.PermissionContract.OnMpcSignComplete | contracts/permission/src/lib.rs:406-436 | the compensating callback in place: the same result and state as `Engine.OnMpcSignComplete`, keeping the invariant |
| Contract.PermissionContract.ResolveEntry | contracts/permission/src/lib.rs:452-461 | one loop step gives the same entry as `Engine.Resolve` |
| Contract.PermissionContract.GetActiveOperations | contracts/permission/src/lib.rs:443-466 | the polling loop returns exactly `Engine.ActiveOperations` |

## Left out

- Cryptography: Ed25519 verification, SHA-256, Keccak-256 and ecrecover are host functions. They are fields of a `Host` parameter. The model fixes the sizes of their results and the arguments `ecrecover` accepts, which are facts about the NEAR runtime rather than about this repository; every property holds for any host with those shapes.
- Signature.VerifyEvm: the model uses the check as intended, which hands the host r and s and returns false for a recovery id above 3. The source's call is `Signature.VerifyEvmAsWritten`, which aborts; see "## Findings".
- Signature.VerifyNear: the NEP-413 message format that the NEAR wallet type is documented to use is not built by the code, so it is not modelled either.
- Integer widths are unbounded naturals: `u64` timestamps, nonces and counters, the `u128` price, and the `u16` slippage. The `next_nonce += 1` overflow and the `now - ts` subtraction (guarded by `now > ts`) are therefore not modelled. The one width that matters for behaviour, `as usize` in polling, is modelled by `Engine.AsUsize`.
- Logs (`env::log_str`) are not modelled: they do not affect state.
- The cross-contract plumbing is represented by `Engine.PendingSign`, which records the request and the callback's arguments. Gas amounts, the attached deposit, promise chaining, the `#[private]` restriction on the callback and JSON or Borsh serialisation are not modelled.
- Storage prefixes of the collections (`b"p"`, `format!("ops:{}")`, …) are not modelled. Prefix collisions between paths are not modelled either.
- `AccountId` validation is not modelled: accounts are plain strings.
- Engine.GetOperations: its contract states only that every returned operation is stored. That the list is complete and in key-vector order is stated of the same `Values` function by `Types.ViewListsAllOperations`.
- Engine.Resolve: its contract states only that a result names a known path. Its exact meaning is stated by `Properties.ColonFreeEntryResolves` and `Properties.ColonPathIsNeverResolved`.
- Engine.ResolveAll: its contract bounds only the length. Contents and order are stated by `Properties.PollingIsComplete` and `Properties.PolledOperationsAreLive`.
- Keys.JoinActiveKey: the source keys the active index by this string, which loses the split between path and id once a path holds a ':' (`Keys.JoinActiveKeyCollides`). The state keeps the pair; the string semantics of removal is `Engine.RemoveAllowedOperationAsWritten`. Insertion and the removals of `sign_allowed` and the callback use ids the contract created, whose strings are distinct (`Keys.GeneratedJoinInjective`), so there the pair and the string agree.
- Engine.RemoveAllowedOperation: this is the removal as intended, which drops only its own path's entry. As written, the call drops whichever entry has the string "{path}:{id}" (`Properties.RemovalAsWrittenDropsOtherEntry`); the two agree while no indexed path holds a ':' (`Properties.RemovalAsWrittenAgreesOnColonFreePaths`). See "## Findings".
- Invariant.InvRemoveAllowedOperation: proved for the removal as intended. With the removal as written, the exact index survives only while no indexed path holds a ':'.
- Trace.StepPreservesInv: its index clause rests on the removal as intended; with the removal as written it holds only while no indexed path holds a ':'.
- Trace.RunPreservesInv: proved for runs with the removal as intended. A run that registers a path holding a ':' can, as written, reach a state whose index misses a live operation (`Properties.RemovalAsWrittenDropsOtherEntry`).
- Contract.PermissionContract.RemoveAllowedOperation: the method performs the removal as intended, as `Engine.RemoveAllowedOperation` does.
- Properties.ActiveOperationsAreComplete: proved only for an index with no ':' in any path. With such a path, the entry is dropped (`Properties.ColonPathIsNeverResolved`).
- Contract.PermissionContract.RegisterWallet: the source records the nonce before verifying the signature and relies on the panic to undo it. The method checks everything before its first write, which leaves the same state.
- Contract.PermissionContract.OnMpcSignComplete: the method implements the compensation that the code writes down (`Engine.OnMpcSignComplete`). The source's executed behaviour is `Engine.OnMpcSignCompleteAsWritten`; see "## Findings".
- The unit and integration tests are not part of the model. The unit test at `signature.rs:125-131` is stated as `Signature.EthSignedMessageHello`; `Properties.StopLossScenario` is an example of `lib.rs:590-594`, not a test's.

## Findings

| source | as written | input that shows it | evidently intended | confidence | as-written member | corrected member |
|---|---|---|---|---|---|---|
| contracts/permission/src/lib.rs:420-433 | on a failed signature the callback resets `executed`, re-indexes the operation and then panics, so the host discards those writes | a successful `sign_allowed` for an allowed operation, then `on_mpc_sign_complete` with `Err`: the operation stays executed and unindexed, and every later `sign_allowed` for it fails with "Operation already executed" | the operation returns to the active state and can be requested again | not executed | Properties.FailedSignatureStrandsOperationAsWritten | Properties.FailedSignatureRestoresOperation |
| contracts/permission/src/lib.rs:292-298 | the index is a set of strings, and removal deletes "{path}:{id}", which for a path holding ':' can be another path's entry | path "a:b" holds live operation "a:b-1", indexed as "a:b:a:b-1"; an owner of path "a" removes id "b:a:b-1": the entry goes, the operation stays stored and unexecuted, and polling never returns it | removal touches only its own path's entry | not executed; certain given a path that holds ':' | Properties.RemovalAsWrittenDropsOtherEntry | Properties.RemovalKeepsOtherPaths |
| contracts/permission/src/signature.rs:59-64 | `env::ecrecover` receives all 65 signature bytes and any recovery id, and the NEAR runtime aborts the call for a signature that is not 64 bytes or an id above 3 | any EVM wallet registration or owner check with a 65-byte signature and a parsable address: the call aborts instead of verifying | r and s go to the host, and an unusable recovery id is false | not executed; rests on the runtime's argument check, which is not in this repository | Signature.VerifyEvmAsWritten | Signature.VerifyEvm |
