/**
 * Runs of the contract: any sequence of calls, each either committing its
 * transition or aborting and leaving the state as it was. The callback is
 * applied either with the compensation it writes down (`compensate`) or as the
 * host actually executes it, where its panic discards that compensation.
 */
module Trace {
  import opened Wrappers
  import opened Bytes
  import opened Collections
  import opened Types
  import opened Signature
  import opened Keys
  import opened Engine
  import opened Invariant

  datatype Call =
    | RegisterTeeRelayerCall(caller: AccountId, relayer: AccountId)
    | RemoveTeeRelayerCall(caller: AccountId, relayer: AccountId)
    | UpdateMpcContractCall(caller: AccountId, mpcContract: AccountId)
    | RegisterWalletCall(caller: AccountId, path: DerivationPath, walletType: WalletType, publicKey: seq<byte>,
                         chainAddress: Str, signature: seq<byte>, message: seq<byte>, nonce: nat)
    | AddAllowedOperationCall(caller: AccountId, now: nat, path: DerivationPath, input: AllowedOperationInput,
                              signature: seq<byte>, message: seq<byte>, signerAddress: Str)
    | RemoveAllowedOperationCall(caller: AccountId, path: DerivationPath, operationId: Str,
                                 signature: seq<byte>, message: seq<byte>, signerAddress: Str)
    | SignAllowedCall(caller: AccountId, now: nat, path: DerivationPath, operationId: Str, payload: seq<byte>,
                      keyType: Str, teePrice: Option<nat>, teeTimestamp: Option<nat>)
    | SignCompleteCall(path: DerivationPath, operationId: Str, outcome: SignOutcome)

  function Committed(r: Result<State, Error>, s: State): State
  {
    if r.Success? then r.value else s
  }

  /** The state after one call. */
  function Step(s: State, host: Host, call: Call, compensate: bool): State
  {
    match call
    case RegisterTeeRelayerCall(caller, relayer) => Committed(RegisterTeeRelayer(s, caller, relayer), s)
    case RemoveTeeRelayerCall(caller, relayer) => Committed(RemoveTeeRelayer(s, caller, relayer), s)
    case UpdateMpcContractCall(caller, mpc) => Committed(UpdateMpcContract(s, caller, mpc), s)
    case RegisterWalletCall(caller, path, walletType, publicKey, chainAddress, signature, message, nonce) =>
      Committed(RegisterWallet(s, host, caller, path, walletType, publicKey, chainAddress, signature, message, nonce), s)
    case AddAllowedOperationCall(caller, now, path, input, signature, message, signerAddress) =>
      var r := AddAllowedOperation(s, host, caller, now, path, input, signature, message, signerAddress);
      if r.Success? then r.value.0 else s
    case RemoveAllowedOperationCall(caller, path, operationId, signature, message, signerAddress) =>
      Committed(RemoveAllowedOperation(s, host, caller, path, operationId, signature, message, signerAddress), s)
    case SignAllowedCall(caller, now, path, operationId, payload, keyType, teePrice, teeTimestamp) =>
      var r := SignAllowed(s, caller, now, path, operationId, payload, keyType, teePrice, teeTimestamp);
      if r.Success? then r.value.0 else s
    case SignCompleteCall(path, operationId, outcome) =>
      if compensate then OnMpcSignComplete(s, path, operationId, outcome).0
      else
        var r := OnMpcSignCompleteAsWritten(s, path, operationId, outcome);
        if r.Success? then r.value.0 else s
  }

  function Run(s: State, host: Host, calls: seq<Call>, compensate: bool): State
    decreases |calls|
  {
    if calls == [] then s else Run(Step(s, host, calls[0], compensate), host, calls[1..], compensate)
  }

  lemma StepPreservesInv(s: State, host: Host, call: Call, compensate: bool)
    requires Inv(s)
    ensures Inv(Step(s, host, call, compensate))
  {
    match call
    case RegisterTeeRelayerCall(caller, relayer) => InvRelayers(s, caller, relayer, s.mpcContract);
    case RemoveTeeRelayerCall(caller, relayer) => InvRelayers(s, caller, relayer, s.mpcContract);
    case UpdateMpcContractCall(caller, mpc) => InvRelayers(s, caller, caller, mpc);
    case RegisterWalletCall(caller, path, walletType, publicKey, chainAddress, signature, message, nonce) =>
      if RegisterWallet(s, host, caller, path, walletType, publicKey, chainAddress, signature, message, nonce).Success? {
        InvRegisterWallet(s, host, caller, path, walletType, publicKey, chainAddress, signature, message, nonce);
      }
    case AddAllowedOperationCall(caller, now, path, input, signature, message, signerAddress) =>
      if AddAllowedOperation(s, host, caller, now, path, input, signature, message, signerAddress).Success? {
        InvAddAllowedOperation(s, host, caller, now, path, input, signature, message, signerAddress);
      }
    case RemoveAllowedOperationCall(caller, path, operationId, signature, message, signerAddress) =>
      if RemoveAllowedOperation(s, host, caller, path, operationId, signature, message, signerAddress).Success? {
        InvRemoveAllowedOperation(s, host, caller, path, operationId, signature, message, signerAddress);
      }
    case SignAllowedCall(caller, now, path, operationId, payload, keyType, teePrice, teeTimestamp) =>
      if SignAllowed(s, caller, now, path, operationId, payload, keyType, teePrice, teeTimestamp).Success? {
        InvSignAllowed(s, caller, now, path, operationId, payload, keyType, teePrice, teeTimestamp);
      }
    case SignCompleteCall(path, operationId, outcome) =>
      InvOnMpcSignComplete(s, path, operationId, outcome);
  }

  /** Every state reachable from the initial one satisfies the invariant. */
  lemma {:induction false} RunPreservesInv(s: State, host: Host, calls: seq<Call>, compensate: bool)
    requires Inv(s)
    ensures Inv(Run(s, host, calls, compensate))
    decreases |calls|
  {
    if calls != [] {
      StepPreservesInv(s, host, calls[0], compensate);
      RunPreservesInv(Step(s, host, calls[0], compensate), host, calls[1..], compensate);
    }
  }

  /** Consumed registration nonces are never released. */
  lemma {:induction false} RunKeepsNonces(s: State, host: Host, calls: seq<Call>, compensate: bool)
    ensures s.usedNonces <= Run(s, host, calls, compensate).usedNonces
    decreases |calls|
  {
    if calls != [] {
      RunKeepsNonces(Step(s, host, calls[0], compensate), host, calls[1..], compensate);
    }
  }

  /** Once a registration with (address, nonce) succeeds, no later registration with that pair ever does. */
  lemma RegistrationNeverReplays(s: State, host: Host, caller: AccountId, path: DerivationPath,
                                 walletType: WalletType, publicKey: seq<byte>, chainAddress: Str,
                                 signature: seq<byte>, message: seq<byte>, nonce: nat,
                                 calls: seq<Call>, compensate: bool,
                                 caller2: AccountId, path2: DerivationPath, walletType2: WalletType,
                                 publicKey2: seq<byte>, signature2: seq<byte>, message2: seq<byte>)
    requires RegisterWallet(s, host, caller, path, walletType, publicKey, chainAddress, signature, message, nonce).Success?
    ensures var s1 := RegisterWallet(s, host, caller, path, walletType, publicKey, chainAddress, signature, message, nonce).value;
            var later := Run(s1, host, calls, compensate);
            RegisterWallet(later, host, caller2, path2, walletType2, publicKey2, chainAddress, signature2, message2, nonce).Failure?
  {
    var s1 := RegisterWallet(s, host, caller, path, walletType, publicKey, chainAddress, signature, message, nonce).value;
    RunKeepsNonces(s1, host, calls, compensate);
  }

  /**
   * The operation `id` of `path`, issued with counter value `n`, can no longer
   * be executed: if it is still stored, it is marked executed. Because the
   * path's counter has moved past `n`, a later addition never reuses the id.
   */
  ghost predicate Spent(s: State, path: DerivationPath, id: Str, n: nat)
  {
    && path in s.permissions
    && id == OperationId(path, n)
    && n < s.permissions[path].nextNonce
    && (id in s.permissions[path].allowedOperations ==> s.permissions[path].allowedOperations[id].executed)
  }

  /** The one call that can make a spent operation executable again. */
  predicate Compensates(call: Call, path: DerivationPath, id: Str, compensate: bool)
  {
    compensate && call == SignCompleteCall(path, id, SignFailed)
  }

  lemma StepKeepsSpent(s: State, host: Host, call: Call, compensate: bool, path: DerivationPath, id: Str, n: nat)
    requires Spent(s, path, id, n)
    requires !Compensates(call, path, id, compensate)
    ensures Spent(Step(s, host, call, compensate), path, id, n)
  {
    match call
    case RegisterWalletCall(caller, path2, walletType, publicKey, chainAddress, signature, message, nonce) =>
      RegisterKeepsSpent(s, host, caller, path2, walletType, publicKey, chainAddress, signature, message, nonce, path, id, n);
    case AddAllowedOperationCall(caller, now, path2, input, signature, message, signerAddress) =>
      AddKeepsSpent(s, host, caller, now, path2, input, signature, message, signerAddress, path, id, n);
    case RemoveAllowedOperationCall(caller, path2, id2, signature, message, signerAddress) =>
      RemoveKeepsSpent(s, host, caller, path2, id2, signature, message, signerAddress, path, id, n);
    case SignAllowedCall(caller, now, path2, id2, payload, keyType, teePrice, teeTimestamp) =>
      SignKeepsSpent(s, caller, now, path2, id2, payload, keyType, teePrice, teeTimestamp, path, id, n);
    case SignCompleteCall(path2, id2, outcome) =>
      CompleteKeepsSpent(s, path2, id2, outcome, compensate, path, id, n);
    case _ =>
  }

  lemma RegisterKeepsSpent(s: State, host: Host, caller: AccountId, path2: DerivationPath, walletType: WalletType,
                           publicKey: seq<byte>, chainAddress: Str, signature: seq<byte>, message: seq<byte>,
                           nonce: nat, path: DerivationPath, id: Str, n: nat)
    requires Spent(s, path, id, n)
    ensures var r := RegisterWallet(s, host, caller, path2, walletType, publicKey, chainAddress, signature, message, nonce);
            r.Success? ==> Spent(r.value, path, id, n)
  {
  }

  /** A later addition to the same path uses a larger counter value, hence another id. */
  lemma AddKeepsSpent(s: State, host: Host, caller: AccountId, now: nat, path2: DerivationPath,
                      input: AllowedOperationInput, signature: seq<byte>, message: seq<byte>, signerAddress: Str,
                      path: DerivationPath, id: Str, n: nat)
    requires Spent(s, path, id, n)
    ensures var r := AddAllowedOperation(s, host, caller, now, path2, input, signature, message, signerAddress);
            r.Success? ==> Spent(r.value.0, path, id, n)
  {
    var r := AddAllowedOperation(s, host, caller, now, path2, input, signature, message, signerAddress);
    if r.Success? && path2 == path && OperationId(path, s.permissions[path].nextNonce) == id {
      OperationIdInjective(path, n, s.permissions[path].nextNonce);
      assert false;
    }
  }

  lemma RemoveKeepsSpent(s: State, host: Host, caller: AccountId, path2: DerivationPath, id2: Str,
                         signature: seq<byte>, message: seq<byte>, signerAddress: Str,
                         path: DerivationPath, id: Str, n: nat)
    requires Spent(s, path, id, n)
    ensures var r := RemoveAllowedOperation(s, host, caller, path2, id2, signature, message, signerAddress);
            r.Success? ==> Spent(r.value, path, id, n)
  {
  }

  /** A spent operation fails the gate; any other request leaves it alone. */
  lemma SignKeepsSpent(s: State, caller: AccountId, now: nat, path2: DerivationPath, id2: Str, payload: seq<byte>,
                       keyType: Str, teePrice: Option<nat>, teeTimestamp: Option<nat>,
                       path: DerivationPath, id: Str, n: nat)
    requires Spent(s, path, id, n)
    ensures var r := SignAllowed(s, caller, now, path2, id2, payload, keyType, teePrice, teeTimestamp);
            r.Success? ==> Spent(r.value.0, path, id, n)
  {
  }

  lemma CompleteKeepsSpent(s: State, path2: DerivationPath, id2: Str, outcome: SignOutcome, compensate: bool,
                           path: DerivationPath, id: Str, n: nat)
    requires Spent(s, path, id, n)
    requires !Compensates(SignCompleteCall(path2, id2, outcome), path, id, compensate)
    ensures compensate ==> Spent(OnMpcSignComplete(s, path2, id2, outcome).0, path, id, n)
  {
    if compensate && outcome.SignFailed? {
      assert ActiveKey(path2, id2) != ActiveKey(path, id);
    }
  }

  /**
   * A spent operation stays spent through any run that does not deliver a
   * compensating failure for it. With the callback as the host executes it no
   * call compensates, so an operation whose signing failed is stranded for good.
   */
  lemma {:induction false} RunKeepsSpent(s: State, host: Host, calls: seq<Call>, compensate: bool,
                                         path: DerivationPath, id: Str, n: nat)
    requires Spent(s, path, id, n)
    requires forall i :: 0 <= i < |calls| ==> !Compensates(calls[i], path, id, compensate)
    ensures Spent(Run(s, host, calls, compensate), path, id, n)
    decreases |calls|
  {
    if calls != [] {
      StepKeepsSpent(s, host, calls[0], compensate, path, id, n);
      RunKeepsSpent(Step(s, host, calls[0], compensate), host, calls[1..], compensate, path, id, n);
    }
  }

  /** A request marks its operation spent, with the counter value the id was issued with. */
  lemma SignSpends(s: State, caller: AccountId, now: nat, path: DerivationPath, operationId: Str,
                   payload: seq<byte>, keyType: Str, teePrice: Option<nat>, teeTimestamp: Option<nat>)
    requires Inv(s)
    requires SignAllowed(s, caller, now, path, operationId, payload, keyType, teePrice, teeTimestamp).Success?
    ensures Spent(SignAllowed(s, caller, now, path, operationId, payload, keyType, teePrice, teeTimestamp).value.0,
                  path, operationId, s.permissions[path].allowedOperations[operationId].nonce)
  {
  }

  /**
   * At most once: after a successful request, no run free of a compensating
   * failure for that operation ever lets it be requested again.
   */
  lemma AtMostOnceUntilCompensated(s: State, host: Host, caller: AccountId, now: nat, path: DerivationPath,
                                   operationId: Str, payload: seq<byte>, keyType: Str, teePrice: Option<nat>,
                                   teeTimestamp: Option<nat>, calls: seq<Call>, compensate: bool,
                                   caller2: AccountId, now2: nat, payload2: seq<byte>, keyType2: Str,
                                   teePrice2: Option<nat>, teeTimestamp2: Option<nat>)
    requires Inv(s)
    requires SignAllowed(s, caller, now, path, operationId, payload, keyType, teePrice, teeTimestamp).Success?
    requires forall i :: 0 <= i < |calls| ==> !Compensates(calls[i], path, operationId, compensate)
    ensures var s1 := SignAllowed(s, caller, now, path, operationId, payload, keyType, teePrice, teeTimestamp).value.0;
            var later := Run(s1, host, calls, compensate);
            && !IsOperationAllowed(later, now2, path, operationId)
            && SignAllowed(later, caller2, now2, path, operationId, payload2, keyType2, teePrice2, teeTimestamp2).Failure?
  {
    var s1 := SignAllowed(s, caller, now, path, operationId, payload, keyType, teePrice, teeTimestamp).value.0;
    var n := s.permissions[path].allowedOperations[operationId].nonce;
    SignSpends(s, caller, now, path, operationId, payload, keyType, teePrice, teeTimestamp);
    RunKeepsSpent(s1, host, calls, compensate, path, operationId, n);
  }

  /**
   * As the host executes the callback, an operation whose request succeeded
   * can never be requested again, whatever follows, even when every
   * signature attempt failed.
   */
  lemma StrandedAsWritten(s: State, host: Host, caller: AccountId, now: nat, path: DerivationPath,
                          operationId: Str, payload: seq<byte>, keyType: Str, teePrice: Option<nat>,
                          teeTimestamp: Option<nat>, calls: seq<Call>, now2: nat)
    requires Inv(s)
    requires SignAllowed(s, caller, now, path, operationId, payload, keyType, teePrice, teeTimestamp).Success?
    ensures var s1 := SignAllowed(s, caller, now, path, operationId, payload, keyType, teePrice, teeTimestamp).value.0;
            var later := Run(s1, host, [SignCompleteCall(path, operationId, SignFailed)] + calls, false);
            !IsOperationAllowed(later, now2, path, operationId)
  {
    var s1 := SignAllowed(s, caller, now, path, operationId, payload, keyType, teePrice, teeTimestamp).value.0;
    var all := [SignCompleteCall(path, operationId, SignFailed)] + calls;
    AtMostOnceUntilCompensated(s, host, caller, now, path, operationId, payload, keyType, teePrice, teeTimestamp,
                               all, false, caller, now2, payload, keyType, teePrice, teeTimestamp);
  }
}
