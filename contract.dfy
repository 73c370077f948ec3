/**
 * The contract object itself (contracts/permission/src/lib.rs): its fields
 * are the seven fields of `PermissionContract`, and each entry point updates
 * them in place. Every mutating method is proved to move the object exactly
 * as the corresponding transition of `Engine` moves its abstract state,
 * leaving it untouched when that transition aborts, and to keep the
 * invariant of `Invariant.Inv`.
 *
 * A call that panics in the source has all its writes discarded by the host,
 * so here every check that can abort comes before the first write.
 */
module Contract {
  import opened Wrappers
  import opened Bytes
  import opened Collections
  import opened Types
  import opened Signature
  import opened Keys
  import opened Engine
  import opened Invariant

  class PermissionContract {
    var owner: AccountId
    var permissions: map<DerivationPath, UserPermissions>
    var walletToPath: map<Str, DerivationPath>
    var teeRelayers: set<AccountId>
    var mpcContract: AccountId
    var activeOperations: seq<ActiveKey>
    var usedNonces: set<NonceKey>

    /** The fields as one value of the transition model. */
    function Abs(): State
      reads this
    {
      State(owner, permissions, walletToPath, teeRelayers, mpcContract, activeOperations, usedNonces)
    }

    ghost predicate Valid()
      reads this
    {
      Inv(Abs())
    }

    /** `new(owner, mpc_contract)`. */
    constructor (owner: AccountId, mpcContract: AccountId)
      ensures Abs() == New(owner, mpcContract)
      ensures Valid()
    {
      this.owner := owner;
      permissions := map[];
      walletToPath := map[];
      teeRelayers := {};
      this.mpcContract := mpcContract;
      activeOperations := [];
      usedNonces := {};
      new;
      InvNew(owner, mpcContract);
    }

    method RegisterTeeRelayer(caller: AccountId, relayer: AccountId) returns (r: Outcome<Error>)
      requires Valid()
      modifies this
      ensures Valid()
      ensures var t := Engine.RegisterTeeRelayer(old(Abs()), caller, relayer);
              (t.Success? ==> r == Pass && Abs() == t.value) &&
              (t.Failure? ==> r == Fail(t.error) && Abs() == old(Abs()))
    {
      ghost var s0 := Abs();
      if caller != owner {
        return Fail(NotOwner);
      }
      teeRelayers := teeRelayers + {relayer};
      InvRelayers(s0, caller, relayer, s0.mpcContract);
      r := Pass;
    }

    method RemoveTeeRelayer(caller: AccountId, relayer: AccountId) returns (r: Outcome<Error>)
      requires Valid()
      modifies this
      ensures Valid()
      ensures var t := Engine.RemoveTeeRelayer(old(Abs()), caller, relayer);
              (t.Success? ==> r == Pass && Abs() == t.value) &&
              (t.Failure? ==> r == Fail(t.error) && Abs() == old(Abs()))
    {
      ghost var s0 := Abs();
      if caller != owner {
        return Fail(NotOwner);
      }
      teeRelayers := teeRelayers - {relayer};
      InvRelayers(s0, caller, relayer, s0.mpcContract);
      r := Pass;
    }

    method UpdateMpcContract(caller: AccountId, newMpcContract: AccountId) returns (r: Outcome<Error>)
      requires Valid()
      modifies this
      ensures Valid()
      ensures var t := Engine.UpdateMpcContract(old(Abs()), caller, newMpcContract);
              (t.Success? ==> r == Pass && Abs() == t.value) &&
              (t.Failure? ==> r == Fail(t.error) && Abs() == old(Abs()))
    {
      ghost var s0 := Abs();
      if caller != owner {
        return Fail(NotOwner);
      }
      mpcContract := newMpcContract;
      InvRelayers(s0, caller, caller, newMpcContract);
      r := Pass;
    }

    /** `register_wallet`. */
    method RegisterWallet(host: Host, caller: AccountId, path: DerivationPath, walletType: WalletType,
                          publicKey: seq<byte>, chainAddress: Str, signature: seq<byte>, message: seq<byte>,
                          nonce: nat) returns (r: Outcome<Error>)
      requires Valid()
      modifies this
      ensures Valid()
      ensures var t := Engine.RegisterWallet(old(Abs()), host, caller, path, walletType, publicKey, chainAddress,
                                             signature, message, nonce);
              (t.Success? ==> r == Pass && Abs() == t.value) &&
              (t.Failure? ==> r == Fail(t.error) && Abs() == old(Abs()))
    {
      ghost var s0 := Abs();
      if caller !in teeRelayers {
        return Fail(NotRelayer);
      }
      var nonceKey := NonceKey(chainAddress, nonce);
      if nonceKey in usedNonces {
        return Fail(NonceAlreadyUsed);
      }
      if !VerifyUserSignature(host, walletType, publicKey, chainAddress, message, signature) {
        return Fail(InvalidSignature);
      }
      if message != RegisterMessage(path, nonce) {
        return Fail(MessageMismatch);
      }
      usedNonces := usedNonces + {nonceKey};
      var wallet := RegisteredWallet(walletType, publicKey, chainAddress);
      if path in permissions {
        var perms := permissions[path];
        if !HasWallet(perms.ownerWallets, chainAddress) {
          permissions := permissions[path := perms.(ownerWallets := perms.ownerWallets + [wallet])];
        }
      } else {
        permissions := permissions[path := UserPermissions([wallet], [], map[], 1)];
      }
      walletToPath := walletToPath[chainAddress := path];
      InvRegisterWallet(s0, host, caller, path, walletType, publicKey, chainAddress, signature, message, nonce);
      r := Pass;
    }

    /**
     * The owner checks of adding and removing: the caller is a relayer, the
     * path is known, and the named wallet of the path signed `message`.
     */
    method Authorize(host: Host, caller: AccountId, path: DerivationPath, signature: seq<byte>,
                     message: seq<byte>, signerAddress: Str) returns (r: Outcome<Error>)
      ensures r == AuthorizeOwner(Abs(), host, caller, path, signature, message, signerAddress)
    {
      if caller !in teeRelayers {
        return Fail(NotRelayer);
      }
      if path !in permissions {
        return Fail(NoPermissions);
      }
      var signer := FindWallet(permissions[path].ownerWallets, signerAddress);
      if signer.None? {
        return Fail(SignerNotAuthorized);
      }
      var w := signer.value;
      if !VerifyUserSignature(host, w.walletType, w.publicKey, signerAddress, message, signature) {
        return Fail(InvalidSignature);
      }
      r := Pass;
    }

    /** `add_allowed_operation`: returns the new operation's id. */
    method AddAllowedOperation(host: Host, caller: AccountId, now: nat, path: DerivationPath,
                               input: AllowedOperationInput, signature: seq<byte>, message: seq<byte>,
                               signerAddress: Str) returns (r: Result<Str, Error>)
      requires Valid()
      modifies this
      ensures Valid()
      ensures var t := Engine.AddAllowedOperation(old(Abs()), host, caller, now, path, input, signature, message,
                                                  signerAddress);
              (t.Success? ==> r == Success(t.value.1) && Abs() == t.value.0) &&
              (t.Failure? ==> r == Failure(t.error) && Abs() == old(Abs()))
    {
      ghost var s0 := Abs();
      var auth := Authorize(host, caller, path, signature, message, signerAddress);
      if auth.Fail? {
        AddRejects(s0, host, caller, now, path, input, signature, message, signerAddress);
        return Failure(auth.error);
      }
      var id := StoreNewOperation(now, path, input);
      AddCommits(s0, host, caller, now, path, input, signature, message, signerAddress);
      InvAddAllowedOperation(s0, host, caller, now, path, input, signature, message, signerAddress);
      r := Success(id);
    }

    /**
     * The writes of an authorised addition: the path's counter names and
     * then passes the new operation, which is stored and indexed.
     */
    method StoreNewOperation(now: nat, path: DerivationPath, input: AllowedOperationInput) returns (id: Str)
      requires path in permissions
      modifies this
      ensures var perms := old(permissions)[path];
              var n := perms.nextNonce;
              && id == OperationId(path, n)
              && Abs() == old(Abs()).(permissions := old(permissions)[path := PutOperation(perms.(nextNonce := n + 1), id,
                                                                                           NewOperation(input, id, path, n, now))],
                                      activeOperations := Insert(old(activeOperations), ActiveKey(path, id)))
    {
      var perms := permissions[path];
      var n := perms.nextNonce;
      id := OperationId(path, n);
      perms := perms.(nextNonce := n + 1);
      var op := NewOperation(input, id, path, n, now);
      perms := PutOperation(perms, id, op);
      permissions := permissions[path := perms];
      activeOperations := Insert(activeOperations, ActiveKey(path, id));
    }

    /** `remove_allowed_operation`. */
    method RemoveAllowedOperation(host: Host, caller: AccountId, path: DerivationPath, operationId: Str,
                                  signature: seq<byte>, message: seq<byte>, signerAddress: Str)
      returns (r: Outcome<Error>)
      requires Valid()
      modifies this
      ensures Valid()
      ensures var t := Engine.RemoveAllowedOperation(old(Abs()), host, caller, path, operationId, signature,
                                                     message, signerAddress);
              (t.Success? ==> r == Pass && Abs() == t.value) &&
              (t.Failure? ==> r == Fail(t.error) && Abs() == old(Abs()))
    {
      ghost var s0 := Abs();
      r := Authorize(host, caller, path, signature, message, signerAddress);
      if r.Fail? {
        RemoveRejects(s0, host, caller, path, operationId, signature, message, signerAddress);
        return;
      }
      var perms := permissions[path];
      perms := perms.(operationKeys := Remove(perms.operationKeys, operationId),
                      allowedOperations := perms.allowedOperations - {operationId});
      permissions := permissions[path := perms];
      activeOperations := Remove(activeOperations, ActiveKey(path, operationId));
      InvRemoveAllowedOperation(s0, host, caller, path, operationId, signature, message, signerAddress);
    }

    /**
     * `sign_allowed`: marks the operation executed, drops it from the index
     * and returns the request to send to the signer contract together with
     * the callback that will receive the answer.
     */
    method SignAllowed(caller: AccountId, now: nat, path: DerivationPath, operationId: Str, payload: seq<byte>,
                       keyType: Str, teePrice: Option<nat>, teeTimestamp: Option<nat>)
      returns (r: Result<PendingSign, Error>)
      requires Valid()
      modifies this
      ensures Valid()
      ensures var t := Engine.SignAllowed(old(Abs()), caller, now, path, operationId, payload, keyType, teePrice,
                                          teeTimestamp);
              (t.Success? ==> r == Success(t.value.1) && Abs() == t.value.0) &&
              (t.Failure? ==> r == Failure(t.error) && Abs() == old(Abs()))
    {
      ghost var s0 := Abs();
      if caller !in teeRelayers {
        return Failure(NotRelayer);
      }
      var gate := ExecutionGate(Abs(), now, path, operationId);
      if gate.Fail? {
        return Failure(gate.error);
      }
      SignRejects(s0, caller, now, path, operationId, payload, keyType, teePrice, teeTimestamp);
      var op := permissions[path].allowedOperations[operationId];
      if teePrice.Some? {
        var price := ValidatePriceCondition(op, teePrice.value, teeTimestamp, now);
        if price.Fail? {
          return Failure(price.error);
        }
      }
      if keyType != Eddsa && keyType != Ecdsa {
        return Failure(InvalidKeyType);
      }
      SetExecuted(path, operationId, true);
      var domainId := if keyType == Eddsa then 1 else 0;
      var payloadHex := HexEncode(payload);
      var payloadV2 := if keyType == Eddsa then PayloadV2(Some(payloadHex), None) else PayloadV2(None, Some(payloadHex));
      SignCommits(s0, caller, now, path, operationId, payload, keyType, teePrice, teeTimestamp);
      InvSignAllowed(s0, caller, now, path, operationId, payload, keyType, teePrice, teeTimestamp);
      r := Success(PendingSign(SignRequest(payloadV2, path, domainId), path, operationId));
    }

    /**
     * The writes that flip a stored operation's `executed` flag: an executed
     * operation leaves the active index, an unexecuted one (re-)enters it.
     */
    method SetExecuted(path: DerivationPath, operationId: Str, executed: bool)
      requires path in permissions && operationId in permissions[path].allowedOperations
      modifies this
      ensures var perms := old(permissions)[path];
              var op := perms.allowedOperations[operationId];
              var key := ActiveKey(path, operationId);
              Abs() == old(Abs()).(permissions := old(permissions)[path := PutOperation(perms, operationId, op.(executed := executed))],
                                   activeOperations := if executed then Remove(old(activeOperations), key)
                                                       else Insert(old(activeOperations), key))
    {
      var perms := permissions[path];
      var op := perms.allowedOperations[operationId];
      permissions := permissions[path := PutOperation(perms, operationId, op.(executed := executed))];
      if executed {
        activeOperations := Remove(activeOperations, ActiveKey(path, operationId));
      } else {
        activeOperations := Insert(activeOperations, ActiveKey(path, operationId));
      }
    }

    /**
     * `on_mpc_sign_complete` with its compensation kept: on a failed
     * signature the operation, if still stored, becomes unexecuted again and
     * re-enters the index. `Engine.OnMpcSignCompleteAsWritten` is the
     * source's own behaviour, where the final panic discards these writes.
     */
    method OnMpcSignComplete(path: DerivationPath, operationId: Str, outcome: SignOutcome)
      returns (r: Result<seq<byte>, Error>)
      requires Valid()
      modifies this
      ensures Valid()
      ensures var t := Engine.OnMpcSignComplete(old(Abs()), path, operationId, outcome);
              r == t.1 && Abs() == t.0
    {
      ghost var s0 := Abs();
      InvOnMpcSignComplete(s0, path, operationId, outcome);
      if outcome.Signed? {
        return Success(outcome.signature);
      }
      if path in permissions && operationId in permissions[path].allowedOperations {
        SetExecuted(path, operationId, false);
      }
      r := Failure(MpcSignFailed);
    }

    /**
     * One entry of the polling loop: split at the first ':' and look both
     * halves up; nothing when the entry has no ':' or a lookup misses.
     */
    method ResolveEntry(key: ActiveKey) returns (entry: Option<(DerivationPath, AllowedOperation)>)
      ensures entry == Resolve(Abs(), key)
    {
      match SplitActiveKey(JoinActiveKey(key)) {
        case Some(k) =>
          if k.path in permissions && k.operationId in permissions[k.path].allowedOperations {
            return Some((k.path, permissions[k.path].allowedOperations[k.operationId]));
          }
        case None =>
      }
      entry := None;
    }

    /**
     * `get_active_operations`: walks the page of the index and keeps the
     * entries that resolve, in index order.
     */
    method GetActiveOperations(fromIndex: nat, limit: nat) returns (results: seq<(DerivationPath, AllowedOperation)>)
      ensures results == ActiveOperations(Abs(), fromIndex, limit)
    {
      var page := Page(activeOperations, fromIndex, limit);
      results := [];
      var j := 0;
      while j < |page|
        invariant j <= |page|
        invariant results == ResolveAll(Abs(), page[..j])
      {
        var entry := ResolveEntry(page[j]);
        if entry.Some? {
          results := results + [entry.value];
        }
        ResolveAllStep(Abs(), page, j);
        j := j + 1;
      }
      assert page[..j] == page;
    }
  }

  /** Resolving one more entry of the page appends its result, if it has one. */
  lemma ResolveAllStep(s: State, page: seq<ActiveKey>, j: nat)
    requires j < |page|
    ensures ResolveAll(s, page[..j + 1]) ==
              ResolveAll(s, page[..j]) + (if Resolve(s, page[j]).Some? then [Resolve(s, page[j]).value] else [])
  {
    assert page[..j + 1] == page[..j] + [page[j]];
    ResolveAllSnoc(s, page[..j], page[j]);
  }
}
