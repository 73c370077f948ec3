/**
 * The invariant every reachable state of the permission contract keeps, and
 * its preservation by each entry point. Its central clause: an entry
 * (path, id) is in the active index exactly when the operation is stored under
 * that path and not executed.
 */
module Invariant {
  import opened Wrappers
  import opened Bytes
  import opened Collections
  import opened Types
  import opened Signature
  import opened Keys
  import opened Engine

  /** Stored under its path and not executed: what the active index should list. */
  ghost predicate IsLive(s: State, k: ActiveKey)
  {
    && k.path in s.permissions
    && k.operationId in s.permissions[k.path].allowedOperations
    && !s.permissions[k.path].allowedOperations[k.operationId].executed
  }

  /** An operation is filed under the id the path's counter gave it, and that counter has moved past it. */
  predicate OperationWellFormed(path: DerivationPath, id: Str, op: AllowedOperation, nextNonce: nat)
  {
    && op.operationId == id && op.derivationPath == path
    && 1 <= op.nonce < nextNonce
    && id == OperationId(path, op.nonce)
  }

  predicate DistinctAddresses(wallets: seq<RegisteredWallet>)
  {
    forall i, j :: 0 <= i < j < |wallets| ==> wallets[i].chainAddress != wallets[j].chainAddress
  }

  ghost predicate PermissionsWellFormed(path: DerivationPath, p: UserPermissions)
  {
    && KeysMatch(p)
    && 1 <= p.nextNonce
    && DistinctAddresses(p.ownerWallets)
    && forall id :: id in p.allowedOperations ==> OperationWellFormed(path, id, p.allowedOperations[id], p.nextNonce)
  }

  /** The active index lists each live operation exactly once, and nothing else. */
  ghost predicate IndexExact(s: State)
  {
    && NoDup(s.activeOperations)
    && forall k :: k in s.activeOperations <==> IsLive(s, k)
  }

  ghost predicate AllWellFormed(permissions: map<DerivationPath, UserPermissions>)
  {
    forall p :: p in permissions ==> PermissionsWellFormed(p, permissions[p])
  }

  /** Every address in the reverse lookup names a path that lists a wallet with that address. */
  ghost predicate WalletsBound(s: State)
  {
    forall a :: a in s.walletToPath ==>
      s.walletToPath[a] in s.permissions && HasWallet(s.permissions[s.walletToPath[a]].ownerWallets, a)
  }

  ghost predicate Inv(s: State)
  {
    IndexExact(s) && AllWellFormed(s.permissions) && WalletsBound(s)
  }

  lemma InvNew(owner: AccountId, mpcContract: AccountId)
    ensures Inv(New(owner, mpcContract))
  {
  }

  /** The counter's next id is not yet in use, so adding an operation never overwrites one. */
  lemma NextIdIsFresh(path: DerivationPath, p: UserPermissions)
    requires PermissionsWellFormed(path, p)
    ensures OperationId(path, p.nextNonce) !in p.allowedOperations
  {
    var id := OperationId(path, p.nextNonce);
    if id in p.allowedOperations {
      OperationIdInjective(path, p.allowedOperations[id].nonce, p.nextNonce);
    }
  }

  // ---------------------------------------------------------------------------
  // One path's permission set replaced
  // ---------------------------------------------------------------------------

  lemma AllWellFormedUpdate(permissions: map<DerivationPath, UserPermissions>, path: DerivationPath, perms': UserPermissions)
    requires AllWellFormed(permissions) && PermissionsWellFormed(path, perms')
    ensures AllWellFormed(permissions[path := perms'])
  {
  }

  lemma WalletsBoundUpdate(s: State, path: DerivationPath, perms': UserPermissions, active: seq<ActiveKey>)
    requires WalletsBound(s) && path in s.permissions
    requires perms'.ownerWallets == s.permissions[path].ownerWallets
    ensures WalletsBound(s.(permissions := s.permissions[path := perms'], activeOperations := active))
  {
  }

  /**
   * Storing `op` under (path, id): the index stays exact when the entry is
   * inserted for an unexecuted operation and removed for an executed one.
   */
  lemma IndexAfterPut(s: State, path: DerivationPath, id: Str, op: AllowedOperation, perms': UserPermissions)
    requires IndexExact(s) && path in s.permissions
    requires perms'.allowedOperations == s.permissions[path].allowedOperations[id := op]
    ensures var key := ActiveKey(path, id);
            IndexExact(s.(permissions := s.permissions[path := perms'],
                          activeOperations := if op.executed then Remove(s.activeOperations, key)
                                              else Insert(s.activeOperations, key)))
  {
    var key := ActiveKey(path, id);
    var s' := s.(permissions := s.permissions[path := perms'],
                 activeOperations := if op.executed then Remove(s.activeOperations, key)
                                     else Insert(s.activeOperations, key));
    forall k
      ensures k in s'.activeOperations <==> IsLive(s', k)
    {
      if k != key {
        assert IsLive(s', k) == IsLive(s, k);
      }
    }
  }

  /** Dropping (path, id) from the store and from the index keeps the index exact. */
  lemma IndexAfterDelete(s: State, path: DerivationPath, id: Str, perms': UserPermissions)
    requires IndexExact(s) && path in s.permissions
    requires perms'.allowedOperations == s.permissions[path].allowedOperations - {id}
    ensures IndexExact(s.(permissions := s.permissions[path := perms'],
                          activeOperations := Remove(s.activeOperations, ActiveKey(path, id))))
  {
    var key := ActiveKey(path, id);
    var s' := s.(permissions := s.permissions[path := perms'],
                 activeOperations := Remove(s.activeOperations, key));
    forall k
      ensures k in s'.activeOperations <==> IsLive(s', k)
    {
      if k != key {
        assert IsLive(s', k) == IsLive(s, k);
      }
    }
  }

  // ---------------------------------------------------------------------------
  // Preservation by each entry point
  // ---------------------------------------------------------------------------

  lemma InvRelayers(s: State, caller: AccountId, relayer: AccountId, mpcContract: AccountId)
    requires Inv(s)
    ensures RegisterTeeRelayer(s, caller, relayer).Success? ==> Inv(RegisterTeeRelayer(s, caller, relayer).value)
    ensures RemoveTeeRelayer(s, caller, relayer).Success? ==> Inv(RemoveTeeRelayer(s, caller, relayer).value)
    ensures UpdateMpcContract(s, caller, mpcContract).Success? ==> Inv(UpdateMpcContract(s, caller, mpcContract).value)
  {
    if RegisterTeeRelayer(s, caller, relayer).Success? {
      var s' := RegisterTeeRelayer(s, caller, relayer).value;
      assert forall k :: IsLive(s', k) == IsLive(s, k);
    }
    if RemoveTeeRelayer(s, caller, relayer).Success? {
      var s' := RemoveTeeRelayer(s, caller, relayer).value;
      assert forall k :: IsLive(s', k) == IsLive(s, k);
    }
    if UpdateMpcContract(s, caller, mpcContract).Success? {
      var s' := UpdateMpcContract(s, caller, mpcContract).value;
      assert forall k :: IsLive(s', k) == IsLive(s, k);
    }
  }

  /** Registering leaves every stored operation where it was. */
  lemma IndexAfterRegister(s: State, path: DerivationPath, wallet: RegisteredWallet, chainAddress: Str,
                           nonce: NonceKey)
    requires IndexExact(s)
    ensures IndexExact(s.(usedNonces := s.usedNonces + {nonce},
                          permissions := WithWallet(s.permissions, path, wallet),
                          walletToPath := s.walletToPath[chainAddress := path]))
  {
    var s' := s.(usedNonces := s.usedNonces + {nonce},
                 permissions := WithWallet(s.permissions, path, wallet),
                 walletToPath := s.walletToPath[chainAddress := path]);
    forall k
      ensures IsLive(s', k) == IsLive(s, k)
    {
    }
  }

  /** The permission sets after a registration are well formed: a new wallet's address is new to its path. */
  lemma WellFormedAfterRegister(permissions: map<DerivationPath, UserPermissions>, path: DerivationPath,
                                wallet: RegisteredWallet)
    requires AllWellFormed(permissions)
    ensures AllWellFormed(WithWallet(permissions, path, wallet))
  {
    if path in permissions {
      var perms := permissions[path];
      var ws := perms.ownerWallets;
      if !HasWallet(ws, wallet.chainAddress) {
        var ws' := ws + [wallet];
        forall i, j | 0 <= i < j < |ws'|
          ensures ws'[i].chainAddress != ws'[j].chainAddress
        {
          if j == |ws| {
            assert ws[i] in ws;
          }
        }
        AllWellFormedUpdate(permissions, path, perms.(ownerWallets := ws'));
      }
    }
  }

  /** After a registration every bound address, the new one included, names a wallet of its path. */
  lemma WalletsBoundAfterRegister(s: State, path: DerivationPath, wallet: RegisteredWallet, nonce: NonceKey)
    requires WalletsBound(s)
    ensures WalletsBound(s.(usedNonces := s.usedNonces + {nonce},
                            permissions := WithWallet(s.permissions, path, wallet),
                            walletToPath := s.walletToPath[wallet.chainAddress := path]))
  {
    var s' := s.(usedNonces := s.usedNonces + {nonce},
                 permissions := WithWallet(s.permissions, path, wallet),
                 walletToPath := s.walletToPath[wallet.chainAddress := path]);
    forall a | a in s'.walletToPath
      ensures s'.walletToPath[a] in s'.permissions && HasWallet(s'.permissions[s'.walletToPath[a]].ownerWallets, a)
    {
      var p := s'.walletToPath[a];
      if a == wallet.chainAddress {
        if path in s.permissions && HasWallet(s.permissions[path].ownerWallets, a) {
        } else {
          assert wallet in s'.permissions[path].ownerWallets;
        }
      } else {
        var w :| w in s.permissions[p].ownerWallets && w.chainAddress == a;
        assert w in s'.permissions[p].ownerWallets;
      }
    }
  }

  lemma InvRegisterWallet(s: State, host: Host, caller: AccountId, path: DerivationPath,
                          walletType: WalletType, publicKey: seq<byte>, chainAddress: Str,
                          signature: seq<byte>, message: seq<byte>, nonce: nat)
    requires Inv(s)
    requires RegisterWallet(s, host, caller, path, walletType, publicKey, chainAddress, signature, message, nonce).Success?
    ensures Inv(RegisterWallet(s, host, caller, path, walletType, publicKey, chainAddress, signature, message, nonce).value)
  {
    var wallet := RegisteredWallet(walletType, publicKey, chainAddress);
    var key := NonceKey(chainAddress, nonce);
    IndexAfterRegister(s, path, wallet, chainAddress, key);
    WellFormedAfterRegister(s.permissions, path, wallet);
    WalletsBoundAfterRegister(s, path, wallet, key);
  }

  /** The permission set after an addition is well formed: the new operation takes the counter's value. */
  lemma WellFormedAfterAdd(path: DerivationPath, perms: UserPermissions, input: AllowedOperationInput, now: nat)
    requires PermissionsWellFormed(path, perms)
    ensures var n := perms.nextNonce;
            var id := OperationId(path, n);
            PermissionsWellFormed(path, PutOperation(perms.(nextNonce := n + 1), id, NewOperation(input, id, path, n, now)))
  {
    var n := perms.nextNonce;
    var id := OperationId(path, n);
    var perms' := PutOperation(perms.(nextNonce := n + 1), id, NewOperation(input, id, path, n, now));
    NextIdIsFresh(path, perms);
    forall op | op in perms'.allowedOperations
      ensures OperationWellFormed(path, op, perms'.allowedOperations[op], perms'.nextNonce)
    {
      if op != id {
        assert perms'.allowedOperations[op] == perms.allowedOperations[op];
      }
    }
  }

  lemma InvAddAllowedOperation(s: State, host: Host, caller: AccountId, now: nat, path: DerivationPath,
                               input: AllowedOperationInput, signature: seq<byte>, message: seq<byte>,
                               signerAddress: Str)
    requires Inv(s)
    requires AddAllowedOperation(s, host, caller, now, path, input, signature, message, signerAddress).Success?
    ensures Inv(AddAllowedOperation(s, host, caller, now, path, input, signature, message, signerAddress).value.0)
  {
    AddCommits(s, host, caller, now, path, input, signature, message, signerAddress);
    InvAfterAdd(s, path, input, now);
  }

  /** Storing the next operation of a registered path, with its index entry, keeps the invariant. */
  lemma InvAfterAdd(s: State, path: DerivationPath, input: AllowedOperationInput, now: nat)
    requires Inv(s) && path in s.permissions
    ensures var perms := s.permissions[path];
            var n := perms.nextNonce;
            var id := OperationId(path, n);
            var perms' := PutOperation(perms.(nextNonce := n + 1), id, NewOperation(input, id, path, n, now));
            Inv(s.(permissions := s.permissions[path := perms'],
                   activeOperations := Insert(s.activeOperations, ActiveKey(path, id))))
  {
    var perms := s.permissions[path];
    var n := perms.nextNonce;
    var id := OperationId(path, n);
    var op := NewOperation(input, id, path, n, now);
    var perms' := PutOperation(perms.(nextNonce := n + 1), id, op);
    WellFormedAfterAdd(path, perms, input, now);
    AllWellFormedUpdate(s.permissions, path, perms');
    IndexAfterPut(s, path, id, op, perms');
    WalletsBoundUpdate(s, path, perms', Insert(s.activeOperations, ActiveKey(path, id)));
  }

  lemma InvRemoveAllowedOperation(s: State, host: Host, caller: AccountId, path: DerivationPath,
                                  operationId: Str, signature: seq<byte>, message: seq<byte>, signerAddress: Str)
    requires Inv(s)
    requires RemoveAllowedOperation(s, host, caller, path, operationId, signature, message, signerAddress).Success?
    ensures Inv(RemoveAllowedOperation(s, host, caller, path, operationId, signature, message, signerAddress).value)
  {
    var perms := s.permissions[path];
    var perms' := perms.(operationKeys := Remove(perms.operationKeys, operationId),
                         allowedOperations := perms.allowedOperations - {operationId});
    forall op | op in perms'.allowedOperations
      ensures OperationWellFormed(path, op, perms'.allowedOperations[op], perms'.nextNonce)
    {
      assert perms'.allowedOperations[op] == perms.allowedOperations[op];
    }
    assert PermissionsWellFormed(path, perms');
    AllWellFormedUpdate(s.permissions, path, perms');
    IndexAfterDelete(s, path, operationId, perms');
    WalletsBoundUpdate(s, path, perms', Remove(s.activeOperations, ActiveKey(path, operationId)));
  }

  /** Replacing a stored operation by a copy with another `executed` flag keeps the permission set well formed. */
  lemma SetExecutedWellFormed(path: DerivationPath, perms: UserPermissions, id: Str, executed: bool)
    requires PermissionsWellFormed(path, perms)
    requires id in perms.allowedOperations
    ensures PermissionsWellFormed(path, PutOperation(perms, id, perms.allowedOperations[id].(executed := executed)))
    ensures PutOperation(perms, id, perms.allowedOperations[id].(executed := executed)).operationKeys == perms.operationKeys
  {
    var perms' := PutOperation(perms, id, perms.allowedOperations[id].(executed := executed));
    forall op | op in perms'.allowedOperations
      ensures OperationWellFormed(path, op, perms'.allowedOperations[op], perms'.nextNonce)
    {
      if op != id {
        assert perms'.allowedOperations[op] == perms.allowedOperations[op];
      }
    }
  }

  /** Flipping the `executed` flag of a stored operation, with the matching index update, keeps the invariant. */
  lemma InvSetExecuted(s: State, path: DerivationPath, id: Str, executed: bool)
    requires Inv(s) && path in s.permissions && id in s.permissions[path].allowedOperations
    ensures var perms := s.permissions[path];
            var op := perms.allowedOperations[id].(executed := executed);
            var key := ActiveKey(path, id);
            Inv(s.(permissions := s.permissions[path := PutOperation(perms, id, op)],
                   activeOperations := if executed then Remove(s.activeOperations, key) else Insert(s.activeOperations, key)))
  {
    var perms := s.permissions[path];
    var op := perms.allowedOperations[id].(executed := executed);
    var perms' := PutOperation(perms, id, op);
    var key := ActiveKey(path, id);
    SetExecutedWellFormed(path, perms, id, executed);
    AllWellFormedUpdate(s.permissions, path, perms');
    IndexAfterPut(s, path, id, op, perms');
    WalletsBoundUpdate(s, path, perms', if executed then Remove(s.activeOperations, key) else Insert(s.activeOperations, key));
  }

  lemma InvSignAllowed(s: State, caller: AccountId, now: nat, path: DerivationPath, operationId: Str,
                       payload: seq<byte>, keyType: Str, teePrice: Option<nat>, teeTimestamp: Option<nat>)
    requires Inv(s)
    requires SignAllowed(s, caller, now, path, operationId, payload, keyType, teePrice, teeTimestamp).Success?
    ensures Inv(SignAllowed(s, caller, now, path, operationId, payload, keyType, teePrice, teeTimestamp).value.0)
  {
    InvSetExecuted(s, path, operationId, true);
  }

  lemma InvOnMpcSignComplete(s: State, path: DerivationPath, operationId: Str, outcome: SignOutcome)
    requires Inv(s)
    ensures Inv(OnMpcSignComplete(s, path, operationId, outcome).0)
  {
    if outcome.SignFailed? && path in s.permissions && operationId in s.permissions[path].allowedOperations {
      InvSetExecuted(s, path, operationId, false);
    }
  }
}
