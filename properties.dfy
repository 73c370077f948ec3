/**
 * What the permission contract promises across calls: replay rejection,
 * at-most-once execution, the compensation after a failed signature, the
 * idempotence of removal, and what polling the active index returns.
 */
module Properties {
  import opened Wrappers
  import opened Bytes
  import opened Collections
  import opened Types
  import opened Signature
  import opened Keys
  import opened Engine
  import opened Invariant

  /** A registration consumes its (address, nonce) pair: the same pair is refused next time, whatever else is sent. */
  lemma RegistrationNonceIsSingleUse(s: State, host: Host, caller: AccountId, path: DerivationPath,
                                     walletType: WalletType, publicKey: seq<byte>, chainAddress: Str,
                                     signature: seq<byte>, message: seq<byte>, nonce: nat,
                                     caller2: AccountId, path2: DerivationPath, walletType2: WalletType,
                                     publicKey2: seq<byte>, signature2: seq<byte>, message2: seq<byte>)
    requires RegisterWallet(s, host, caller, path, walletType, publicKey, chainAddress, signature, message, nonce).Success?
    ensures var s' := RegisterWallet(s, host, caller, path, walletType, publicKey, chainAddress, signature, message, nonce).value;
            var again := RegisterWallet(s', host, caller2, path2, walletType2, publicKey2, chainAddress, signature2, message2, nonce);
            again.Failure? && (caller2 in s'.teeRelayers ==> again.error == NonceAlreadyUsed)
  {
  }

  /** Registering never duplicates an address among a path's wallets, and the reverse map points at a path holding it. */
  lemma RegisteredWalletIsBound(s: State, host: Host, caller: AccountId, path: DerivationPath,
                                walletType: WalletType, publicKey: seq<byte>, chainAddress: Str,
                                signature: seq<byte>, message: seq<byte>, nonce: nat)
    requires Inv(s)
    requires RegisterWallet(s, host, caller, path, walletType, publicKey, chainAddress, signature, message, nonce).Success?
    ensures var s' := RegisterWallet(s, host, caller, path, walletType, publicKey, chainAddress, signature, message, nonce).value;
            && GetPathForWallet(s', chainAddress) == Some(path)
            && DistinctAddresses(s'.permissions[path].ownerWallets)
            && HasWallet(s'.permissions[path].ownerWallets, chainAddress)
            && (path !in s.permissions ==>
                  s'.permissions[path].ownerWallets == [RegisteredWallet(walletType, publicKey, chainAddress)]
                  && s'.permissions[path].nextNonce == 1)
  {
    InvRegisterWallet(s, host, caller, path, walletType, publicKey, chainAddress, signature, message, nonce);
  }

  /**
   * A new operation takes the next id of its path, which no stored operation
   * has; the stored copy is unexecuted and listed in the active index.
   */
  lemma AddedOperationIsFreshAndActive(s: State, host: Host, caller: AccountId, now: nat, path: DerivationPath,
                                       input: AllowedOperationInput, signature: seq<byte>, message: seq<byte>,
                                       signerAddress: Str)
    requires Inv(s)
    requires AddAllowedOperation(s, host, caller, now, path, input, signature, message, signerAddress).Success?
    ensures var (s', id) := AddAllowedOperation(s, host, caller, now, path, input, signature, message, signerAddress).value;
            && id !in s.permissions[path].allowedOperations
            && |s'.permissions[path].allowedOperations| == |s.permissions[path].allowedOperations| + 1
            && ActiveKey(path, id) in s'.activeOperations && ActiveKey(path, id) !in s.activeOperations
            && IsOperationAllowed(s', now, path, id) == (input.expiresAt.None? || now < input.expiresAt.value)
  {
    NextIdIsFresh(path, s.permissions[path]);
  }

  /** Two successive additions to a path get ids with consecutive counters, hence distinct ids. */
  lemma SuccessiveIdsDiffer(s: State, host: Host, caller: AccountId, now: nat, path: DerivationPath,
                            input: AllowedOperationInput, signature: seq<byte>, message: seq<byte>, signerAddress: Str,
                            now2: nat, input2: AllowedOperationInput, signature2: seq<byte>, message2: seq<byte>)
    requires AddAllowedOperation(s, host, caller, now, path, input, signature, message, signerAddress).Success?
    requires var s1 := AddAllowedOperation(s, host, caller, now, path, input, signature, message, signerAddress).value.0;
             AddAllowedOperation(s1, host, caller, now2, path, input2, signature2, message2, signerAddress).Success?
    ensures var (s1, id1) := AddAllowedOperation(s, host, caller, now, path, input, signature, message, signerAddress).value;
            var (s2, id2) := AddAllowedOperation(s1, host, caller, now2, path, input2, signature2, message2, signerAddress).value;
            && id1 == OperationId(path, s.permissions[path].nextNonce)
            && id2 == OperationId(path, s.permissions[path].nextNonce + 1)
            && id1 != id2
  {
    var n := s.permissions[path].nextNonce;
    if OperationId(path, n) == OperationId(path, n + 1) {
      OperationIdInjective(path, n, n + 1);
    }
  }

  /** Removing the same operation twice is the same as removing it once. */
  lemma RemoveIsIdempotent(s: State, host: Host, caller: AccountId, path: DerivationPath, operationId: Str,
                           signature: seq<byte>, message: seq<byte>, signerAddress: Str)
    requires Inv(s)
    requires RemoveAllowedOperation(s, host, caller, path, operationId, signature, message, signerAddress).Success?
    ensures var s1 := RemoveAllowedOperation(s, host, caller, path, operationId, signature, message, signerAddress).value;
            RemoveAllowedOperation(s1, host, caller, path, operationId, signature, message, signerAddress) == Success(s1)
  {
    var s1 := RemoveAllowedOperation(s, host, caller, path, operationId, signature, message, signerAddress).value;
    assert s1.permissions[path].ownerWallets == s.permissions[path].ownerWallets;
    assert AuthorizeOwner(s1, host, caller, path, signature, message, signerAddress)
        == AuthorizeOwner(s, host, caller, path, signature, message, signerAddress);
    assert NoDup(s.permissions[path].operationKeys);
    RemoveAbsentChangesNothing(s1, host, caller, path, operationId, signature, message, signerAddress);
  }

  /** An authorised removal of an id that is neither stored nor indexed leaves the state as it is. */
  lemma RemoveAbsentChangesNothing(s: State, host: Host, caller: AccountId, path: DerivationPath, operationId: Str,
                                   signature: seq<byte>, message: seq<byte>, signerAddress: Str)
    requires AuthorizeOwner(s, host, caller, path, signature, message, signerAddress).Pass?
    requires operationId !in s.permissions[path].operationKeys
    requires operationId !in s.permissions[path].allowedOperations
    requires ActiveKey(path, operationId) !in s.activeOperations
    ensures RemoveAllowedOperation(s, host, caller, path, operationId, signature, message, signerAddress) == Success(s)
  {
    var perms := s.permissions[path];
    assert perms.(operationKeys := Remove(perms.operationKeys, operationId),
                  allowedOperations := perms.allowedOperations - {operationId}) == perms;
    assert s.permissions[path := perms] == s.permissions;
  }

  // ---------------------------------------------------------------------------
  // The removal as written: the index keyed by the joined string
  // ---------------------------------------------------------------------------

  /** An indexed entry carries the id its path's counter gave it. */
  lemma IndexedIdIsGenerated(s: State, k: ActiveKey)
    requires Inv(s) && k in s.activeOperations
    ensures k.path in s.permissions && k.operationId in s.permissions[k.path].allowedOperations
    ensures k.operationId == OperationId(k.path, s.permissions[k.path].allowedOperations[k.operationId].nonce)
  {
    assert IsLive(s, k);
    assert PermissionsWellFormed(k.path, s.permissions[k.path]);
  }

  /** Within an exact index no two entries share a string form. */
  lemma IndexedJoinIsUnique(s: State, k: ActiveKey, k': ActiveKey)
    requires Inv(s) && k in s.activeOperations && k' in s.activeOperations
    requires JoinActiveKey(k) == JoinActiveKey(k')
    ensures k == k'
  {
    IndexedIdIsGenerated(s, k);
    IndexedIdIsGenerated(s, k');
    GeneratedJoinInjective(k.path, s.permissions[k.path].allowedOperations[k.operationId].nonce,
                           k'.path, s.permissions[k'.path].allowedOperations[k'.operationId].nonce);
  }

  /**
   * As written, an authorised removal whose "{path}:{id}" is the string of a
   * live entry of another path takes that entry out of the index, while its
   * operation stays stored and unexecuted: the index is no longer exact, and
   * polling never returns that operation again.
   */
  lemma RemovalAsWrittenDropsOtherEntry(s: State, host: Host, caller: AccountId, path: DerivationPath,
                                        operationId: Str, signature: seq<byte>, message: seq<byte>,
                                        signerAddress: Str, k: ActiveKey)
    requires Inv(s)
    requires AuthorizeOwner(s, host, caller, path, signature, message, signerAddress).Pass?
    requires k in s.activeOperations && k != ActiveKey(path, operationId)
    requires JoinActiveKey(k) == JoinActiveKey(ActiveKey(path, operationId))
    ensures var r := RemoveAllowedOperationAsWritten(s, host, caller, path, operationId, signature, message, signerAddress);
            && r.Success?
            && IsLive(r.value, k) && k !in r.value.activeOperations
            && !IndexExact(r.value)
  {
    var key := ActiveKey(path, operationId);
    var joined := JoinActiveKey(key);
    JoinActiveKeySamePath(k, key);
    var found := FindJoined(s.activeOperations, joined);
    IndexedJoinIsUnique(s, k, found.value);
    var r := RemoveAllowedOperationAsWritten(s, host, caller, path, operationId, signature, message, signerAddress);
    assert r.value.activeOperations == Remove(s.activeOperations, k);
    assert r.value.permissions[k.path] == s.permissions[k.path];
    assert IsLive(s, k);
  }

  /**
   * While no indexed path holds a ':', the removal as written removes exactly
   * what the structured removal does: the string of the removed pair can only
   * be its own.
   */
  lemma RemovalAsWrittenAgreesOnColonFreePaths(s: State, host: Host, caller: AccountId, path: DerivationPath,
                                               operationId: Str, signature: seq<byte>, message: seq<byte>,
                                               signerAddress: Str)
    requires Inv(s)
    requires forall k :: k in s.activeOperations ==> Colon !in k.path
    ensures RemoveAllowedOperationAsWritten(s, host, caller, path, operationId, signature, message, signerAddress)
            == RemoveAllowedOperation(s, host, caller, path, operationId, signature, message, signerAddress)
  {
    var key := ActiveKey(path, operationId);
    if AuthorizeOwner(s, host, caller, path, signature, message, signerAddress).Pass? {
      match FindJoined(s.activeOperations, JoinActiveKey(key))
      case None =>
        assert key !in s.activeOperations;
      case Some(k) =>
        IndexedIdIsGenerated(s, k);
        OperationIdColonFree(k.path, s.permissions[k.path].allowedOperations[k.operationId].nonce);
        JoinActiveKeyInjectiveColonFree(k, key);
    }
  }

  /** The structured removal touches only its own path: every other path's entries and permissions stay. */
  lemma RemovalKeepsOtherPaths(s: State, host: Host, caller: AccountId, path: DerivationPath, operationId: Str,
                               signature: seq<byte>, message: seq<byte>, signerAddress: Str)
    requires RemoveAllowedOperation(s, host, caller, path, operationId, signature, message, signerAddress).Success?
    ensures var s' := RemoveAllowedOperation(s, host, caller, path, operationId, signature, message, signerAddress).value;
            && (forall k: ActiveKey :: k.path != path ==> (k in s'.activeOperations <==> k in s.activeOperations))
            && (forall p :: p != path ==> (p in s'.permissions <==> p in s.permissions))
            && (forall p :: p != path && p in s.permissions ==> s'.permissions[p] == s.permissions[p])
  {
  }

  /** With no price supplied and a known key type, a relayer's request succeeds exactly when the operation is allowed. */
  lemma SignSucceedsIffAllowed(s: State, caller: AccountId, now: nat, path: DerivationPath, operationId: Str,
                               payload: seq<byte>, keyType: Str, teeTimestamp: Option<nat>)
    requires caller in s.teeRelayers
    requires keyType == Eddsa || keyType == Ecdsa
    ensures SignAllowed(s, caller, now, path, operationId, payload, keyType, None, teeTimestamp).Success?
            <==> IsOperationAllowed(s, now, path, operationId)
  {
  }

  /**
   * At most once: after a successful request the operation is executed and out
   * of the active index, it is no longer allowed, and a second request aborts.
   */
  lemma SignAllowedAtMostOnce(s: State, caller: AccountId, now: nat, path: DerivationPath, operationId: Str,
                              payload: seq<byte>, keyType: Str, teePrice: Option<nat>, teeTimestamp: Option<nat>,
                              caller2: AccountId, now2: nat, payload2: seq<byte>, keyType2: Str,
                              teePrice2: Option<nat>, teeTimestamp2: Option<nat>)
    requires Inv(s)
    requires SignAllowed(s, caller, now, path, operationId, payload, keyType, teePrice, teeTimestamp).Success?
    ensures var s' := SignAllowed(s, caller, now, path, operationId, payload, keyType, teePrice, teeTimestamp).value.0;
            && s'.permissions[path].allowedOperations[operationId].executed
            && ActiveKey(path, operationId) !in s'.activeOperations
            && !IsOperationAllowed(s', now2, path, operationId)
            && var again := SignAllowed(s', caller2, now2, path, operationId, payload2, keyType2, teePrice2, teeTimestamp2);
               again.Failure? && (caller2 in s'.teeRelayers ==> again.error == AlreadyExecuted)
  {
  }

  /**
   * Compensation: a request followed by a failed signature brings back the
   * permissions exactly and the active index up to order; the operation can be
   * requested again at the same time.
   */
  lemma FailedSignatureRestoresOperation(s: State, caller: AccountId, now: nat, path: DerivationPath, operationId: Str,
                                         payload: seq<byte>, keyType: Str, teePrice: Option<nat>, teeTimestamp: Option<nat>)
    requires Inv(s)
    requires SignAllowed(s, caller, now, path, operationId, payload, keyType, teePrice, teeTimestamp).Success?
    ensures var s1 := SignAllowed(s, caller, now, path, operationId, payload, keyType, teePrice, teeTimestamp).value.0;
            var s2 := OnMpcSignComplete(s1, path, operationId, SignFailed).0;
            && s2.permissions == s.permissions
            && (forall k :: k in s2.activeOperations <==> k in s.activeOperations)
            && s2 == s.(activeOperations := s2.activeOperations)
            && IsOperationAllowed(s2, now, path, operationId)
            && SignAllowed(s2, caller, now, path, operationId, payload, keyType, teePrice, teeTimestamp).Success?
  {
    var s1 := SignAllowed(s, caller, now, path, operationId, payload, keyType, teePrice, teeTimestamp).value.0;
    var s2 := OnMpcSignComplete(s1, path, operationId, SignFailed).0;
    SignCommits(s, caller, now, path, operationId, payload, keyType, teePrice, teeTimestamp);
    FailureUndoesMark(s, path, operationId);
    SignDependsOnPermissions(s, s2, caller, now, path, operationId, payload, keyType, teePrice, teeTimestamp);
  }

  /**
   * Marking a live operation executed and then compensating its failure gives
   * back the permissions exactly and the index up to order.
   */
  lemma FailureUndoesMark(s: State, path: DerivationPath, id: Str)
    requires Inv(s)
    requires path in s.permissions && id in s.permissions[path].allowedOperations
    requires !s.permissions[path].allowedOperations[id].executed
    ensures var perms := s.permissions[path];
            var s1 := s.(permissions := s.permissions[path := PutOperation(perms, id, perms.allowedOperations[id].(executed := true))],
                         activeOperations := Remove(s.activeOperations, ActiveKey(path, id)));
            var s2 := OnMpcSignComplete(s1, path, id, SignFailed).0;
            && s2.permissions == s.permissions
            && (forall k :: k in s2.activeOperations <==> k in s.activeOperations)
            && s2 == s.(activeOperations := s2.activeOperations)
  {
    var perms := s.permissions[path];
    var perms1 := PutOperation(perms, id, perms.allowedOperations[id].(executed := true));
    FlipTwiceRestores(path, perms, id);
    assert s.permissions[path := perms1][path := perms] == s.permissions;
  }

  /** Marking an unexecuted operation executed and then unexecuted gives back the permission set. */
  lemma FlipTwiceRestores(path: DerivationPath, perms: UserPermissions, id: Str)
    requires KeysMatch(perms) && id in perms.allowedOperations && !perms.allowedOperations[id].executed
    ensures var perms1 := PutOperation(perms, id, perms.allowedOperations[id].(executed := true));
            PutOperation(perms1, id, perms1.allowedOperations[id].(executed := false)) == perms
  {
    var op := perms.allowedOperations[id];
    var perms1 := PutOperation(perms, id, op.(executed := true));
    assert op.(executed := true).(executed := false) == op;
    assert perms.allowedOperations[id := op] == perms.allowedOperations;
    assert id in perms.operationKeys;
  }

  /** Whether a request is admitted depends on the relayers and permissions only, not on the index. */
  lemma SignDependsOnPermissions(s: State, s': State, caller: AccountId, now: nat, path: DerivationPath,
                                 operationId: Str, payload: seq<byte>, keyType: Str, teePrice: Option<nat>,
                                 teeTimestamp: Option<nat>)
    requires s'.permissions == s.permissions && s'.teeRelayers == s.teeRelayers
    ensures SignAllowed(s', caller, now, path, operationId, payload, keyType, teePrice, teeTimestamp).Success? ==
            SignAllowed(s, caller, now, path, operationId, payload, keyType, teePrice, teeTimestamp).Success?
    ensures IsOperationAllowed(s', now, path, operationId) == IsOperationAllowed(s, now, path, operationId)
  {
  }

  /**
   * As written, the compensation is discarded with the panicking callback:
   * the operation stays executed and out of the index, so it can never be
   * requested again although no signature was produced.
   */
  lemma FailedSignatureStrandsOperationAsWritten(s: State, caller: AccountId, now: nat, path: DerivationPath,
                                                 operationId: Str, payload: seq<byte>, keyType: Str,
                                                 teePrice: Option<nat>, teeTimestamp: Option<nat>, now2: nat)
    requires Inv(s)
    requires SignAllowed(s, caller, now, path, operationId, payload, keyType, teePrice, teeTimestamp).Success?
    ensures var s1 := SignAllowed(s, caller, now, path, operationId, payload, keyType, teePrice, teeTimestamp).value.0;
            && OnMpcSignCompleteAsWritten(s1, path, operationId, SignFailed) == Failure(MpcSignFailed)
            && GetOperation(s1, path, operationId).Some?
            && GetOperation(s1, path, operationId).value.executed
            && ActiveKey(path, operationId) !in s1.activeOperations
            && !IsOperationAllowed(s1, now2, path, operationId)
            && SignAllowed(s1, caller, now2, path, operationId, payload, keyType, teePrice, teeTimestamp) == Failure(AlreadyExecuted)
  {
  }

  /** A stop-loss at 50: a reported price of 60 is refused, a price of 40 passes. */
  lemma StopLossScenario(op: AllowedOperation, timestamp: Option<nat>, now: nat)
    requires op.operationType.StopLoss? && op.operationType.triggerPrice == 50
    requires !PriceIsStale(timestamp, now)
    ensures ValidatePriceCondition(op, 60, timestamp, now) == Fail(StopLossNotMet)
    ensures ValidatePriceCondition(op, 40, timestamp, now) == Pass
  {
  }

  /** An unexecuted operation expiring at T is allowed strictly before T and never from T on. */
  lemma ExpiryBoundary(s: State, path: DerivationPath, operationId: Str, expiry: nat, now: nat)
    requires path in s.permissions && operationId in s.permissions[path].allowedOperations
    requires s.permissions[path].allowedOperations[operationId].expiresAt == Some(expiry)
    ensures IsOperationAllowed(s, now, path, operationId) <==>
              now < expiry && !s.permissions[path].allowedOperations[operationId].executed
  {
  }

  // ---------------------------------------------------------------------------
  // Polling the active index
  // ---------------------------------------------------------------------------

  /**
   * An index entry whose path holds a ':' is never returned by polling: the
   * string split takes the path to end at its first ':', and the id that is
   * then looked up holds a ':' that no stored id of that shorter path has.
   */
  lemma ColonPathIsNeverResolved(s: State, k: ActiveKey)
    requires Inv(s)
    requires Colon in k.path
    ensures Resolve(s, k) == None
  {
    var joined := JoinActiveKey(k);
    var k' := SplitActiveKey(joined).value;
    var c :| 0 <= c < |k.path| && k.path[c] == Colon;
    assert joined[c] == Colon;
    assert |k'.path| < |k.path|;
    assert joined[|k.path|] == Colon;
    assert k'.operationId[|k.path| - |k'.path| - 1] == Colon;
    if k'.path in s.permissions && k'.operationId in s.permissions[k'.path].allowedOperations {
      var op := s.permissions[k'.path].allowedOperations[k'.operationId];
      assert OperationWellFormed(k'.path, k'.operationId, op, s.permissions[k'.path].nextNonce);
      OperationIdColonFree(k'.path, op.nonce);
      assert false;
    }
  }

  /** For a path without ':' the split recovers the entry, so polling returns the stored operation. */
  lemma ColonFreeEntryResolves(s: State, k: ActiveKey)
    requires Colon !in k.path
    ensures Resolve(s, k) == (if k.path in s.permissions && k.operationId in s.permissions[k.path].allowedOperations
                              then Some((k.path, s.permissions[k.path].allowedOperations[k.operationId])) else None)
  {
    SplitJoinRoundTrip(k);
  }

  /** Every operation polling returns is unexecuted and belongs to the path it is returned with. */
  lemma {:induction false} PolledOperationsAreLive(s: State, keys: seq<ActiveKey>)
    requires Inv(s)
    requires forall k :: k in keys ==> k in s.activeOperations
    ensures forall e :: e in ResolveAll(s, keys) ==> !e.1.executed && e.1.derivationPath == e.0
  {
    if keys != [] {
      PolledOperationsAreLive(s, keys[..|keys| - 1]);
      var k := keys[|keys| - 1];
      if Colon in k.path {
        ColonPathIsNeverResolved(s, k);
      } else {
        ColonFreeEntryResolves(s, k);
        assert IsLive(s, k);
      }
    }
  }

  /** When no path in the page holds a ':', polling returns one stored operation per entry, in index order. */
  lemma {:induction false} PollingIsComplete(s: State, keys: seq<ActiveKey>)
    requires forall i :: 0 <= i < |keys| ==>
               && keys[i].path in s.permissions
               && keys[i].operationId in s.permissions[keys[i].path].allowedOperations
               && Colon !in keys[i].path
    ensures |ResolveAll(s, keys)| == |keys|
    ensures forall i :: 0 <= i < |keys| ==>
              ResolveAll(s, keys)[i] == (keys[i].path, s.permissions[keys[i].path].allowedOperations[keys[i].operationId])
  {
    if keys != [] {
      var front, k := keys[..|keys| - 1], keys[|keys| - 1];
      assert keys == front + [k];
      PollingIsComplete(s, front);
      ColonFreeEntryResolves(s, k);
      ResolveAllSnoc(s, front, k);
    }
  }

  lemma ActiveOperationsAreLive(s: State, fromIndex: nat, limit: nat)
    requires Inv(s)
    ensures forall e :: e in ActiveOperations(s, fromIndex, limit) ==> !e.1.executed && e.1.derivationPath == e.0
  {
    var page := Page(s.activeOperations, fromIndex, limit);
    forall k | k in page
      ensures k in s.activeOperations
    {
      var i :| 0 <= i < |page| && page[i] == k;
    }
    PolledOperationsAreLive(s, page);
  }

  /** When no indexed path holds a ':', polling skips nothing: one result per entry of the page. */
  lemma ActiveOperationsAreComplete(s: State, fromIndex: nat, limit: nat)
    requires Inv(s)
    requires forall k :: k in s.activeOperations ==> Colon !in k.path
    ensures |ActiveOperations(s, fromIndex, limit)| == |Page(s.activeOperations, fromIndex, limit)|
  {
    var page := Page(s.activeOperations, fromIndex, limit);
    forall i | 0 <= i < |page|
      ensures page[i] in s.activeOperations
    {
    }
    PollingIsComplete(s, page);
  }
}
