/**
 * The permission contract's state and entry points as pure transitions
 * (contracts/permission/src/lib.rs). Each entry point maps a state to either
 * `Success` with the next state, or `Failure` with the panic message: the
 * host then discards every write of the call, so a failure leaves the state
 * as it was. The block timestamp (`now`) and the predecessor account
 * (`caller`) are parameters, and so are the host's cryptographic primitives.
 */
module Engine {
  import opened Wrappers
  import opened Bytes
  import opened Collections
  import opened Types
  import opened Signature
  import opened Keys

  type AccountId = Str

  datatype State = State(
    owner: AccountId,
    permissions: map<DerivationPath, UserPermissions>,
    walletToPath: map<Str, DerivationPath>,
    teeRelayers: set<AccountId>,
    mpcContract: AccountId,
    activeOperations: seq<ActiveKey>,   // UnorderedSet: iteration order is vector order
    usedNonces: set<NonceKey>)

  /** The panics of the entry points, one per message. */
  datatype Error =
    | NotOwner                    // "Only owner can call this method"
    | NotRelayer                  // "Only authorized TEE relayers can call this method"
    | NonceAlreadyUsed
    | InvalidSignature
    | MessageMismatch             // "Message does not match expected format"
    | NoPermissions               // "No permissions for derivation path"
    | SignerNotAuthorized
    | OperationNotInAllowlist
    | AlreadyExecuted
    | OperationExpired
    | PriceTimestampTooOld
    | PriceBelowTrigger           // limit order, condition Above
    | PriceAboveTrigger           // limit order, condition Below
    | StopLossNotMet              // price above the stop-loss trigger
    | TakeProfitNotMet            // price below the take-profit trigger
    | InvalidKeyType
    | MpcSignFailed

  /** `PermissionContract::new`: an owner, a signer contract and nothing else. */
  function New(owner: AccountId, mpcContract: AccountId): (s: State)
    ensures s.owner == owner && s.mpcContract == mpcContract
    ensures s.permissions == map[] && s.walletToPath == map[] && s.teeRelayers == {}
    ensures s.activeOperations == [] && s.usedNonces == {}
  {
    State(owner, map[], map[], {}, mpcContract, [], {})
  }

  // ---------------------------------------------------------------------------
  // Admin methods (owner only)
  // ---------------------------------------------------------------------------

  function RegisterTeeRelayer(s: State, caller: AccountId, relayer: AccountId): (r: Result<State, Error>)
    ensures r.Failure? <==> caller != s.owner
    ensures r.Failure? ==> r.error == NotOwner
    ensures r.Success? ==> r.value == s.(teeRelayers := s.teeRelayers + {relayer})
  {
    if caller != s.owner then Failure(NotOwner)
    else Success(s.(teeRelayers := s.teeRelayers + {relayer}))
  }

  function RemoveTeeRelayer(s: State, caller: AccountId, relayer: AccountId): (r: Result<State, Error>)
    ensures r.Failure? <==> caller != s.owner
    ensures r.Failure? ==> r.error == NotOwner
    ensures r.Success? ==> r.value == s.(teeRelayers := s.teeRelayers - {relayer})
  {
    if caller != s.owner then Failure(NotOwner)
    else Success(s.(teeRelayers := s.teeRelayers - {relayer}))
  }

  function UpdateMpcContract(s: State, caller: AccountId, mpcContract: AccountId): (r: Result<State, Error>)
    ensures r.Failure? <==> caller != s.owner
    ensures r.Failure? ==> r.error == NotOwner
    ensures r.Success? ==> r.value == s.(mpcContract := mpcContract)
  {
    if caller != s.owner then Failure(NotOwner)
    else Success(s.(mpcContract := mpcContract))
  }

  // ---------------------------------------------------------------------------
  // Owner signatures
  // ---------------------------------------------------------------------------

  /** Dispatch on the closed wallet type: each scheme gets exactly the inputs it checks. */
  function VerifyUserSignature(host: Host, walletType: WalletType, publicKey: seq<byte>, chainAddress: Str,
                               message: seq<byte>, signature: seq<byte>): (ok: bool)
    ensures walletType == Near ==> ok == VerifyNear(host, publicKey, message, signature)
    ensures walletType == Solana ==> ok == VerifySolana(host, publicKey, message, signature)
    ensures walletType == Evm ==> ok == VerifyEvm(host, chainAddress, message, signature)
    ensures ok ==> |signature| == if walletType == Evm then 65 else 64
  {
    match walletType
    case Near => VerifyNear(host, publicKey, message, signature)
    case Solana => VerifySolana(host, publicKey, message, signature)
    case Evm => VerifyEvm(host, chainAddress, message, signature)
  }

  const Space: byte := 32

  /**
   * "Register wallet for derivation path: {path} with nonce: {nonce}". The
   * nonce is what follows the last space, so a path holding " with nonce: "
   * cannot pass for another (path, nonce) pair.
   */
  function RegisterMessage(path: DerivationPath, nonce: nat): (m: Str)
    ensures |m| == 50 + |path| + |Decimal(nonce)|
    ensures m[|m| - |Decimal(nonce)| - 1] == Space
    ensures forall j :: |m| - |Decimal(nonce)| <= j < |m| ==> m[j] != Space
  {
    var m := Ascii("Register wallet for derivation path: ") + path + Ascii(" with nonce: ") + Decimal(nonce);
    assert forall j :: |m| - |Decimal(nonce)| <= j < |m| ==> m[j] == Decimal(nonce)[j - (|m| - |Decimal(nonce)|)];
    m
  }

  /** A signed registration message names exactly one (path, nonce) pair. */
  lemma RegisterMessageInjective(p: DerivationPath, n: nat, q: DerivationPath, m: nat)
    requires RegisterMessage(p, n) == RegisterMessage(q, m)
    ensures p == q && n == m
  {
    var msg := RegisterMessage(p, n);
    assert |Decimal(n)| == |Decimal(m)|;
    assert |p| == |q|;
    assert p == msg[37..37 + |p|] == q;
    assert Decimal(n) == msg[50 + |p|..] == Decimal(m);
    DecimalInjective(n, m);
  }

  predicate HasWallet(wallets: seq<RegisteredWallet>, chainAddress: Str)
  {
    exists w :: w in wallets && w.chainAddress == chainAddress
  }

  /** `owner_wallets.iter().find(|w| w.chain_address == address)`: the first match. */
  function FindWallet(wallets: seq<RegisteredWallet>, chainAddress: Str): (r: Option<RegisteredWallet>)
    ensures r.None? <==> !HasWallet(wallets, chainAddress)
    ensures r.Some? ==> r.value in wallets && r.value.chainAddress == chainAddress
  {
    if wallets == [] then None
    else if wallets[0].chainAddress == chainAddress then Some(wallets[0])
    else
      var r := FindWallet(wallets[1..], chainAddress);
      assert forall w :: w in wallets ==> w == wallets[0] || w in wallets[1..];
      r
  }

  // ---------------------------------------------------------------------------
  // User management (TEE relayer, with the owner's signature)
  // ---------------------------------------------------------------------------

  /** The permission set of `path` after `wallet` registers: created, extended, or left as it was. */
  function WithWallet(permissions: map<DerivationPath, UserPermissions>, path: DerivationPath,
                      wallet: RegisteredWallet): (m: map<DerivationPath, UserPermissions>)
    ensures m.Keys == permissions.Keys + {path}
    ensures forall p :: p in permissions && p != path ==> m[p] == permissions[p]
    ensures path !in permissions ==> m[path] == UserPermissions([wallet], [], map[], 1)
    ensures path in permissions ==>
              var before := permissions[path];
              m[path] == before.(ownerWallets := if HasWallet(before.ownerWallets, wallet.chainAddress)
                                                 then before.ownerWallets else before.ownerWallets + [wallet])
  {
    if path in permissions then
      var perms := permissions[path];
      if HasWallet(perms.ownerWallets, wallet.chainAddress) then permissions
      else permissions[path := perms.(ownerWallets := perms.ownerWallets + [wallet])]
    else
      permissions[path := UserPermissions([wallet], [], map[], 1)]
  }

  /**
   * `register_wallet`: consumes the (address, nonce) pair, checks the
   * signature over the canonical message, then binds the wallet to the path.
   */
  function RegisterWallet(s: State, host: Host, caller: AccountId, path: DerivationPath,
                          walletType: WalletType, publicKey: seq<byte>, chainAddress: Str,
                          signature: seq<byte>, message: seq<byte>, nonce: nat): (r: Result<State, Error>)
    ensures r.Success? <==>
              && caller in s.teeRelayers
              && NonceKey(chainAddress, nonce) !in s.usedNonces
              && VerifyUserSignature(host, walletType, publicKey, chainAddress, message, signature)
              && message == RegisterMessage(path, nonce)
    ensures caller !in s.teeRelayers ==> r == Failure(NotRelayer)
    ensures caller in s.teeRelayers && NonceKey(chainAddress, nonce) in s.usedNonces ==> r == Failure(NonceAlreadyUsed)
    ensures (caller in s.teeRelayers && NonceKey(chainAddress, nonce) !in s.usedNonces &&
             !VerifyUserSignature(host, walletType, publicKey, chainAddress, message, signature))
            ==> r == Failure(InvalidSignature)
    ensures (caller in s.teeRelayers && NonceKey(chainAddress, nonce) !in s.usedNonces &&
             VerifyUserSignature(host, walletType, publicKey, chainAddress, message, signature) &&
             message != RegisterMessage(path, nonce))
            ==> r == Failure(MessageMismatch)
    ensures r.Success? ==>
              && r.value.usedNonces == s.usedNonces + {NonceKey(chainAddress, nonce)}
              && r.value.walletToPath == s.walletToPath[chainAddress := path]
              && r.value.permissions == WithWallet(s.permissions, path, RegisteredWallet(walletType, publicKey, chainAddress))
              && r.value.activeOperations == s.activeOperations
              && r.value.teeRelayers == s.teeRelayers && r.value.owner == s.owner
              && r.value.mpcContract == s.mpcContract
  {
    if caller !in s.teeRelayers then Failure(NotRelayer)
    else if NonceKey(chainAddress, nonce) in s.usedNonces then Failure(NonceAlreadyUsed)
    else if !VerifyUserSignature(host, walletType, publicKey, chainAddress, message, signature) then Failure(InvalidSignature)
    else if message != RegisterMessage(path, nonce) then Failure(MessageMismatch)
    else
      var wallet := RegisteredWallet(walletType, publicKey, chainAddress);
      Success(s.(usedNonces := s.usedNonces + {NonceKey(chainAddress, nonce)},
                 permissions := WithWallet(s.permissions, path, wallet),
                 walletToPath := s.walletToPath[chainAddress := path]))
  }

  /**
   * The checks shared by adding and removing an operation: the path has
   * permissions, the signer is one of its wallets, and that wallet's
   * signature over `message` verifies.
   */
  function AuthorizeOwner(s: State, host: Host, caller: AccountId, path: DerivationPath,
                          signature: seq<byte>, message: seq<byte>, signerAddress: Str): (r: Outcome<Error>)
    ensures r.Pass? <==>
              && caller in s.teeRelayers
              && path in s.permissions
              && HasWallet(s.permissions[path].ownerWallets, signerAddress)
              && var w := FindWallet(s.permissions[path].ownerWallets, signerAddress).value;
                 VerifyUserSignature(host, w.walletType, w.publicKey, signerAddress, message, signature)
    ensures caller !in s.teeRelayers ==> r == Fail(NotRelayer)
    ensures caller in s.teeRelayers && path !in s.permissions ==> r == Fail(NoPermissions)
    ensures (caller in s.teeRelayers && path in s.permissions &&
             !HasWallet(s.permissions[path].ownerWallets, signerAddress)) ==> r == Fail(SignerNotAuthorized)
    ensures (caller in s.teeRelayers && path in s.permissions &&
             HasWallet(s.permissions[path].ownerWallets, signerAddress) &&
             var w := FindWallet(s.permissions[path].ownerWallets, signerAddress).value;
             !VerifyUserSignature(host, w.walletType, w.publicKey, signerAddress, message, signature)) ==> r == Fail(InvalidSignature)
  {
    if caller !in s.teeRelayers then Fail(NotRelayer)
    else if path !in s.permissions then Fail(NoPermissions)
    else match FindWallet(s.permissions[path].ownerWallets, signerAddress)
      case None => Fail(SignerNotAuthorized)
      case Some(w) =>
        if !VerifyUserSignature(host, w.walletType, w.publicKey, signerAddress, message, signature)
        then Fail(InvalidSignature)
        else Pass
  }

  /** `perms.allowed_operations.insert(id, op)`: the key vector gains `id` if it is new. */
  function PutOperation(perms: UserPermissions, id: Str, op: AllowedOperation): (p: UserPermissions)
    ensures p.allowedOperations == perms.allowedOperations[id := op]
    ensures p.operationKeys == Insert(perms.operationKeys, id)
    ensures p.ownerWallets == perms.ownerWallets && p.nextNonce == perms.nextNonce
  {
    perms.(operationKeys := Insert(perms.operationKeys, id),
           allowedOperations := perms.allowedOperations[id := op])
  }

  /**
   * `add_allowed_operation`: the new operation gets id "{path}-{n}" for the
   * path's counter n, which then advances by one; it is stored unexecuted
   * and enters the active index.
   */
  function AddAllowedOperation(s: State, host: Host, caller: AccountId, now: nat, path: DerivationPath,
                               input: AllowedOperationInput, signature: seq<byte>, message: seq<byte>,
                               signerAddress: Str): (r: Result<(State, Str), Error>)
    ensures r.Success? <==> AuthorizeOwner(s, host, caller, path, signature, message, signerAddress).Pass?
    ensures r.Failure? ==> r.error == AuthorizeOwner(s, host, caller, path, signature, message, signerAddress).error
    ensures r.Success? ==>
              var (s', id) := r.value;
              var perms := s.permissions[path];
              && path in s'.permissions
              && var perms' := s'.permissions[path];
              && id == OperationId(path, perms.nextNonce)
              && perms'.nextNonce == perms.nextNonce + 1
              && perms'.ownerWallets == perms.ownerWallets
              && perms'.allowedOperations == perms.allowedOperations[id := NewOperation(input, id, path, perms.nextNonce, now)]
              && perms'.operationKeys == Insert(perms.operationKeys, id)
              && s'.permissions == s.permissions[path := perms']
              && s'.activeOperations == Insert(s.activeOperations, ActiveKey(path, id))
              && s' == s.(permissions := s'.permissions, activeOperations := s'.activeOperations)
  {
    match AuthorizeOwner(s, host, caller, path, signature, message, signerAddress)
    case Fail(e) => Failure(e)
    case Pass =>
      var perms := s.permissions[path];
      var n := perms.nextNonce;
      var id := OperationId(path, n);
      var op := NewOperation(input, id, path, n, now);
      var perms' := PutOperation(perms.(nextNonce := n + 1), id, op);
      Success((s.(permissions := s.permissions[path := perms'],
                  activeOperations := Insert(s.activeOperations, ActiveKey(path, id))), id))
  }

  /** The state and id an authorised addition commits. */
  lemma AddCommits(s: State, host: Host, caller: AccountId, now: nat, path: DerivationPath,
                   input: AllowedOperationInput, signature: seq<byte>, message: seq<byte>, signerAddress: Str)
    requires AuthorizeOwner(s, host, caller, path, signature, message, signerAddress).Pass?
    ensures var perms := s.permissions[path];
            var n := perms.nextNonce;
            var id := OperationId(path, n);
            var perms' := PutOperation(perms.(nextNonce := n + 1), id, NewOperation(input, id, path, n, now));
            AddAllowedOperation(s, host, caller, now, path, input, signature, message, signerAddress)
              == Success((s.(permissions := s.permissions[path := perms'],
                             activeOperations := Insert(s.activeOperations, ActiveKey(path, id))), id))
  {
  }

  /** An addition the owner checks refuse aborts with their error. */
  lemma AddRejects(s: State, host: Host, caller: AccountId, now: nat, path: DerivationPath,
                   input: AllowedOperationInput, signature: seq<byte>, message: seq<byte>, signerAddress: Str)
    requires AuthorizeOwner(s, host, caller, path, signature, message, signerAddress).Fail?
    ensures AddAllowedOperation(s, host, caller, now, path, input, signature, message, signerAddress)
              == Failure(AuthorizeOwner(s, host, caller, path, signature, message, signerAddress).error)
  {
  }

  /**
   * `remove_allowed_operation`: drops the operation and its index entry;
   * removing an absent id succeeds and changes nothing further.
   */
  function RemoveAllowedOperation(s: State, host: Host, caller: AccountId, path: DerivationPath,
                                  operationId: Str, signature: seq<byte>, message: seq<byte>,
                                  signerAddress: Str): (r: Result<State, Error>)
    ensures r.Success? <==> AuthorizeOwner(s, host, caller, path, signature, message, signerAddress).Pass?
    ensures r.Failure? ==> r.error == AuthorizeOwner(s, host, caller, path, signature, message, signerAddress).error
    ensures r.Success? ==>
              var perms := s.permissions[path];
              && path in r.value.permissions
              && var perms' := r.value.permissions[path];
              && perms'.allowedOperations == perms.allowedOperations - {operationId}
              && perms'.operationKeys == Remove(perms.operationKeys, operationId)
              && perms'.ownerWallets == perms.ownerWallets && perms'.nextNonce == perms.nextNonce
              && r.value.permissions == s.permissions[path := perms']
              && r.value.activeOperations == Remove(s.activeOperations, ActiveKey(path, operationId))
              && r.value == s.(permissions := r.value.permissions, activeOperations := r.value.activeOperations)
  {
    match AuthorizeOwner(s, host, caller, path, signature, message, signerAddress)
    case Fail(e) => Failure(e)
    case Pass =>
      var perms := s.permissions[path];
      var perms' := perms.(operationKeys := Remove(perms.operationKeys, operationId),
                           allowedOperations := perms.allowedOperations - {operationId});
      Success(s.(permissions := s.permissions[path := perms'],
                 activeOperations := Remove(s.activeOperations, ActiveKey(path, operationId))))
  }

  /** A removal the owner checks refuse aborts with their error. */
  lemma RemoveRejects(s: State, host: Host, caller: AccountId, path: DerivationPath, operationId: Str,
                      signature: seq<byte>, message: seq<byte>, signerAddress: Str)
    requires AuthorizeOwner(s, host, caller, path, signature, message, signerAddress).Fail?
    ensures RemoveAllowedOperation(s, host, caller, path, operationId, signature, message, signerAddress)
              == Failure(AuthorizeOwner(s, host, caller, path, signature, message, signerAddress).error)
  {
  }

  /** The first index entry whose string form is `joined`, if any. */
  function FindJoined(index: seq<ActiveKey>, joined: Str): (r: Option<ActiveKey>)
    ensures r.None? <==> forall k :: k in index ==> JoinActiveKey(k) != joined
    ensures r.Some? ==> r.value in index && JoinActiveKey(r.value) == joined
  {
    if index == [] then None
    else if JoinActiveKey(index[0]) == joined then Some(index[0])
    else
      var r := FindJoined(index[1..], joined);
      assert forall k :: k in index ==> k == index[0] || k in index[1..];
      r
  }

  /**
   * `remove_allowed_operation` as written: the index holds strings, and the
   * call removes "{path}:{operation_id}" from it, which may be the string of
   * an entry of another path (`Keys.JoinActiveKeyCollides`). The allowlist
   * writes are those of `RemoveAllowedOperation`; only the index differs.
   */
  function RemoveAllowedOperationAsWritten(s: State, host: Host, caller: AccountId, path: DerivationPath,
                                           operationId: Str, signature: seq<byte>, message: seq<byte>,
                                           signerAddress: Str): (r: Result<State, Error>)
    ensures r.Success? <==> AuthorizeOwner(s, host, caller, path, signature, message, signerAddress).Pass?
    ensures r.Failure? ==> r.error == AuthorizeOwner(s, host, caller, path, signature, message, signerAddress).error
    ensures r.Success? ==>
              var removed := FindJoined(s.activeOperations, JoinActiveKey(ActiveKey(path, operationId)));
              && r.value.permissions
                 == RemoveAllowedOperation(s, host, caller, path, operationId, signature, message, signerAddress).value.permissions
              && (removed.None? ==> r.value.activeOperations == s.activeOperations)
              && (removed.Some? ==> r.value.activeOperations == Remove(s.activeOperations, removed.value))
              && r.value == s.(permissions := r.value.permissions, activeOperations := r.value.activeOperations)
  {
    match RemoveAllowedOperation(s, host, caller, path, operationId, signature, message, signerAddress)
    case Failure(e) => Failure(e)
    case Success(s') =>
      var index := match FindJoined(s.activeOperations, JoinActiveKey(ActiveKey(path, operationId)))
                   case None => s.activeOperations
                   case Some(k) => Remove(s.activeOperations, k);
      Success(s'.(activeOperations := index))
  }

  // ---------------------------------------------------------------------------
  // Signature requests
  // ---------------------------------------------------------------------------

  /** Price reports older than 60 seconds (in nanoseconds) are refused. */
  const MaxPriceAge: nat := 60_000_000_000

  /** A report is stale when it is more than `MaxPriceAge` in the past; a future or missing timestamp is not. */
  function PriceIsStale(timestamp: Option<nat>, now: nat): (stale: bool)
    ensures stale <==> timestamp.Some? && timestamp.value + MaxPriceAge < now
  {
    match timestamp
    case None => false
    case Some(ts) => now > ts && now - ts > MaxPriceAge
  }

  /**
   * `validate_price_condition`: a fresh price must satisfy the operation's
   * trigger; a limit order above and a take-profit need price >= trigger, a
   * limit order below and a stop-loss need price <= trigger, a swap always passes.
   */
  function ValidatePriceCondition(op: AllowedOperation, currentPrice: nat, timestamp: Option<nat>, now: nat): (r: Outcome<Error>)
    ensures PriceIsStale(timestamp, now) ==> r == Fail(PriceTimestampTooOld)
    ensures !PriceIsStale(timestamp, now) ==> match op.operationType
              case Swap(_, _, _) => r.Pass?
              case LimitOrder(_, _, trigger, Above, _, _, _) => r.Pass? <==> currentPrice >= trigger
              case LimitOrder(_, _, trigger, Below, _, _, _) => r.Pass? <==> currentPrice <= trigger
              case StopLoss(_, _, trigger, _, _, _) => r.Pass? <==> currentPrice <= trigger
              case TakeProfit(_, _, trigger, _, _, _) => r.Pass? <==> currentPrice >= trigger
  {
    if PriceIsStale(timestamp, now) then Fail(PriceTimestampTooOld)
    else match op.operationType
      case LimitOrder(_, _, trigger, condition, _, _, _) =>
        (match condition
         case Above => if currentPrice < trigger then Fail(PriceBelowTrigger) else Pass
         case Below => if currentPrice > trigger then Fail(PriceAboveTrigger) else Pass)
      case StopLoss(_, _, trigger, _, _, _) => if currentPrice > trigger then Fail(StopLossNotMet) else Pass
      case TakeProfit(_, _, trigger, _, _, _) => if currentPrice < trigger then Fail(TakeProfitNotMet) else Pass
      case Swap(_, _, _) => Pass
  }

  /** The payload for the signer: the hex string under exactly one of the two scheme tags. */
  datatype PayloadV2 = PayloadV2(eddsa: Option<Str>, ecdsa: Option<Str>)

  datatype SignRequest = SignRequest(payloadV2: PayloadV2, path: DerivationPath, domainId: nat)

  /**
   * What `sign_allowed` leaves in flight: the request for the signer contract
   * and the arguments of the callback that will receive its answer.
   */
  datatype PendingSign = PendingSign(request: SignRequest, callbackPath: DerivationPath, callbackOperationId: Str)

  const Eddsa: Str := Ascii("Eddsa")
  const Ecdsa: Str := Ascii("Ecdsa")

  /** The gate of `sign_allowed` before any write: the operation exists, is unexecuted and unexpired. */
  function ExecutionGate(s: State, now: nat, path: DerivationPath, operationId: Str): (r: Outcome<Error>)
    ensures r.Pass? <==>
              && path in s.permissions && operationId in s.permissions[path].allowedOperations
              && var op := s.permissions[path].allowedOperations[operationId];
                 !op.executed && (op.expiresAt.None? || now < op.expiresAt.value)
  {
    if path !in s.permissions then Fail(NoPermissions)
    else if operationId !in s.permissions[path].allowedOperations then Fail(OperationNotInAllowlist)
    else
      var op := s.permissions[path].allowedOperations[operationId];
      if op.executed then Fail(AlreadyExecuted)
      else if op.expiresAt.Some? && !(now < op.expiresAt.value) then Fail(OperationExpired)
      else Pass
  }

  /**
   * `sign_allowed`: after the gate and, when a price is supplied, the price
   * condition, the operation is marked executed and leaves the active index
   * before the request is issued; an unknown key type aborts the whole call.
   */
  function SignAllowed(s: State, caller: AccountId, now: nat, path: DerivationPath, operationId: Str,
                       payload: seq<byte>, keyType: Str, teePrice: Option<nat>, teeTimestamp: Option<nat>)
    : (r: Result<(State, PendingSign), Error>)
    ensures r.Success? <==>
              && caller in s.teeRelayers
              && ExecutionGate(s, now, path, operationId).Pass?
              && (teePrice.Some? ==>
                    ValidatePriceCondition(s.permissions[path].allowedOperations[operationId], teePrice.value, teeTimestamp, now).Pass?)
              && (keyType == Eddsa || keyType == Ecdsa)
    ensures caller !in s.teeRelayers ==> r == Failure(NotRelayer)
    ensures caller in s.teeRelayers && ExecutionGate(s, now, path, operationId).Fail? ==>
              r == Failure(ExecutionGate(s, now, path, operationId).error)
    ensures r.Success? ==>
              var (s', pending) := r.value;
              var perms := s.permissions[path];
              var op := perms.allowedOperations[operationId];
              && s'.permissions == s.permissions[path := PutOperation(perms, operationId, op.(executed := true))]
              && s'.activeOperations == Remove(s.activeOperations, ActiveKey(path, operationId))
              && s' == s.(permissions := s'.permissions, activeOperations := s'.activeOperations)
              && pending.callbackPath == path && pending.callbackOperationId == operationId
              && pending.request.path == path
              && (keyType == Eddsa ==>
                    pending.request.domainId == 1 && pending.request.payloadV2 == PayloadV2(Some(HexEncode(payload)), None))
              && (keyType == Ecdsa ==>
                    pending.request.domainId == 0 && pending.request.payloadV2 == PayloadV2(None, Some(HexEncode(payload))))
  {
    assert Eddsa[1] != Ecdsa[1];
    if caller !in s.teeRelayers then Failure(NotRelayer)
    else match ExecutionGate(s, now, path, operationId)
      case Fail(e) => Failure(e)
      case Pass =>
        var perms := s.permissions[path];
        var op := perms.allowedOperations[operationId];
        var price := if teePrice.Some? then ValidatePriceCondition(op, teePrice.value, teeTimestamp, now) else Pass;
        if price.Fail? then Failure(price.error)
        else if keyType != Eddsa && keyType != Ecdsa then Failure(InvalidKeyType)
        else
          var s' := s.(permissions := s.permissions[path := PutOperation(perms, operationId, op.(executed := true))],
                       activeOperations := Remove(s.activeOperations, ActiveKey(path, operationId)));
          var domainId := if keyType == Eddsa then 1 else 0;
          var payloadHex := HexEncode(payload);
          var payloadV2 := if keyType == Eddsa then PayloadV2(Some(payloadHex), None) else PayloadV2(None, Some(payloadHex));
          Success((s', PendingSign(SignRequest(payloadV2, path, domainId), path, operationId)))
  }

  /** A request past the gate aborts when a supplied price fails its condition, or else on an unknown key type. */
  lemma SignRejects(s: State, caller: AccountId, now: nat, path: DerivationPath, operationId: Str,
                    payload: seq<byte>, keyType: Str, teePrice: Option<nat>, teeTimestamp: Option<nat>)
    requires caller in s.teeRelayers && ExecutionGate(s, now, path, operationId).Pass?
    ensures var op := s.permissions[path].allowedOperations[operationId];
            var price := if teePrice.Some? then ValidatePriceCondition(op, teePrice.value, teeTimestamp, now) else Pass;
            var r := SignAllowed(s, caller, now, path, operationId, payload, keyType, teePrice, teeTimestamp);
            && (price.Fail? ==> r == Failure(price.error))
            && (price.Pass? && keyType != Eddsa && keyType != Ecdsa ==> r == Failure(InvalidKeyType))
  {
  }

  /** The state and request an admitted signature request commits. */
  lemma SignCommits(s: State, caller: AccountId, now: nat, path: DerivationPath, operationId: Str,
                    payload: seq<byte>, keyType: Str, teePrice: Option<nat>, teeTimestamp: Option<nat>)
    requires caller in s.teeRelayers && ExecutionGate(s, now, path, operationId).Pass?
    requires teePrice.Some? ==>
               ValidatePriceCondition(s.permissions[path].allowedOperations[operationId], teePrice.value,
                                      teeTimestamp, now).Pass?
    requires keyType == Eddsa || keyType == Ecdsa
    ensures var perms := s.permissions[path];
            var op := perms.allowedOperations[operationId];
            var payloadHex := HexEncode(payload);
            var payloadV2 := if keyType == Eddsa then PayloadV2(Some(payloadHex), None) else PayloadV2(None, Some(payloadHex));
            var domainId := if keyType == Eddsa then 1 else 0;
            SignAllowed(s, caller, now, path, operationId, payload, keyType, teePrice, teeTimestamp)
              == Success((s.(permissions := s.permissions[path := PutOperation(perms, operationId, op.(executed := true))],
                             activeOperations := Remove(s.activeOperations, ActiveKey(path, operationId))),
                          PendingSign(SignRequest(payloadV2, path, domainId), path, operationId)))
  {
  }

  /** The signer's answer to a request: signature bytes, or a failed promise. */
  datatype SignOutcome = Signed(signature: seq<byte>) | SignFailed

  /**
   * `on_mpc_sign_complete` as its authors meant it: a signature is passed
   * through untouched; on failure the operation, if still stored, is made
   * unexecuted and re-enters the active index, and the failure is reported.
   *
   * The source reports that failure with a panic after writing the
   * compensation, and the host discards the writes of a call that panics, so
   * as written the compensation never persists (`OnMpcSignCompleteAsWritten`).
   * This function is the compensation the code writes down.
   */
  function OnMpcSignComplete(s: State, path: DerivationPath, operationId: Str, outcome: SignOutcome)
    : (r: (State, Result<seq<byte>, Error>))
    ensures outcome.Signed? ==> r == (s, Success(outcome.signature))
    ensures outcome.SignFailed? ==> r.1 == Failure(MpcSignFailed)
    ensures outcome.SignFailed? && !(path in s.permissions && operationId in s.permissions[path].allowedOperations) ==> r.0 == s
    ensures outcome.SignFailed? && path in s.permissions && operationId in s.permissions[path].allowedOperations ==>
              var perms := s.permissions[path];
              var op := perms.allowedOperations[operationId];
              && r.0.permissions == s.permissions[path := PutOperation(perms, operationId, op.(executed := false))]
              && r.0.activeOperations == Insert(s.activeOperations, ActiveKey(path, operationId))
              && r.0 == s.(permissions := r.0.permissions, activeOperations := r.0.activeOperations)
  {
    match outcome
    case Signed(signature) => (s, Success(signature))
    case SignFailed =>
      if path in s.permissions && operationId in s.permissions[path].allowedOperations then
        var perms := s.permissions[path];
        var op := perms.allowedOperations[operationId];
        var s' := s.(permissions := s.permissions[path := PutOperation(perms, operationId, op.(executed := false))],
                     activeOperations := Insert(s.activeOperations, ActiveKey(path, operationId)));
        (s', Failure(MpcSignFailed))
      else
        (s, Failure(MpcSignFailed))
  }

  /**
   * `on_mpc_sign_complete` with the host's rule applied: the failure branch
   * ends in a panic, so its compensating writes are discarded with the rest
   * of the call and the state stays as it was.
   */
  function OnMpcSignCompleteAsWritten(s: State, path: DerivationPath, operationId: Str, outcome: SignOutcome)
    : (r: Result<(State, seq<byte>), Error>)
    ensures outcome.Signed? ==> r == Success((s, outcome.signature))
    ensures outcome.SignFailed? ==> r == Failure(MpcSignFailed)
  {
    match outcome
    case Signed(signature) => Success((s, signature))
    case SignFailed => Failure(MpcSignFailed)
  }

  // ---------------------------------------------------------------------------
  // Queries
  // ---------------------------------------------------------------------------

  /** `is_operation_allowed`: stored, not executed and, if it expires, not yet expired. */
  function IsOperationAllowed(s: State, now: nat, path: DerivationPath, operationId: Str): (allowed: bool)
    ensures allowed <==> ExecutionGate(s, now, path, operationId).Pass?
  {
    if path in s.permissions && operationId in s.permissions[path].allowedOperations then
      var op := s.permissions[path].allowedOperations[operationId];
      if op.executed then false
      else if op.expiresAt.Some? && now >= op.expiresAt.value then false
      else true
    else false
  }

  function GetOperation(s: State, path: DerivationPath, operationId: Str): (r: Option<AllowedOperation>)
    ensures r.Some? <==> path in s.permissions && operationId in s.permissions[path].allowedOperations
    ensures r.Some? ==> r.value == s.permissions[path].allowedOperations[operationId]
  {
    if path in s.permissions && operationId in s.permissions[path].allowedOperations
    then Some(s.permissions[path].allowedOperations[operationId])
    else None
  }

  /** `get_operations`: the stored operations of a path, none for an unknown path. */
  function GetOperations(s: State, path: DerivationPath): (r: seq<AllowedOperation>)
    ensures path !in s.permissions ==> r == []
    ensures path in s.permissions ==> forall op :: op in r ==> op in s.permissions[path].allowedOperations.Values
  {
    if path in s.permissions then Values(s.permissions[path].operationKeys, s.permissions[path].allowedOperations)
    else []
  }

  function GetPathForWallet(s: State, chainAddress: Str): (r: Option<DerivationPath>)
    ensures r.Some? <==> chainAddress in s.walletToPath
    ensures r.Some? ==> r.value == s.walletToPath[chainAddress]
  {
    if chainAddress in s.walletToPath then Some(s.walletToPath[chainAddress]) else None
  }

  function IsTeeRelayer(s: State, account: AccountId): (r: bool)
    ensures r <==> account in s.teeRelayers
  {
    account in s.teeRelayers
  }

  /** `from_index as usize` and `limit as usize` on the 32-bit wasm target keep the low 32 bits. */
  const UsizeModulus: nat := 0x1_0000_0000

  /** `n as usize`: the low 32 bits of the 64-bit argument, i.e. n modulo 2^32. */
  function AsUsize(n: nat): (r: nat)
    ensures r < UsizeModulus && (n - r) % UsizeModulus == 0
    ensures n < UsizeModulus ==> r == n
  {
    n % UsizeModulus
  }

  /** `iter().skip(from).take(limit)` over the index. */
  function Page(keys: seq<ActiveKey>, fromIndex: nat, limit: nat): (r: seq<ActiveKey>)
    ensures var skipped := if AsUsize(fromIndex) < |keys| then AsUsize(fromIndex) else |keys|;
            && |r| == (if skipped + AsUsize(limit) < |keys| then AsUsize(limit) else |keys| - skipped)
            && forall i :: 0 <= i < |r| ==> r[i] == keys[skipped + i]
  {
    var start := if AsUsize(fromIndex) < |keys| then AsUsize(fromIndex) else |keys|;
    var end := if start + AsUsize(limit) < |keys| then start + AsUsize(limit) else |keys|;
    keys[start..end]
  }

  /**
   * One index entry as the polling loop reads it: its string form is split at
   * the first ':' and the halves are looked up; nothing is produced when
   * either lookup misses.
   */
  function Resolve(s: State, key: ActiveKey): (r: Option<(DerivationPath, AllowedOperation)>)
    ensures r.Some? ==> r.value.0 in s.permissions
  {
    match SplitActiveKey(JoinActiveKey(key))
    case None => None
    case Some(k) =>
      if k.path in s.permissions && k.operationId in s.permissions[k.path].allowedOperations
      then Some((k.path, s.permissions[k.path].allowedOperations[k.operationId]))
      else None
  }

  /** The resolved entries of `keys`, in order, skipping those that do not resolve. */
  function ResolveAll(s: State, keys: seq<ActiveKey>): (r: seq<(DerivationPath, AllowedOperation)>)
    ensures |r| <= |keys|
  {
    if keys == [] then []
    else
      var rest := ResolveAll(s, keys[..|keys| - 1]);
      match Resolve(s, keys[|keys| - 1])
      case None => rest
      case Some(entry) => rest + [entry]
  }

  /** Resolving one more entry appends its result, if it has one. */
  lemma ResolveAllSnoc(s: State, keys: seq<ActiveKey>, key: ActiveKey)
    ensures ResolveAll(s, keys + [key]) ==
              ResolveAll(s, keys) + (if Resolve(s, key).Some? then [Resolve(s, key).value] else [])
  {
    assert (keys + [key])[..|keys|] == keys;
  }

  /** `get_active_operations(from_index, limit)`. */
  function ActiveOperations(s: State, fromIndex: nat, limit: nat): (r: seq<(DerivationPath, AllowedOperation)>)
    ensures |r| <= AsUsize(limit)
  {
    ResolveAll(s, Page(s.activeOperations, fromIndex, limit))
  }
}
