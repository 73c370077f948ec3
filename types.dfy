/**
 * The records and closed enumerations of the permission contract
 * (contracts/permission/src/types.rs). Amounts, prices, timestamps and nonces
 * are unbounded naturals; strings are their UTF-8 bytes.
 */
module Types {
  import opened Wrappers
  import opened Bytes
  import opened Collections

  /** The MPC key an identity's permissions belong to, e.g. "solana-1,user-xyz". */
  type DerivationPath = Str

  /** The three signature schemes an owner wallet can use; the set is closed. */
  datatype WalletType = Near | Solana | Evm

  datatype PriceCondition = Above | Below

  /** What an owner may pre-approve. Only the three conditional orders carry a trigger price. */
  datatype AllowedOperationType =
    | Swap(sourceAsset: Str, targetAsset: Str, maxAmount: nat)
    | LimitOrder(priceAsset: Str, quoteAsset: Str, triggerPrice: nat, condition: PriceCondition,
                 sourceAsset: Str, targetAsset: Str, maxAmount: nat)
    | StopLoss(priceAsset: Str, quoteAsset: Str, triggerPrice: nat,
               sourceAsset: Str, targetAsset: Str, maxAmount: nat)
    | TakeProfit(priceAsset: Str, quoteAsset: Str, triggerPrice: nat,
                 sourceAsset: Str, targetAsset: Str, maxAmount: nat)

  /** The trigger price of a conditional order; a swap has none. */
  function Trigger(t: AllowedOperationType): (r: Option<nat>)
    ensures r.None? <==> t.Swap?
    ensures r.Some? ==> r.value == t.triggerPrice
  {
    match t
    case Swap(_, _, _) => None
    case LimitOrder(_, _, p, _, _, _, _) => Some(p)
    case StopLoss(_, _, p, _, _, _) => Some(p)
    case TakeProfit(_, _, p, _, _, _) => Some(p)
  }

  /** The price condition, which only a limit order states. */
  function ConditionOf(t: AllowedOperationType): (r: Option<PriceCondition>)
    ensures r.Some? <==> t.LimitOrder?
    ensures r.Some? ==> r.value == t.condition
  {
    if t.LimitOrder? then Some(t.condition) else None
  }

  datatype AllowedOperation = AllowedOperation(
    operationId: Str,
    derivationPath: DerivationPath,
    operationType: AllowedOperationType,
    destinationAddress: Str,
    destinationChain: Str,
    slippageBps: nat,
    expiresAt: Option<nat>,   // nanoseconds
    executed: bool,
    nonce: nat,
    createdAt: nat)

  /** What the caller supplies; the id, path, executed flag, nonce and creation time are the contract's. */
  datatype AllowedOperationInput = AllowedOperationInput(
    operationType: AllowedOperationType,
    destinationAddress: Str,
    destinationChain: Str,
    slippageBps: nat,
    expiresAt: Option<nat>)

  /** Completes an input with the fields the contract assigns, as a fresh, unexecuted operation. */
  function NewOperation(input: AllowedOperationInput, id: Str, path: DerivationPath,
                        nonce: nat, now: nat): (op: AllowedOperation)
    ensures op.operationType == input.operationType
    ensures op.destinationAddress == input.destinationAddress
    ensures op.destinationChain == input.destinationChain
    ensures op.slippageBps == input.slippageBps && op.expiresAt == input.expiresAt
    ensures op.operationId == id && op.derivationPath == path
    ensures !op.executed && op.nonce == nonce && op.createdAt == now
  {
    AllowedOperation(id, path, input.operationType, input.destinationAddress,
                     input.destinationChain, input.slippageBps, input.expiresAt, false, nonce, now)
  }

  datatype RegisteredWallet = RegisteredWallet(walletType: WalletType, publicKey: seq<byte>, chainAddress: Str)

  /**
   * The permission set of one derivation path. `allowedOperations` is an
   * `UnorderedMap`: `operationKeys` is its key vector, which fixes the order of
   * `values()`.
   */
  datatype UserPermissions = UserPermissions(
    ownerWallets: seq<RegisteredWallet>,
    operationKeys: seq<Str>,
    allowedOperations: map<Str, AllowedOperation>,
    nextNonce: nat)

  /** The key vector lists each key of the map exactly once. */
  predicate KeysMatch(p: UserPermissions)
  {
    && NoDup(p.operationKeys)
    && (forall k :: k in p.operationKeys ==> k in p.allowedOperations)
    && (forall k :: k in p.allowedOperations ==> k in p.operationKeys)
  }

  datatype UserPermissionsView = UserPermissionsView(
    ownerWallets: seq<RegisteredWallet>,
    operations: seq<AllowedOperation>,
    nextNonce: nat)

  /** The values of `m` in the order of `keys` (`UnorderedMap::values`). */
  function Values(keys: seq<Str>, m: map<Str, AllowedOperation>): (r: seq<AllowedOperation>)
    ensures |r| <= |keys|
    ensures forall op :: op in r ==> op in m.Values
  {
    if keys == [] then []
    else if keys[0] in m then [m[keys[0]]] + Values(keys[1..], m)
    else Values(keys[1..], m)
  }

  /** When every key is in the map, the values are read position by position. */
  lemma {:induction false} ValuesAt(keys: seq<Str>, m: map<Str, AllowedOperation>)
    requires forall k :: k in keys ==> k in m
    ensures |Values(keys, m)| == |keys|
    ensures forall i :: 0 <= i < |keys| ==> Values(keys, m)[i] == m[keys[i]]
  {
    if keys != [] {
      ValuesAt(keys[1..], m);
    }
  }

  /** `From<&UserPermissions> for UserPermissionsView`. */
  function ToView(p: UserPermissions): (v: UserPermissionsView)
    ensures v.ownerWallets == p.ownerWallets && v.nextNonce == p.nextNonce
    ensures forall op :: op in v.operations ==> op in p.allowedOperations.Values
  {
    UserPermissionsView(p.ownerWallets, Values(p.operationKeys, p.allowedOperations), p.nextNonce)
  }

  /** The view lists every stored operation, each once per key, in key-vector order. */
  lemma ViewListsAllOperations(p: UserPermissions)
    requires KeysMatch(p)
    ensures |ToView(p).operations| == |p.operationKeys|
    ensures forall i :: 0 <= i < |p.operationKeys| ==>
              ToView(p).operations[i] == p.allowedOperations[p.operationKeys[i]]
    ensures forall op :: op in ToView(p).operations <==> op in p.allowedOperations.Values
  {
    ValuesAt(p.operationKeys, p.allowedOperations);
    var ops := ToView(p).operations;
    forall op | op in p.allowedOperations.Values
      ensures op in ops
    {
      var k :| k in p.allowedOperations && p.allowedOperations[k] == op;
      var i := IndexOf(p.operationKeys, k);
      assert ops[i] == op;
    }
  }
}
