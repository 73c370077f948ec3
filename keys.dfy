/**
 * The composite keys of the contract's indexes. The source stores them as
 * strings joined with ':'; the model keeps the parts and defines the joining
 * and splitting the source performs, so that what they lose can be stated.
 */
module Keys {
  import opened Wrappers
  import opened Bytes
  import opened Collections
  import opened Types

  /** An entry of the active-operations index: "{path}:{operation_id}". */
  datatype ActiveKey = ActiveKey(path: DerivationPath, operationId: Str)

  /** A consumed registration nonce: "{chain_address}:{nonce}". */
  datatype NonceKey = NonceKey(chainAddress: Str, nonce: nat)

  function JoinActiveKey(k: ActiveKey): (s: Str)
    ensures Colon in s
  {
    assert (k.path + [Colon] + k.operationId)[|k.path|] == Colon;
    k.path + [Colon] + k.operationId
  }

  /**
   * `key.split(':')` read back as the polling loop does: the path is the text
   * before the first ':' and the operation id everything after it.
   */
  function SplitActiveKey(key: Str): (r: Option<ActiveKey>)
    ensures r.None? <==> Colon !in key
    ensures r.Some? ==> JoinActiveKey(r.value) == key && Colon !in r.value.path
  {
    if Colon !in key then None
    else
      var i := IndexOf(key, Colon);
      assert key[..i] + [Colon] + key[i + 1..] == key;
      Some(ActiveKey(key[..i], key[i + 1..]))
  }

  /** Splitting gives back the joined parts exactly when the path has no ':'. */
  lemma SplitJoinRoundTrip(k: ActiveKey)
    ensures SplitActiveKey(JoinActiveKey(k)) == Some(k) <==> Colon !in k.path
  {
    var s := JoinActiveKey(k);
    if Colon !in k.path {
      assert s[..|k.path|] == k.path;
      assert s[|k.path| + 1..] == k.operationId;
      IndexOfSeparator(k.path, k.operationId);
    }
  }

  /** The first ':' of "{x}:{y}" is the one after `x` when `x` has none. */
  lemma {:induction false} IndexOfSeparator(x: Str, y: Str)
    requires Colon !in x
    ensures IndexOf(x + [Colon] + y, Colon) == |x|
  {
    if x != [] {
      assert (x + [Colon] + y)[1..] == x[1..] + [Colon] + y;
      IndexOfSeparator(x[1..], y);
    }
  }

  /**
   * The ':'-join loses information: a path holding a ':' and a shorter path
   * with a longer id can name the same string, so that one path's entry can
   * be reached through another path's arguments.
   */
  lemma JoinActiveKeyCollides()
    ensures var owned := ActiveKey(Ascii("a:b"), OperationId(Ascii("a:b"), 1));
            var foreign := ActiveKey(Ascii("a"), Ascii("b:a:b-1"));
            owned != foreign && JoinActiveKey(owned) == JoinActiveKey(foreign)
  {
    assert Decimal(1) == [49];
    assert Ascii("a:b") + [Colon] + (Ascii("a:b") + [Dash] + [49]) == Ascii("a") + [Colon] + Ascii("b:a:b-1");
  }

  /** Within one path, the string form determines the id. */
  lemma JoinActiveKeySamePath(k: ActiveKey, k': ActiveKey)
    ensures k.path == k'.path && JoinActiveKey(k) == JoinActiveKey(k') ==> k == k'
  {
    if k.path == k'.path && JoinActiveKey(k) == JoinActiveKey(k') {
      assert k.operationId == JoinActiveKey(k)[|k.path| + 1..] == JoinActiveKey(k')[|k.path| + 1..] == k'.operationId;
    }
  }

  /** A key whose path and id hold no ':' is the only key with its string form. */
  lemma JoinActiveKeyInjectiveColonFree(k: ActiveKey, k': ActiveKey)
    requires Colon !in k.path && Colon !in k.operationId
    requires JoinActiveKey(k) == JoinActiveKey(k')
    ensures k == k'
  {
    var s, n := JoinActiveKey(k), |k.path|;
    assert forall j :: 0 <= j < n ==> s[j] == k.path[j];
    assert forall j :: n < j < |s| ==> s[j] == k.operationId[j - n - 1];
    assert s[|k'.path|] == Colon;
    assert |k'.path| == n;
    assert k'.path == s[..n] == k.path;
    assert k'.operationId == s[n + 1..] == k.operationId;
  }

  /**
   * Entries the contract itself creates, "{path}:{path}-{n}", are told apart
   * by their string form: the last '-' closes the second copy of the path.
   */
  lemma GeneratedJoinInjective(p: DerivationPath, n: nat, q: DerivationPath, m: nat)
    requires JoinActiveKey(ActiveKey(p, OperationId(p, n))) == JoinActiveKey(ActiveKey(q, OperationId(q, m)))
    ensures p == q && n == m
  {
    var s := JoinActiveKey(ActiveKey(p, OperationId(p, n)));
    GeneratedJoinParts(p, n);
    GeneratedJoinParts(q, m);
    LastOccurrenceUnique(s, Dash, 2 * |p| + 1, 2 * |q| + 1);
    DecimalInjective(n, m);
  }

  /** The string of a created entry: the path, and after the last '-' the digits of the counter. */
  lemma GeneratedJoinParts(p: DerivationPath, n: nat)
    ensures var s := JoinActiveKey(ActiveKey(p, OperationId(p, n)));
            && |s| == 2 * |p| + 2 + |Decimal(n)|
            && s[..|p|] == p && s[2 * |p| + 2..] == Decimal(n)
            && s[2 * |p| + 1] == Dash && forall j :: 2 * |p| + 1 < j < |s| ==> s[j] != Dash
  {
    var id := OperationId(p, n);
    var s := JoinActiveKey(ActiveKey(p, id));
    assert s[|p| + 1..] == id;
    assert s[2 * |p| + 2..] == id[|p| + 1..];
    DecimalHasNoSeparator(n);
    forall j | 2 * |p| + 1 < j < |s|
      ensures s[j] != Dash
    {
      assert s[j] == id[j - |p| - 1] == Decimal(n)[j - 2 * |p| - 2];
    }
  }

  /** A byte has at most one last occurrence. */
  lemma LastOccurrenceUnique(s: Str, c: byte, i: nat, j: nat)
    requires i < |s| && j < |s| && s[i] == c && s[j] == c
    requires forall k :: i < k < |s| ==> s[k] != c
    requires forall k :: j < k < |s| ==> s[k] != c
    ensures i == j
  {
  }

  /** The address, then ':', then the digits of the nonce: the last ':' ends the address. */
  function JoinNonceKey(k: NonceKey): (s: Str)
    ensures |s| > |k.chainAddress| && s[..|k.chainAddress|] == k.chainAddress && s[|k.chainAddress|] == Colon
    ensures forall j :: |k.chainAddress| < j < |s| ==> s[j] != Colon
  {
    var s := k.chainAddress + [Colon] + Decimal(k.nonce);
    DecimalHasNoSeparator(k.nonce);
    assert forall j :: |k.chainAddress| < j < |s| ==> s[j] == Decimal(k.nonce)[j - |k.chainAddress| - 1];
    s
  }

  /**
   * The nonce key's string form is unambiguous even when the address holds a
   * ':', because the decimal nonce never does: structured keys lose nothing.
   */
  lemma JoinNonceKeyInjective(a: NonceKey, b: NonceKey)
    requires JoinNonceKey(a) == JoinNonceKey(b)
    ensures a == b
  {
    var s := JoinNonceKey(a);
    var la, lb := |a.chainAddress|, |b.chainAddress|;
    // Each address ends at the last ':'.
    LastOccurrenceUnique(s, Colon, la, lb);
    assert a.chainAddress == s[..la] == b.chainAddress;
    assert Decimal(a.nonce) == s[la + 1..] == Decimal(b.nonce);
    DecimalInjective(a.nonce, b.nonce);
  }

  /** The id of the `n`-th operation of a path: "{path}-{n}". */
  function OperationId(path: DerivationPath, n: nat): (id: Str)
    ensures |id| > |path| + 1 && id[..|path|] == path && id[|path|] == Dash
    ensures id[|path| + 1..] == Decimal(n)
  {
    path + [Dash] + Decimal(n)
  }

  /** Ids of one path never repeat: distinct counters give distinct ids. */
  lemma OperationIdInjective(path: DerivationPath, n: nat, m: nat)
    requires OperationId(path, n) == OperationId(path, m)
    ensures n == m
  {
    assert Decimal(n) == OperationId(path, n)[|path| + 1..];
    assert Decimal(m) == OperationId(path, m)[|path| + 1..];
    DecimalInjective(n, m);
  }

  /** An id built from a path without ':' contains no ':'. */
  lemma OperationIdColonFree(path: DerivationPath, n: nat)
    requires Colon !in path
    ensures Colon !in OperationId(path, n)
  {
    DecimalHasNoSeparator(n);
  }
}
