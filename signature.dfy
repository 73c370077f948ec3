/**
 * Owner-signature checks (contracts/permission/src/signature.rs). Every check
 * is meant to fail closed: malformed input yields `false`, never an abort.
 * The EVM check as written does not, because it hands the host a signature
 * the host refuses (`VerifyEvmAsWritten`). The cryptographic primitives
 * belong to the host and are taken as parameters.
 */
module Signature {
  import opened Wrappers
  import opened Bytes

  type Digest = s: seq<byte> | |s| == 32 witness seq(32, i => 0)

  /** An uncompressed secp256k1 public key without its 0x04 tag, as `env::ecrecover` returns it. */
  type RecoveredKey = s: seq<byte> | |s| == 64 witness seq(64, i => 0)

  /** The r and s halves of a secp256k1 signature: the only length the host's `ecrecover` takes. */
  type EcdsaSignature = s: seq<byte> | |s| == 64 witness seq(64, i => 0)

  /** The recovery ids the host's `ecrecover` takes. */
  type RecoveryByte = v: byte | v < 4

  /**
   * The host's `env::ed25519_verify(signature, message, public_key)`,
   * `env::sha256`, `env::keccak256` and
   * `env::ecrecover(hash, signature, recovery_id, malleability_flag)`.
   * Their results are opaque; the model fixes only their sizes (32-byte
   * digests, 64-byte recovered keys) and the arguments `ecrecover` accepts.
   * The NEAR runtime aborts the whole call when `ecrecover` is given a
   * signature that is not 64 bytes long or a recovery id above 3, and
   * otherwise answers `None` when no key is recovered.
   */
  datatype Host = Host(
    ed25519Verify: (seq<byte>, seq<byte>, seq<byte>) -> bool,
    sha256: seq<byte> -> Digest,
    keccak256: seq<byte> -> Digest,
    ecrecover: (Digest, EcdsaSignature, RecoveryByte, bool) -> Option<RecoveredKey>)

  /** What the runtime checks before `ecrecover` runs; a call failing it aborts. */
  predicate EcrecoverAccepts(signature: seq<byte>, recoveryId: byte)
  {
    |signature| == 64 && recoveryId < 4
  }

  // ---------------------------------------------------------------------------
  // Ed25519: NEAR and Solana wallets
  // ---------------------------------------------------------------------------

  /** Ed25519 over `message`; only a 64-byte signature and a 32-byte key reach the host. */
  function VerifyEd25519(host: Host, publicKey: seq<byte>, message: seq<byte>, signature: seq<byte>): (ok: bool)
    ensures ok ==> |signature| == 64 && |publicKey| == 32
    ensures |signature| == 64 && |publicKey| == 32 ==> (ok <==> host.ed25519Verify(signature, message, publicKey))
  {
    if |signature| != 64 || |publicKey| != 32 then false
    else host.ed25519Verify(signature, message, publicKey)
  }

  /** A Solana wallet signs the raw message bytes. */
  function VerifySolana(host: Host, publicKey: seq<byte>, message: seq<byte>, signature: seq<byte>): (ok: bool)
    ensures ok <==> |signature| == 64 && |publicKey| == 32 && host.ed25519Verify(signature, message, publicKey)
  {
    VerifyEd25519(host, publicKey, message, signature)
  }

  /**
   * A NEAR wallet signs the SHA-256 digest of the message: the same check as
   * Solana's, applied to the digest. (No NEP-413 payload is built: the digest
   * is of the raw message.)
   */
  function VerifyNear(host: Host, publicKey: seq<byte>, message: seq<byte>, signature: seq<byte>): (ok: bool)
    ensures ok == VerifySolana(host, publicKey, host.sha256(message), signature)
    ensures ok ==> |signature| == 64 && |publicKey| == 32
  {
    VerifyEd25519(host, publicKey, host.sha256(message), signature)
  }

  // ---------------------------------------------------------------------------
  // EVM personal_sign (EIP-191, version byte 0x45)
  // ---------------------------------------------------------------------------

  /** "\x19Ethereum Signed Message:\n" */
  const EthPrefix: Str := [0x19] + Ascii("Ethereum Signed Message:\n")

  /** The prefix, the message length in decimal, then the message. */
  function EthSignedMessage(message: seq<byte>): (r: Str)
    ensures |EthPrefix| == 26
    ensures |r| == 26 + |Decimal(|message|)| + |message|
    ensures r[..26] == EthPrefix
    ensures r[26..26 + |Decimal(|message|)|] == Decimal(|message|)
    ensures r[|r| - |message|..] == message
  {
    EthPrefix + Decimal(|message|) + message
  }

  /** The framing is unambiguous: distinct messages give distinct signed payloads. */
  lemma EthSignedMessageInjective(m1: seq<byte>, m2: seq<byte>)
    requires EthSignedMessage(m1) == EthSignedMessage(m2)
    ensures m1 == m2
  {
    var e1, e2 := EthSignedMessage(m1), EthSignedMessage(m2);
    if |m1| < |m2| {
      DecimalLengthMonotone(|m1|, |m2|);
    } else if |m2| < |m1| {
      DecimalLengthMonotone(|m2|, |m1|);
    }
    assert |m1| == |m2|;
    assert m1 == e1[|e1| - |m1|..] == e2[|e2| - |m2|..] == m2;
  }

  /** The example of the source's unit test: "Hello" is framed with length 5. */
  lemma EthSignedMessageHello()
    ensures EthSignedMessage(Ascii("Hello")) == [0x19] + Ascii("Ethereum Signed Message:\n5Hello")
  {
    assert Decimal(5) == [53];
    assert Ascii("Ethereum Signed Message:\n") + [53] + Ascii("Hello") == Ascii("Ethereum Signed Message:\n5Hello");
  }

  /** A legacy recovery byte 27 or 28 becomes 0 or 1; a byte below 27 is used as it is. */
  function RecoveryId(v: byte): (r: byte)
    ensures v >= 27 ==> r + 27 == v
    ensures v < 27 ==> r == v
  {
    if v >= 27 then v - 27 else v
  }

  predicate HasHexPrefix(s: Str) { |s| >= 2 && s[0] == 48 && s[1] == 120 }   // "0x"

  /** `strip_prefix("0x").unwrap_or(s)`: only a lower-case "0x" is removed, once. */
  function StripHexPrefix(s: Str): (r: Str)
    ensures HasHexPrefix(s) ==> r == s[2..]
    ensures !HasHexPrefix(s) ==> r == s
  {
    if HasHexPrefix(s) then s[2..] else s
  }

  /** A 20-byte address written as 40 hex digits, optionally after "0x". */
  function ParseEvmAddress(address: Str): (r: Option<seq<byte>>)
    ensures r.Some? <==> |StripHexPrefix(address)| == 40 && AllHex(StripHexPrefix(address))
    ensures r.Some? ==> |r.value| == 20 && HexEncode(r.value) == LowerCase(StripHexPrefix(address))
  {
    var body := StripHexPrefix(address);
    if |body| != 40 then None
    else match HexDecode(body)
      case None => None
      case Some(bytes) =>
        HexDecodeEncodes(body);
        if |bytes| != 20 then None else Some(bytes)
  }

  function LowerCase(s: Str): (r: Str)
    ensures |r| == |s|
  {
    seq(|s|, i requires 0 <= i < |s| => if 65 <= s[i] <= 90 then s[i] + 32 else s[i])
  }

  /** Decoding then encoding gives back the digits, in lower case. */
  lemma {:induction false} HexDecodeEncodes(s: Str)
    requires HexDecode(s).Some?
    ensures HexEncode(HexDecode(s).value) == LowerCase(s)
    decreases |s|
  {
    if |s| > 0 {
      HexDecodeEncodes(s[2..]);
      var hi, lo := HexValue(s[0]), HexValue(s[1]);
      var v := hi * 16 + lo;
      var rest := HexDecode(s[2..]).value;
      assert HexDecode(s).value == [v] + rest;
      assert v / 16 == hi && v % 16 == lo;
      HexCharOfValue(s[0]);
      HexCharOfValue(s[1]);
      assert HexEncode([v] + rest) == [HexChar(hi), HexChar(lo)] + HexEncode(rest) by {
        assert ([v] + rest)[1..] == rest;
      }
      LowerCaseSplit(s);
      assert [HexChar(hi), HexChar(lo)] == [LowerCase(s)[0], LowerCase(s)[1]];
    }
  }

  lemma LowerCaseSplit(s: Str)
    requires |s| >= 2
    ensures LowerCase(s) == [LowerCase(s)[0], LowerCase(s)[1]] + LowerCase(s[2..])
  {
    assert LowerCase(s)[2..] == LowerCase(s[2..]);
  }

  /** The lower-case digit of a hex character's value is that character in lower case. */
  lemma HexCharOfValue(c: byte)
    requires IsHexDigit(c)
    ensures HexChar(HexValue(c)) == if 65 <= c <= 90 then c + 32 else c
  {
  }

  /** Every 20-byte address round-trips through its hex form, with or without "0x". */
  lemma EvmAddressRoundTrip(a: seq<byte>)
    requires |a| == 20
    ensures ParseEvmAddress(HexEncode(a)) == Some(a)
    ensures ParseEvmAddress(Ascii("0x") + HexEncode(a)) == Some(a)
  {
    HexRoundTrip(a);
    var h := HexEncode(a);
    assert !HasHexPrefix(h);
    assert (Ascii("0x") + h)[2..] == h;
  }

  /** Adding "0x" in front of an unprefixed address does not change what it parses to. */
  lemma EvmAddressPrefixOptional(s: Str)
    requires !HasHexPrefix(s)
    ensures ParseEvmAddress(Ascii("0x") + s) == ParseEvmAddress(s)
  {
    assert (Ascii("0x") + s)[2..] == s;
  }

  /** The Ethereum address of a public key: the last 20 bytes of its Keccak-256 digest. */
  function AddressOf(host: Host, publicKey: RecoveredKey): (a: seq<byte>)
    ensures |a| == 20
    ensures a == host.keccak256(publicKey)[12..]
  {
    host.keccak256(publicKey)[12..32]
  }

  /**
   * The public key recovered from a 65-byte personal_sign signature, if the
   * host finds one: r and s go to the host, the last byte gives the recovery id.
   */
  function Recover(host: Host, message: seq<byte>, signature: seq<byte>): (r: Option<RecoveredKey>)
    requires |signature| == 65 && RecoveryId(signature[64]) < 4
    ensures EcrecoverAccepts(signature[..64], RecoveryId(signature[64]))
  {
    host.ecrecover(host.keccak256(EthSignedMessage(message)), signature[..64], RecoveryId(signature[64]), true)
  }

  /**
   * `verify_evm_signature` as written: it hands `ecrecover` all 65 bytes,
   * which the runtime refuses by aborting the call (`None`). A signature of
   * any other length, or an address that does not parse, is `Some(false)`
   * before the host is reached; no input gives `Some(true)`.
   */
  function VerifyEvmAsWritten(host: Host, address: Str, message: seq<byte>, signature: seq<byte>): (r: Option<bool>)
    ensures r.None? <==> |signature| == 65 && ParseEvmAddress(address).Some?
    ensures r != Some(true)
  {
    if |signature| != 65 then Some(false)
    else match ParseEvmAddress(address)
      case None => Some(false)
      case Some(_) => None   // the runtime refuses all 65 bytes (`EvmCallAsWrittenIsRefused`)
  }

  /** Every signature that reaches the host as written fails the runtime's argument check. */
  lemma EvmCallAsWrittenIsRefused(signature: seq<byte>)
    requires |signature| == 65
    ensures !EcrecoverAccepts(signature, RecoveryId(signature[64]))
    ensures EcrecoverAccepts(signature[..64], RecoveryId(signature[64])) <==> signature[64] < 4 || 27 <= signature[64] < 31
  {
  }

  /**
   * `verify_evm_signature` as intended: true exactly when the signature has
   * 65 bytes, the address parses, the recovery id is one the host takes, the
   * host recovers a key from r and s, and that key's address is the parsed
   * one. Every other input is `false`, never an abort.
   */
  function VerifyEvm(host: Host, address: Str, message: seq<byte>, signature: seq<byte>): (ok: bool)
    ensures ok <==> |signature| == 65 && ParseEvmAddress(address).Some? && RecoveryId(signature[64]) < 4
                    && Recover(host, message, signature).Some?
                    && AddressOf(host, Recover(host, message, signature).value) == ParseEvmAddress(address).value
  {
    if |signature| != 65 then false
    else match ParseEvmAddress(address)
      case None => false
      case Some(expected) =>
        var recoveryId := RecoveryId(signature[64]);
        if recoveryId >= 4 then false
        else
          var messageHash := host.keccak256(EthSignedMessage(message));
          match host.ecrecover(messageHash, signature[..64], recoveryId, true)
          case None => false
          case Some(recovered) => AddressOf(host, recovered) == expected
  }

  /** The as-written check refuses what the intended one would accept, and agrees on every input it does not abort. */
  lemma VerifyEvmAsWrittenDiffers(host: Host, address: Str, message: seq<byte>, signature: seq<byte>)
    ensures VerifyEvmAsWritten(host, address, message, signature).Some? ==>
              VerifyEvmAsWritten(host, address, message, signature).value == VerifyEvm(host, address, message, signature)
    ensures VerifyEvm(host, address, message, signature) ==> VerifyEvmAsWritten(host, address, message, signature).None?
  {
  }
}
