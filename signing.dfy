/**
 * The signing step of the sign page: the exact message that is signed, how
 * the key is obtained in each of the two key modes, and the `/signature`
 * fragment written on success.
 */
module Signing {
  import opened Wrappers
  import opened Hex
  import Utf8
  import Url

  type uint32 = n: int | 0 <= n < 0x1_0000_0000

  /** The fields of a neon-core `wallet.Account` that the pages read. */
  datatype Account = Account(privateKey: string, publicKey: string, address: string, scriptHash: string)

  /**
   * The foreign operations the pages call, left uninterpreted:
   * `wallet.isPrivateKey`, `wallet.isWIF`, `new wallet.Account(key)`,
   * `wallet.sign(hexMessage, privateKey)` and SHA-256 (FIPS 180-4) as
   * computed by `crypto.subtle.digest`.
   */
  datatype Wallet = Wallet(
    isPrivateKey: string -> bool,
    isWIF: string -> bool,
    account: string -> Account,
    sign: (string, string) -> string,
    sha256: seq<byte> -> seq<byte>)

  /** The key toggle of the sign page (`kp`): true selects password mode. */
  datatype KeyMode = Password | PrivateKey

  /**
   * The toggle group is exclusive, so pressing the selected button again
   * reports null; `kp` then holds null, which every test treats as false.
   */
  function ModeOf(val: Option<bool>): (m: KeyMode)
    ensures m == Password <==> val == Some(true)
  {
    if val == Some(true) then Password else PrivateKey
  }

  const SIGN_FAILED := "SIGN FAILED"

  lemma Pow256Four()
    ensures Pow256(4) == 0x1_0000_0000
  {
    assert Pow256(2) == 0x1_0000;
  }

  /**
   * The hex string handed to `wallet.sign`: the network magic as four
   * little-endian bytes, then the transaction hash with its bytes reversed.
   */
  function SigningMessage(magic: uint32, txHash: string): (m: string)
    requires IsHexString(txHash)
    ensures |m| == 8 + |txHash| && IsHexString(m)
    ensures IsLowerHex(m[..8]) && LeValue(m[..8]) == magic
    ensures ReverseHex(m[8..]) == txHash
  {
    Pow256Four();
    var prefix := Num2HexLE(magic, 4);
    Num2HexLERoundTrip(magic, 4);
    ReverseHexInvolution(txHash);
    ReverseHexAppend(prefix, ReverseHex(txHash));
    var m := prefix + ReverseHex(txHash);
    assert m[..8] == prefix && m[8..] == ReverseHex(txHash);
    m
  }

  /** The message pins down both the network and the transaction it was built from. */
  lemma MessageDeterminesRequest(magic1: uint32, hash1: string, magic2: uint32, hash2: string)
    requires IsHexString(hash1) && IsHexString(hash2)
    requires SigningMessage(magic1, hash1) == SigningMessage(magic2, hash2)
    ensures magic1 == magic2 && hash1 == hash2
  {
  }

  /** The first eight characters are exactly `num2hexstring(magic, 4, true)`. */
  lemma MessagePrefix(magic: uint32, txHash: string)
    requires IsHexString(txHash)
    ensures Pow256(4) == 0x1_0000_0000
    ensures SigningMessage(magic, txHash)[..8] == Num2HexLE(magic, 4)
  {
    Pow256Four();
    var p := SigningMessage(magic, txHash)[..8];
    LeValueRoundTrip(p);
  }

  /** Password mode: SHA-256 of the UTF-8 bytes of the password, as lower-case hex. */
  function PasswordKey(w: Wallet, password: string): (key: string)
    ensures IsLowerHex(key) && HexToBytes(key) == w.sha256(Utf8.Encode(password))
  {
    var digest := w.sha256(Utf8.Encode(password));
    BytesHexRoundTrip(digest);
    BytesToHex(digest)
  }

  /** The string handed to `new wallet.Account` in each mode. */
  function SigningKey(w: Wallet, mode: KeyMode, input: string): (key: string)
    ensures mode == PrivateKey ==> key == input
    ensures mode == Password ==> IsLowerHex(key) && HexToBytes(key) == w.sha256(Utf8.Encode(input))
  {
    match mode
    case Password => PasswordKey(w, input)
    case PrivateKey => input
  }

  /** Only private-key mode checks its input: a raw private key or a WIF. */
  predicate Accepts(w: Wallet, mode: KeyMode, input: string) {
    mode == Password || w.isPrivateKey(input) || w.isWIF(input)
  }

  /** Password mode accepts every input; private-key mode exactly the raw keys and WIFs. */
  lemma AcceptsByMode(w: Wallet, input: string)
    ensures Accepts(w, Password, input)
    ensures Accepts(w, PrivateKey, input) <==> w.isPrivateKey(input) || w.isWIF(input)
  {
  }

  /** The query of the result fragment, in the order it is written. */
  function SignatureParams(signature: string, acc: Account): seq<(string, string)> {
    [("signature", signature), ("address", acc.address),
     ("scripthash", acc.scriptHash), ("publickey", acc.publicKey)]
  }

  /** The fragment both branches assign on success; nothing in it is escaped. */
  function SignatureFragment(signature: string, acc: Account): (f: string)
    ensures f == "/signature?" + Url.SerializeQuery(SignatureParams(signature, acc))
  {
    var t0, t1, t2, t3 := "signature=" + signature, "address=" + acc.address,
                          "scripthash=" + acc.scriptHash, "publickey=" + acc.publicKey;
    SerializeSignatureParams(signature, acc, t0, t1, t2, t3);
    "/signature?" + t0 + "&" + t1 + "&" + t2 + "&" + t3
  }

  lemma SerializeSignatureParams(signature: string, acc: Account, t0: string, t1: string, t2: string, t3: string)
    requires t0 == "signature=" + signature && t1 == "address=" + acc.address
    requires t2 == "scripthash=" + acc.scriptHash && t3 == "publickey=" + acc.publicKey
    ensures Url.SerializeQuery(SignatureParams(signature, acc)) == t0 + "&" + t1 + "&" + t2 + "&" + t3
  {
    var ps := SignatureParams(signature, acc);
    var texts := Url.PairTexts(ps);
    assert Url.PairText(ps[0]) == t0 && Url.PairText(ps[1]) == t1;
    assert Url.PairText(ps[2]) == t2 && Url.PairText(ps[3]) == t3;
    assert texts == [t0, t1, t2, t3];
    Url.JoinFour(t0, t1, t2, t3, '&');
  }

  /**
   * The sign button: `Success(fragment)` is what gets assigned to
   * `window.location.hash`, `Failure` is the error the field shows.
   */
  function Sign(w: Wallet, mode: KeyMode, input: string, magic: uint32, txHash: string): (r: Result<string, string>)
    requires IsHexString(txHash)
    ensures r.Failure? <==> !Accepts(w, mode, input)
    ensures r.Failure? ==> r.error == SIGN_FAILED
    ensures r.Success? ==>
      var acc := w.account(SigningKey(w, mode, input));
      r.value == "/signature?" + Url.SerializeQuery(
        SignatureParams(w.sign(SigningMessage(magic, txHash), acc.privateKey), acc))
  {
    if !Accepts(w, mode, input) then Failure(SIGN_FAILED)
    else
      var acc := w.account(SigningKey(w, mode, input));
      Success(SignatureFragment(w.sign(SigningMessage(magic, txHash), acc.privateKey), acc))
  }

  /**
   * Password mode never consults the validity predicates and never fails:
   * the result depends only on the password and the request.
   */
  lemma PasswordModeUnchecked(w: Wallet, isPrivateKey: string -> bool, isWIF: string -> bool,
                              password: string, magic: uint32, txHash: string)
    requires IsHexString(txHash)
    ensures Sign(w, Password, password, magic, txHash).Success?
    ensures Sign(w.(isPrivateKey := isPrivateKey, isWIF := isWIF), Password, password, magic, txHash)
         == Sign(w, Password, password, magic, txHash)
  {
  }

  /**
   * The fragment carries the private key only through the signature: two
   * accounts that differ only in their private key, with the same
   * signature, give the same fragment.
   */
  lemma FragmentOmitsPrivateKey(signature: string, acc: Account, otherKey: string)
    ensures SignatureFragment(signature, acc) == SignatureFragment(signature, acc.(privateKey := otherKey))
  {
  }
}
