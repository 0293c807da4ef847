/** The deployment-key decoder of api/src/gits/api/token.go.

    A deployment key travels as hex text: a 20-byte HMAC-SHA1 tag followed by
    AES-256-CBC ciphertext of `<userId>|<subject>|<padding>`. The cipher, the
    MAC and the key derivation are oracles; the model keeps the length gate,
    the order of the checks, the error messages and the parsing of the
    decrypted material.
 */
module DeploymentKey {
  import opened Wrappers
  import Strings
  import Numerals

  /** `aes.BlockSize`. */
  const CipherBlockLen := 16
  /** `sha1.Size`. */
  const MacLen := 20
  /** Two hex characters per byte; one block of IV, two blocks of data, the MAC. */
  const MinHexLen := 2 * ((1 + 2) * CipherBlockLen + MacLen)
  /** One more block for the subject. */
  const MaxHexLen := MinHexLen + 2 * CipherBlockLen
  /** The user id reported when no user could be recovered. */
  const NoUser := "user-id-that-wont-match-anything"
  const Sep: byte := 124
  const Salt: seq<byte> := BytesOf("Git")
  const IV: seq<byte> := BytesOf("gah4ixaXuuShe4qu")
  const Pbkdf2Rounds := 4096
  const EncryptionKeyLen := 32

  /** The cryptographic primitives the decoder calls. */
  datatype Crypto = Crypto(
    hmacSha1: (seq<byte>, seq<byte>) -> seq<byte>,
    pbkdf2Sha1: (seq<byte>, seq<byte>, nat, nat) -> seq<byte>,
    cbcDecrypt: (seq<byte>, seq<byte>, seq<byte>) -> seq<byte>)

  /** The package-level secret and derived encryption key; both empty before `Init`. */
  datatype KeyState = KeyState(secret: seq<byte>, encryptionKey: seq<byte>)

  const Uninitialized := KeyState([], [])

  /** The three results of `decodeDeploymentKey`. */
  datatype DecodedKey = DecodedKey(userId: string, subject: string, err: Option<string>)

  /** `Init`: with verbose logging on and a secret missing, the state is left as
      it was; otherwise the secret becomes `<hub>|<git>` and the key is derived from it. */
  function Init(state: KeyState, crypto: Crypto, gitApiSecret: string, hubApiSecret: string, verbose: bool): (r: KeyState)
    ensures (gitApiSecret == "" || hubApiSecret == "") && verbose ==> r == state
    ensures !((gitApiSecret == "" || hubApiSecret == "") && verbose) ==>
      CharsOf(r.secret) == CharsOf(BytesOf(hubApiSecret)) + "|" + CharsOf(BytesOf(gitApiSecret)) &&
      r.encryptionKey == crypto.pbkdf2Sha1(r.secret, Salt, Pbkdf2Rounds, EncryptionKeyLen)
  {
    if (gitApiSecret == "" || hubApiSecret == "") && verbose then state
    else
      var secret := BytesOf(hubApiSecret + "|" + gitApiSecret);
      assert CharsOf(secret) == CharsOf(BytesOf(hubApiSecret)) + "|" + CharsOf(BytesOf(gitApiSecret));
      KeyState(secret, crypto.pbkdf2Sha1(secret, Salt, Pbkdf2Rounds, EncryptionKeyLen))
  }

  /** Once `Init` has derived a secret, the secret is never empty (it holds the '|'). */
  lemma InitSecretNonEmpty(state: KeyState, crypto: Crypto, gitApiSecret: string, hubApiSecret: string, verbose: bool)
    requires !((gitApiSecret == "" || hubApiSecret == "") && verbose)
    ensures |Init(state, crypto, gitApiSecret, hubApiSecret, verbose).secret| > 0
  {
    var r := Init(state, crypto, gitApiSecret, hubApiSecret, verbose);
    assert |CharsOf(r.secret)| >= 1;
  }

  /** The length gate: between the bounds and a whole number of blocks after the MAC. */
  predicate LengthOk(hexLen: int) {
    MinHexLen <= hexLen <= MaxHexLen && (hexLen - 2 * MacLen) % (2 * CipherBlockLen) == 0
  }

  /** Only two key lengths pass the gate: two data blocks, or three. */
  lemma AcceptedLengths(hexLen: int)
    ensures LengthOk(hexLen) <==> hexLen == 136 || hexLen == 168
  {
    if LengthOk(hexLen) {
      var q := (hexLen - 40) / 32;
      assert hexLen - 40 == 32 * q;
      assert 3 <= q <= 4;
    }
  }

  /** Go's `%v` of a byte slice: the decimal bytes, space-separated, in brackets. */
  function ByteListText(b: seq<byte>): (r: string)
    ensures |r| >= 2 && r[0] == '[' && r[|r| - 1] == ']'
  {
    "[" + Strings.Join(seq(|b|, i requires 0 <= i < |b| => Numerals.Itoa(b[i] as int)), " ") + "]"
  }

  /** `crypto/aes`: only 16-, 24- and 32-byte keys make a cipher. */
  function NewCipherError(key: seq<byte>): (r: Option<string>)
    ensures r.None? <==> |key| in {16, 24, 32}
  {
    if |key| in {16, 24, 32} then None else Some("crypto/aes: invalid key size " + Numerals.Itoa(|key|))
  }

  /** The checks that precede parsing, in the source's order. On success: the
      MAC error (None when the tag verified) and the decrypted material. */
  function Unseal(state: KeyState, crypto: Crypto, keyHex: string): (r: Result<(Option<string>, seq<byte>)>)
    ensures !LengthOk(|keyHex|) ==> r == Err("Bad deployment key length " + Numerals.Itoa(|keyHex|))
    ensures r.Ok? ==> LengthOk(|keyHex|) && Numerals.HexDecode(keyHex).Some? && |state.secret| > 0 &&
                      NewCipherError(state.encryptionKey).None?
    ensures LengthOk(|keyHex|) && !Numerals.AllDigitsIn(keyHex, 16) ==>
      r == Err(Numerals.HexDecodeError(keyHex))
    ensures LengthOk(|keyHex|) && Numerals.HexDecode(keyHex).Some? && |state.secret| == 0 ==>
      r == Err("Deployment key decoding not initialized")
    ensures r.Ok? ==>
      var key := Numerals.HexDecode(keyHex).value;
      (r.value.0.None? <==> crypto.hmacSha1(state.secret, key[MacLen..]) == key[..MacLen]) &&
      r.value.1 == crypto.cbcDecrypt(state.encryptionKey, IV, key[MacLen..])
  {
    if !LengthOk(|keyHex|) then Err("Bad deployment key length " + Numerals.Itoa(|keyHex|))
    else match Numerals.HexDecode(keyHex)
      case None =>
        AcceptedLengths(|keyHex|);
        Err(Numerals.HexDecodeError(keyHex))
      case Some(key) =>
        if |state.secret| == 0 then Err("Deployment key decoding not initialized")
        else
          AcceptedLengths(|keyHex|);
          var mac := key[..MacLen];
          var material := key[MacLen..];
          var expected := crypto.hmacSha1(state.secret, material);
          var macErr := if expected == mac then None
                        else Some("Bad MAC: expected " + ByteListText(expected) + "; got " + ByteListText(mac));
          match NewCipherError(state.encryptionKey)
          case Some(e) => Err(e)
          case None => Ok((macErr, crypto.cbcDecrypt(state.encryptionKey, IV, material)))
  }

  /** The user id of verified material: the text before the first separator,
      which must not be the first byte; `None` when there is no such text. */
  function UserIdOf(padded: seq<byte>): (r: Option<string>)
    ensures r.Some? <==> Strings.IndexOf(padded, Sep) > 0
    ensures r.Some? ==>
      r.value != "" && |r.value| < |padded| && Sep !in padded[..|r.value|] &&
      CharsOf(padded) == r.value + "|" + CharsOf(padded[|r.value| + 1..])
  {
    var i := Strings.IndexOf(padded, Sep);
    if i > 0 then
      CharsAround(padded, i);
      Some(CharsOf(padded[..i]))
    else None
  }

  /** The characters of bytes split around the byte at `i`. */
  lemma CharsAround(b: seq<byte>, i: nat)
    requires i < |b| && b[i] == Sep
    ensures CharsOf(b) == CharsOf(b[..i]) + "|" + CharsOf(b[i + 1..])
  {
    var lhs := CharsOf(b);
    var rhs := CharsOf(b[..i]) + "|" + CharsOf(b[i + 1..]);
    assert |lhs| == |rhs|;
    forall k | 0 <= k < |lhs|
      ensures lhs[k] == rhs[k]
    {
      if k < i {
        assert rhs[k] == CharsOf(b[..i])[k];
      } else if k > i {
        assert rhs[k] == CharsOf(b[i + 1..])[k - i - 1];
      }
    }
  }

  /** `decodeDeploymentKey` as written: the subject search starts at the
      separator itself, so it never finds a non-empty subject. */
  function Decode(state: KeyState, crypto: Crypto, keyHex: string): (r: DecodedKey)
    ensures Unseal(state, crypto, keyHex).Err? ==> r == DecodedKey(NoUser, "", Some(Unseal(state, crypto, keyHex).error))
    ensures r.userId != NoUser ==> r.err.None?
    ensures Unseal(state, crypto, keyHex).Ok? ==>
      var (macErr, padded) := Unseal(state, crypto, keyHex).value;
      r.err == macErr &&
      (macErr.Some? || UserIdOf(padded).None? ==> r.userId == NoUser) &&
      (macErr.None? && UserIdOf(padded).Some? ==> r.userId == UserIdOf(padded).value)
  {
    match Unseal(state, crypto, keyHex)
    case Err(e) => DecodedKey(NoUser, "", Some(e))
    case Ok((macErr, padded)) =>
      var i := Strings.IndexOf(padded, Sep);
      if i > 0 && macErr.None? then
        var rest := padded[i..];
        var j := Strings.IndexOf(rest, Sep);
        DecodedKey(CharsOf(padded[..i]), if j > 0 then CharsOf(Strings.Take(rest, j)) else "", None)
      else DecodedKey(NoUser, "", macErr)
  }

  /** The flaw: whatever the key, the decoded subject is empty. */
  lemma {:induction false} SubjectNeverExtracted(state: KeyState, crypto: Crypto, keyHex: string)
    ensures Decode(state, crypto, keyHex).subject == ""
  {
    match Unseal(state, crypto, keyHex)
    case Err(_) =>
    case Ok((macErr, padded)) =>
      var i := Strings.IndexOf(padded, Sep);
      if i > 0 && macErr.None? {
        assert padded[i..][0] == Sep;
        assert Strings.IndexOf(padded[i..], Sep) == 0;
      }
  }

  /** The decoder as evidently intended: the subject is read after the separator. */
  function DecodeIntended(state: KeyState, crypto: Crypto, keyHex: string): (r: DecodedKey)
    ensures Unseal(state, crypto, keyHex).Err? ==> r == DecodedKey(NoUser, "", Some(Unseal(state, crypto, keyHex).error))
    ensures r.userId != NoUser ==> r.err.None?
    ensures r.subject != "" ==> r.err.None? && '|' !in r.subject
    ensures Unseal(state, crypto, keyHex).Ok? ==> r.err == Unseal(state, crypto, keyHex).value.0
  {
    match Unseal(state, crypto, keyHex)
    case Err(e) => DecodedKey(NoUser, "", Some(e))
    case Ok((macErr, padded)) =>
      var i := Strings.IndexOf(padded, Sep);
      if i > 0 && macErr.None? then
        var userId := CharsOf(padded[..i]);
        var rest := padded[i + 1..];
        var j := Strings.IndexOf(rest, Sep);
        if j > 0 then
          assert forall k :: 0 <= k < j ==> CharsOf(rest[..j])[k] as int == rest[k] as int;
          assert '|' !in CharsOf(rest[..j]) by {
            forall k | 0 <= k < j
              ensures CharsOf(rest[..j])[k] != '|'
            {
              assert rest[k] == rest[..j][k];
            }
          }
          DecodedKey(userId, CharsOf(rest[..j]), None)
        else DecodedKey(userId, "", None)
      else DecodedKey(NoUser, "", macErr)
  }

  /** The material a key carries: user id and subject, separated and terminated by '|'. */
  predicate WellFormedMaterial(plain: seq<byte>, userId: seq<byte>, subject: seq<byte>, padding: seq<byte>) {
    plain == userId + [Sep] + (subject + [Sep] + padding) &&
    |userId| > 0 && Sep !in userId && |subject| > 0 && Sep !in subject
  }

  /** The intended decoder recovers the user id and subject of any key whose tag
      verifies and whose material is well formed. */
  lemma {:induction false} DecodeIntendedRecovers(state: KeyState, crypto: Crypto, keyHex: string,
                                                  userId: seq<byte>, subject: seq<byte>, padding: seq<byte>)
    requires Unseal(state, crypto, keyHex).Ok? && Unseal(state, crypto, keyHex).value.0.None?
    requires WellFormedMaterial(Unseal(state, crypto, keyHex).value.1, userId, subject, padding)
    ensures DecodeIntended(state, crypto, keyHex) == DecodedKey(CharsOf(userId), CharsOf(subject), None)
  {
    var padded := Unseal(state, crypto, keyHex).value.1;
    MaterialSplits(padded, userId, subject, padding);
  }

  /** Where the two separators of well-formed material are found. */
  lemma MaterialSplits(padded: seq<byte>, userId: seq<byte>, subject: seq<byte>, padding: seq<byte>)
    requires WellFormedMaterial(padded, userId, subject, padding)
    ensures Strings.IndexOf(padded, Sep) == |userId| && padded[..|userId|] == userId
    ensures |userId| + 1 <= |padded|
    ensures Strings.IndexOf(padded[|userId| + 1..], Sep) == |subject|
    ensures padded[|userId| + 1..][..|subject|] == subject
  {
    SplitAtFirst(padded, userId, subject + [Sep] + padding);
    SplitAtFirst(padded[|userId| + 1..], subject, padding);
  }

  /** The first separator of `a + [Sep] + tail`, when `a` has none. */
  lemma SplitAtFirst(s: seq<byte>, a: seq<byte>, tail: seq<byte>)
    requires s == a + [Sep] + tail && Sep !in a
    ensures Strings.IndexOf(s, Sep) == |a| && s[..|a|] == a && s[|a| + 1..] == tail
  {
    Strings.IndexOfAfterPrefix(a, Sep, tail);
  }

  /** The same key through the decoder as written: the user id survives, the subject is lost. */
  lemma {:induction false} DecodeLosesSubject(state: KeyState, crypto: Crypto, keyHex: string,
                                              userId: seq<byte>, subject: seq<byte>, padding: seq<byte>)
    requires Unseal(state, crypto, keyHex).Ok? && Unseal(state, crypto, keyHex).value.0.None?
    requires WellFormedMaterial(Unseal(state, crypto, keyHex).value.1, userId, subject, padding)
    ensures Decode(state, crypto, keyHex) == DecodedKey(CharsOf(userId), "", None)
    ensures DecodeIntended(state, crypto, keyHex).subject != Decode(state, crypto, keyHex).subject
  {
    var padded := Unseal(state, crypto, keyHex).value.1;
    MaterialSplits(padded, userId, subject, padding);
    SubjectNeverExtracted(state, crypto, keyHex);
    DecodeIntendedRecovers(state, crypto, keyHex, userId, subject, padding);
    assert |CharsOf(subject)| > 0;
  }
}
