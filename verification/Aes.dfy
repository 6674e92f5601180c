/**
 The byte layout of AES-256-GCM values: a 12-byte nonce, then ciphertext and tag. The
 cipher itself is a parameter with the properties of sections 7.1 and 7.2 of NIST SP 800-38D.
 */
module Aes {
  import opened Base

  type Bytes = seq<bv8>

  const KEY_SIZE := 32
  const NONCE_SIZE := 12
  const TAG_SIZE := 16

  datatype Gcm = Gcm(seal: (Bytes, Bytes, Bytes) -> Bytes, open: (Bytes, Bytes, Bytes) -> Option<Bytes>) {
    /** Sealing adds a tag, and a text opens to a plaintext exactly when it is that plaintext sealed. */
    ghost predicate Valid() {
      && (forall key, nonce, plain :: |seal(key, nonce, plain)| == |plain| + TAG_SIZE)
      && (forall key, nonce, plain :: open(key, nonce, seal(key, nonce, plain)) == Some(plain))
      && (forall key, nonce, text :: open(key, nonce, text).Some? ==> text == seal(key, nonce, open(key, nonce, text).value))
    }
  }

  datatype CryptoError = KeyLength | TooShort | Unauthentic

  /** nonce: 12 fresh random bytes. */
  function Encrypt(g: Gcm, key: Bytes, nonce: Bytes, plain: Bytes): Result<Bytes, CryptoError>
    requires |nonce| == NONCE_SIZE
  {
    if |key| != KEY_SIZE then Err(KeyLength) else Ok(nonce + g.seal(key, nonce, plain))
  }

  function Decrypt(g: Gcm, key: Bytes, text: Bytes): Result<Bytes, CryptoError> {
    if |key| != KEY_SIZE then Err(KeyLength)
    else if |text| < NONCE_SIZE + TAG_SIZE then Err(TooShort)
    else match g.open(key, text[..NONCE_SIZE], text[NONCE_SIZE..])
      case Some(plain) => Ok(plain)
      case None => Err(Unauthentic)
  }

  /** A text decrypts to a plaintext exactly when it is an encryption of it, under the nonce it starts with. */
  lemma DecryptsIff(g: Gcm, key: Bytes, text: Bytes, plain: Bytes)
    requires g.Valid() && |key| == KEY_SIZE
    ensures Decrypt(g, key, text) == Ok(plain) <==> |text| >= NONCE_SIZE && Encrypt(g, key, text[..NONCE_SIZE], plain) == Ok(text)
  {
    if |text| >= NONCE_SIZE {
      var nonce, rest := text[..NONCE_SIZE], text[NONCE_SIZE..];
      assert text == nonce + rest;
      assert nonce + g.seal(key, nonce, plain) == text ==> rest == g.seal(key, nonce, plain) by {
        assert (nonce + g.seal(key, nonce, plain))[NONCE_SIZE..] == g.seal(key, nonce, plain);
      }
    }
  }

  /** Encryption is undone under the same key, and lengthens the text by nonce and tag. */
  lemma RoundTrip(g: Gcm, key: Bytes, nonce: Bytes, plain: Bytes)
    requires g.Valid() && |key| == KEY_SIZE && |nonce| == NONCE_SIZE
    ensures var text := Encrypt(g, key, nonce, plain);
      text.Ok? && |text.value| == |plain| + NONCE_SIZE + TAG_SIZE && Decrypt(g, key, text.value) == Ok(plain)
  {
    var text := nonce + g.seal(key, nonce, plain);
    assert text[..NONCE_SIZE] == nonce && text[NONCE_SIZE..] == g.seal(key, nonce, plain);
  }

  /** Keys are 32 bytes, and texts too short for a nonce and a tag are refused. */
  lemma LengthsAreChecked(g: Gcm, key: Bytes, nonce: Bytes, text: Bytes)
    requires |nonce| == NONCE_SIZE
    ensures |key| != 32 <==> Encrypt(g, key, nonce, text) == Err(KeyLength)
    ensures |key| != 32 <==> Decrypt(g, key, text) == Err(KeyLength)
    ensures |key| == 32 ==> (|text| < 28 <==> Decrypt(g, key, text) == Err(TooShort))
  {
  }
}
