/**
  The optional client-side envelope (crates/pivss-core/src/crypto.rs):

    magic "PIVSS1" (6) | salt (16) | nonce (12) | ciphertext and tag

  Key derivation and the cipher are parameters with stated laws.
 */
module Crypto {
  import opened Bytes
  import opened Wrappers

  const MAGIC: Bytes := "PIVSS1"
  const SALT_LEN: nat := 16
  const NONCE_LEN: nat := 12
  const HEADER: nat := 34

  datatype CryptoError = Kdf | Encryption | Decryption | BadMagic | Truncated

  datatype Cipher = Cipher(derive: (Bytes, Bytes) -> Option<Bytes>,
                           encrypt: (Bytes, Bytes, Bytes) -> Option<Bytes>,
                           decrypt: (Bytes, Bytes, Bytes) -> Option<Bytes>)

  /** Decryption undoes encryption under the same key and nonce. */
  ghost predicate Invertible(c: Cipher) {
    forall key, nonce, plain ::
      c.encrypt(key, nonce, plain).Some? ==> c.decrypt(key, nonce, c.encrypt(key, nonce, plain).value) == Some(plain)
  }

  /** A plaintext is never longer than its ciphertext. */
  ghost predicate NonExpanding(c: Cipher) {
    forall key, nonce, ct :: c.decrypt(key, nonce, ct).Some? ==> |c.decrypt(key, nonce, ct).value| <= |ct|
  }

  function Layout(salt: Bytes, nonce: Bytes, ciphertext: Bytes): Bytes {
    MAGIC + salt + nonce + ciphertext
  }

  /** The envelope of a plaintext, as a function of the passphrase, the salt and the nonce. */
  function Envelope(c: Cipher, passphrase: Bytes, salt: Bytes, nonce: Bytes, plaintext: Bytes): Result<Bytes, CryptoError> {
    match c.derive(passphrase, salt)
    case None => Err(Kdf)
    case Some(key) =>
      match c.encrypt(key, nonce, plaintext)
      case None => Err(Encryption)
      case Some(ct) => Ok(Layout(salt, nonce, ct))
  }

  method Seal(c: Cipher, key: Bytes, nonce: Bytes, salt: Bytes, plaintext: Bytes) returns (r: Result<Bytes, CryptoError>)
    ensures r == match c.encrypt(key, nonce, plaintext)
                 case None => Err(Encryption)
                 case Some(ct) => Ok(Layout(salt, nonce, ct))
  {
    var ct := c.encrypt(key, nonce, plaintext);
    if ct.None? {
      return Err(Encryption);
    }
    var out := MAGIC;
    out := out + salt;
    out := out + nonce;
    out := out + ct.value;
    r := Ok(out);
  }

  /** Encrypt with freshly drawn salt and nonce; both are returned in hexadecimal for later reproduction. */
  method Encrypt(c: Cipher, passphrase: Bytes, plaintext: Bytes, salt: Bytes, nonce: Bytes)
    returns (r: Result<(Bytes, Bytes, Bytes), CryptoError>)
    requires |salt| == SALT_LEN && |nonce| == NONCE_LEN
    ensures r == match Envelope(c, passphrase, salt, nonce, plaintext)
                 case Err(e) => Err(e)
                 case Ok(env) => Ok((env, HexEncode(salt), HexEncode(nonce)))
  {
    var key := c.derive(passphrase, salt);
    if key.None? {
      return Err(Kdf);
    }
    var sealed := Seal(c, key.value, nonce, salt, plaintext);
    r := match sealed
      case Err(e) => Err(e)
      case Ok(env) => Ok((env, HexEncode(salt), HexEncode(nonce)));
  }

  /** Exactly `n` hex-encoded bytes. */
  function DecodeExactly(hex: string, n: nat): Option<Bytes> {
    match HexDecode(hex)
    case Some(b) => if |b| == n then Some(b) else None
    case None => None
  }

  /** Reproduce an uploaded envelope from the stored salt and nonce. */
  function EncryptWith(c: Cipher, passphrase: Bytes, saltHex: string, nonceHex: string, plaintext: Bytes): Result<Bytes, CryptoError> {
    match (DecodeExactly(saltHex, SALT_LEN), DecodeExactly(nonceHex, NONCE_LEN))
    case (Some(salt), Some(nonce)) => Envelope(c, passphrase, salt, nonce, plaintext)
    case _ => Err(Truncated)
  }

  function Decrypt(c: Cipher, passphrase: Bytes, envelope: Bytes): Result<Bytes, CryptoError> {
    if |envelope| < HEADER then Err(Truncated)
    else if envelope[..6] != MAGIC then Err(BadMagic)
    else match c.derive(passphrase, envelope[6..22])
      case None => Err(Kdf)
      case Some(key) =>
        match c.decrypt(key, envelope[22..HEADER], envelope[HEADER..])
        case None => Err(Decryption)
        case Some(plain) => Ok(plain)
  }

  predicate IsEnvelope(data: Bytes) {
    |data| >= 6 && data[..6] == MAGIC
  }

  /** What counts as an envelope: whatever starts with the magic. */
  lemma EnvelopeMark(data: Bytes)
    ensures IsEnvelope(data) <==> "PIVSS1" <= data
  {
    assert "PIVSS1" <= data <==> |data| >= 6 && data[..6] == "PIVSS1";
  }

  lemma LayoutParts(salt: Bytes, nonce: Bytes, ct: Bytes)
    requires |salt| == SALT_LEN && |nonce| == NONCE_LEN
    ensures var e := Layout(salt, nonce, ct);
            |e| == HEADER + |ct| && e[..6] == MAGIC && e[6..22] == salt && e[22..HEADER] == nonce && e[HEADER..] == ct
  {}

  /** What was encrypted is laid out as documented, is recognised, decrypts to the plaintext, and is reproduced byte for byte. */
  lemma EnvelopeRoundTrip(c: Cipher, passphrase: Bytes, salt: Bytes, nonce: Bytes, plaintext: Bytes)
    requires |salt| == SALT_LEN && |nonce| == NONCE_LEN && Invertible(c)
    requires Envelope(c, passphrase, salt, nonce, plaintext).Ok?
    ensures var e := Envelope(c, passphrase, salt, nonce, plaintext).value;
            && "PIVSS1" <= e && IsEnvelope(e)
            && |e| >= 34 && e[6..22] == salt && e[22..34] == nonce
            && c.derive(passphrase, salt).Some? && Some(e[34..]) == c.encrypt(c.derive(passphrase, salt).value, nonce, plaintext)
            && Decrypt(c, passphrase, e) == Ok(plaintext)
            && EncryptWith(c, passphrase, HexEncode(salt), HexEncode(nonce), plaintext) == Ok(e)
  {
    var key := c.derive(passphrase, salt).value;
    LayoutParts(salt, nonce, c.encrypt(key, nonce, plaintext).value);
    EnvelopeMark(Envelope(c, passphrase, salt, nonce, plaintext).value);
    HexReadsBack(salt);
    HexReadsBack(nonce);
  }

  /** Envelopes with different salt, nonce or ciphertext are different. */
  lemma LayoutInjective(s1: Bytes, n1: Bytes, c1: Bytes, s2: Bytes, n2: Bytes, c2: Bytes)
    requires |s1| == SALT_LEN == |s2| && |n1| == NONCE_LEN == |n2|
    requires Layout(s1, n1, c1) == Layout(s2, n2, c2)
    ensures s1 == s2 && n1 == n2 && c1 == c2
  {
    LayoutParts(s1, n1, c1);
    LayoutParts(s2, n2, c2);
  }

  // ------------------------------------------------------------------ restore

  datatype RestoreError = NeedsPassphrase | Crypto(error: CryptoError)

  /** What the client writes for stored bytes: envelopes are detected and decrypted. */
  function Restored(c: Cipher, passphrase: Option<Bytes>, data: Bytes): Result<Bytes, RestoreError> {
    if !IsEnvelope(data) then Ok(data)
    else match passphrase
      case None => Err(NeedsPassphrase)
      case Some(pw) =>
        match Decrypt(c, pw, data)
        case Ok(plain) => Ok(plain)
        case Err(e) => Err(Crypto(e))
  }

  /** Reproducing an envelope needs a salt and a nonce of the right lengths, and says so exactly when it has not. */
  lemma MalformedFields(c: Cipher, passphrase: Bytes, saltHex: string, nonceHex: string, plaintext: Bytes)
    ensures var salt, nonce := HexDecode(saltHex), HexDecode(nonceHex);
            EncryptWith(c, passphrase, saltHex, nonceHex, plaintext) == Err(Truncated)
            <==> salt.None? || |salt.value| != 16 || nonce.None? || |nonce.value| != 12
  {
    if DecodeExactly(saltHex, SALT_LEN).Some? && DecodeExactly(nonceHex, NONCE_LEN).Some? {
      assert EncryptWith(c, passphrase, saltHex, nonceHex, plaintext) != Err(Truncated);
    }
  }

  /** A payload uploaded without a passphrase is restored as it is exactly when it does not start with the magic. */
  lemma PlainRestoresExactly(c: Cipher, passphrase: Option<Bytes>, payload: Bytes)
    requires NonExpanding(c)
    ensures Restored(c, passphrase, payload) == Ok(payload) <==> !("PIVSS1" <= payload)
  {
    EnvelopeMark(payload);
    if IsEnvelope(payload) && passphrase.Some? && |payload| >= HEADER {
      var key := c.derive(passphrase.value, payload[6..22]);
      if key.Some? {
        assert c.decrypt(key.value, payload[22..HEADER], payload[HEADER..]).Some? ==>
          |c.decrypt(key.value, payload[22..HEADER], payload[HEADER..]).value| <= |payload| - HEADER;
      }
    }
  }

  /** Bytes without the magic are never decrypted. */
  lemma UnmarkedRefused(c: Cipher, passphrase: Bytes, data: Bytes)
    requires !("PIVSS1" <= data)
    ensures Decrypt(c, passphrase, data) == Err(if |data| < 34 then Truncated else BadMagic)
  {
    EnvelopeMark(data);
  }

  /** Bytes with the magic are opened as an envelope or not at all. */
  lemma MarkedOpensExactly(c: Cipher, passphrase: Option<Bytes>, data: Bytes)
    requires "PIVSS1" <= data
    ensures passphrase.None? ==> Restored(c, passphrase, data) == Err(NeedsPassphrase)
    ensures passphrase.Some? && |data| < 34 ==> Restored(c, passphrase, data) == Err(Crypto(Truncated))
    ensures passphrase.Some? && |data| >= 34 ==>
              Restored(c, passphrase, data) ==
              match c.derive(passphrase.value, data[6..22])
              case None => Err(Crypto(Kdf))
              case Some(key) =>
                match c.decrypt(key, data[22..34], data[34..])
                case None => Err(Crypto(Decryption))
                case Some(plain) => Ok(plain)
  {
    EnvelopeMark(data);
  }
}
