/** Password encryption and envelope encryption over an abstract AEAD and key derivation function. */
module Envelope {
  import opened Base

  const SALT_SIZE := 16
  const NONCE_SIZE := 12
  const KEK_SIZE := 32

  datatype CryptoError = TooShort | NoEntropy | BadKeySize | BadNonceSize | OpenFailed | KeyOpenFailed

  datatype Result<+T> = Ok(value: T) | Err(error: CryptoError) {
    predicate IsFailure() {
      Err?
    }

    function PropagateFailure<U>(): Result<U>
      requires Err?
    {
      Err(error)
    }

    function Extract(): T
      requires Ok?
    {
      value
    }
  }

  predicate AesKeySize(n: nat) {
    n == 16 || n == 24 || n == 32
  }

  /** Argon2id and AES-GCM: `kdf(password, salt)`, `seal(key, nonce, plaintext)`, `open(key, nonce, ciphertext)`. */
  datatype Primitives = Primitives(
    kdf: (Bytes, Bytes) -> Bytes,
    seal: (Bytes, Bytes, Bytes) -> Bytes,
    open: (Bytes, Bytes, Bytes) -> Option<Bytes>)
  {
    /**
     Sections 2.1 and 2.2 of RFC 5116: the sealing key and nonce open what was sealed. No other key does.
     Keys derived from a password have 32 bytes.
     */
    ghost predicate Standard() {
      && (forall password, salt :: |kdf(password, salt)| == KEK_SIZE)
      && (forall key, nonce, text {:trigger seal(key, nonce, text)} ::
            AesKeySize(|key|) && |nonce| == NONCE_SIZE ==>
            open(key, nonce, seal(key, nonce, text)) == Some(text))
      && (forall key, other, nonce, text {:trigger open(other, nonce, seal(key, nonce, text))} ::
            key != other && AesKeySize(|key|) && AesKeySize(|other|) && |nonce| == NONCE_SIZE ==>
            open(other, nonce, seal(key, nonce, text)) == None)
    }

    /** aes.NewCipher, cipher.NewGCM and Seal; a nonce of another size makes Go panic. */
    function Seal(key: Bytes, nonce: Bytes, text: Bytes): Result<Bytes> {
      if !AesKeySize(|key|) then Err(BadKeySize)
      else if |nonce| != NONCE_SIZE then Err(BadNonceSize)
      else Ok(seal(key, nonce, text))
    }

    function Open(key: Bytes, nonce: Bytes, cipher: Bytes): Result<Bytes> {
      if !AesKeySize(|key|) then Err(BadKeySize)
      else if |nonce| != NONCE_SIZE then Err(BadNonceSize)
      else match open(key, nonce, cipher)
           case None => Err(OpenFailed)
           case Some(text) => Ok(text)
    }
  }

  lemma OpenSealed(c: Primitives, key: Bytes, other: Bytes, nonce: Bytes, text: Bytes)
    requires c.Standard() && AesKeySize(|key|) && AesKeySize(|other|) && |nonce| == NONCE_SIZE
    ensures c.Open(other, nonce, c.seal(key, nonce, text)) == if other == key then Ok(text) else Err(OpenFailed)
  {
    if other != key {
      assert c.open(other, nonce, c.seal(key, nonce, text)) == None;
    }
  }

  /** The interface can be met: a cipher that carries its key is far from secret, but standard in this sense. */
  lemma StandardIsPossible() returns (c: Primitives)
    ensures c.Standard()
  {
    c := Primitives(
      (password, salt) => Zeros(KEK_SIZE),
      (key, nonce, text) => Tagged(key) + text,
      (key, nonce, cipher) => if Tagged(key) <= cipher then Some(cipher[|Tagged(key)|..]) else None);
    forall key: Bytes, other: Bytes, nonce: Bytes, text: Bytes | AesKeySize(|key|) && AesKeySize(|other|)
      ensures c.open(other, nonce, c.seal(key, nonce, text)) == if other == key then Some(text) else None
    {
      TagsAreApart(key, other, text);
      assert (Tagged(key) + text)[|Tagged(key)|..] == text;
    }
  }

  function Tagged(key: Bytes): Bytes {
    [(|key| % 256) as byte] + key
  }

  lemma TagsAreApart(key: Bytes, other: Bytes, text: Bytes)
    requires AesKeySize(|key|) && AesKeySize(|other|)
    ensures Tagged(other) <= Tagged(key) + text <==> other == key
  {
    var all := Tagged(key) + text;
    assert all[1..1 + |key|] == key && all[0] == |key| as byte;
    assert Tagged(other)[1..] == other;
  }

  // ----- Buffers

  /** Go's `copy(dst[at:], src)`: as many bytes as fit. */
  method Copy(dst: array<byte>, at: nat, src: Bytes)
    requires at <= dst.Length
    modifies dst
    ensures var n := if |src| <= dst.Length - at then |src| else dst.Length - at;
            dst[..] == old(dst[..at]) + src[..n] + old(dst[at + n..])
  {
    var n := if |src| <= dst.Length - at then |src| else dst.Length - at;
    for i := 0 to n
      invariant dst[..] == old(dst[..at]) + src[..i] + old(dst[at + i..])
    {
      dst[at + i] := src[i];
    }
  }

  /** The 32 bytes a KEK stands for: cut off, or filled up with zeros. */
  function PadKek(kek: Bytes): (r: Bytes)
    ensures |r| == KEK_SIZE
  {
    if |kek| >= KEK_SIZE then kek[..KEK_SIZE] else kek + Zeros(KEK_SIZE - |kek|)
  }

  method AdjustKek(kek: Bytes) returns (r: Bytes)
    ensures r == PadKek(kek)
  {
    if |kek| != KEK_SIZE {
      var adjusted := new byte[KEK_SIZE](_ => 0);
      Copy(adjusted, 0, kek);
      return adjusted[..];
    }
    r := kek;
  }

  /** Two byte strings side by side in a fresh buffer. */
  method Join(a: Bytes, b: Bytes) returns (r: Bytes)
    ensures r == a + b
  {
    var buffer := new byte[|a| + |b|](_ => 0);
    Copy(buffer, 0, a);
    Copy(buffer, |a|, b);
    r := buffer[..];
  }

  method JoinThree(a: Bytes, b: Bytes, c: Bytes) returns (r: Bytes)
    ensures r == a + b + c
  {
    var buffer := new byte[|a| + |b| + |c|](_ => 0);
    Copy(buffer, 0, a);
    Copy(buffer, |a|, b);
    assert buffer[..|a| + |b|] == a + b;
    Copy(buffer, |a| + |b|, c);
    r := buffer[..];
  }

  // ----- Password encryption; random bytes are parameters, `None` when the reader fails

  ghost predicate IsRandom(bytes: Option<Bytes>, size: nat) {
    bytes.Some? ==> |bytes.value| == size
  }

  method Encrypt(c: Primitives, plaintext: Bytes, password: Bytes, salt: Option<Bytes>, nonce: Option<Bytes>)
    returns (result: Result<Bytes>)
    requires IsRandom(salt, SALT_SIZE) && IsRandom(nonce, NONCE_SIZE) && c.Standard()
    ensures salt.None? || nonce.None? ==> result == Err(NoEntropy)
    ensures salt.Some? && nonce.Some? ==>
              && result == Ok(salt.value + nonce.value + c.seal(c.kdf(password, salt.value), nonce.value, plaintext))
              && Decrypt(c, result.value, password) == Ok(plaintext)
              && forall other :: Decrypt(c, result.value, other) ==
                   if c.kdf(other, salt.value) == c.kdf(password, salt.value) then Ok(plaintext) else Err(OpenFailed)
  {
    if salt.None? || nonce.None? {
      return Err(NoEntropy);
    }
    hide Decrypt;
    var ciphertext := c.Seal(c.kdf(password, salt.value), nonce.value, plaintext).value;
    var data := JoinThree(salt.value, nonce.value, ciphertext);
    EncryptedDecrypts(c, salt.value, nonce.value, plaintext, password);
    result := Ok(data);
  }

  lemma EncryptedDecrypts(c: Primitives, salt: Bytes, nonce: Bytes, plaintext: Bytes, password: Bytes)
    requires |salt| == SALT_SIZE && |nonce| == NONCE_SIZE && c.Standard()
    ensures forall other :: Decrypt(c, salt + nonce + c.seal(c.kdf(password, salt), nonce, plaintext), other) ==
                            if c.kdf(other, salt) == c.kdf(password, salt) then Ok(plaintext) else Err(OpenFailed)
  {
    forall other
      ensures Decrypt(c, salt + nonce + c.seal(c.kdf(password, salt), nonce, plaintext), other) ==
              if c.kdf(other, salt) == c.kdf(password, salt) then Ok(plaintext) else Err(OpenFailed)
    {
      DecryptOfLayout(c, salt, nonce, c.seal(c.kdf(password, salt), nonce, plaintext), other);
      OpenSealed(c, c.kdf(password, salt), c.kdf(other, salt), nonce, plaintext);
    }
  }

  function Decrypt(c: Primitives, data: Bytes, password: Bytes): Result<Bytes> {
    if |data| < SALT_SIZE + NONCE_SIZE then
      Err(TooShort)
    else
      var salt := data[..SALT_SIZE];
      var nonce := data[SALT_SIZE..SALT_SIZE + NONCE_SIZE];
      c.Open(c.kdf(password, salt), nonce, data[SALT_SIZE + NONCE_SIZE..])
  }

  lemma DecryptOfLayout(c: Primitives, salt: Bytes, nonce: Bytes, ciphertext: Bytes, password: Bytes)
    requires |salt| == SALT_SIZE && |nonce| == NONCE_SIZE
    ensures Decrypt(c, salt + nonce + ciphertext, password) == c.Open(c.kdf(password, salt), nonce, ciphertext)
  {
    var data := salt + nonce + ciphertext;
    assert data[..SALT_SIZE] == salt;
    assert data[SALT_SIZE..SALT_SIZE + NONCE_SIZE] == nonce;
    assert data[SALT_SIZE + NONCE_SIZE..] == ciphertext;
  }

  /** Any other data: 16 bytes of salt and 12 of nonce in front of what is opened, and an error if there are fewer. */
  lemma DecryptGives(c: Primitives, data: Bytes, password: Bytes)
    requires c.Standard()
    ensures |data| < 28 ==> Decrypt(c, data, password) == Err(TooShort)
    ensures |data| >= 28 ==>
              Decrypt(c, data, password) ==
              match c.open(c.kdf(password, data[..16]), data[16..28], data[28..])
              case None => Err(OpenFailed)
              case Some(text) => Ok(text)
  {
    if |data| >= 28 {
      assert |c.kdf(password, data[..16])| == 32;
    }
  }

  // ----- Wrapped keys

  /** A data encryption key sealed under a KEK, behind its nonce. */
  ghost predicate SealedUnder(c: Primitives, wrapped: Bytes, dek: Bytes, kek: Bytes) {
    |wrapped| >= NONCE_SIZE && wrapped[NONCE_SIZE..] == c.seal(PadKek(kek), wrapped[..NONCE_SIZE], dek)
  }

  function UnwrapDEK(c: Primitives, wrapped: Bytes, kek: Bytes): Result<Bytes> {
    if |wrapped| < NONCE_SIZE then
      Err(TooShort)
    else
      match c.Open(PadKek(kek), wrapped[..NONCE_SIZE], wrapped[NONCE_SIZE..])
      case Err(_) => Err(KeyOpenFailed)
      case Ok(dek) => Ok(dek)
  }

  method WrapDEK(c: Primitives, dek: Bytes, kek: Bytes, nonce: Option<Bytes>) returns (wrapped: Result<Bytes>)
    requires IsRandom(nonce, NONCE_SIZE)
    ensures match nonce
            case None => wrapped == Err(NoEntropy)
            case Some(n) => wrapped == Ok(n + c.seal(PadKek(kek), n, dek)) && SealedUnder(c, wrapped.value, dek, kek)
  {
    var key := AdjustKek(kek);
    if nonce.None? {
      return Err(NoEntropy);
    }
    var cipher := c.Seal(key, nonce.value, dek).value;
    var bytes := Join(nonce.value, cipher);
    assert bytes[..NONCE_SIZE] == nonce.value && bytes[NONCE_SIZE..] == cipher;
    wrapped := Ok(bytes);
  }

  /** A fresh key of 32 random bytes, wrapped. */
  method GenerateWrappedDEK(c: Primitives, kek: Bytes, dek: Option<Bytes>, nonce: Option<Bytes>)
    returns (wrapped: Result<Bytes>)
    requires IsRandom(dek, KEK_SIZE) && IsRandom(nonce, NONCE_SIZE)
    ensures dek.None? || nonce.None? ==> wrapped == Err(NoEntropy)
    ensures dek.Some? && nonce.Some? ==>
              && wrapped == Ok(nonce.value + c.seal(PadKek(kek), nonce.value, dek.value))
              && SealedUnder(c, wrapped.value, dek.value, kek)
  {
    if dek.None? {
      return Err(NoEntropy);
    }
    wrapped := WrapDEK(c, dek.value, kek, nonce);
  }

  /** A wrapped key opens under exactly those KEKs that pad to the one it was sealed under. */
  lemma UnwrapSealed(c: Primitives, wrapped: Bytes, dek: Bytes, kek: Bytes, other: Bytes)
    requires c.Standard() && SealedUnder(c, wrapped, dek, kek)
    ensures UnwrapDEK(c, wrapped, other) == if PadKek(other) == PadKek(kek) then Ok(dek) else Err(KeyOpenFailed)
  {
    OpenSealed(c, PadKek(kek), PadKek(other), wrapped[..NONCE_SIZE], dek);
  }

  /** Any other bytes: 12 of nonce in front of what is opened, and no key if there are fewer. */
  lemma UnwrapGives(c: Primitives, wrapped: Bytes, kek: Bytes)
    ensures |wrapped| < 12 ==> UnwrapDEK(c, wrapped, kek) == Err(TooShort)
    ensures |wrapped| >= 12 ==>
              UnwrapDEK(c, wrapped, kek) ==
              match c.open(PadKek(kek), wrapped[..12], wrapped[12..])
              case None => Err(KeyOpenFailed)
              case Some(dek) => Ok(dek)
  {
  }

  // ----- Payloads

  function EnvelopeDecrypt(c: Primitives, kek: Bytes, wrapped: Bytes, payloadNonce: Bytes,
      payload: Bytes): Result<Bytes> {
    if |wrapped| < NONCE_SIZE then
      Err(TooShort)
    else
      match c.Open(PadKek(kek), wrapped[..NONCE_SIZE], wrapped[NONCE_SIZE..])
      case Err(_) => Err(KeyOpenFailed)
      case Ok(dek) => c.Open(dek, payloadNonce, payload)
  }

  method EnvelopeEncrypt(c: Primitives, kek: Bytes, wrapped: Bytes, plaintext: Bytes, nonce: Option<Bytes>)
    returns (r: Result<(Bytes, Bytes)>)
    requires IsRandom(nonce, NONCE_SIZE) && c.Standard()
    ensures r.Ok? <==> UnwrapDEK(c, wrapped, kek).Ok? && AesKeySize(|UnwrapDEK(c, wrapped, kek).value|) && nonce.Some?
    ensures r.Ok? ==> r.value == (c.seal(UnwrapDEK(c, wrapped, kek).value, nonce.value, plaintext), nonce.value)
    ensures r.Ok? ==> EnvelopeDecrypt(c, kek, wrapped, r.value.1, r.value.0) == Ok(plaintext)
    ensures UnwrapDEK(c, wrapped, kek).Err? ==> r == Err(UnwrapDEK(c, wrapped, kek).error)
    ensures UnwrapDEK(c, wrapped, kek).Ok? && r.Err? ==>
              r == Err(if AesKeySize(|UnwrapDEK(c, wrapped, kek).value|) then NoEntropy else BadKeySize)
  {
    var key := AdjustKek(kek);
    if |wrapped| < NONCE_SIZE {
      return Err(TooShort);
    }
    var inner := c.Open(key, wrapped[..NONCE_SIZE], wrapped[NONCE_SIZE..]);
    if inner.Err? {
      return Err(KeyOpenFailed);
    }
    var dek := inner.value;
    if !AesKeySize(|dek|) {
      return Err(BadKeySize);
    }
    if nonce.None? {
      return Err(NoEntropy);
    }
    var cipher := c.Seal(dek, nonce.value, plaintext).value;
    OpenSealed(c, dek, dek, nonce.value, plaintext);
    r := Ok((cipher, nonce.value));
  }

  /** What a payload decrypts to depends on the wrapped key only through the key inside it. */
  lemma EnvelopeThroughDek(c: Primitives, kek: Bytes, wrapped: Bytes, dek: Bytes, payloadNonce: Bytes, payload: Bytes)
    requires UnwrapDEK(c, wrapped, kek) == Ok(dek)
    ensures EnvelopeDecrypt(c, kek, wrapped, payloadNonce, payload) == c.Open(dek, payloadNonce, payload)
  {
  }

  /**
   Any payload: the errors in their order. A key in the envelope that AES takes, with a nonce that GCM does not take,
   is the one case in which Go panics instead.
   */
  lemma EnvelopeDecryptGives(c: Primitives, kek: Bytes, wrapped: Bytes, nonce: Bytes, payload: Bytes)
    ensures |wrapped| < 12 ==> EnvelopeDecrypt(c, kek, wrapped, nonce, payload) == Err(TooShort)
    ensures |wrapped| >= 12 ==>
              match c.open(PadKek(kek), wrapped[..12], wrapped[12..])
              case None => EnvelopeDecrypt(c, kek, wrapped, nonce, payload) == Err(KeyOpenFailed)
              case Some(dek) =>
                EnvelopeDecrypt(c, kek, wrapped, nonce, payload) ==
                if |dek| != 16 && |dek| != 24 && |dek| != 32 then Err(BadKeySize)
                else if |nonce| != 12 then Err(BadNonceSize)
                else match c.open(dek, nonce, payload)
                     case None => Err(OpenFailed)
                     case Some(text) => Ok(text)
  {
  }

  /** A payload sealed in an envelope opens under the KEKs that pad like the sealing one, and under no other. */
  lemma EnvelopeRoundTrip(c: Primitives, kek: Bytes, other: Bytes, wrapped: Bytes, dek: Bytes, nonce: Bytes,
      plaintext: Bytes)
    requires c.Standard() && SealedUnder(c, wrapped, dek, kek) && AesKeySize(|dek|) && |nonce| == NONCE_SIZE
    ensures EnvelopeDecrypt(c, other, wrapped, nonce, c.seal(dek, nonce, plaintext)) ==
            if PadKek(other) == PadKek(kek) then Ok(plaintext) else Err(KeyOpenFailed)
  {
    UnwrapSealed(c, wrapped, dek, kek, other);
    OpenSealed(c, dek, dek, nonce, plaintext);
  }

  /** Two KEKs are interchangeable iff they agree once cut to 32 bytes and filled up with zeros. */
  lemma PadKekEqual(a: Bytes, b: Bytes)
    ensures PadKek(a) == PadKek(b) <==>
            forall i :: 0 <= i < 32 ==> (if i < |a| then a[i] else 0) == (if i < |b| then b[i] else 0)
  {
    PadKekAt(a);
    PadKekAt(b);
    if forall i :: 0 <= i < 32 ==> (if i < |a| then a[i] else 0) == (if i < |b| then b[i] else 0) {
      assert forall i :: 0 <= i < 32 ==> PadKek(a)[i] == PadKek(b)[i];
    }
  }

  /** The first 32 bytes of the key itself, and zeros where it has none. */
  lemma PadKekAt(a: Bytes)
    ensures |PadKek(a)| == 32
    ensures forall i :: 0 <= i < 32 ==> PadKek(a)[i] == if i < |a| then a[i] else 0
  {
  }
}
