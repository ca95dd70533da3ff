/** What the four entry points promise, proved about the model. */
module BridgeProperties {
  import opened Results
  import opened CipherErrors
  import opened SwiftData
  import opened V0Format
  import opened AesGcm
  import opened Foundation
  import opened CipherBridge

  // ---------------------------------------------------------------- framing

  /** A successful encryption is nonce, then ciphertext, then tag, and those
      three can be read back from the block by the decrypt split. */
  lemma EncryptedBlockLayout(engine: Engine, data: Data, key: Data, nonce: Nonce)
    requires SealData(engine, data, key, nonce).Success?
    ensures var blob := SealData(engine, data, key, nonce).value;
      var box := engine.seal(key, nonce, data).box;
      && blob[..NonceSize] == nonce
      && blob[NonceSize..] == box.ciphertext + box.tag
      && (|box.tag| == TagSize ==> Split(blob) == Parts(nonce, box.ciphertext, box.tag))
  {
  }

  /** With an AES-GCM engine an encrypted block is exactly 28 bytes longer
      than the plaintext, so it always passes the decrypt length guard. */
  lemma EncryptedBlockLength(engine: Engine, data: Data, key: Data, nonce: Nonce)
    requires IsAuthenticatedCipher(engine)
    requires SealData(engine, data, key, nonce).Success?
    ensures |SealData(engine, data, key, nonce).value| == |data| + MinBlobSize
  {
  }

  /** Two encryptions of the same plaintext under different nonces never give
      the same block, whatever the engine returns. */
  lemma DistinctNoncesGiveDistinctBlocks(engine: Engine, data: Data, key: Data, n1: Nonce, n2: Nonce)
    requires n1 != n2
    requires SealData(engine, data, key, n1).Success? && SealData(engine, data, key, n2).Success?
    ensures SealData(engine, data, key, n1).value != SealData(engine, data, key, n2).value
  {
    EncryptedBlockLayout(engine, data, key, n1);
    EncryptedBlockLayout(engine, data, key, n2);
  }

  // ------------------------------------------------------------- round trips

  /** decryptData undoes encryptData under the same key. */
  lemma DecryptDataInvertsEncryptData(engine: Engine, data: Data, key: Data, nonce: Nonce, algorithm: CipherAlgorithm)
    requires IsAuthenticatedCipher(engine)
    requires SealData(engine, data, key, nonce).Success?
    ensures DecryptData(engine, SealData(engine, data, key, nonce).value, key, algorithm) == Success(data)
  {
    var box := engine.seal(key, nonce, data).box;
    assert |box.tag| == TagSize;
    EncryptedBlockLayout(engine, data, key, nonce);
  }

  /** decryptString undoes encryptString under the same key, given that
      Base64 and UTF-8 decoding undo their encodings. */
  lemma DecryptStringInvertsEncryptString(codecs: Codecs, engine: Engine, text: string, key: Data, nonce: Nonce, algorithm: CipherAlgorithm)
    requires IsAuthenticatedCipher(engine) && Base64RoundTrips(codecs) && Utf8RoundTrips(codecs)
    requires SealString(codecs, engine, text, key, nonce).Success?
    ensures DecryptString(codecs, engine, SealString(codecs, engine, text, key, nonce).value, key, algorithm) == Success(text)
  {
    var data := codecs.utf8Encode(text).value;
    var blob := SealData(engine, data, key, nonce).value;
    assert codecs.base64Decode(codecs.base64Encode(blob)) == Some(blob);
    EncryptedBlockLength(engine, data, key, nonce);
    DecryptDataInvertsEncryptData(engine, data, key, nonce, algorithm);
    assert codecs.utf8Decode(data) == Some(text);
  }

  /** With an engine that rejects forgeries, decryptData accepts only genuine
      encryptions: a block it opens is exactly what encryptData produces from
      the result under the same key and the block's own nonce. Any other
      block, a modified one included, is reported as DecryptionFailed. */
  lemma DecryptDataAcceptsOnlyEncryptions(engine: Engine, blob: Data, key: Data, algorithm: CipherAlgorithm)
    requires RejectsForgeries(engine)
    requires DecryptData(engine, blob, key, algorithm).Success?
    ensures |blob| >= MinBlobSize
    ensures SealData(engine, DecryptData(engine, blob, key, algorithm).value, key, blob[..NonceSize]) == Success(blob)
  {
    SplitThenFrame(blob);
  }

  // ------------------------------------------------------------------ guards

  /** A block shorter than 28 bytes is rejected before the cipher is reached:
      the outcome is the same for every engine, and it is InvalidInput unless
      decryptData's key guard fires first. */
  lemma ShortBlockRejected(codecs: Codecs, e1: Engine, e2: Engine, encryptedString: string, blob: Data, key: Data, algorithm: CipherAlgorithm)
    requires |blob| < MinBlobSize
    requires codecs.base64Decode(encryptedString) == Some(blob)
    ensures DecryptData(e1, blob, key, algorithm) == DecryptData(e2, blob, key, algorithm)
      == if |key| == KeySize then Failure(InvalidInput) else Failure(InvalidKey)
    ensures DecryptString(codecs, e1, encryptedString, key, algorithm)
      == DecryptString(codecs, e2, encryptedString, key, algorithm) == Failure(InvalidInput)
  {
  }

  /** A block of exactly 28 bytes passes the guards, and what is opened is its
      first 12 bytes, an empty ciphertext and its last 16 bytes. */
  lemma MinimalBlockAccepted(engine: Engine, blob: Data, key: Data, algorithm: CipherAlgorithm)
    requires |blob| == MinBlobSize && |key| == KeySize
    ensures DecryptData(engine, blob, key, algorithm) ==
      match engine.open(key, blob[..NonceSize], [], blob[NonceSize..])
      case Opened(plaintext) => Success(plaintext)
      case OpenThrew(_) => Failure(DecryptionFailed)
  {
  }

  /** A key that is not 32 bytes is rejected with InvalidKey before any cipher
      call, once the guards that precede the key guard have passed. */
  lemma WrongKeyLengthRejected(codecs: Codecs, e1: Engine, e2: Engine, text: string, encryptedString: string, data: Data, key: Data, nonce: Nonce, algorithm: CipherAlgorithm)
    requires |key| != KeySize
    ensures SealData(e1, data, key, nonce) == SealData(e2, data, key, nonce) == Failure(InvalidKey)
    ensures DecryptData(e1, data, key, algorithm) == DecryptData(e2, data, key, algorithm) == Failure(InvalidKey)
    ensures codecs.utf8Encode(text).Some? ==>
      SealString(codecs, e1, text, key, nonce) == SealString(codecs, e2, text, key, nonce) == Failure(InvalidKey)
    ensures codecs.base64Decode(encryptedString).Some? && |codecs.base64Decode(encryptedString).value| >= MinBlobSize ==>
      DecryptString(codecs, e1, encryptedString, key, algorithm)
      == DecryptString(codecs, e2, encryptedString, key, algorithm) == Failure(InvalidKey)
  {
  }

  /** encryptString checks UTF-8 before the key: text that cannot be encoded
      reports InvalidInput whatever the key. */
  lemma EncryptStringChecksUtf8First(codecs: Codecs, engine: Engine, text: string, key: Data, nonce: Nonce)
    requires codecs.utf8Encode(text).None?
    ensures Code(SealString(codecs, engine, text, key, nonce).error) == 202
  {
  }

  /** The two decrypt paths differ only in their guard order: they agree
      (up to the UTF-8 reading) except on a short block with a bad key, where
      decryptData reports InvalidKey (200) and decryptString InvalidInput (202). */
  lemma DecryptPathsAgreeExceptGuardOrder(codecs: Codecs, engine: Engine, encryptedString: string, blob: Data, key: Data, a1: CipherAlgorithm, a2: CipherAlgorithm)
    requires codecs.base64Decode(encryptedString) == Some(blob)
    ensures |blob| >= MinBlobSize || |key| == KeySize ==>
      DecryptString(codecs, engine, encryptedString, key, a1) == AsText(codecs, DecryptData(engine, blob, key, a2))
    ensures |blob| < MinBlobSize && |key| != KeySize ==>
      && Code(DecryptData(engine, blob, key, a2).error) == 200
      && Code(DecryptString(codecs, engine, encryptedString, key, a1).error) == 202
  {
  }

  // ----------------------------------------------------- error classification

  /** Once the guards pass, every failure of the open path is DecryptionFailed
      (211), a tag mismatch included; AuthenticationFailed is not reported. */
  lemma OpenFailuresAreDecryptionFailed(codecs: Codecs, engine: Engine, encryptedString: string, blob: Data, key: Data, algorithm: CipherAlgorithm)
    requires |blob| >= MinBlobSize && |key| == KeySize
    requires engine.open(key, blob[..NonceSize], blob[NonceSize..|blob| - TagSize], blob[|blob| - TagSize..]).OpenThrew?
    ensures Code(DecryptData(engine, blob, key, algorithm).error) == 211
    ensures codecs.base64Decode(encryptedString) == Some(blob) ==>
      Code(DecryptString(codecs, engine, encryptedString, key, algorithm).error) == 211
  {
  }

  /** A seal that throws after the key guard is reported as EncryptionFailed (210). */
  lemma SealFailureIsEncryptionFailed(codecs: Codecs, engine: Engine, text: string, data: Data, key: Data, nonce: Nonce)
    requires |key| == KeySize && engine.seal(key, nonce, data).SealThrew?
    ensures Code(SealData(engine, data, key, nonce).error) == 210
    ensures codecs.utf8Encode(text) == Some(data) ==> Code(SealString(codecs, engine, text, key, nonce).error) == 210
  {
  }

  /** The only codes the bridge reports are 200, 202, 210 and 211. */
  lemma ReportedCodes(codecs: Codecs, engine: Engine, text: string, encryptedString: string, data: Data, key: Data, nonce: Nonce, algorithm: CipherAlgorithm)
    ensures SealData(engine, data, key, nonce).Failure? ==> Code(SealData(engine, data, key, nonce).error) in {200, 210}
    ensures SealString(codecs, engine, text, key, nonce).Failure? ==>
      Code(SealString(codecs, engine, text, key, nonce).error) in {200, 202, 210}
    ensures DecryptData(engine, data, key, algorithm).Failure? ==>
      Code(DecryptData(engine, data, key, algorithm).error) in {200, 202, 211}
    ensures DecryptString(codecs, engine, encryptedString, key, algorithm).Failure? ==>
      Code(DecryptString(codecs, engine, encryptedString, key, algorithm).error) in {200, 202, 211}
  {
  }

  // ------------------------------------------------------------- UTF-8 result

  /** An authenticated plaintext that is not UTF-8 comes back as the empty
      string, which cannot be told apart from a genuinely empty message. */
  lemma NonUtf8PlaintextReadsAsEmpty(codecs: Codecs, engine: Engine, encryptedString: string, key: Data, algorithm: CipherAlgorithm)
    requires codecs.base64Decode(encryptedString).Some?
    requires var blob := codecs.base64Decode(encryptedString).value;
      && |blob| >= MinBlobSize && |key| == KeySize
      && var p := Split(blob);
      && engine.open(key, p.nonce, p.ciphertext, p.tag).Opened?
      && codecs.utf8Decode(engine.open(key, p.nonce, p.ciphertext, p.tag).plaintext).None?
    ensures DecryptString(codecs, engine, encryptedString, key, algorithm) == Success("")
  {
  }

  // ------------------------------------------------------------------ algorithm

  /** The algorithm argument is never read: any two values give the same result. */
  lemma AlgorithmIgnored(codecs: Codecs, engine: Engine, encryptedString: string, blob: Data, key: Data, a1: CipherAlgorithm, a2: CipherAlgorithm)
    ensures DecryptData(engine, blob, key, a1) == DecryptData(engine, blob, key, a2)
    ensures DecryptString(codecs, engine, encryptedString, key, a1) == DecryptString(codecs, engine, encryptedString, key, a2)
  {
  }
}
