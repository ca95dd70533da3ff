/** MBSCipherBridge: the four static entry points that encrypt and decrypt in
    the V0 format with AES-256-GCM. The nonce an encryption would draw is an
    input, so each entry point is a deterministic function of its arguments. */
module CipherBridge {
  import opened Results
  import opened CipherErrors
  import opened SwiftData
  import opened V0Format
  import opened AesGcm
  import opened Foundation

  /** MBSCipherAlgorithm: an NSInteger enumeration whose one named value is
      AES-GCM (0). A caller may pass any raw value. */
  datatype CipherAlgorithm = CipherAlgorithm(rawValue: int)

  /** What `encryptData` returns when AES.GCM.Nonce() yields `nonce`. */
  function SealData(engine: Engine, data: Data, key: Data, nonce: Nonce): (r: Result<Data, CipherError>)
    ensures r.Failure? ==> r.error in {InvalidKey, EncryptionFailed}
    ensures r.Success? <==> |key| == KeySize && engine.seal(key, nonce, data).Sealed?
  {
    if |key| != KeySize then Failure(InvalidKey)
    else match engine.seal(key, nonce, data)
      case SealThrew => Failure(EncryptionFailed)
      case Sealed(box) => Success(Frame(Parts(nonce, box.ciphertext, box.tag)))
  }

  /** What `encryptString` returns when AES.GCM.Nonce() yields `nonce`: the
      UTF-8 check, then the bytes `encryptData` would give, in Base64. */
  function SealString(codecs: Codecs, engine: Engine, text: string, key: Data, nonce: Nonce): (r: Result<string, CipherError>)
    ensures r.Failure? ==> r.error in {InvalidInput, InvalidKey, EncryptionFailed}
    ensures codecs.utf8Encode(text).None? ==> r == Failure(InvalidInput)
  {
    match codecs.utf8Encode(text)
    case None => Failure(InvalidInput)
    case Some(data) =>
      match SealData(engine, data, key, nonce)
      case Failure(e) => Failure(e)
      case Success(blob) => Success(codecs.base64Encode(blob))
  }

  /** `encryptData`: key guard, seal, then the block assembled by three appends. */
  method EncryptData(engine: Engine, data: Data, key: Data, algorithm: CipherAlgorithm, nonce: Nonce)
    returns (r: Result<Data, CipherError>)
    ensures r == SealData(engine, data, key, nonce)
  {
    if |key| != KeySize {
      return Failure(InvalidKey);
    }
    var sealed := engine.seal(key, nonce, data);
    if sealed.SealThrew? {
      return Failure(EncryptionFailed);
    }
    var combined: Data := [];
    combined := combined + nonce;
    combined := combined + sealed.box.ciphertext;
    combined := combined + sealed.box.tag;
    assert combined == Frame(Parts(nonce, sealed.box.ciphertext, sealed.box.tag));
    return Success(combined);
  }

  /** `encryptString`: UTF-8 guard, key guard, seal, three appends, Base64. */
  method EncryptString(codecs: Codecs, engine: Engine, text: string, key: Data, algorithm: CipherAlgorithm, nonce: Nonce)
    returns (r: Result<string, CipherError>)
    ensures r == SealString(codecs, engine, text, key, nonce)
  {
    var encoded := codecs.utf8Encode(text);
    if encoded.None? {
      return Failure(InvalidInput);
    }
    var data := encoded.value;
    if |key| != KeySize {
      return Failure(InvalidKey);
    }
    var sealed := engine.seal(key, nonce, data);
    if sealed.SealThrew? {
      return Failure(EncryptionFailed);
    }
    var combined: Data := [];
    combined := combined + nonce;
    combined := combined + sealed.box.ciphertext;
    combined := combined + sealed.box.tag;
    assert combined == Frame(Parts(nonce, sealed.box.ciphertext, sealed.box.tag));
    return Success(codecs.base64Encode(combined));
  }

  /** The step both decrypt paths share once their guards have passed: split
      the block and open it. Anything thrown there is reported as
      DecryptionFailed, a tag mismatch included. */
  function OpenV0(engine: Engine, blob: Data, key: Data): (r: Result<Data, CipherError>)
    requires |blob| >= MinBlobSize
    ensures r.Failure? ==> r.error == DecryptionFailed
    ensures var p := Split(blob);
      && WellSized(p) && Frame(p) == blob
      && (r.Success? <==> engine.open(key, p.nonce, p.ciphertext, p.tag).Opened?)
      && (r.Success? ==> engine.open(key, p.nonce, p.ciphertext, p.tag) == Opened(r.value))
  {
    SplitThenFrame(blob);
    var p := Split(blob);
    match engine.open(key, p.nonce, p.ciphertext, p.tag)
    case Opened(plaintext) => Success(plaintext)
    case OpenThrew(_) => Failure(DecryptionFailed)
  }

  /** `decryptData`: key guard, then length guard, then open. */
  function DecryptData(engine: Engine, encryptedData: Data, key: Data, algorithm: CipherAlgorithm): (r: Result<Data, CipherError>)
    ensures |key| != KeySize ==> r == Failure(InvalidKey)
    ensures |key| == KeySize && |encryptedData| < MinBlobSize ==> r == Failure(InvalidInput)
    ensures r.Failure? ==> r.error in {InvalidKey, InvalidInput, DecryptionFailed}
    ensures r.Success? ==>
      |encryptedData| >= MinBlobSize &&
      exists p: Parts :: WellSized(p) && Frame(p) == encryptedData &&
        engine.open(key, p.nonce, p.ciphertext, p.tag) == Opened(r.value)
    ensures |key| == KeySize && |encryptedData| >= MinBlobSize ==>
      var p := Split(encryptedData);
      match engine.open(key, p.nonce, p.ciphertext, p.tag)
      case Opened(plaintext) => r == Success(plaintext)
      case OpenThrew(_) => r == Failure(DecryptionFailed)
  {
    if |key| != KeySize then Failure(InvalidKey)
    else if |encryptedData| < MinBlobSize then Failure(InvalidInput)
    else OpenV0(engine, encryptedData, key)
  }

  /** The string a successful open is turned into: its UTF-8 reading, or the
      empty string when the plaintext is not valid UTF-8. */
  function AsText(codecs: Codecs, r: Result<Data, CipherError>): Result<string, CipherError> {
    match r
    case Success(plaintext) => Success(codecs.utf8Decode(plaintext).GetOr(""))
    case Failure(e) => Failure(e)
  }

  /** `decryptString`: Base64 guard, then length guard, then key guard, then
      open, then the UTF-8 reading. */
  function DecryptString(codecs: Codecs, engine: Engine, encryptedString: string, key: Data, algorithm: CipherAlgorithm): (r: Result<string, CipherError>)
    ensures codecs.base64Decode(encryptedString).None? ==> r == Failure(InvalidInput)
    ensures codecs.base64Decode(encryptedString).Some? && |codecs.base64Decode(encryptedString).value| < MinBlobSize
      ==> r == Failure(InvalidInput)
    ensures r.Failure? ==> r.error in {InvalidKey, InvalidInput, DecryptionFailed}
    ensures (codecs.base64Decode(encryptedString).Some? && |key| == KeySize &&
             |codecs.base64Decode(encryptedString).value| >= MinBlobSize) ==>
      var p := Split(codecs.base64Decode(encryptedString).value);
      match engine.open(key, p.nonce, p.ciphertext, p.tag)
      case Opened(plaintext) => r == Success(codecs.utf8Decode(plaintext).GetOr(""))
      case OpenThrew(_) => r == Failure(DecryptionFailed)
  {
    match codecs.base64Decode(encryptedString)
    case None => Failure(InvalidInput)
    case Some(combined) =>
      if |combined| < MinBlobSize then Failure(InvalidInput)
      else if |key| != KeySize then Failure(InvalidKey)
      else AsText(codecs, OpenV0(engine, combined, key))
  }
}
