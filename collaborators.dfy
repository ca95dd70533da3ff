/** CryptoKit's AES-GCM as the bridge uses it. The cipher itself is not part of
    this model: an engine is a pair of functions supplied by the caller, and
    what a correct AES-GCM guarantees is stated as a predicate on it. */
module AesGcm {
  import opened SwiftData
  import opened V0Format

  /** AES-256 key length in bytes. */
  const KeySize: nat := 32

  /** `AES.GCM.Nonce()`: always 12 bytes. Its random draw is an input of the model. */
  type Nonce = n: Data | |n| == NonceSize
    witness [0, 0, 0, 0, 0, 0, 0, 0, 0, 0, 0, 0]

  datatype SealedBox = SealedBox(ciphertext: Data, tag: Data)

  /** What `AES.GCM.seal` returns, or that it threw. */
  datatype SealOutcome = Sealed(box: SealedBox) | SealThrew

  /** Why the open path threw: a tag that does not verify, a nonce or tag
      CryptoKit will not take, or any other engine failure. */
  datatype OpenFault = TagMismatch | BadParameter | EngineFault

  /** What `AES.GCM.Nonce(data:)`, `AES.GCM.SealedBox(nonce:ciphertext:tag:)`
      and `AES.GCM.open` together return, or why one of them threw. */
  datatype OpenOutcome = Opened(plaintext: Data) | OpenThrew(fault: OpenFault)

  /** seal(key, nonce, plaintext) and open(key, nonce, ciphertext, tag). */
  datatype Engine = Engine(
    seal: (Data, Nonce, Data) -> SealOutcome,
    open: (Data, Data, Data, Data) -> OpenOutcome)

  /** The AES-GCM guarantees the round trip relies on: with a 32-byte key, a
      sealed box has a 16-byte tag and a ciphertext as long as the plaintext,
      and opening it under the same key and nonce gives the plaintext back. */
  ghost predicate IsAuthenticatedCipher(e: Engine) {
    forall key: Data, nonce: Nonce, plaintext: Data ::
      |key| == KeySize && e.seal(key, nonce, plaintext).Sealed? ==>
        && |e.seal(key, nonce, plaintext).box.tag| == TagSize
        && |e.seal(key, nonce, plaintext).box.ciphertext| == |plaintext|
        && e.open(key, nonce, e.seal(key, nonce, plaintext).box.ciphertext,
                  e.seal(key, nonce, plaintext).box.tag) == Opened(plaintext)
  }

  /** The deterministic half of tag verification: under a 32-byte key, open
      accepts a nonce, ciphertext and tag only when seal would have produced
      that ciphertext and tag from the plaintext it returns. Any other input,
      a modified block or a wrong tag, is rejected. */
  ghost predicate RejectsForgeries(e: Engine) {
    forall key: Data, nonce: Nonce, ciphertext: Data, tag: Data ::
      |key| == KeySize && e.open(key, nonce, ciphertext, tag).Opened? ==>
        e.seal(key, nonce, e.open(key, nonce, ciphertext, tag).plaintext) == Sealed(SealedBox(ciphertext, tag))
  }

  /** A toy engine (identity cipher, all-zero tag). It shows that the two
      predicates above can hold together. */
  function ToyEngine(): (e: Engine)
    ensures IsAuthenticatedCipher(e) && RejectsForgeries(e)
  {
    var zeroTag: Data := seq(TagSize, _ => 0);
    Engine(
      (key: Data, nonce: Nonce, plaintext: Data) => Sealed(SealedBox(plaintext, zeroTag)),
      (key: Data, nonce: Data, ciphertext: Data, tag: Data) =>
        if tag == zeroTag then Opened(ciphertext) else OpenThrew(TagMismatch))
  }
}

/** The Foundation conversions the string entry points use, as functions
    supplied by the caller; they are not re-implemented here. */
module Foundation {
  import opened Results
  import opened SwiftData

  datatype Codecs = Codecs(
    utf8Encode: string -> Option<Data>,    // string.data(using: .utf8)
    utf8Decode: Data -> Option<string>,    // String(data:encoding: .utf8)
    base64Encode: Data -> string,          // Data.base64EncodedString()
    base64Decode: string -> Option<Data>)  // Data(base64Encoded:)

  /** Base64 decoding undoes Base64 encoding. */
  ghost predicate Base64RoundTrips(c: Codecs) {
    forall d: Data :: c.base64Decode(c.base64Encode(d)) == Some(d)
  }

  /** UTF-8 decoding undoes a successful UTF-8 encoding. */
  ghost predicate Utf8RoundTrips(c: Codecs) {
    forall s: string :: c.utf8Encode(s).Some? ==> c.utf8Decode(c.utf8Encode(s).value) == Some(s)
  }
}
