/** The V0 secure block: a 12-byte nonce, the ciphertext, and a 16-byte tag,
    concatenated with no length fields. The fixed widths are what make the
    block self-describing. */
module V0Format {
  import opened SwiftData

  /** AES-GCM nonce width (the 96-bit IV of NIST SP 800-38D, section 5.2.1.1). */
  const NonceSize: nat := 12
  /** AES-GCM tag width (the 128-bit tag of NIST SP 800-38D, section 5.2.1.2). */
  const TagSize: nat := 16
  /** The shortest block the decrypt paths accept: nonce and tag around an empty ciphertext. */
  const MinBlobSize: nat := NonceSize + TagSize

  datatype Parts = Parts(nonce: Data, ciphertext: Data, tag: Data)

  predicate WellSized(p: Parts) {
    |p.nonce| == NonceSize && |p.tag| == TagSize
  }

  /** The block written by the encrypt paths. */
  function Frame(p: Parts): Data {
    p.nonce + p.ciphertext + p.tag
  }

  /** The split taken by the decrypt paths: `prefix(12)`,
      `dropFirst(12).dropLast(16)` and `suffix(16)`. */
  function Split(blob: Data): (p: Parts)
    ensures |blob| >= MinBlobSize ==>
      WellSized(p) && |p.ciphertext| == |blob| - MinBlobSize
  {
    Parts(Prefix(blob, NonceSize), DropLast(DropFirst(blob, NonceSize), TagSize), Suffix(blob, TagSize))
  }

  /** Every block long enough to be accepted is exactly the frame of its parts. */
  lemma SplitThenFrame(blob: Data)
    requires |blob| >= MinBlobSize
    ensures Frame(Split(blob)) == blob
  {
  }

  /** Splitting a frame gives back exactly the nonce, ciphertext and tag it was built from. */
  lemma FrameThenSplit(p: Parts)
    requires WellSized(p)
    ensures Split(Frame(p)) == p
  {
  }

  /** Two well-sized frames are equal only when their parts are. */
  lemma FrameInjective(p: Parts, q: Parts)
    requires WellSized(p) && WellSized(q)
    requires Frame(p) == Frame(q)
    ensures p == q
  {
    FrameThenSplit(p);
    FrameThenSplit(q);
  }

  /** A block of exactly the minimum length is accepted and carries an empty ciphertext. */
  lemma MinimalBlob(blob: Data)
    requires |blob| == MinBlobSize
    ensures Split(blob) == Parts(blob[..NonceSize], [], blob[NonceSize..])
    ensures Frame(Split(blob)) == blob
  {
  }
}
