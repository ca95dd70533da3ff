# MbSecureCrypto V0 cipher bridge, in Dafny

This project models `MBSCipherBridge`, the Swift class behind MbSecureCrypto's
string and data encryption. Its four static entry points, `encryptString`,
`decryptString`, `encryptData` and `decryptData`, use AES-256-GCM in the V0
secure-block format: `nonce(12) ++ ciphertext ++ tag(16)`, with no length
fields. The string variants carry the block as Base64. The model covers:

- the framing on the encrypt side and the split on the decrypt side;
- the key-length guard (32 bytes) and the block-length guard (28 bytes);
- the UTF-8 and Base64 guards of the string variants;
- the order in which each entry point runs these guards;
- the mapping of every failure to a code of `MBSCipherError`.

Modules:

- `Results`: `Option` and `Result`. A nil return plus an `NSError` becomes
  `Failure(error)`.
- `CipherErrors`: the `MBSCipherError` enumeration and its numeric codes.
- `SwiftData`: `Data` as a sequence of bytes. It gives Swift's total
  `prefix`, `suffix`, `dropFirst` and `dropLast`.
- `V0Format`: the block widths, `Frame` (nonce, then ciphertext, then tag)
  and `Split`, the decrypt paths' slicing. It proves that the two are inverse.
- `AesGcm`: the CryptoKit calls as an `Engine`, a pair of functions passed in
  by the caller. `IsAuthenticatedCipher` states what AES-GCM guarantees:
  a 16-byte tag, a ciphertext as long as the plaintext, and open undoing seal.
- `Foundation`: UTF-8 and Base64 conversion as functions passed in by the
  caller, with the round-trip laws the string round trip needs.
- `CipherBridge`: the entry points. `encryptString` and `encryptData` are
  methods. Like the source, they build the block by three appends on a local
  buffer. Each is proved equal to a specification function (`SealString`,
  `SealData`). `decryptString` and `decryptData` are functions.
- `BridgeProperties`: lemmas covering the round trips, the guards and their
  order, error classification, the UTF-8 fallback and the unused algorithm
  argument.

Randomness is an input. The nonce that `AES.GCM.Nonce()` would draw is a
parameter of the encrypt entry points, so encryption is a deterministic
function of key, nonce and plaintext. That no cipher call is made is stated
as: the result is the same for every engine.

The repository's headers and the bridge disagree on one error code. The
decrypt documentation in `MbSecureCrypto/Cipher/MBSCipher.h` (lines 166, 192,
273 and 298) lists `MBSCipherErrorAuthenticationFailed (212): Tag verification
failed`, and `MbSecureCrypto/MBSError.h` declares it at line 38. But the catch
blocks of `MBSCipherBridge.swift` (lines 103-110 and 188-195) report
`DecryptionFailed` (211) for every error thrown on the decrypt path, a tag
mismatch included. The model follows the bridge
(`OpenFailuresAreDecryptionFailed`, `ReportedCodes`).

Tag verification is stated on the engine in two parts. `IsAuthenticatedCipher`
says that what seal produces opens back to the plaintext. `RejectsForgeries`
says that open accepts only what seal would have produced. `ToyEngine` (an
identity cipher with an all-zero tag) shows that the two can hold together.

## Model

| member | source | states |
|---|---|---|
| `CipherErrors.Code` | MbSecureCrypto/MBSError.h:28-44 | each cipher error's code lies in 200..222; codes below 210 are exactly the input-validation errors and codes from 220 up exactly the file errors |
| `CipherErrors.CodeInjective` | MbSecureCrypto/MBSError.h:28-44 | no two cipher errors share a code |
| `SwiftData.Prefix` | MbSecureCrypto/Cipher/Internal/MBSCipherBridge.swift:85 | `prefix(k)` has min(k, count) elements and is a prefix of the data |
| `SwiftData.Suffix` | MbSecureCrypto/Cipher/Internal/MBSCipherBridge.swift:86 | `suffix(k)` has min(k, count) elements and they are the data's last ones |
| `SwiftData.DropFirst` | MbSecureCrypto/Cipher/Internal/MBSCipherBridge.swift:87 | `prefix(k)` followed by `dropFirst(k)` is the whole data |
| `SwiftData.DropLast` | MbSecureCrypto/Cipher/Internal/MBSCipherBridge.swift:87 | `dropLast(k)` followed by `suffix(k)` is the whole data |
| `V0Format.Split` | MbSecureCrypto/Cipher/Internal/MBSCipherBridge.swift:173-175 | on a block of at least 28 bytes the split gives a 12-byte nonce, a 16-byte tag and a ciphertext of length count - 28 |
| `V0Format.SplitThenFrame` | MbSecureCrypto/Cipher/Internal/MBSCipherBridge.swift:173-175 | for a block of at least 28 bytes, nonce ++ ciphertext ++ tag from the split is the original block |
| `V0Format.FrameThenSplit` | MbSecureCrypto/Cipher/Internal/MBSCipherBridge.swift:131-134 | splitting nonce ++ ciphertext ++ tag (12- and 16-byte ends) returns exactly that nonce, ciphertext and tag |
| `V0Format.FrameInjective` | MbSecureCrypto/Cipher/Internal/MBSCipherBridge.swift:131-134 | two V0 blocks are equal only if their nonces, ciphertexts and tags are |
| `V0Format.MinimalBlob` | MbSecureCrypto/Cipher/Internal/MBSCipherBridge.swift:162-175 | a 28-byte block splits into its first 12 bytes, an empty ciphertext and its last 16 bytes |
| `CipherBridge.SealData` | MbSecureCrypto/Cipher/Internal/MBSCipherBridge.swift:119-136 | encryption succeeds exactly when the key is 32 bytes and seal does not throw; it fails only with InvalidKey or EncryptionFailed |
| `CipherBridge.SealString` | MbSecureCrypto/Cipher/Internal/MBSCipherBridge.swift:19-43 | text that cannot be UTF-8 encoded fails with InvalidInput; the only failures are InvalidInput, InvalidKey and EncryptionFailed |
| `CipherBridge.EncryptData` | MbSecureCrypto/Cipher/Internal/MBSCipherBridge.swift:114-145 | the guard, seal and three appends produce `SealData`: InvalidKey, EncryptionFailed, or nonce ++ ciphertext ++ tag; the algorithm argument does not occur in the result |
| `CipherBridge.EncryptString` | MbSecureCrypto/Cipher/Internal/MBSCipherBridge.swift:14-53 | the UTF-8 guard, key guard, seal, appends and Base64 produce `SealString`: the Base64 of the very bytes `encryptData` would return for the UTF-8 bytes |
| `CipherBridge.OpenV0` | MbSecureCrypto/Cipher/Internal/MBSCipherBridge.swift:172-186 | the split parts are well sized and frame back to the block; success iff open succeeds on them, with open's plaintext; every failure is DecryptionFailed |
| `CipherBridge.DecryptData` | MbSecureCrypto/Cipher/Internal/MBSCipherBridge.swift:149-196 | wrong key length gives InvalidKey whatever the block; otherwise a block under 28 bytes gives InvalidInput; otherwise the result is exactly what opening the 12/middle/16 split gives: its plaintext, or DecryptionFailed on any throw; success means the block is the frame of parts that open to the result |
| `CipherBridge.DecryptString` | MbSecureCrypto/Cipher/Internal/MBSCipherBridge.swift:56-111 | invalid Base64 gives InvalidInput; a decoded block under 28 bytes gives InvalidInput whatever the key; with a good key and a long enough block the result is the UTF-8 reading of the opened plaintext (the empty string if it is not UTF-8), or DecryptionFailed on any throw |
| `BridgeProperties.EncryptedBlockLayout` | MbSecureCrypto/Cipher/Internal/MBSCipherBridge.swift:131-136 | an encrypted block starts with the nonce, continues with ciphertext ++ tag, and with a 16-byte tag the decrypt split recovers all three |
| `BridgeProperties.EncryptedBlockLength` | MbSecureCrypto/Cipher/Internal/MBSCipherBridge.swift:131-136 | with AES-GCM an encrypted block is exactly 28 bytes longer than the plaintext |
| `BridgeProperties.DistinctNoncesGiveDistinctBlocks` | MbSecureCrypto/Cipher/Internal/MBSCipherBridge.swift:127-134 | encrypting under two different nonces never yields the same block |
| `BridgeProperties.DecryptDataInvertsEncryptData` | MbSecureCrypto/Cipher/Internal/MBSCipherBridge.swift:173-186 | decryptData of a block from encryptData, under the same key, returns the original data |
| `BridgeProperties.DecryptStringInvertsEncryptString` | MbSecureCrypto/Cipher/Internal/MBSCipherBridge.swift:61-101 | decryptString of encryptString's output, under the same key, returns the original string |
| `BridgeProperties.DecryptDataAcceptsOnlyEncryptions` | MbSecureCrypto/Cipher/Internal/MBSCipherBridge.swift:173-186 | with an engine that rejects forgeries, a block decryptData accepts is exactly encryptData's output for the result under the same key and the block's own nonce, so a modified block is rejected |
| `BridgeProperties.ShortBlockRejected` | MbSecureCrypto/Cipher/Internal/MBSCipherBridge.swift:163-168 | a block under 28 bytes is rejected identically for every engine: InvalidInput (or InvalidKey first in decryptData), InvalidInput in decryptString |
| `BridgeProperties.MinimalBlockAccepted` | MbSecureCrypto/Cipher/Internal/MBSCipherBridge.swift:162-186 | a 28-byte block with a good key is opened with its first 12 bytes, an empty ciphertext and its last 16 bytes |
| `BridgeProperties.WrongKeyLengthRejected` | MbSecureCrypto/Cipher/Internal/MBSCipherBridge.swift:77-82 | in all four entry points a key that is not 32 bytes gives InvalidKey, identically for every engine, once the earlier guards pass |
| `BridgeProperties.EncryptStringChecksUtf8First` | MbSecureCrypto/Cipher/Internal/MBSCipherBridge.swift:19-24 | text that cannot be UTF-8 encoded reports 202 whatever the key |
| `BridgeProperties.DecryptPathsAgreeExceptGuardOrder` | MbSecureCrypto/Cipher/Internal/MBSCipherBridge.swift:61-82 | decryptString equals decryptData of the decoded block (read as UTF-8) except for a short block with a bad key, where decryptData reports 200 and decryptString 202 |
| `BridgeProperties.OpenFailuresAreDecryptionFailed` | MbSecureCrypto/Cipher/Internal/MBSCipherBridge.swift:188-195 | any throw from the open path, a tag mismatch included, is reported as 211 by both decrypt entry points |
| `BridgeProperties.SealFailureIsEncryptionFailed` | MbSecureCrypto/Cipher/Internal/MBSCipherBridge.swift:138-145 | a seal that throws after the key guard is reported as 210 by both encrypt entry points |
| `BridgeProperties.ReportedCodes` | MbSecureCrypto/Cipher/Internal/MBSCipherBridge.swift:45-51 | encryptData reports only 200/210, encryptString 200/202/210, both decrypts 200/202/211; 212 never occurs |
| `BridgeProperties.NonUtf8PlaintextReadsAsEmpty` | MbSecureCrypto/Cipher/Internal/MBSCipherBridge.swift:100-101 | an authenticated plaintext that is not UTF-8 makes decryptString succeed with the empty string |
| `BridgeProperties.AlgorithmIgnored` | MbSecureCrypto/Cipher/Internal/MBSCipherBridge.swift:149-152 | any two algorithm values give the same decrypt result |

## Left out

- AES-GCM itself is not modelled: seal and open are caller-supplied functions, and the AES-GCM guarantees the round trip needs are a stated predicate.
- `AES.GCM.Nonce()` randomness is an input parameter. Nonce freshness across calls is the generator's concern and is not modelled.
- `AES.GCM.Nonce(data:)`, `AES.GCM.SealedBox(nonce:ciphertext:tag:)` and `AES.GCM.open` are modelled as one engine call that may throw. All three throws reach the same catch and the same code 211.
- `SymmetricKey(data:)` is not modelled. It cannot fail, and the guard already ensures a 32-byte key.
- UTF-8 and Base64 conversion (Foundation) are caller-supplied partial functions. RFC 4648 is not re-implemented.
- The `NSError` payload is not modelled: only the code is kept. The userInfo message strings, the error domain and the handling of a nil error pointer are left out.
- Clearing key and plaintext memory is not modelled.
- The V1 format, format detection and format mismatch are left out. They are described only in comments of `MBSCipher.h`, and the bridge takes no format argument.
- File encryption and decryption are left out, including the 10 MB limit. They are file I/O whose bodies are not part of this model.
- HKDF key derivation (`MBSKeyDerivation.h`) and secure random generation (`MBSRandom.h`) are left out. Both are declarations only and wrap foreign libraries.
- The `MBSRandomError` codes (100-102) are left out. They belong to random generation, not to the cipher.
