# Envelope-encryption handler, modelled in Dafny

This project models `DefaultEncryptHandler`, the engine of the Alibaba Cloud
encryption SDK that turns a plaintext data key and a payload into a cipher material
(an authenticated header plus an encrypted body) and back. The model keeps the
handler's own logic: the order of its steps, its error exits, the AAD policy, the
split of the primitive's `ciphertext ‖ tag` output, the reassembly on decryption,
header-tag verification, and the length-prefixed IV frame of the streaming mode.
The cipher itself is left abstract.

Files:

- `wrappers.dfy`: `Option` (Java `null`) and `Result` (thrown exceptions).
- `materials.dfy`: algorithm descriptor, encryption/decryption materials, cipher
  header, body and material, and the error taxonomy. A body's payload is either
  `Inline(cipherText, authTag)` or `Streamed`.
- `collaborators.dfy`: what the handler calls but this model does not contain. The
  cipher primitive (`Aead`: one-shot `cipherData`, `headerGcmEncrypt`, the streaming
  `cipherInit` and `updateAad`, and the bytes a `CryptoInputStream` produces) and the serializers (`Codec`) are records of
  uninterpreted functions passed in as parameters. `AlgorithmHandler` is a value
  (algorithm, key, mode); its streaming state after `cipherInit`/`updateAAD` is the
  class `StreamCipher`. `InputSource` and `OutputSink` are the streams, and the sink
  only grows. `CalculateHeaderAuthTag` is the header's own tag computation at
  creation time.
- `framing.dfy`: the tag split and join, and the IV frame with a reader for it.
- `handler.dfy`: `Encrypt`, `Decrypt`, `VerifyHeaderAuthTag`, `WriteIv`,
  `EncryptStream`, `DecryptStream`, `System.arraycopy` over arrays, and the lemmas.

Modelling decisions:

- Randomness is an input. `headerIv` and `iv` are the values the secure random
  source would draw, each `algorithm.ivLen` bytes long.
- The streaming cipher's `cipherInit` and `updateAAD` can throw (for instance on a
  body IV the cipher rejects); `Aead.cipherInit` and `Aead.updateAad` say when.
  `EncryptStream` then fails after the header and the IV frame were written, and
  `DecryptStream` fails with both streams untouched.
- `Encrypt` and `Decrypt` allocate `array<byte>` buffers and fill them the way
  `System.arraycopy` does. When the tag length is 0, `Encrypt` takes the primitive's
  output itself as the ciphertext, as the source does.
- An output shorter than the tag length would make `new byte[cipherResult.length - tagLen]`
  throw. `Encrypt` returns `Failure(NegativeArraySize)` for it. `RoundTrip` requires
  the output to be at least one tag long.
- `decrypt` passes the encryption-context bytes as AAD unconditionally, while
  `encrypt` passes them only when the algorithm takes AAD. The model keeps this as
  written. So for an algorithm without AAD, `RoundTrip` needs the primitive to open
  a buffer sealed without AAD when it is given AAD.
- `decrypt` checks the tag length against the header's algorithm but opens with the
  decryption material's algorithm. `decryptStream` decides the AAD by the
  decryption material's algorithm. The model keeps both.
- The code of `CipherHeader.calculateHeaderAuthTag` is not part of this model.
  `CalculateHeaderAuthTag` states what the handler relies on: the tag is
  `headerGcmEncrypt` over the header IV and the serialized authenticated fields, an
  exception from it propagates, and a `null` tag is stored as it is.
- A body read from a streamed cipher material has no ciphertext or tag, so `decrypt`
  on it fails with a null dereference (`MissingBody`).

## Model

| member | source | states |
|---|---|---|
| `Framing.SplitTag` | src/main/java/com/aliyun/encryptionsdk/handler/DefaultEncryptHandler.java:52-60 | given an output at least one tag long, the ciphertext part has `len - tagLen` bytes, the tag part has `tagLen` bytes, and the two concatenated are the output |
| `Framing.SplitTagZero` | src/main/java/com/aliyun/encryptionsdk/handler/DefaultEncryptHandler.java:55-59 | with tag length 0 the ciphertext is the whole output and the tag is empty |
| `Framing.SplitTagOfJoin` | src/main/java/com/aliyun/encryptionsdk/handler/DefaultEncryptHandler.java:86-88 | splitting the reassembled `cipherText ‖ authTag` at the tag's length gives back exactly that ciphertext and tag |
| `Framing.JoinInjective` | src/main/java/com/aliyun/encryptionsdk/handler/DefaultEncryptHandler.java:86-88 | two bodies with equal tag lengths reassemble to the same buffer only if their ciphertexts and tags are equal, so changing either changes what is opened |
| `Framing.ReadIvFrame` | src/main/java/com/aliyun/encryptionsdk/handler/DefaultEncryptHandler.java:149-150 | a reference reader for the frame these lines write (the handler itself has no reader; `decryptStream` takes the IV from the cipher material): when it succeeds, the stream is the 4-byte prefix, then the IV, then the rest |
| `Framing.IvFrameRoundTrip` | src/main/java/com/aliyun/encryptionsdk/handler/DefaultEncryptHandler.java:147-151 | the frame is `4 + len(iv)` bytes, and reading it back from any stream that starts with it yields the IV and the bytes after it, given a length decoding that inverts the encoding |
| `Framing.StreamIvRecoverable` | src/main/java/com/aliyun/encryptionsdk/handler/DefaultEncryptHandler.java:100-109 | in the output `EncryptStream` writes, whatever preceded it, the reference reader applied after the serialized header yields exactly the IV and the body |
| `Collaborators.CalculateHeaderAuthTag` | src/main/java/com/aliyun/encryptionsdk/handler/DefaultEncryptHandler.java:40-43 | the new header keeps the given fields and header IV, and creation fails exactly when the tag computation throws |
| `DefaultEncryptHandler.VerifyHeaderAuthTag` | src/main/java/com/aliyun/encryptionsdk/handler/DefaultEncryptHandler.java:131-145 | true exactly when the recomputed tag over the stored IV and the serialized fields is a real tag and the stored tag is non-null and equal to it; a null result or an exception gives false |
| `DefaultEncryptHandler.CalculatedHeaderVerifies` | src/main/java/com/aliyun/encryptionsdk/handler/DefaultEncryptHandler.java:131-145 | a header tagged on encryption verifies under any handler with the same algorithm and key, in either direction, exactly when its tag is not null |
| `DefaultEncryptHandler.DistinguishedHeaderRejected` | src/main/java/com/aliyun/encryptionsdk/handler/DefaultEncryptHandler.java:131-145 | when a header verifies, its stored IV and tag are rejected with other fields or another key whenever the primitive's tag tells them apart (tampering, wrong key) |
| `DefaultEncryptHandler.ArrayCopy` | src/main/java/com/aliyun/encryptionsdk/handler/DefaultEncryptHandler.java:86-88 | `System.arraycopy`: the destination's copied range holds the source range and the rest of the destination is unchanged |
| `DefaultEncryptHandler.Encrypt` | src/main/java/com/aliyun/encryptionsdk/handler/DefaultEncryptHandler.java:37-63 | the body is sealed with the context bytes as AAD if and only if the algorithm takes AAD; on success the header is the newly tagged one, the body IV is the `ivLen`-byte IV, and the ciphertext and tag are `SplitTag` of the primitive's output (`len - tagLen` and `tagLen` bytes, concatenating to the output); with tag length 0 the tag is empty and the ciphertext is the whole output; a header fault or cipher fault is an error, and an output shorter than a tag is the negative-array-size error |
| `DefaultEncryptHandler.Decrypt` | src/main/java/com/aliyun/encryptionsdk/handler/DefaultEncryptHandler.java:73-92 | a header that fails verification gives the header error whatever the body; then a streamed body gives the null error, a tag whose length differs from the header algorithm's tag length gives the invalid-tag-length error, and otherwise the result is what the primitive opens from `cipherText ‖ authTag` under the body IV with the context bytes as AAD |
| `DefaultEncryptHandler.RoundTrip` | src/main/java/com/aliyun/encryptionsdk/handler/DefaultEncryptHandler.java:37-92 | decrypting what `Encrypt` produced, with the same algorithm and key, gives back the plaintext, provided the header tag was computed, the sealed output is at least a tag long and the primitive opens what it sealed |
| `Collaborators.OutputSink.Write` | src/main/java/com/aliyun/encryptionsdk/handler/DefaultEncryptHandler.java:149-150 | a write appends the bytes to what the stream holds |
| `Collaborators.OutputSink.Flush` | src/main/java/com/aliyun/encryptionsdk/handler/DefaultEncryptHandler.java:151 | a flush leaves the written bytes as they are and counts one flush |
| `DefaultEncryptHandler.WriteIv` | src/main/java/com/aliyun/encryptionsdk/handler/DefaultEncryptHandler.java:147-155 | the sink grows by exactly the 4-byte encoded IV length followed by the IV, `4 + len(iv)` bytes, and is flushed once |
| `Collaborators.StreamCipher.CipherInit` | src/main/java/com/aliyun/encryptionsdk/handler/DefaultEncryptHandler.java:104 | when the primitive accepts the IV, the stream cipher is initialised with it and no AAD yet; when it throws, the state is unchanged |
| `Collaborators.StreamCipher.UpdateAad` | src/main/java/com/aliyun/encryptionsdk/handler/DefaultEncryptHandler.java:105-107 | on an initialised cipher, the AAD is appended when the primitive accepts it and nothing is fed when it throws; the IV is unchanged |
| `Collaborators.StreamCipher.Pump` | src/main/java/com/aliyun/encryptionsdk/handler/DefaultEncryptHandler.java:108-109 | only an initialised cipher is pumped; the whole input is consumed and what the cipher produces from it, under its IV and AAD, is appended to the output |
| `DefaultEncryptHandler.EncryptStream` | src/main/java/com/aliyun/encryptionsdk/handler/DefaultEncryptHandler.java:95-113 | on success the output grows by `StreamLayout`: the serialized header, then the IV frame, then the body, in that order; the body cipher gets the context bytes as AAD if and only if the algorithm takes AAD; the returned body holds only the IV; the output is flushed once, by the IV frame; a header fault touches neither stream; a throwing `cipherInit` or `updateAAD` fails with the header and IV frame already written and flushed and the input untouched |
| `DefaultEncryptHandler.DecryptStream` | src/main/java/com/aliyun/encryptionsdk/handler/DefaultEncryptHandler.java:116-129 | a header that fails verification gives the header error with both streams untouched; a body IV or AAD the cipher rejects gives a cipher error, again with both streams untouched; otherwise the whole input is pumped through the cipher initialised with the body IV, with the context bytes as AAD if and only if the decryption algorithm takes AAD, and the output is not flushed |

## Left out

- The cipher primitive, the JCE `Cipher` and `AlgorithmHandler`'s code (`cipherData`, `headerGcmEncrypt`, `cipherInit`, `updateAAD`): uninterpreted functions in `Aead`; nothing is assumed about them except `RoundTrip`'s requires: the header tag is computed, sealing does not fail and its output is at least a tag long, and the primitive opens, under the context bytes as AAD, what it sealed.
- CalculatedHeaderVerifies, RoundTrip: rest on the assumption that `headerGcmEncrypt` always encrypts, so that its tag does not depend on the handler's mode (`Aead.headerGcmEncrypt` takes no mode); `AlgorithmHandler`'s code, which would settle it, is not part of this model.
- DecryptStream: assumes that `CipherHeader.verifyHeaderAuthTag`, which it calls and whose code is not part of this model, decides as the handler's private `verifyHeaderAuthTag` does.
- `randomIv` and the secure random source: the IVs are inputs of length `ivLen`, so nothing is said about IV uniqueness.
- `CryptoInputStream`, `CopyStreamUtil.copyIsToOs` and the 4096-byte chunk loop: the streamed body is one opaque block appended to the output, the copy is assumed not to flush, and a tag failure at end of stream is not modelled.
- `provider.writeCipherHeader`, `CipherHeader.serializeAuthenticatedFields` and `getEncryptionContextBytes`: opaque deterministic serializations in `Codec`.
- The byte order of `CopyStreamUtil.intToBytes`: only its length of 4 bytes is assumed.
- Timing of the tag comparison: `Arrays.equals` returns as soon as the lengths differ or a byte differs, so the comparison is not constant-time; the model compares tags as plain sequence equality and says nothing about timing.
- `IOException` from the output stream in `writeIv`, and from the streams in general: writes always succeed.
- Java's signed `byte` and 32-bit `int`: bytes are the values 0 to 255, lengths are unbounded naturals.
