/**
 * The default envelope-encryption handler: buffered encrypt/decrypt, streaming
 * encrypt/decrypt, header tag verification and the IV frame writer.
 *
 * Randomness is an input: `headerIv` and `iv` are the values the secure random
 * source would have drawn, each of the algorithm's IV length.
 */
module DefaultEncryptHandler {
  import opened Wrappers
  import opened Materials
  import opened Collaborators
  import opened Framing

  /** The tag the handler computes for a header: over its stored IV, its serialized fields and no payload. */
  function RecomputedTag(header: CipherHeader, handler: AlgorithmHandler, aead: Aead, codec: Codec): TagOutcome
  {
    handler.HeaderGcmEncrypt(aead, header.headerIv, codec.serializeAuthenticatedFields(header.fields))
  }

  /**
   * Header tag verification, failing closed: a recomputed tag that is `null` or whose
   * computation throws rejects the header, and so does a stored tag that is `null` or
   * differs from the recomputed one. The ensures only restates this decision as one
   * formula; what it guarantees is proved by `CalculatedHeaderVerifies` (a genuine
   * header is accepted) and `DistinguishedHeaderRejected` (tampering and wrong keys
   * are not).
   */
  function VerifyHeaderAuthTag(header: CipherHeader, handler: AlgorithmHandler, aead: Aead, codec: Codec): (ok: bool)
    ensures ok <==> RecomputedTag(header, handler, aead, codec).Tag?
                    && header.headerAuthTag == Some(RecomputedTag(header, handler, aead, codec).bytes)
  {
    match RecomputedTag(header, handler, aead, codec)
    case Thrown => false
    case NullTag => false
    case Tag(computed) => header.headerAuthTag.Some? && header.headerAuthTag.value == computed
  }

  /**
   * A header as computed on encryption verifies under every handler with the same
   * algorithm and key, whatever its direction, unless the primitive returned no tag.
   */
  lemma CalculatedHeaderVerifies(fields: AuthenticatedFields, sealer: AlgorithmHandler, opener: AlgorithmHandler,
                                 aead: Aead, codec: Codec, headerIv: seq<byte>)
    requires opener.algorithm == sealer.algorithm && opener.key == sealer.key
    requires CalculateHeaderAuthTag(fields, sealer, aead, codec, headerIv).Success?
    ensures var header := CalculateHeaderAuthTag(fields, sealer, aead, codec, headerIv).value;
            VerifyHeaderAuthTag(header, opener, aead, codec) <==> header.headerAuthTag.Some?
  {
  }

  /**
   * Tampering and wrong keys are detected: if a header verifies, then the same stored
   * IV and tag under other fields or another handler are rejected whenever the
   * primitive's tag over those tells them apart.
   */
  lemma DistinguishedHeaderRejected(header: CipherHeader, handler: AlgorithmHandler,
                                    other: CipherHeader, otherHandler: AlgorithmHandler, aead: Aead, codec: Codec)
    requires VerifyHeaderAuthTag(header, handler, aead, codec)
    requires other.headerIv == header.headerIv && other.headerAuthTag == header.headerAuthTag
    requires RecomputedTag(other, otherHandler, aead, codec) != RecomputedTag(header, handler, aead, codec)
    ensures !VerifyHeaderAuthTag(other, otherHandler, aead, codec)
  {
  }

  /** The header a new message gets: its fields from the material, its tag under the sealing handler. */
  function NewHeader(material: EncryptionMaterial, aead: Aead, codec: Codec, headerIv: seq<byte>): Result<CipherHeader, Error>
  {
    CalculateHeaderAuthTag(FieldsOf(material), SealingHandler(material), aead, codec, headerIv)
  }

  function SealingHandler(material: EncryptionMaterial): AlgorithmHandler
  {
    AlgorithmHandler(material.algorithm, material.plaintextDataKey, EncryptMode)
  }

  function OpeningHandler(material: DecryptionMaterial): AlgorithmHandler
  {
    AlgorithmHandler(material.algorithm, material.plaintextDataKey, DecryptMode)
  }

  /** `System.arraycopy` from an array whose contents are `src` into a distinct array `dest`. */
  method ArrayCopy(src: seq<byte>, srcPos: nat, dest: array<byte>, destPos: nat, length: nat)
    requires srcPos + length <= |src| && destPos + length <= dest.Length
    modifies dest
    ensures dest[..] == old(dest[..destPos]) + src[srcPos..srcPos + length] + old(dest[destPos + length..])
  {
    var i := 0;
    while i < length
      invariant 0 <= i <= length
      invariant dest[..destPos] == old(dest[..destPos])
      invariant dest[destPos..destPos + i] == src[srcPos..srcPos + i]
      invariant dest[destPos + length..] == old(dest[destPos + length..])
    {
      dest[destPos + i] := src[srcPos + i];
      i := i + 1;
      assert dest[destPos..destPos + i] == dest[destPos..destPos + i - 1] + [dest[destPos + i - 1]];
    }
    assert dest[..] == dest[..destPos] + dest[destPos..destPos + length] + dest[destPos + length..];
  }

  /**
   * Buffered encryption. The body is sealed under `iv` with the encryption context
   * bytes as AAD when the algorithm takes AAD and with none otherwise; the output is
   * split into a ciphertext and a tag of the algorithm's tag length. An output shorter
   * than the tag length makes the ciphertext array's size negative.
   */
  method Encrypt(plaintext: seq<byte>, material: EncryptionMaterial, aead: Aead, codec: Codec,
                 headerIv: seq<byte>, iv: seq<byte>) returns (r: Result<CipherMaterial, Error>)
    requires |headerIv| == material.algorithm.ivLen && |iv| == material.algorithm.ivLen
    ensures NewHeader(material, aead, codec, headerIv).Failure? ==> r == Failure(CryptoFault)
    ensures NewHeader(material, aead, codec, headerIv).Success? ==>
              var aad := if material.algorithm.withAad
                         then Some(codec.encryptionContextBytes(material.encryptionContext)) else None;
              var out := aead.cipherData(material.algorithm, material.plaintextDataKey, EncryptMode, iv, aad, plaintext);
              var tagLen := material.algorithm.tagLen;
              && (out.None? ==> r == Failure(CryptoFault))
              && (out.Some? && |out.value| < tagLen ==> r == Failure(NegativeArraySize))
              && (out.Some? && tagLen <= |out.value| ==>
                    && r.Success?
                    && r.value.header == NewHeader(material, aead, codec, headerIv).value
                    && r.value.body.iv == iv && |r.value.body.iv| == material.algorithm.ivLen
                    && r.value.body.payload.Inline?
                    && (r.value.body.payload.cipherText, r.value.body.payload.authTag) == SplitTag(out.value, tagLen))
    ensures r.Success? && material.algorithm.tagLen == 0 ==>
              r.value.body.payload.Inline? && r.value.body.payload.authTag == []
              && Some(r.value.body.payload.cipherText)
                 == aead.cipherData(material.algorithm, material.plaintextDataKey, EncryptMode, iv,
                                    if material.algorithm.withAad
                                    then Some(codec.encryptionContextBytes(material.encryptionContext)) else None,
                                    plaintext)
  {
    var handler := SealingHandler(material);
    var calculated := CalculateHeaderAuthTag(FieldsOf(material), handler, aead, codec, headerIv);
    if calculated.Failure? {
      return Failure(calculated.error);
    }
    var cipherHeader := calculated.value;

    var context: Option<seq<byte>> := None;
    if cipherHeader.fields.algorithm.withAad {
      context := Some(codec.encryptionContextBytes(cipherHeader.fields.encryptionContext));
    }
    var sealed := handler.CipherData(aead, iv, context, plaintext);
    if sealed.None? {
      return Failure(CryptoFault);
    }
    var cipherResult := sealed.value;

    var tagLen := cipherHeader.fields.algorithm.tagLen;
    if |cipherResult| < tagLen {
      return Failure(NegativeArraySize);
    }
    var cipherText := new byte[|cipherResult| - tagLen];
    var authTag := new byte[tagLen];
    var cipherTextBytes: seq<byte>;
    if tagLen != 0 {
      ArrayCopy(cipherResult, 0, cipherText, 0, |cipherResult| - tagLen);
      ArrayCopy(cipherResult, cipherText.Length, authTag, 0, tagLen);
      cipherTextBytes := cipherText[..];
      assert cipherTextBytes == cipherResult[..|cipherResult| - tagLen];
      assert authTag[..] == cipherResult[|cipherResult| - tagLen..];
    } else {
      cipherTextBytes := cipherResult;
      SplitTagZero(cipherResult);
    }
    r := Success(CipherMaterial(cipherHeader, CipherBody(iv, Inline(cipherTextBytes, authTag[..]))));
  }

  /** The plaintext the primitive released, or the exception it threw. */
  function Opened(output: Option<seq<byte>>): Result<seq<byte>, Error>
  {
    if output.Some? then Success(output.value) else Failure(CryptoFault)
  }

  /**
   * Buffered decryption. The header is verified first, then the tag length is checked
   * against the header's algorithm, and only then is the reassembled `ciphertext ‖ tag`
   * handed to the primitive, always with the encryption context bytes as AAD.
   */
  method Decrypt(cipherMaterial: CipherMaterial, material: DecryptionMaterial, aead: Aead, codec: Codec)
    returns (r: Result<seq<byte>, Error>)
    ensures !VerifyHeaderAuthTag(cipherMaterial.header, OpeningHandler(material), aead, codec) ==>
              r == Failure(HeaderAuthTagVerifyFailed)
    ensures VerifyHeaderAuthTag(cipherMaterial.header, OpeningHandler(material), aead, codec) ==>
              match cipherMaterial.body.payload
              case Streamed => r == Failure(MissingBody)
              case Inline(cipherText, authTag) =>
                if |authTag| != cipherMaterial.header.fields.algorithm.tagLen
                then r == Failure(InvalidTagLength(|authTag|))
                else r == Opened(aead.cipherData(material.algorithm, material.plaintextDataKey, DecryptMode,
                                                 cipherMaterial.body.iv,
                                                 Some(codec.encryptionContextBytes(cipherMaterial.header.fields.encryptionContext)),
                                                 cipherText + authTag))
  {
    var handler := OpeningHandler(material);
    if !VerifyHeaderAuthTag(cipherMaterial.header, handler, aead, codec) {
      return Failure(HeaderAuthTagVerifyFailed);
    }

    var cipherBody := cipherMaterial.body;
    if cipherBody.payload.Streamed? {
      return Failure(MissingBody);
    }
    var cipherText := cipherBody.payload.cipherText;
    var authTag := cipherBody.payload.authTag;
    if |authTag| != cipherMaterial.header.fields.algorithm.tagLen {
      return Failure(InvalidTagLength(|authTag|));
    }
    var result := new byte[|cipherText| + |authTag|];
    ArrayCopy(cipherText, 0, result, 0, |cipherText|);
    ArrayCopy(authTag, 0, result, |cipherText|, |authTag|);
    assert result[..] == cipherText + authTag;

    var plaintext := handler.CipherData(aead, cipherBody.iv,
                                     Some(codec.encryptionContextBytes(cipherMaterial.header.fields.encryptionContext)),
                                     result[..]);
    r := Opened(plaintext);
  }

  /**
   * A buffered envelope opens to the plaintext it was sealed from, with the same
   * algorithm and key, provided the header tag was computed, the primitive's output
   * is at least a tag long, and the primitive opens what it sealed. Because decryption
   * always passes the context bytes as AAD, for an algorithm without AAD the last
   * condition asks the primitive to open a buffer sealed without AAD given AAD.
   */
  method RoundTrip(plaintext: seq<byte>, material: EncryptionMaterial, aead: Aead, codec: Codec,
                   headerIv: seq<byte>, iv: seq<byte>) returns (r: Result<seq<byte>, Error>)
    requires |headerIv| == material.algorithm.ivLen && |iv| == material.algorithm.ivLen
    requires aead.headerGcmEncrypt(material.algorithm, material.plaintextDataKey, headerIv,
                                   codec.serializeAuthenticatedFields(FieldsOf(material))).Tag?
    requires var out := aead.cipherData(material.algorithm, material.plaintextDataKey, EncryptMode, iv,
                                        if material.algorithm.withAad
                                        then Some(codec.encryptionContextBytes(material.encryptionContext)) else None,
                                        plaintext);
             && out.Some? && material.algorithm.tagLen <= |out.value|
             && aead.cipherData(material.algorithm, material.plaintextDataKey, DecryptMode, iv,
                                Some(codec.encryptionContextBytes(material.encryptionContext)), out.value)
                == Some(plaintext)
    ensures r == Success(plaintext)
  {
    var sealed := Encrypt(plaintext, material, aead, codec, headerIv, iv);
    CalculatedHeaderVerifies(FieldsOf(material), SealingHandler(material),
                             OpeningHandler(DecryptionMaterial(material.algorithm, material.plaintextDataKey)),
                             aead, codec, headerIv);
    r := Decrypt(sealed.value, DecryptionMaterial(material.algorithm, material.plaintextDataKey), aead, codec);
  }

  /** Writes the IV frame, the encoded IV length followed by the IV, and flushes. */
  method WriteIv(output: OutputSink, iv: seq<byte>, codec: Codec)
    modifies output
    ensures output.written == old(output.written) + IvFrame(codec, iv)
    ensures |output.written| == |old(output.written)| + 4 + |iv|
    ensures output.flushes == old(output.flushes) + 1
  {
    output.Write(codec.intToBytes(|iv|));
    output.Write(iv);
    output.Flush();
  }

  /**
   * Streaming encryption. The serialized header is written first, then the IV frame,
   * then the body the stream cipher produces from the whole input; the stream cipher
   * is given the context bytes as AAD exactly when the algorithm takes AAD. The
   * returned body keeps only the IV. When initialising the stream cipher or feeding
   * it AAD throws, the header and the IV frame have already been written and the
   * input is untouched.
   */
  method EncryptStream(input: InputSource, output: OutputSink, material: EncryptionMaterial, aead: Aead,
                       codec: Codec, headerIv: seq<byte>, iv: seq<byte>) returns (r: Result<CipherMaterial, Error>)
    requires |headerIv| == material.algorithm.ivLen && |iv| == material.algorithm.ivLen
    modifies input, output
    ensures NewHeader(material, aead, codec, headerIv).Failure? ==>
              r == Failure(CryptoFault) && unchanged(input) && unchanged(output)
    ensures NewHeader(material, aead, codec, headerIv).Success? ==>
              var header := NewHeader(material, aead, codec, headerIv).value;
              var alg, key := material.algorithm, material.plaintextDataKey;
              var context := codec.encryptionContextBytes(material.encryptionContext);
              var ready := aead.cipherInit(alg, key, EncryptMode, iv)
                           && (alg.withAad ==> aead.updateAad(alg, key, EncryptMode, iv, context));
              var aad := if alg.withAad then [context] else [];
              && (!ready ==>
                    && r == Failure(CryptoFault) && unchanged(input)
                    && output.written == old(output.written) + codec.cipherHeaderBytes(header) + IvFrame(codec, iv)
                    && output.flushes == old(output.flushes) + 1)
              && (ready ==>
                    && r == Success(CipherMaterial(header, CipherBody(iv, Streamed)))
                    && input.remaining == []
                    && output.written == old(output.written)
                                         + StreamLayout(codec, codec.cipherHeaderBytes(header), iv,
                                                        aead.cryptoStream(alg, key, EncryptMode, iv, aad, old(input.remaining)))
                    && output.flushes == old(output.flushes) + 1)
  {
    var handler := new StreamCipher(SealingHandler(material));
    var calculated := CalculateHeaderAuthTag(FieldsOf(material), handler.handler, aead, codec, headerIv);
    if calculated.Failure? {
      return Failure(calculated.error);
    }
    var cipherHeader := calculated.value;
    output.Write(codec.cipherHeaderBytes(cipherHeader));

    WriteIv(output, iv, codec);
    var ok := handler.CipherInit(aead, iv);
    if !ok {
      return Failure(CryptoFault);
    }
    if cipherHeader.fields.algorithm.withAad {
      ok := handler.UpdateAad(aead, codec.encryptionContextBytes(cipherHeader.fields.encryptionContext));
      if !ok {
        return Failure(CryptoFault);
      }
    }
    assert handler.aad == (if material.algorithm.withAad
                           then [codec.encryptionContextBytes(material.encryptionContext)] else []);
    handler.Pump(aead, input, output);

    r := Success(CipherMaterial(cipherHeader, CipherBody(iv, Streamed)));
  }

  /**
   * Streaming decryption. The header is verified before anything else: on failure
   * neither stream is touched. Otherwise the stream cipher is initialised with the
   * body IV, given the context bytes as AAD exactly when the decryption algorithm
   * takes AAD, and the whole input is pumped through it to the output. The body IV
   * is not covered by the header tag; when the cipher rejects it, or the AAD, neither
   * stream is touched either.
   */
  method DecryptStream(input: InputSource, output: OutputSink, cipherMaterial: CipherMaterial,
                       material: DecryptionMaterial, aead: Aead, codec: Codec) returns (r: Result<(), Error>)
    modifies input, output
    ensures !VerifyHeaderAuthTag(cipherMaterial.header, OpeningHandler(material), aead, codec) ==>
              r == Failure(HeaderAuthTagVerifyFailed) && unchanged(input) && unchanged(output)
    ensures VerifyHeaderAuthTag(cipherMaterial.header, OpeningHandler(material), aead, codec) ==>
              var alg, key, iv := material.algorithm, material.plaintextDataKey, cipherMaterial.body.iv;
              var context := codec.encryptionContextBytes(cipherMaterial.header.fields.encryptionContext);
              var ready := aead.cipherInit(alg, key, DecryptMode, iv)
                           && (alg.withAad ==> aead.updateAad(alg, key, DecryptMode, iv, context));
              var aad := if alg.withAad then [context] else [];
              && (!ready ==> r == Failure(CryptoFault) && unchanged(input) && unchanged(output))
              && (ready ==>
                    && r == Success(())
                    && input.remaining == []
                    && output.written == old(output.written)
                                         + aead.cryptoStream(alg, key, DecryptMode, iv, aad, old(input.remaining))
                    && output.flushes == old(output.flushes))
  {
    var handler := new StreamCipher(OpeningHandler(material));
    if !VerifyHeaderAuthTag(cipherMaterial.header, handler.handler, aead, codec) {
      return Failure(HeaderAuthTagVerifyFailed);
    }

    var iv := cipherMaterial.body.iv;
    var ok := handler.CipherInit(aead, iv);
    if !ok {
      return Failure(CryptoFault);
    }
    if material.algorithm.withAad {
      ok := handler.UpdateAad(aead, codec.encryptionContextBytes(cipherMaterial.header.fields.encryptionContext));
      if !ok {
        return Failure(CryptoFault);
      }
    }
    assert handler.aad == (if material.algorithm.withAad
                           then [codec.encryptionContextBytes(cipherMaterial.header.fields.encryptionContext)] else []);
    handler.Pump(aead, input, output);
    r := Success(());
  }
}
