/**
 * The collaborators of the engine whose code is not part of this model, reduced to
 * what the engine relies on.
 *
 * The JCE-backed `AlgorithmHandler` is split in two: its one-shot operations are pure
 * functions of the algorithm, key and mode it was built with (the `Aead` functions,
 * applied through the `AlgorithmHandler` value), while its streaming state, set by
 * `cipherInit` and `updateAAD`, lives in the class `StreamCipher`. Byte serializers
 * (header fields, encryption context, the written header, the IV length prefix) are
 * the deterministic functions of `Codec`. Input and output streams are the classes
 * `InputSource` and `OutputSink`.
 */
module Collaborators {
  import opened Wrappers
  import opened Materials

  datatype Mode = EncryptMode | DecryptMode

  /** The four bytes of an encoded `int`; the byte order is not part of this model. */
  type Word = s: seq<byte> | |s| == 4 witness [0, 0, 0, 0]

  /** What the header-tag computation yields: a tag, a Java `null`, or an exception. */
  datatype TagOutcome = Tag(bytes: seq<byte>) | NullTag | Thrown

  /**
   * The cipher primitive, uninterpreted. `cipherData` is a one-shot seal (mode Encrypt:
   * output is ciphertext followed by the tag) or open; `None` is a thrown exception,
   * including a failed tag check. `headerGcmEncrypt` seals an empty payload under the
   * given IV and AAD and returns the tag; it always encrypts, whatever the mode.
   * `cipherInit` and `updateAad` say whether initialising the streaming cipher with an
   * IV, and feeding it AAD, succeed (`false`: the call throws, for instance on an IV
   * the cipher rejects). `cryptoStream` is everything a `CryptoInputStream` over the
   * initialised cipher writes to the output stream for the given input.
   */
  datatype Aead = Aead(
    cipherData: (Algorithm, seq<byte>, Mode, seq<byte>, Option<seq<byte>>, seq<byte>) -> Option<seq<byte>>,
    headerGcmEncrypt: (Algorithm, seq<byte>, seq<byte>, seq<byte>) -> TagOutcome,
    cipherInit: (Algorithm, seq<byte>, Mode, seq<byte>) -> bool,
    updateAad: (Algorithm, seq<byte>, Mode, seq<byte>, seq<byte>) -> bool,
    cryptoStream: (Algorithm, seq<byte>, Mode, seq<byte>, seq<seq<byte>>, seq<byte>) -> seq<byte>)

  /** Deterministic serializations provided by the header, the provider and the stream utilities. */
  datatype Codec = Codec(
    serializeAuthenticatedFields: AuthenticatedFields -> seq<byte>,
    encryptionContextBytes: EncryptionContext -> seq<byte>,
    cipherHeaderBytes: CipherHeader -> seq<byte>,
    intToBytes: int -> Word)

  /** An algorithm handler: a cipher bound to one algorithm, one data key and one direction. */
  datatype AlgorithmHandler = AlgorithmHandler(algorithm: Algorithm, key: seq<byte>, mode: Mode)
  {
    function CipherData(aead: Aead, iv: seq<byte>, aad: Option<seq<byte>>, input: seq<byte>): Option<seq<byte>>
    {
      aead.cipherData(algorithm, key, mode, iv, aad, input)
    }

    function HeaderGcmEncrypt(aead: Aead, iv: seq<byte>, aad: seq<byte>): TagOutcome
    {
      aead.headerGcmEncrypt(algorithm, key, iv, aad)
    }
  }

  /**
   * The header tag as the header computes it on creation: the header IV is a fresh
   * random value of the algorithm's IV length (here an input), the tag is the
   * primitive's tag over that IV and the serialized authenticated fields. An
   * exception from the primitive propagates; a `null` tag is stored as it is.
   */
  function CalculateHeaderAuthTag(fields: AuthenticatedFields, handler: AlgorithmHandler, aead: Aead,
                                  codec: Codec, headerIv: seq<byte>): (r: Result<CipherHeader, Error>)
    ensures r.Success? ==> r.value.fields == fields && r.value.headerIv == headerIv
    ensures r.Failure? <==> handler.HeaderGcmEncrypt(aead, headerIv, codec.serializeAuthenticatedFields(fields)).Thrown?
  {
    match handler.HeaderGcmEncrypt(aead, headerIv, codec.serializeAuthenticatedFields(fields))
    case Tag(t) => Success(CipherHeader(fields, headerIv, Some(t)))
    case NullTag => Success(CipherHeader(fields, headerIv, None))
    case Thrown => Failure(CryptoFault)
  }

  /** The caller's input stream: the bytes not yet read. */
  class InputSource {
    var remaining: seq<byte>

    constructor (bytes: seq<byte>)
      ensures remaining == bytes
    {
      remaining := bytes;
    }
  }

  /** The caller's output stream: everything written so far, which only ever grows. */
  class OutputSink {
    var written: seq<byte>
    var flushes: nat

    constructor ()
      ensures written == [] && flushes == 0
    {
      written, flushes := [], 0;
    }

    method Write(bytes: seq<byte>)
      modifies this
      ensures written == old(written) + bytes && flushes == old(flushes)
    {
      written := written + bytes;
    }

    method Flush()
      modifies this
      ensures written == old(written) && flushes == old(flushes) + 1
    {
      flushes := flushes + 1;
    }
  }

  /**
   * The streaming side of an algorithm handler. `iv` is `None` until `cipherInit`;
   * `aad` lists the chunks given to `updateAAD` since then.
   */
  class StreamCipher {
    const handler: AlgorithmHandler
    var iv: Option<seq<byte>>
    var aad: seq<seq<byte>>

    constructor (handler: AlgorithmHandler)
      ensures this.handler == handler && iv == None && aad == []
    {
      this.handler := handler;
      iv, aad := None, [];
    }

    /**
     * `cipherInit`: (re)initialises the cipher with a body IV, discarding earlier AAD.
     * When the primitive rejects the call, it throws and the state stays as it was.
     */
    method CipherInit(aead: Aead, iv: seq<byte>) returns (ok: bool)
      modifies this
      ensures ok == aead.cipherInit(handler.algorithm, handler.key, handler.mode, iv)
      ensures ok ==> this.iv == Some(iv) && aad == []
      ensures !ok ==> this.iv == old(this.iv) && aad == old(aad)
    {
      ok := aead.cipherInit(handler.algorithm, handler.key, handler.mode, iv);
      if ok {
        this.iv, aad := Some(iv), [];
      }
    }

    /**
     * `updateAAD`: feeds associated data to an initialised cipher; when the primitive
     * rejects the call, it throws and nothing is fed.
     */
    method UpdateAad(aead: Aead, bytes: seq<byte>) returns (ok: bool)
      requires iv.Some?
      modifies this
      ensures iv == old(iv)
      ensures ok == aead.updateAad(handler.algorithm, handler.key, handler.mode, iv.value, bytes)
      ensures aad == (if ok then old(aad) + [bytes] else old(aad))
    {
      ok := aead.updateAad(handler.algorithm, handler.key, handler.mode, iv.value, bytes);
      if ok {
        aad := aad + [bytes];
      }
    }

    /**
     * Copies a `CryptoInputStream` over `input` and this cipher into `output`: the
     * whole remaining input is consumed and the transformed bytes are appended.
     */
    method Pump(aead: Aead, input: InputSource, output: OutputSink)
      requires iv.Some?
      modifies input, output
      ensures input.remaining == []
      ensures output.written == old(output.written)
                + aead.cryptoStream(handler.algorithm, handler.key, handler.mode, iv.value, aad, old(input.remaining))
      ensures output.flushes == old(output.flushes)
    {
      var body := aead.cryptoStream(handler.algorithm, handler.key, handler.mode, iv.value, aad, input.remaining);
      input.remaining := [];
      output.Write(body);
    }
  }
}
