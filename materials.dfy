/**
 * The values the envelope engine consumes and produces: algorithm descriptors, the
 * encryption and decryption materials handed in by the caller, and the cipher header,
 * body and material it returns. None of them is mutated after construction.
 */
module Materials {
  import opened Wrappers

  /** One octet. Java's `byte` is signed; only the 256 distinct values matter here. */
  newtype byte = x: int | 0 <= x < 256

  /** The algorithm descriptor: lengths in bytes, and whether the body cipher takes AAD. */
  datatype Algorithm = Algorithm(name: string, keyLen: nat, ivLen: nat, tagLen: nat, withAad: bool)

  /** The application's encryption context, an ordered list of key/value pairs. */
  type EncryptionContext = seq<(string, string)>

  /** The header fields covered by the header authentication tag. */
  datatype AuthenticatedFields = AuthenticatedFields(
    version: int,
    encryptedDataKeys: seq<seq<byte>>,
    encryptionContext: EncryptionContext,
    algorithm: Algorithm)

  /**
   * The cipher header: authenticated fields plus the IV and tag of the header MAC.
   * A stored tag of `None` stands for a Java `null`.
   */
  datatype CipherHeader = CipherHeader(
    fields: AuthenticatedFields,
    headerIv: seq<byte>,
    headerAuthTag: Option<seq<byte>>)

  /**
   * What a cipher body carries besides its IV: the ciphertext and tag held in memory
   * (buffered mode), or nothing, because they went straight to the output stream.
   */
  datatype Payload = Inline(cipherText: seq<byte>, authTag: seq<byte>) | Streamed

  datatype CipherBody = CipherBody(iv: seq<byte>, payload: Payload)

  datatype CipherMaterial = CipherMaterial(header: CipherHeader, body: CipherBody)

  datatype EncryptionMaterial = EncryptionMaterial(
    version: int,
    algorithm: Algorithm,
    plaintextDataKey: seq<byte>,
    encryptedDataKeys: seq<seq<byte>>,
    encryptionContext: EncryptionContext)

  datatype DecryptionMaterial = DecryptionMaterial(algorithm: Algorithm, plaintextDataKey: seq<byte>)

  /** The exceptions the engine lets escape, one constructor per cause. */
  datatype Error =
    | HeaderAuthTagVerifyFailed   // CipherTextParseException("header authTag verify failed")
    | InvalidTagLength(len: nat)  // IllegalArgumentException("Invalid tag length: " + len)
    | NegativeArraySize           // `new byte[cipherResult.length - tagLen]` with a negative size
    | MissingBody                 // NullPointerException: a streamed body has no ciphertext or tag
    | CryptoFault                 // an exception thrown by the cipher primitive

  /** The authenticated fields a new header gets from the encryption material. */
  function FieldsOf(m: EncryptionMaterial): AuthenticatedFields
  {
    AuthenticatedFields(m.version, m.encryptedDataKeys, m.encryptionContext, m.algorithm)
  }
}
