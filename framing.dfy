/**
 * The byte framing the engine does by hand: splitting a sealed buffer into ciphertext
 * and tag, joining them back, and the length-prefixed IV frame of the streaming mode.
 */
module Framing {
  import opened Wrappers
  import opened Materials
  import opened Collaborators

  /**
   * Splits the primitive's output `ciphertext ‖ tag` at `|cipherResult| - tagLen` into
   * the ciphertext part and the tag part.
   */
  function SplitTag(cipherResult: seq<byte>, tagLen: nat): (parts: (seq<byte>, seq<byte>))
    requires tagLen <= |cipherResult|
    ensures |parts.0| == |cipherResult| - tagLen && |parts.1| == tagLen
    ensures parts.0 + parts.1 == cipherResult
  {
    var cut := |cipherResult| - tagLen;
    (cipherResult[..cut], cipherResult[cut..])
  }

  /** With no tag, the whole output is ciphertext. */
  lemma SplitTagZero(cipherResult: seq<byte>)
    ensures SplitTag(cipherResult, 0) == (cipherResult, [])
  {
    assert cipherResult[..|cipherResult|] == cipherResult;
  }

  /** Joining a ciphertext and a tag of the expected length, then splitting, gives them back. */
  lemma SplitTagOfJoin(cipherText: seq<byte>, authTag: seq<byte>)
    ensures SplitTag(cipherText + authTag, |authTag|) == (cipherText, authTag)
  {
  }

  /**
   * Two bodies whose tags have the same length reassemble to the same buffer only if
   * they are equal: a change to the ciphertext or the tag always changes what the
   * primitive is asked to open.
   */
  lemma JoinInjective(cipherText: seq<byte>, authTag: seq<byte>, cipherText': seq<byte>, authTag': seq<byte>)
    requires |authTag| == |authTag'|
    requires cipherText + authTag == cipherText' + authTag'
    ensures cipherText == cipherText' && authTag == authTag'
  {
    var joined := cipherText + authTag;
    assert |cipherText| == |cipherText'|;
    assert cipherText == joined[..|cipherText|] == cipherText';
    assert authTag == joined[|cipherText|..] == authTag';
  }

  /** The IV frame of the streaming mode: the four-byte encoded IV length, then the IV. */
  function IvFrame(codec: Codec, iv: seq<byte>): seq<byte>
  {
    codec.intToBytes(|iv|) + iv
  }

  /**
   * A reader of the IV frame that needs no other metadata: it decodes the length
   * prefix with `bytesToInt` and takes that many bytes as the IV. It yields the IV and
   * the bytes after the frame, or `None` when the frame is truncated or malformed.
   */
  function ReadIvFrame(stream: seq<byte>, bytesToInt: Word -> int): (r: Option<(seq<byte>, seq<byte>)>)
    ensures r.Some? ==> |stream| == 4 + |r.value.0| + |r.value.1|
    ensures r.Some? ==> stream == stream[..4] + r.value.0 + r.value.1
  {
    if |stream| < 4 then None
    else
      var len := bytesToInt(stream[..4]);
      if len < 0 || |stream| - 4 < len then None
      else Some((stream[4..4 + len], stream[4 + len..]))
  }

  /**
   * Whatever follows it, an IV frame is read back as the IV it was written with and
   * the rest, provided the length decoding inverts the length encoding.
   */
  lemma IvFrameRoundTrip(codec: Codec, bytesToInt: Word -> int, iv: seq<byte>, rest: seq<byte>)
    requires bytesToInt(codec.intToBytes(|iv|)) == |iv|
    ensures |IvFrame(codec, iv)| == 4 + |iv|
    ensures ReadIvFrame(IvFrame(codec, iv) + rest, bytesToInt) == Some((iv, rest))
  {
    var prefix := codec.intToBytes(|iv|);
    var stream := IvFrame(codec, iv) + rest;
    assert stream == prefix + (iv + rest);
    assert stream[..4] == prefix;
    assert stream[4..] == iv + rest;
    assert stream[4..4 + |iv|] == iv;
    assert stream[4 + |iv|..] == rest;
  }

  /** What streaming encryption writes: the serialized header, the IV frame, the body. */
  function StreamLayout(codec: Codec, headerBytes: seq<byte>, iv: seq<byte>, body: seq<byte>): seq<byte>
  {
    headerBytes + IvFrame(codec, iv) + body
  }

  /**
   * Whatever was written before it, in a stream laid out by `StreamLayout` a reader
   * that skips the header recovers the IV and the body from the frame alone.
   */
  lemma StreamIvRecoverable(codec: Codec, bytesToInt: Word -> int, before: seq<byte>, headerBytes: seq<byte>,
                            iv: seq<byte>, body: seq<byte>)
    requires bytesToInt(codec.intToBytes(|iv|)) == |iv|
    ensures ReadIvFrame((before + StreamLayout(codec, headerBytes, iv, body))[|before| + |headerBytes|..], bytesToInt)
            == Some((iv, body))
  {
    assert (before + StreamLayout(codec, headerBytes, iv, body))[|before| + |headerBytes|..] == IvFrame(codec, iv) + body;
    IvFrameRoundTrip(codec, bytesToInt, iv, body);
  }
}
