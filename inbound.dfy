/** How `mqttMessageReceivedCallback` turns the bytes the MQTT library hands
    over into the payload string given to subscribers. The library's buffer
    holds a header of up to 9 bytes, the topic and the payload; when they come
    close to the buffer's size the payload may have been cut short, and the
    client then puts the string terminator one byte earlier. */
module Inbound {
  import opened Types

  /** True when the topic, the payload and the header may not have fitted in
      the library's buffer, so the payload may be truncated. */
  predicate MaybeTruncated(topicLength: nat, length: nat, bufferSize: nat)
  {
    topicLength + length + 9 >= bufferSize
  }

  /** The terminator position exactly as the code computes it: `length - 1`
      in 32-bit unsigned arithmetic when truncation is suspected, which wraps
      to 0xFFFF_FFFF for an empty payload, else `length`. */
  function TerminationPosAsWritten(topicLength: nat, length: uint32, bufferSize: nat): (pos: uint32)
    ensures length > 0 ==> pos as int == if MaybeTruncated(topicLength, length as nat, bufferSize) then length as int - 1 else length as int
  {
    if MaybeTruncated(topicLength, length as nat, bufferSize) then ((length as int - 1) % 0x1_0000_0000) as uint32
    else length
  }

  /** An empty payload whose topic nearly fills the buffer makes the code
      write the terminator at offset 0xFFFF_FFFF of the payload, outside the
      bytes delivered (for instance a 247-byte topic with the library's default
      256-byte buffer). */
  lemma EmptyPayloadUnderflows(topicLength: nat, bufferSize: nat)
    requires topicLength + 9 >= bufferSize
    ensures TerminationPosAsWritten(topicLength, 0, bufferSize) == 0xFFFF_FFFF
    ensures TerminationPosAsWritten(topicLength, 0, bufferSize) as int > 0
  {
  }

  /** The terminator position the code evidently intends: one byte earlier
      when truncation is suspected, but never before the start of the payload.
      The terminator is written at or inside the delivered bytes, and the last
      byte is given up exactly when truncation is suspected. */
  function TerminationPos(topicLength: nat, length: nat, bufferSize: nat): (pos: nat)
    ensures pos <= length
    ensures pos + 1 >= length
    ensures pos == length <==> length == 0 || !MaybeTruncated(topicLength, length, bufferSize)
  {
    if MaybeTruncated(topicLength, length, bufferSize) && length > 0 then length - 1 else length
  }

  /** The corrected rule agrees with the code on every non-empty payload. */
  lemma TerminationPosAgrees(topicLength: nat, length: uint32, bufferSize: nat)
    requires length > 0
    ensures TerminationPos(topicLength, length as nat, bufferSize) == TerminationPosAsWritten(topicLength, length, bufferSize) as nat
  {
  }

  /** The Arduino `String` built from a `char *`: the bytes before the first
      NUL byte. */
  function UntilNul(bytes: seq<byte>): (s: seq<byte>)
    ensures s <= bytes
    ensures 0 !in s
    ensures |s| < |bytes| ==> bytes[|s|] == 0
  {
    if bytes == [] || bytes[0] == 0 then []
    else [bytes[0]] + UntilNul(bytes[1..])
  }

  /** The payload string handed to subscribers for the delivered `payload`
      bytes of a message on a topic of `topicLength` characters. */
  function PayloadString(topicLength: nat, payload: seq<byte>, bufferSize: nat): (s: seq<byte>)
    ensures s <= payload
    ensures 0 !in s
    ensures 0 !in payload && !MaybeTruncated(topicLength, |payload|, bufferSize) ==> s == payload
    ensures 0 !in payload && |payload| > 0 && MaybeTruncated(topicLength, |payload|, bufferSize) ==> s == payload[..|payload| - 1]
    ensures |s| <= TerminationPos(topicLength, |payload|, bufferSize)
    ensures |s| < TerminationPos(topicLength, |payload|, bufferSize) ==> payload[|s|] == 0
  {
    var pos := TerminationPos(topicLength, |payload|, bufferSize);
    assert 0 !in payload ==> 0 !in payload[..pos];
    NoNulKeepsAll(payload[..pos]);
    UntilNul(payload[..pos])
  }

  /** Bytes without a NUL convert to a string unchanged. */
  lemma {:induction false} NoNulKeepsAll(bytes: seq<byte>)
    ensures 0 !in bytes ==> UntilNul(bytes) == bytes
  {
    if bytes != [] && 0 !in bytes {
      assert 0 !in bytes[1..];
      NoNulKeepsAll(bytes[1..]);
    }
  }
}
