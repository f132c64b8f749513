/**
 The ICMP echo handler of oathgate-bridge/src/net/router/handler/icmp.rs.
 */
module Icmp {
  import opened Bytes
  import opened Checksum

  const ECHO_REQUEST: u8 := 8
  const HDR_SIZE := 4
  /** The router's reply buffer after its 20-byte IPv4 header. */
  const BUF_SIZE := 1540

  /** The reply with its checksum, given the request. */
  function EchoReply(payload: seq<u8>): (r: seq<u8>)
    requires |payload| >= HDR_SIZE
    ensures |r| == |payload|
  {
    var blank := Zeros(4) + payload[4..];
    Splice(blank, 2, ToBe16(FoldOnce(WordSum(blank))))
  }

  /** The handler's outcome: nothing to send, a reply, an error, or a panic on an oversized request. */
  function Handle(payload: seq<u8>): (r: Outcome<seq<u8>>)
  {
    if |payload| < HDR_SIZE then Err
    else if payload[0] != ECHO_REQUEST then Ok([])
    else if |payload| > BUF_SIZE then Panic
    else Ok(EchoReply(payload))
  }

  /** `handle_protocol`: copies into the zeroed buffer and checksums all of it. */
  method HandleProtocol(payload: seq<u8>) returns (reply: Outcome<seq<u8>>)
    ensures reply == Handle(payload)
  {
    if |payload| < HDR_SIZE {
      return Err;
    }
    if payload[0] != ECHO_REQUEST {
      return Ok([]);
    }
    if |payload| > BUF_SIZE {
      return Panic;
    }
    var len := |payload|;
    var buf := Zeros(BUF_SIZE);
    buf := Splice(buf, HDR_SIZE, payload[HDR_SIZE..]);
    ghost var blank := Zeros(4) + payload[4..];
    assert buf == blank + Zeros(BUF_SIZE - len);
    WordSumPadded(blank, BUF_SIZE - len);
    var csum := ComputeChecksum(buf);
    buf := Splice(buf, 2, ToBe16(csum));
    assert buf[..len] == EchoReply(payload);
    reply := Ok(buf[..len]);
  }

  /**
   The reply answers the request: type and code 0, identifier, sequence number and data
   kept, and its checksum, although computed over the padded buffer, seals the exact reply.
   */
  lemma EchoReplyAnswers(payload: seq<u8>)
    requires 8 <= |payload| <= BUF_SIZE && payload[0] == ECHO_REQUEST
    ensures var reply := Handle(payload).value;
            && reply[0] == 0 && reply[1] == 0 && |reply| == |payload|
            && Be16At(reply, 4) == Be16At(payload, 4) && Be16At(reply, 6) == Be16At(payload, 6)
            && reply[8..] == payload[8..]
            && (FoldOnce(WordSum(reply)) == if Carries(WordSum(Zeros(4) + payload[4..])) then 0xFFFF else 0)
  {
    var blank := Zeros(4) + payload[4..];
    SealedDataVerifies(0, blank, 2);
  }
}
