/** The checksum that closes AMS and MAMS messages, and the check of it on arrival. */
module Checksum {
  import opened Bytes
  import opened Options

  /** The sum of the big-endian 16-bit words of a message, an odd last octet padded with zero. */
  function WordSum(s: seq<byte>): nat {
    if s == [] then 0
    else if |s| == 1 then U16(s[0], 0)
    else U16(s[0], s[1]) + WordSum(s[2..])
  }

  /** The same sum octet by octet. */
  function OctetSum(s: seq<byte>): nat {
    if s == [] then 0 else OctetSum(s[..|s| - 1]) + Weight(|s| - 1) * s[|s| - 1]
  }

  function Weight(i: nat): nat { if i % 2 == 0 then 256 else 1 }

  lemma {:induction false} OctetSumFront(s: seq<byte>)
    requires |s| >= 2
    ensures OctetSum(s) == U16(s[0], s[1]) + OctetSum(s[2..])
  {
    if |s| == 2 {
      assert s[..1][..0] == [];
    } else {
      OctetSumFront(s[..|s| - 1]);
      assert s[..|s| - 1][2..] == s[2..][..|s| - 3];
    }
  }

  lemma {:induction false} SumsAgree(s: seq<byte>)
    ensures WordSum(s) == OctetSum(s)
  {
    if |s| >= 2 {
      SumsAgree(s[2..]);
      OctetSumFront(s);
    } else if |s| == 1 {
      assert s[..0] == [];
    }
  }

  const WORD := 0x1_0000_0000

  /** Addition of 32-bit unsigned numbers. */
  function WrapAdd(a: nat, b: nat): nat
    requires a < WORD && b < WORD
  {
    if a + b < WORD then a + b else a + b - WORD
  }

  /** The running sum is a 32-bit unsigned number and may wrap around; the result does not notice. */
  method ComputeAmsChecksum(pdu: seq<byte>) returns (checksum: nat)
    ensures checksum == WordSum(pdu) % 0x10000
  {
    assert OctetSum(pdu[..0]) == 0;
    hide OctetSum, WordSum;
    var sum: nat, i: nat := 0, 0;
    ghost var wraps: nat := 0;
    while i < |pdu|
      invariant i <= |pdu| && (i % 2 == 1 ==> i == |pdu|)
      invariant sum < WORD && OctetSum(pdu[..i]) == sum + 0x1_0000_0000 * wraps
    {
      OctetSumNext(pdu, i);
      var addend: nat := pdu[i] as int * 256;
      i := i + 1;
      if i < |pdu| {
        OctetSumNext(pdu, i);
        addend := addend + pdu[i];
        i := i + 1;
      }
      if sum + addend >= WORD { wraps := wraps + 1; }
      sum := WrapAdd(sum, addend);
    }
    checksum := sum % 0x10000;
    assert pdu[..i] == pdu;
    SameRemainder(sum, wraps);
    SumsAgree(pdu);
  }

  lemma OctetSumNext(s: seq<byte>, i: nat)
    requires i < |s|
    ensures OctetSum(s[..i + 1]) == OctetSum(s[..i]) + Weight(i) * s[i]
  {
    assert s[..i + 1][..i] == s[..i];
  }

  lemma SameRemainder(x: nat, wraps: nat)
    ensures (x + 0x1_0000_0000 * wraps) % 0x10000 == x % 0x10000
  {
    var q := x / 0x10000;
    assert x + 0x1_0000_0000 * wraps == 0x10000 * (q + 0x10000 * wraps) + x % 0x10000;
  }

  // ---------- the check on arrival ----------

  const HEADER_LENGTH := 16

  predicate FlagSet(msg: seq<byte>)
    requires |msg| >= HEADER_LENGTH
  {
    msg[2] >= 0x80
  }

  /** What validateAmsMsg makes of a message, up to who sent it: the length of its content, or None. */
  function ContentLength(msg: seq<byte>): Option<nat> {
    if |msg| < HEADER_LENGTH then None
    else if !FlagSet(msg) then Some(|msg| - HEADER_LENGTH)
    else if |msg| < HEADER_LENGTH + 2 then None
    else if U16(msg[|msg| - 2], msg[|msg| - 1]) != WordSum(msg[..|msg| - 2]) % 0x10000 then None
    else Some(|msg| - HEADER_LENGTH - 2)
  }

  /** -1 for an invalid message. */
  method ValidateAmsMsg(msg: seq<byte>) returns (deliveredContentLength: int)
    ensures ContentLength(msg) == if deliveredContentLength < 0 then None else Some(deliveredContentLength)
  {
    if |msg| < 16 { return -1; }
    if msg[2] / 0x80 % 2 == 1 {
      deliveredContentLength := |msg| - 18;
      if deliveredContentLength < 0 { return -1; }
      var computed := ComputeAmsChecksum(msg[..|msg| - 2]);
      if U16(msg[|msg| - 2], msg[|msg| - 1]) != computed { return -1; }
    } else {
      deliveredContentLength := |msg| - 16;
    }
  }

  function WithChecksum(body: seq<byte>): seq<byte> {
    body + U16Bytes(WordSum(body) % 0x10000)
  }

  /** A message closed with its checksum is valid, whatever its length and parity. */
  lemma ClosedMessageIsValid(body: seq<byte>)
    requires |body| >= HEADER_LENGTH && FlagSet(body)
    ensures ContentLength(WithChecksum(body)) == Some(|body| - HEADER_LENGTH)
  {
    hide WordSum, U16, U16Bytes;
    var msg, checksum := WithChecksum(body), U16Bytes(WordSum(body) % 0x10000);
    assert msg[..|msg| - 2] == body;
    assert msg[|msg| - 2] == checksum[0] && msg[|msg| - 1] == checksum[1];
  }

  /** A message is a header of 16 octets, content and, if the first bit of the third octet says so, two octets that hold
      the sum of the words before them: then, and only then, it is valid, and the content is measured right. */
  lemma ContentIsMeasured(header: seq<byte>, content: seq<byte>, high: byte, low: byte)
    requires |header| == 16
    ensures header[2] < 0x80 ==> ContentLength(header + content) == Some(|content|)
    ensures header[2] >= 0x80 ==>
      ContentLength(header + content + [high, low])
      == if high as int * 256 + low == WordSum(header + content) % 0x10000 then Some(|content|) else None
    ensures forall n :: 0 <= n < 16 ==> ContentLength(header[..n]) == None
    ensures header[2] >= 0x80 ==> ContentLength(header) == None && ContentLength(header + [low]) == None
  {
    hide WordSum;
    var msg := header + content + [high, low];
    assert msg[..|msg| - 2] == header + content;
  }

  lemma {:induction false} OneOctetChanges(s: seq<byte>, k: nat, b: byte)
    requires k < |s|
    ensures OctetSum(s[k := b]) == OctetSum(s) + Weight(k) * (b - s[k])
  {
    var t := s[k := b];
    if k < |s| - 1 {
      assert t[..|t| - 1] == s[..|s| - 1][k := b];
      OneOctetChanges(s[..|s| - 1], k, b);
    } else {
      assert t[..|t| - 1] == s[..|s| - 1];
    }
  }

  /** Of a valid message with checksum, one octet is changed. The change goes unnoticed iff it clears the
      flag that says there is a checksum. */
  lemma OneWrongOctetIsNoticed(msg: seq<byte>, k: nat, b: byte)
    requires |msg| >= HEADER_LENGTH && FlagSet(msg) && ContentLength(msg).Some?
    requires k < |msg| && b != msg[k]
    ensures ContentLength(msg[k := b]).Some? <==> k == 2 && b < 0x80
  {
    var n := |msg| - 2;
    var changed := msg[k := b];
    SumsAgree(msg[..n]);
    SumsAgree(changed[..n]);
    if k < n {
      assert changed[..n] == msg[..n][k := b];
      OneOctetChanges(msg[..n], k, b);
      DifferentRemainders(OctetSum(msg[..n]), OctetSum(changed[..n]));
    } else {
      assert changed[..n] == msg[..n];
    }
  }

  lemma DifferentRemainders(x: nat, y: nat)
    requires x != y && -0x10000 < x - y < 0x10000
    ensures x % 0x10000 != y % 0x10000
  {
  }
}
