/** Filling a buffer piece by piece. */
module Buffers {
  import opened Bytes

  /** `memcpy` of s to offset at. */
  method Put(buffer: array<byte>, at: nat, s: seq<byte>)
    requires at + |s| <= buffer.Length
    modifies buffer
    ensures buffer[..at + |s|] == old(buffer[..at]) + s
    ensures forall i :: at + |s| <= i < buffer.Length ==> buffer[i] == old(buffer[i])
  {
    for i := 0 to |s|
      invariant buffer[..at] == old(buffer[..at])
      invariant buffer[at..at + i] == s[..i]
      invariant forall j :: at + |s| <= j < buffer.Length ==> buffer[j] == old(buffer[j])
    {
      buffer[at + i] := s[i];
    }
    assert buffer[..at + |s|] == buffer[..at] + buffer[at..at + |s|];
  }
}
