/** The CRC loop of the ICE controller, which consumes one byte per table lookup. */
module Crc32 {
  import opened ShiftRegister
  import opened Crc32Reference
  import opened Crc32Table

  /** A null buffer counts as an empty one. */
  method CalculateCrc32(initialResult: bv32, buffer: array?<bv8>, bufferLength: nat) returns (calculatedCrc32: bv32)
    requires buffer != null ==> bufferLength <= buffer.Length
    ensures calculatedCrc32 == Crc(initialResult, if buffer == null then [] else buffer[..bufferLength])
  {
    var c := Complement(initialResult);
    var length := if buffer == null then 0 else bufferLength;
    ghost var message := if buffer == null then [] else buffer[..bufferLength];
    var i := 0;
    EntriesAreZeroSteps();
    while i < length
      invariant 0 <= i <= length == |message|
      invariant c == Feed(BitStep, Complement(initialResult), Bits(ByteBits, message[..i]))
    {
      NextByte(Entry, Complement(initialResult), message, i);
      c := TableStep(Entry, c, buffer[i]);
      i := i + 1;
    }
    assert message[..i] == message;
    calculatedCrc32 := Complement(c);
  }
}
