// Bytes into wire registers and back, the more significant byte first.
module Packing {
  function Pack(high: bv8, low: bv8): bv16 {
    ((high as bv16) << 8) | (low as bv16)
  }

  function HighByte(register: bv16): bv8 {
    (register >> 8) as bv8
  }

  function LowByte(register: bv16): bv8 {
    (register & 0xFF) as bv8
  }

  lemma PackLaws(high: bv8, low: bv8, register: bv16)
    ensures HighByte(Pack(high, low)) == high && LowByte(Pack(high, low)) == low
    ensures Pack(HighByte(register), LowByte(register)) == register
  {
  }

  // The registers that carry `bytes`.
  function RegistersOf(bytes: seq<bv8>): (registers: seq<bv16>)
    requires |bytes| % 2 == 0
    ensures |registers| == |bytes| / 2
  {
    seq(|bytes| / 2, i requires 0 <= i < |bytes| / 2 => Pack(bytes[2 * i], bytes[2 * i + 1]))
  }

  // The bytes that `registers` carry.
  function BytesOf(registers: seq<bv16>): (bytes: seq<bv8>)
    ensures |bytes| == 2 * |registers|
  {
    seq(2 * |registers|, i requires 0 <= i < 2 * |registers| =>
      if i % 2 == 0 then HighByte(registers[i / 2]) else LowByte(registers[i / 2]))
  }

  // On the wire the even byte is the more significant half of its register.
  lemma MostSignificantFirst(bytes: seq<bv8>, i: nat)
    requires |bytes| % 2 == 0 && i < |bytes| / 2
    ensures RegistersOf(bytes)[i] == ((bytes[2 * i] as bv16) << 8) | (bytes[2 * i + 1] as bv16)
    ensures HighByte(RegistersOf(bytes)[i]) == bytes[2 * i] && LowByte(RegistersOf(bytes)[i]) == bytes[2 * i + 1]
  {
    PackLaws(bytes[2 * i], bytes[2 * i + 1], 0);
  }

  lemma BytesAt(registers: seq<bv16>, k: nat)
    requires k < |registers|
    ensures BytesOf(registers)[2 * k] == HighByte(registers[k])
    ensures BytesOf(registers)[2 * k + 1] == LowByte(registers[k])
  {
    hide HighByte, LowByte;
  }

  lemma BytesRoundTrip(bytes: seq<bv8>)
    requires |bytes| % 2 == 0
    ensures BytesOf(RegistersOf(bytes)) == bytes
  {
    forall i | 0 <= i < |bytes| ensures BytesOf(RegistersOf(bytes))[i] == bytes[i] {
      var k := i / 2;
      PackLaws(bytes[2 * k], bytes[2 * k + 1], 0);
    }
  }

  lemma RegistersRoundTrip(registers: seq<bv16>)
    ensures RegistersOf(BytesOf(registers)) == registers
  {
    forall i | 0 <= i < |registers| ensures RegistersOf(BytesOf(registers))[i] == registers[i] {
      PackLaws(0, 0, registers[i]);
    }
  }

  // Packing works register by register, so it commutes with taking a slice.
  lemma BytesOfSlice(registers: seq<bv16>, from: nat, to: nat)
    requires from <= to <= |registers|
    ensures BytesOf(registers[from..to]) == BytesOf(registers)[2 * from..2 * to]
  {
  }

  method RegistersFromBytes(registerCount: nat, block: array<bv8>) returns (registers: array<bv16>)
    requires 2 * registerCount <= block.Length
    ensures fresh(registers)
    ensures registers[..] == RegistersOf(block[..2 * registerCount])
  {
    registers := new bv16[registerCount];
    for i := 0 to registerCount
      invariant forall k :: 0 <= k < i ==> registers[k] == Pack(block[2 * k], block[2 * k + 1])
    {
      registers[i] := Pack(block[2 * i], block[2 * i + 1]);
    }
  }

  method BytesFromRegisters(registers: array<bv16>, block: array<bv8>)
    requires 2 * registers.Length <= block.Length
    modifies block
    ensures block[..] == BytesOf(registers[..]) + old(block[2 * registers.Length..])
  {
    for i := 0 to registers.Length
      invariant forall k :: 0 <= k < 2 * i ==> block[k] == BytesOf(registers[..])[k]
      invariant forall k :: 2 * i <= k < block.Length ==> block[k] == old(block[k])
    {
      block[2 * i] := HighByte(registers[i]);
      block[2 * i + 1] := LowByte(registers[i]);
    }
  }
}
