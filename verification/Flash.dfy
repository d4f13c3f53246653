/** The flash device: one byte array, erased to 0xFF by sectors, programmed by ANDing pages, and what a
    power loss may leave behind. */
module Flash {
  import opened Bytes
  import opened Bits

  const TOTAL_SIZE := 4 * 1024 * 1024
  const SECTOR_SIZE := 4096
  const PAGE_SIZE := 256

  /** The contents of the whole device. */
  type Image = mem: seq<byte> | |mem| == TOTAL_SIZE ghost witness Fill(255, TOTAL_SIZE)

  datatype AnyOp = Erase(offset: nat, length: nat) | Program(offset: nat, data: seq<byte>)

  function Length(op: AnyOp): nat {
    match op
    case Erase(_, length) => length
    case Program(_, data) => |data|
  }

  /** A write that stays on the device. */
  type FlashOp = op: AnyOp | op.offset + Length(op) <= TOTAL_SIZE witness Erase(0, 0)

  function AndByte(a: byte, b: byte): byte {
    AndOfBytes(a, b);
    And(a, b)
  }

  lemma AndOfBytes(a: byte, b: byte)
    ensures 0 <= And(a, b) < 256
    ensures And(255, b) == b
  {
    assert Pow2(8) == 256 && Mask(8) == 255 by { EightBits(); }
    HighBitsClear(a, 8);
    BitsOfAnd(a, b);
    FitsWhenHighBitsClear(And(a, b), 8);
    HighBitsClear(b, 8);
    BitsOfMask(8);
    BitsOfAnd(255, b);
    BitsDetermine(And(255, b), b);
  }

  lemma EightBits()
    ensures Pow2(8) == 256 && Mask(8) == 255
  {
    assert Pow2(1) == 2 && Pow2(2) == 4 && Pow2(3) == 8 && Pow2(4) == 16;
    assert Pow2(5) == 32 && Pow2(6) == 64 && Pow2(7) == 128;
  }

  function Programmed(old_: seq<byte>, data: seq<byte>): (r: seq<byte>)
    requires |old_| == |data|
    ensures |r| == |data|
  {
    seq(|data|, i requires 0 <= i < |data| => AndByte(old_[i], data[i]))
  }

  /** The image after a completed operation. */
  function ApplyOp(mem: Image, op: FlashOp): Image {
    match op
    case Erase(offset, length) => Splice(mem, offset, Fill(255, length))
    case Program(offset, data) => Splice(mem, offset, Programmed(mem[offset..offset + |data|], data))
  }

  function Apply(mem: Image, ops: seq<FlashOp>): Image
    decreases |ops|
  {
    if ops == [] then mem else Apply(ApplyOp(mem, ops[0]), ops[1..])
  }

  lemma {:induction false} ApplyConcat(mem: Image, first: seq<FlashOp>, second: seq<FlashOp>)
    ensures Apply(mem, first + second) == Apply(Apply(mem, first), second)
    decreases |first|
  {
    hide ApplyOp;
    if first == [] {
      assert first + second == second;
    } else {
      ApplyConcat(ApplyOp(mem, first[0]), first[1..], second);
      assert (first + second)[1..] == first[1..] + second;
    }
  }

  /** Programming erased cells stores the data. */
  lemma ProgramErased(mem: Image, offset: nat, data: seq<byte>)
    requires offset + |data| <= TOTAL_SIZE
    requires mem[offset..offset + |data|] == Fill(255, |data|)
    ensures ApplyOp(mem, Program(offset, data)) == Splice(mem, offset, data)
  {
    var was := mem[offset..offset + |data|];
    forall i | 0 <= i < |data| ensures Programmed(was, data)[i] == data[i] {
      AndOfBytes(data[i], data[i]);
      assert was[i] == 255;
    }
    assert Programmed(was, data) == data;
  }

  /** An interrupted operation leaves anything at all in the cells it was working on, and nothing elsewhere. */
  ghost predicate TornBytes(mem: Image, op: FlashOp, after: Image) {
    forall i :: 0 <= i < TOTAL_SIZE && !(op.offset <= i < op.offset + Length(op)) ==> after[i] == mem[i]
  }

  lemma TornElsewhere(mem: Image, op: FlashOp, after: Image, lo: nat, hi: nat)
    requires lo <= hi <= TOTAL_SIZE
    requires TornBytes(mem, op, after) || after == ApplyOp(mem, op)
    requires hi <= op.offset || op.offset + Length(op) <= lo
    ensures after[lo..hi] == mem[lo..hi]
  {
  }

  predicate RangeValid(offset: int, length: int) {
    length != 0 && offset < TOTAL_SIZE && length <= TOTAL_SIZE - offset
  }

  class Device {
    const mem: array<byte>
    /** Core 1 polls the lockout handshake; until it does, every write is granted. */
    var core1Online: bool
    /** Every write performed, in order. */
    ghost var log: seq<FlashOp>

    ghost predicate Valid()
      reads this
    {
      mem.Length == TOTAL_SIZE
    }

    ghost function Cells(): Image
      reads this, mem
      requires Valid()
    {
      mem[..]
    }

    constructor (cells: array<byte>)
      requires cells.Length == TOTAL_SIZE
      ensures Valid() && mem == cells && !core1Online && log == []
    {
      mem := cells;
      core1Online := false;
      log := [];
    }

    /** The lockout handshake may time out once core 1 is running. */
    method BeginWrite() returns (granted: bool)
      ensures !core1Online ==> granted
    {
      granted := true;
      if core1Online {
        granted := *;
      }
    }

    method Erase(offset: nat, length: nat) returns (ok: bool)
      requires Valid()
      modifies this`log, mem
      ensures ok ==> RangeValid(offset, length) && offset % SECTOR_SIZE == 0 && length % SECTOR_SIZE == 0
      ensures ok ==> log == old(log) + [AnyOp.Erase(offset, length)]
                     && Cells() == ApplyOp(old(Cells()), AnyOp.Erase(offset, length))
      ensures !ok ==> log == old(log) && Cells() == old(Cells())
      ensures RangeValid(offset, length) && offset % SECTOR_SIZE == 0 && length % SECTOR_SIZE == 0 && !core1Online ==> ok
    {
      if !RangeValid(offset, length) {
        return false;
      }
      if offset % SECTOR_SIZE != 0 || length % SECTOR_SIZE != 0 {
        return false;
      }
      var granted := BeginWrite();
      if !granted {
        return false;
      }
      forall i | offset <= i < offset + length {
        mem[i] := 255;
      }
      log := log + [AnyOp.Erase(offset, length)];
      // is_erased
      ok := true;
      var i := offset;
      while i < offset + length
        invariant offset <= i <= offset + length && ok
      {
        if mem[i] != 255 {
          return false;
        }
        i := i + 1;
      }
    }

    method Program(offset: nat, data: seq<byte>) returns (ok: bool)
      requires Valid()
      modifies this`log, mem
      ensures var legal := RangeValid(offset, |data|) && offset % PAGE_SIZE == 0 && |data| % PAGE_SIZE == 0;
              && (!legal ==> !ok && log == old(log) && Cells() == old(Cells()))
              && (legal && log == old(log) ==> !ok && core1Online && Cells() == old(Cells()))
              && (legal && log != old(log) ==>
                    && log == old(log) + [AnyOp.Program(offset, data)]
                    && Cells() == ApplyOp(old(Cells()), AnyOp.Program(offset, data))
                    && (ok <==> Cells()[offset..offset + |data|] == data))
    {
      if !RangeValid(offset, |data|) {
        return false;
      }
      if offset % PAGE_SIZE != 0 || |data| % PAGE_SIZE != 0 {
        return false;
      }
      var granted := BeginWrite();
      if !granted {
        return false;
      }
      ghost var before := Cells();
      forall i | offset <= i < offset + |data| {
        mem[i] := AndByte(mem[i], data[i - offset]);
      }
      log := log + [AnyOp.Program(offset, data)];
      assert Cells() == ApplyOp(before, AnyOp.Program(offset, data));
      ok := mem[offset..offset + |data|] == data;
    }
  }
}
