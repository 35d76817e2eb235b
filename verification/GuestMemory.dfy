/** Guest RAM: one mutable byte buffer with bounds-checked access. */
module Memory {
  import opened Bytes

  /** The bound check of an access, with the 64-bit sum it is made with. */
  predicate Passes(offset: u64, n: u64, size: nat) {
    (offset + n) % TWO_TO_64 <= size
  }

  /** The sum does not wrap to something the check lets through. */
  predicate Checkable(offset: u64, n: u64, size: nat) {
    !(offset + n >= TWO_TO_64 && offset + n - TWO_TO_64 <= size)
  }

  /** The check tells whether the access stays inside the buffer exactly for checkable accesses.
      One byte at the last 64-bit address is not checkable for any size: it passes. */
  lemma PassesIffInside(offset: u64, n: u64, size: u64)
    ensures (Passes(offset, n, size) <==> offset + n <= size) <==> Checkable(offset, n, size)
    ensures Passes(0xFFFF_FFFF_FFFF_FFFF, 1, size) && 0xFFFF_FFFF_FFFF_FFFF + 1 > size
  {
    if offset + n >= TWO_TO_64 {
      assert (offset + n) % TWO_TO_64 == offset + n - TWO_TO_64;
    }
  }

  lemma PassesIfFits(offset: u64, n: u64, size: nat)
    requires NoWrap(Region(offset, n))
    ensures Passes(offset, n, size) <==> offset + n <= size
  {
  }

  class GuestMemory {
    const bytes: array<byte>

    constructor (size: nat)
      ensures fresh(bytes) && bytes[..] == Zeros(size)
    {
      bytes := new byte[size](_ => 0);
      new;
      assert bytes[..] == Zeros(size);
    }

    /** Refused as a whole when the slice would leave the buffer. */
    method WriteSlice(offset: u64, data: seq<byte>) returns (ok: bool)
      requires |data| < TWO_TO_64 && Checkable(offset, |data|, bytes.Length)
      modifies bytes
      ensures ok <==> offset + |data| <= bytes.Length
      ensures bytes[..] == Store(old(bytes[..]), offset, data)
    {
      if !Passes(offset, |data|, bytes.Length) {
        return false;
      }
      forall i | 0 <= i < |data| {
        bytes[offset + i] := data[i];
      }
      assert bytes[..] == Store(old(bytes[..]), offset, data);
      return true;
    }

    function ReadSlice(offset: u64, len: u64): (r: Option<seq<byte>>)
      requires Checkable(offset, len, bytes.Length)
      reads bytes
      ensures r == Load(bytes[..], offset, len)
    {
      if !Passes(offset, len, bytes.Length) then None else Some(bytes[offset..offset + len])
    }

    method WriteU8(offset: u64, val: byte) returns (ok: bool)
      requires Checkable(offset, 1, bytes.Length)
      modifies bytes
      ensures ok <==> offset + 1 <= bytes.Length
      ensures bytes[..] == Store(old(bytes[..]), offset, [val])
    {
      ok := WriteSlice(offset, [val]);
    }

    method WriteU16(offset: u64, val: u16) returns (ok: bool)
      requires Checkable(offset, 2, bytes.Length)
      modifies bytes
      ensures ok <==> offset + 2 <= bytes.Length
      ensures bytes[..] == Store(old(bytes[..]), offset, Bytes16(val))
      ensures ok ==> Word16(bytes[..], offset) == val
    {
      if offset + 2 <= bytes.Length {
        StoreWord16(bytes[..], offset, val);
      }
      ok := WriteSlice(offset, Bytes16(val));
    }

    method WriteU32(offset: u64, val: u32) returns (ok: bool)
      requires Checkable(offset, 4, bytes.Length)
      modifies bytes
      ensures ok <==> offset + 4 <= bytes.Length
      ensures bytes[..] == Store(old(bytes[..]), offset, Bytes32(val))
      ensures ok ==> Word32(bytes[..], offset) == val
    {
      if offset + 4 <= bytes.Length {
        StoreWord32(bytes[..], offset, val);
      }
      ok := WriteSlice(offset, Bytes32(val));
    }

    method WriteU64(offset: u64, val: u64) returns (ok: bool)
      requires Checkable(offset, 8, bytes.Length)
      modifies bytes
      ensures ok <==> offset + 8 <= bytes.Length
      ensures bytes[..] == Store(old(bytes[..]), offset, Bytes64(val))
      ensures ok ==> Word64(bytes[..], offset) == val
    {
      if offset + 8 <= bytes.Length {
        StoreWord64(bytes[..], offset, val);
      }
      ok := WriteSlice(offset, Bytes64(val));
    }
  }

  /** A store through a pointer the caller has checked. */
  method Poke(mem: array<byte>, at: nat, data: seq<byte>)
    requires at + |data| <= mem.Length
    modifies mem
    ensures mem[..] == Store(old(mem[..]), at, data)
  {
    forall i | 0 <= i < |data| {
      mem[at + i] := data[i];
    }
    assert mem[..] == Store(old(mem[..]), at, data);
  }
}
