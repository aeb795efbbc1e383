/** The host side of the guest boundary: the register file, the outcome of
    one guest call, and bounds-checked access to the guest's linear memory.

    The guest memory is the byte array `VMLogic.memory`. Its bounds check
    (`MemoryLike::fits_memory`) is `FitsMemory` below, computed over
    mathematical integers, so `offset + len` cannot wrap around. */
module VmLogic {
  import opened Base
  import opened VmError

  /** What one guest call produced for the host to interpret. */
  datatype ReturnData =
      /** The method returned some value or data. */
    | Value(data: Bytes)
      /** The value is the return value of another method, identified by its receipt index. */
    | ReceiptIndex(index: uint64)
      /** The method returned neither data nor a promise. */
    | None

  /** The access `[offset, offset + len)` lies inside a memory of `size` bytes. */
  predicate FitsMemory(offset: uint64, len: uint64, size: nat)
  {
    offset + len <= size
  }

  /** The same check written with a `u64` `checked_add`: an overflowing sum never fits. */
  predicate FitsMemoryChecked(offset: uint64, len: uint64, size: nat)
  {
    offset + len <= UINT64_MAX && offset + len <= size
  }

  /** With a memory smaller than 2^64 bytes, checking the overflow first changes
      nothing: the integer check alone already rejects every wrapping sum. */
  lemma FitsMemoryIsOverflowSafe(offset: uint64, len: uint64, size: nat)
    requires size <= UINT64_MAX
    ensures FitsMemory(offset, len, size) <==> FitsMemoryChecked(offset, len, size)
    ensures FitsMemory(offset, len, size) ==> offset <= size && len <= size - offset
  {
  }

  /** `mem` with `buf` written at `offset` (`MemoryLike::write_memory`). */
  function Splice(mem: seq<bv8>, offset: nat, buf: seq<bv8>): (r: seq<bv8>)
    requires offset + |buf| <= |mem|
    ensures |r| == |mem|
    ensures r[offset..offset + |buf|] == buf
    ensures forall j | 0 <= j < |mem| && !(offset <= j < offset + |buf|) :: r[j] == mem[j]
  {
    mem[..offset] + buf + mem[offset + |buf|..]
  }

  /** What `memory_get_vec(offset, len)` yields on a memory holding `mem`. */
  function GetVec(mem: seq<bv8>, offset: uint64, len: uint64): (r: Result<Bytes, VMLogicError>)
    ensures r.Ok? <==> FitsMemory(offset, len, |mem|)
    ensures r.Ok? ==> |r.value| == len && forall i | 0 <= i < len :: r.value[i] == mem[offset + i]
    ensures r.Err? ==> r.error == HostError
  {
    if FitsMemory(offset, len, |mem|) then Ok(mem[offset..offset + len]) else Err(HostError)
  }

  /** The memory after `memory_set_slice(offset, buf)` on a memory holding `mem`. */
  function SetSlice(mem: seq<bv8>, offset: uint64, buf: Bytes): (r: seq<bv8>)
    ensures |r| == |mem|
    ensures FitsMemory(offset, |buf|, |mem|) ==> r[offset..offset + |buf|] == buf
    ensures forall j | 0 <= j < |mem| && !(offset <= j < offset + |buf|) :: r[j] == mem[j]
    ensures !FitsMemory(offset, |buf|, |mem|) ==> r == mem
  {
    if FitsMemory(offset, |buf|, |mem|) then Splice(mem, offset, buf) else mem
  }

  /** Round trip: bytes written by a successful `memory_set_slice` are read
      back unchanged by `memory_get_vec` over the same range. */
  lemma SetThenGet(mem: seq<bv8>, offset: uint64, buf: Bytes)
    requires FitsMemory(offset, |buf|, |mem|)
    ensures GetVec(SetSlice(mem, offset, buf), offset, |buf|) == Ok(buf)
  {
  }

  /** A write leaves every read of a range disjoint from it as it was. */
  lemma SetLeavesDisjointGet(mem: seq<bv8>, offset: uint64, buf: Bytes, readAt: uint64, len: uint64)
    requires readAt + len <= offset || offset + |buf| <= readAt
    ensures GetVec(SetSlice(mem, offset, buf), readAt, len) == GetVec(mem, readAt, len)
  {
    var after := SetSlice(mem, offset, buf);
    assert |after| == |mem|;
    if FitsMemory(readAt, len, |mem|) {
      assert after[readAt..readAt + len] == mem[readAt..readAt + len];
    }
  }

  /** Writing back what was just read changes nothing. */
  lemma SetWhatWasRead(mem: seq<bv8>, offset: uint64, len: uint64)
    requires GetVec(mem, offset, len).Ok?
    ensures SetSlice(mem, offset, GetVec(mem, offset, len).value) == mem
  {
  }

  /** A failed write (the range does not fit) leaves the memory as it was. */
  lemma FailedSetChangesNothing(mem: seq<bv8>, offset: uint64, buf: Bytes)
    requires !FitsMemory(offset, |buf|, |mem|)
    ensures SetSlice(mem, offset, buf) == mem
    ensures GetVec(mem, offset, |buf|) == Err(HostError)
  {
  }

  /** The host functions offered to one guest call. `memory` stands for the
      `&mut dyn MemoryLike` the logic borrows; the register file is never
      written by the host functions modelled here, so every property below
      holds whatever it contains. */
  class VMLogic {
    const memory: array<bv8>
    var returnData: ReturnData
    var registers: map<uint64, Bytes>

    constructor (memory: array<bv8>)
      ensures this.memory == memory
      ensures returnData == ReturnData.None && Outcome() == ReturnData.None
      ensures registers == map[]
    {
      this.memory := memory;
      returnData := ReturnData.None;
      registers := map[];
    }

    /** `try_fit_mem`: succeeds exactly when the whole range lies inside memory. */
    function TryFitMem(offset: uint64, len: uint64): (r: Result<(), VMLogicError>)
      ensures r.Ok? <==> offset <= memory.Length && len <= memory.Length - offset
      ensures r.Err? ==> r.error == HostError
    {
      if FitsMemory(offset, len, memory.Length) then Ok(()) else Err(HostError)
    }

    /** `memory_get_vec`: a fresh buffer of `len` bytes copied out of memory
        (`read_memory`), or `HostError` without reading. */
    method MemoryGetVec(offset: uint64, len: uint64) returns (r: Result<Bytes, VMLogicError>)
      ensures r.Ok? <==> FitsMemory(offset, len, memory.Length)
      ensures r.Err? ==> r.error == HostError
      ensures r.Ok? ==> |r.value| == len
      ensures r.Ok? ==> forall i | 0 <= i < len :: r.value[i] == memory[offset + i]
      ensures r == GetVec(memory[..], offset, len)
    {
      var fit := TryFitMem(offset, len);
      if fit.Err? {
        return Err(fit.error);
      }
      var buf := new bv8[len];
      var i: nat := 0;
      while i < len
        invariant i <= len
        invariant forall k | 0 <= k < i :: buf[k] == memory[offset + k]
      {
        buf[i] := memory[offset + i];
        i := i + 1;
      }
      assert buf[..] == memory[offset..offset + len];
      return Ok(buf[..]);
    }

    /** `MemoryLike::write_memory`: copies `buf` into memory at `offset`. */
    method WriteMemory(offset: uint64, buf: Bytes)
      requires FitsMemory(offset, |buf|, memory.Length)
      modifies memory
      ensures memory[..] == Splice(old(memory[..]), offset, buf)
    {
      var i: nat := 0;
      while i < |buf|
        invariant i <= |buf|
        invariant forall k | 0 <= k < memory.Length ::
          memory[k] == if offset <= k < offset + i then buf[k - offset] else old(memory[k])
      {
        memory[offset + i] := buf[i];
        i := i + 1;
      }
      var want := Splice(old(memory[..]), offset, buf);
      forall k | 0 <= k < memory.Length
        ensures memory[k] == want[k]
      {
        if offset <= k < offset + |buf| {
          assert want[k] == want[offset..offset + |buf|][k - offset];
        }
      }
    }

    /** `memory_set_slice`: writes `buf` at `offset`, or fails with `HostError`
        and leaves memory untouched. */
    method MemorySetSlice(offset: uint64, buf: Bytes) returns (r: Result<(), VMLogicError>)
      modifies memory
      ensures r.Ok? <==> FitsMemory(offset, |buf|, memory.Length)
      ensures r.Err? ==> r.error == HostError && memory[..] == old(memory[..])
      ensures r.Ok? ==> memory[offset..offset + |buf|] == buf
      ensures forall j | 0 <= j < memory.Length && !(offset <= j < offset + |buf|) :: memory[j] == old(memory[j])
      ensures memory[..] == SetSlice(old(memory[..]), offset, buf)
    {
      var fit := TryFitMem(offset, |buf|);
      if fit.Err? {
        return Err(fit.error);
      }
      WriteMemory(offset, buf);
      return Ok(());
    }

    /** `internal_read_register`: a copy of the register's bytes, or `HostError`
        when the register was never written. */
    function InternalReadRegister(registerId: uint64): (r: Result<Bytes, VMLogicError>)
      reads this
      ensures r.Ok? <==> registerId in registers
      ensures r.Ok? ==> r.value == registers[registerId]
      ensures r.Err? ==> r.error == HostError
    {
      if registerId in registers then Ok(registers[registerId]) else Err(HostError)
    }

    /** `read_register`: copies the whole register into memory at `ptr`, as
        `memory_set_slice` would; the register file itself is never changed. */
    method ReadRegister(registerId: uint64, ptr: uint64) returns (r: Result<(), VMLogicError>)
      modifies memory
      ensures registers == old(registers) && returnData == old(returnData)
      ensures registerId !in registers ==> r == Err(HostError) && memory[..] == old(memory[..])
      ensures registerId in registers ==>
                && (r.Ok? <==> FitsMemory(ptr, |registers[registerId]|, memory.Length))
                && (r.Err? ==> r.error == HostError)
                && memory[..] == SetSlice(old(memory[..]), ptr, registers[registerId])
    {
      var data := InternalReadRegister(registerId);
      if data.Err? {
        return Err(data.error);
      }
      r := MemorySetSlice(ptr, data.value);
    }

    /** `register_len`: the register's length, or the sentinel `u64::MAX` for a
        register never written; it never fails. */
    function RegisterLen(registerId: uint64): (r: Result<uint64, VMLogicError>)
      reads this
      ensures r.Ok?
      ensures registerId in registers ==> r.value == |registers[registerId]|
      ensures registerId !in registers ==> r.value == UINT64_MAX
    {
      Ok(if registerId in registers then |registers[registerId]| else UINT64_MAX)
    }

    /** `outcome`: what the call produced; `None` unless something set it. */
    function Outcome(): ReturnData
      reads this
    {
      returnData
    }

    /** The sentinel is ambiguous: `register_len` answers `u64::MAX` exactly when
        the register is absent or holds exactly `u64::MAX` bytes. */
    lemma RegisterLenSentinel(registerId: uint64)
      ensures RegisterLen(registerId).value == UINT64_MAX <==>
                registerId !in registers || |registers[registerId]| == UINT64_MAX
    {
    }
  }
}
