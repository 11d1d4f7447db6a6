/** One flat address space of bytes, the pointer-sized words stored in it and
    the C library calls that write to it. */
module Memory {
  import opened Align

  type byte = x: int | 0 <= x < 256

  /** What the code asks of the machine: getpagesize(), and whether _LP64 is defined. */
  datatype Platform = Platform(pageSize: nat, lp64: bool) {
    ghost predicate Ok() { pageSize > 0 && Multiple(pageSize, 16) }

    function Align(): nat { if lp64 then 16 else 8 }

    function PtrSize(): nat { if lp64 then 8 else 4 }

    /** The bytes taken by `n` pointers. */
    function Span(n: nat): nat { if lp64 then 8 * n else 4 * n }
  }

  lemma {:induction false} SpanIs(pl: Platform, n: nat)
    ensures pl.PtrSize() == (if pl.lp64 then 8 else 4) && pl.Span(n) == n * pl.PtrSize()
    ensures Range(pl.PtrSize()) == if pl.lp64 then 0x1_0000_0000_0000_0000 else 0x1_0000_0000
  {
    assert Range(4) == 0x1_0000_0000;
    assert Range(8) == 256 * (256 * (256 * (256 * Range(4))));
  }

  /** Overwrite the bytes from `addr` on. */
  function Store(mem: seq<byte>, addr: nat, bytes: seq<byte>): seq<byte>
    requires addr + |bytes| <= |mem|
  {
    mem[..addr] + bytes + mem[addr + |bytes|..]
  }

  function Load(mem: seq<byte>, addr: nat, n: nat): seq<byte>
    requires addr + n <= |mem|
  {
    mem[addr..addr + n]
  }

  /** `mem'` may differ from `mem` only at addresses in [lo, hi). */
  ghost predicate SameOutside(mem: seq<byte>, mem': seq<byte>, lo: nat, hi: nat) {
    |mem'| == |mem| &&
    forall x :: 0 <= x < |mem| && !(lo <= x < hi) ==> mem'[x] == mem[x]
  }

  lemma {:induction false} LoadStored(mem: seq<byte>, addr: nat, bytes: seq<byte>)
    requires addr + |bytes| <= |mem|
    ensures Load(Store(mem, addr, bytes), addr, |bytes|) == bytes
    ensures SameOutside(mem, Store(mem, addr, bytes), addr, addr + |bytes|)
  {
  }

  lemma {:induction false} StoredAt(mem: seq<byte>, addr: nat, bytes: seq<byte>)
    requires addr + |bytes| <= |mem|
    ensures forall x :: addr <= x < addr + |bytes| ==> Store(mem, addr, bytes)[x] == bytes[x - addr]
  {
  }

  lemma {:induction false} LoadElsewhere(mem: seq<byte>, mem': seq<byte>, lo: nat, hi: nat, addr: nat, n: nat)
    requires SameOutside(mem, mem', lo, hi)
    requires addr + n <= |mem|
    requires addr + n <= lo || hi <= addr
    ensures Load(mem', addr, n) == Load(mem, addr, n)
  {
  }

  // ----- words -----

  /** How many values fit in `n` bytes. */
  function Range(n: nat): (r: nat)
    ensures r >= 1
  {
    if n == 0 then 1 else 256 * Range(n - 1)
  }

  /** Little-endian bytes of a word. */
  function Encode(n: nat, v: nat): (bs: seq<byte>)
    ensures |bs| == n
  {
    if n == 0 then [] else [v % 256] + Encode(n - 1, v / 256)
  }

  function Decode(bs: seq<byte>): nat {
    if bs == [] then 0 else bs[0] + 256 * Decode(bs[1..])
  }

  lemma {:induction false} DecodeEncoded(n: nat, v: nat)
    requires v < Range(n)
    ensures Decode(Encode(n, v)) == v
  {
    if n == 0 {
    } else {
      DecodeEncoded(n - 1, v / 256);
      assert Encode(n, v)[1..] == Encode(n - 1, v / 256);
    }
  }

  /** The pointer held in slot `i` of the array of pointers at `data`. */
  function Slot(pl: Platform, mem: seq<byte>, data: nat, i: nat): nat
    requires data + pl.Span(i + 1) <= |mem|
  {
    Decode(Load(mem, data + pl.Span(i), pl.PtrSize()))
  }

  /** The first `n` pointers of the array at `data`. */
  function Words(pl: Platform, mem: seq<byte>, data: nat, n: nat): (r: seq<nat>)
    requires data + pl.Span(n) <= |mem|
    ensures |r| == n
  {
    seq(n, i requires 0 <= i < n => Slot(pl, mem, data, i))
  }

  /** Only the bytes of the array decide its words, wherever they lie. */
  lemma {:induction false} WordsOfCopy(pl: Platform, mem: seq<byte>, data: nat, mem': seq<byte>, data': nat, n: nat)
    requires data + pl.Span(n) <= |mem| && data' + pl.Span(n) <= |mem'|
    requires Load(mem', data', pl.Span(n)) == Load(mem, data, pl.Span(n))
    ensures Words(pl, mem', data', n) == Words(pl, mem, data, n)
  {
    forall i | 0 <= i < n
      ensures Slot(pl, mem', data', i) == Slot(pl, mem, data, i)
    {
      SubLoad(mem, data, pl.Span(n), pl.Span(i), pl.PtrSize());
      SubLoad(mem', data', pl.Span(n), pl.Span(i), pl.PtrSize());
    }
  }

  lemma {:induction false} SubLoad(mem: seq<byte>, addr: nat, n: nat, from: nat, k: nat)
    requires addr + n <= |mem| && from + k <= n
    ensures Load(mem, addr + from, k) == Load(mem, addr, n)[from..from + k]
  {
    var whole, part := Load(mem, addr, n), Load(mem, addr + from, k);
    forall j | 0 <= j < k
      ensures part[j] == whole[from + j]
    {
      assert whole[from + j] == mem[addr + (from + j)];
    }
  }

  /** Memory after `data[i] = v`. */
  function SetSlot(pl: Platform, mem: seq<byte>, data: nat, i: nat, v: nat): seq<byte>
    requires data + pl.Span(i + 1) <= |mem|
  {
    Store(mem, data + pl.Span(i), Encode(pl.PtrSize(), v))
  }

  lemma {:induction false} SlotSet(pl: Platform, mem: seq<byte>, data: nat, i: nat, v: nat)
    requires data + pl.Span(i + 1) <= |mem| && v < Range(pl.PtrSize())
    ensures var mem' := SetSlot(pl, mem, data, i, v);
            SameOutside(mem, mem', data + pl.Span(i), data + pl.Span(i + 1)) &&
            Slot(pl, mem', data, i) == v &&
            forall j: nat :: j != i && data + pl.Span(j + 1) <= |mem| ==>
                Slot(pl, mem', data, j) == Slot(pl, mem, data, j)
  {
    var bytes := Encode(pl.PtrSize(), v);
    var mem' := SetSlot(pl, mem, data, i, v);
    LoadStored(mem, data + pl.Span(i), bytes);
    DecodeEncoded(pl.PtrSize(), v);
    forall j: nat | j != i && data + pl.Span(j + 1) <= |mem|
      ensures Slot(pl, mem', data, j) == Slot(pl, mem, data, j)
    {
      LoadElsewhere(mem, mem', data + pl.Span(i), data + pl.Span(i + 1), data + pl.Span(j), pl.PtrSize());
    }
  }

  // ----- the C library -----

  function Zeros(n: nat): seq<byte> {
    seq(n, _ => 0)
  }

  /** The `n` bytes strncpy leaves at its destination for the NUL-free text `s`. */
  function StrnBytes(s: seq<byte>, n: nat): (r: seq<byte>)
    ensures |r| == n
  {
    if n <= |s| then s[..n] else s + Zeros(n - |s|)
  }

  /** The text as far as it goes, then NULs. */
  lemma {:induction false} StrnBytesAt(s: seq<byte>, n: nat)
    ensures forall i :: 0 <= i < n ==> StrnBytes(s, n)[i] == if i < |s| then s[i] else 0
  {
  }

  method MemSet(memory: array<byte>, dst: nat, value: byte, n: nat)
    requires dst + n <= memory.Length
    modifies memory
    ensures memory[..] == Store(old(memory[..]), dst, seq(n, _ => value))
  {
    forall i | 0 <= i < n {
      memory[dst + i] := value;
    }
  }

  method MemCpy(memory: array<byte>, dst: nat, src: nat, n: nat)
    requires dst + n <= memory.Length && src + n <= memory.Length
    requires dst + n <= src || src + n <= dst
    modifies memory
    ensures memory[..] == Store(old(memory[..]), dst, Load(old(memory[..]), src, n))
  {
    forall i | 0 <= i < n {
      memory[dst + i] := memory[src + i];
    }
  }

  method StrNCpy(memory: array<byte>, dst: nat, s: seq<byte>, n: nat)
    requires dst + n <= memory.Length
    modifies memory
    ensures memory[..] == Store(old(memory[..]), dst, StrnBytes(s, n))
  {
    forall i | 0 <= i < n {
      memory[dst + i] := if i < |s| then s[i] else 0;
    }
  }

  method WriteWord(pl: Platform, memory: array<byte>, data: nat, i: nat, v: nat)
    requires data + pl.Span(i + 1) <= memory.Length
    modifies memory
    ensures memory[..] == SetSlot(pl, old(memory[..]), data, i, v)
  {
    var bytes := Encode(pl.PtrSize(), v);
    forall k | 0 <= k < |bytes| {
      memory[data + pl.Span(i) + k] := bytes[k];
    }
  }

  method ReadWord(pl: Platform, memory: array<byte>, data: nat, i: nat) returns (v: nat)
    requires data + pl.Span(i + 1) <= memory.Length
    ensures v == Slot(pl, memory[..], data, i)
  {
    v := Decode(memory[data + pl.Span(i)..data + pl.Span(i) + pl.PtrSize()]);
    assert memory[..][data + pl.Span(i)..data + pl.Span(i) + pl.PtrSize()]
        == memory[data + pl.Span(i)..data + pl.Span(i) + pl.PtrSize()];
  }
}
