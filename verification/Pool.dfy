/** libae/pool.c: a page-backed bump allocator that only grows in place. */
module Pool {
  import opened Wrappers
  import opened Align
  import opened Memory

  /** What mmap or mremap gives back. */
  datatype Answer = Refused | At(addr: nat)

  /** The fields of ae_pool_t. */
  datatype PoolRec = PoolRec(len: nat, start: nat, end: nat, next: nat)

  /** The pool describes whole pages inside an address space of `space` bytes. */
  ghost predicate Sound(pl: Platform, p: PoolRec, space: nat) {
    && pl.Ok()
    && Multiple(p.start, pl.pageSize) && Multiple(p.len, pl.pageSize)
    && p.end == p.start + p.len
    && p.start <= p.next <= p.end <= space
  }

  /** A kernel that says it grew a mapping in place had the room for it. */
  ghost predicate KernelKeepsFaith(pl: Platform, p: PoolRec, more: nat, answer: Answer, space: nat) {
    pl.Ok() && (answer == At(p.start) ==> p.start + AlignUp(p.len + more, pl.pageSize) <= space)
  }

  function Remapped(pl: Platform, p: PoolRec, more: nat, answer: Answer): Option<PoolRec>
    requires pl.pageSize > 0
  {
    if answer != At(p.start) then None
    else
      var newLen := AlignUp(p.len + more, pl.pageSize);
      Some(p.(len := newLen, end := p.start + newLen))
  }

  datatype Grant = Grant(pool: PoolRec, addr: nat)

  /** Where a request for `n` bytes is placed, and the pool after it. */
  function Place(pl: Platform, p: PoolRec, n: nat, answer: Answer): Option<Grant>
    requires pl.pageSize > 0
  {
    var addr := AlignUp(p.next, pl.Align());
    if addr + n <= p.end then Some(Grant(p.(next := addr + n), addr))
    else
      match Remapped(pl, p, n, answer)
      case None => None
      case Some(q) => Some(Grant(q.(next := addr + n), addr))
  }

  /** The block `src` ends exactly at the bump pointer, the case the code refuses. */
  predicate EndsAtNext(p: PoolRec, src: nat, srcLen: nat) {
    src + srcLen == p.next
  }

  // ----- properties -----

  /** Pages are whole multiples of the alignment. */
  lemma {:induction false} PagesAreAligned(pl: Platform, x: nat)
    requires pl.Ok() && Multiple(x, pl.pageSize)
    ensures Multiple(x, pl.Align())
  {
    assert Multiple(16, 8) && Multiple(16, 16);
    MultipleTrans(pl.pageSize, 16, pl.Align());
    MultipleTrans(x, pl.pageSize, pl.Align());
  }

  /** On both kinds of machine the mask rounds up to the alignment. */
  lemma {:induction false} MaskIsAlignment(pl: Platform, p: nat)
    ensures AlignPtr(p, if pl.lp64 then 16 else 8) == AlignUp(p, pl.Align())
  {
    assert Pow2(4) == 16 && Pow2(3) == 8;
    AlignPtrIsAlignUp(p, if pl.lp64 then 4 else 3);
  }

  /** Rounding the bump pointer up never passes the end of the pool. */
  lemma {:induction false} AligningStaysInside(pl: Platform, p: PoolRec, space: nat)
    requires Sound(pl, p, space)
    ensures p.next <= AlignUp(p.next, pl.Align()) <= p.end
  {
    MultipleSum(p.start, p.len, pl.pageSize);
    PagesAreAligned(pl, p.end);
    AlignUpIsLeast(p.next, pl.Align());
  }

  lemma {:induction false} RemapKeepsSound(pl: Platform, p: PoolRec, more: nat, answer: Answer, space: nat)
    requires Sound(pl, p, space) && KernelKeepsFaith(pl, p, more, answer, space)
    requires answer == At(p.start)
    ensures Remapped(pl, p, more, answer).Some?
    ensures var q := Remapped(pl, p, more, answer).value;
            Sound(pl, q, space) && q.end >= p.end + more && q.len == p.len + AlignUp(more, pl.pageSize)
  {
    AlignUpIsLeast(p.len + more, pl.pageSize);
    AlignUpShift(p.len, more, pl.pageSize);
  }

  /** The block handed out starts at an aligned address at or above the old bump
      pointer, ends exactly at the new one, and that is inside the pool: asking
      the kernel for `n` bytes beyond `end` is enough although the request
      started at the aligned bump pointer. */
  lemma {:induction false} AllocStaysInside(pl: Platform, p: PoolRec, n: nat, answer: Answer, space: nat)
    requires Sound(pl, p, space) && KernelKeepsFaith(pl, p, n, answer, space)
    ensures Place(pl, p, n, answer).Some? ==>
      var g := Place(pl, p, n, answer).value;
      && Sound(pl, g.pool, space)
      && g.pool.start == p.start && p.end <= g.pool.end
      && Multiple(g.addr, pl.Align())
      && p.next <= g.addr && g.addr + n == g.pool.next
  {
    AligningStaysInside(pl, p, space);
    AlignUpIsLeast(p.next, pl.Align());
    if answer == At(p.start) {
      RemapKeepsSound(pl, p, n, answer, space);
    }
  }

  /** A request fails exactly when it does not fit and the kernel will not grow the mapping. */
  lemma {:induction false} AllocFailsIff(pl: Platform, p: PoolRec, n: nat, answer: Answer)
    requires pl.pageSize > 0
    ensures Place(pl, p, n, answer).None? <==>
            AlignUp(p.next, pl.Align()) + n > p.end && answer != At(p.start)
  {
  }

  /** The aligned bump pointer moves by exactly the rounded size of the request,
      and the mapping by at most the page-rounded size. */
  lemma {:induction false} AllocAccounting(pl: Platform, p: PoolRec, n: nat, answer: Answer, space: nat)
    requires Sound(pl, p, space) && KernelKeepsFaith(pl, p, n, answer, space)
    requires Place(pl, p, n, answer).Some?
    ensures var q := Place(pl, p, n, answer).value.pool;
            AlignUp(q.next, pl.Align()) == AlignUp(p.next, pl.Align()) + AlignUp(n, pl.Align()) &&
            p.len <= q.len <= p.len + AlignUp(n, pl.pageSize)
  {
    AlignUpIsLeast(p.next, pl.Align());
    AlignUpShift(AlignUp(p.next, pl.Align()), n, pl.Align());
    if answer == At(p.start) {
      RemapKeepsSound(pl, p, n, answer, space);
    }
  }

  // ----- requests -----

  /** What a request leaves behind: its verdict, the pointer handed out (0 when
      there is none), the pool and the memory. */
  datatype After = After(ok: bool, out: nat, pool: PoolRec, mem: seq<byte>)

  function Failed(p: PoolRec, mem: seq<byte>): After {
    After(false, 0, p, mem)
  }

  /** A request for `n` bytes of which the first `|bytes|` are then written. */
  function Request(pl: Platform, mem: seq<byte>, p: PoolRec, n: nat, answer: Answer, bytes: seq<byte>): After
    requires Sound(pl, p, |mem|) && KernelKeepsFaith(pl, p, n, answer, |mem|) && |bytes| <= n
  {
    AllocStaysInside(pl, p, n, answer, |mem|);
    match Place(pl, p, n, answer)
    case None => Failed(p, mem)
    case Some(g) => After(true, g.addr, g.pool, Store(mem, g.addr, bytes))
  }

  /** The block the source is copied to has room for it, or what lies behind has. */
  ghost predicate CopyLands(pl: Platform, mem: seq<byte>, p: PoolRec, src: nat, srcLen: nat, newLen: nat) {
    src + srcLen <= |mem| && (srcLen <= newLen || AlignUp(p.next, pl.Align()) + srcLen <= |mem|)
  }

  /** All of the source is copied, also to a block that is smaller. */
  function Reallocated(pl: Platform, mem: seq<byte>, p: PoolRec, src: nat, srcLen: nat, newLen: nat, answer: Answer)
    : After
    requires Sound(pl, p, |mem|) && KernelKeepsFaith(pl, p, newLen, answer, |mem|)
    requires CopyLands(pl, mem, p, src, srcLen, newLen)
  {
    if EndsAtNext(p, src, srcLen) then Failed(p, mem)
    else
      var r := Request(pl, mem, p, newLen, answer, []);
      RequestIsFresh(pl, mem, p, newLen, answer, []);
      if r.ok then r.(mem := Store(mem, r.out, Load(mem, src, srcLen))) else r
  }

  /** A granted request writes its own fresh block and nothing else. */
  lemma {:induction false} RequestIsFresh(pl: Platform, mem: seq<byte>, p: PoolRec, n: nat, answer: Answer,
                                          bytes: seq<byte>)
    requires Sound(pl, p, |mem|) && KernelKeepsFaith(pl, p, n, answer, |mem|) && |bytes| <= n
    ensures var r := Request(pl, mem, p, n, answer, bytes);
      if r.ok then
        && Sound(pl, r.pool, |mem|) && r.pool.start == p.start && p.end <= r.pool.end
        && Multiple(r.out, pl.Align())
        && p.next <= r.out && r.out + n == r.pool.next <= |mem|
        && SameOutside(mem, r.mem, r.out, r.out + n)
        && Load(r.mem, r.out, |bytes|) == bytes
      else
        r.pool == p && r.mem == mem
  {
    AllocStaysInside(pl, p, n, answer, |mem|);
    var r := Request(pl, mem, p, n, answer, bytes);
    if r.ok {
      LoadStored(mem, r.out, bytes);
    }
  }

  /** Asking first and writing afterwards is the request that writes. */
  lemma {:induction false} RequestThenWrite(pl: Platform, mem: seq<byte>, p: PoolRec, n: nat, answer: Answer,
                                            bytes: seq<byte>)
    requires Sound(pl, p, |mem|) && KernelKeepsFaith(pl, p, n, answer, |mem|) && |bytes| <= n
    ensures var r0, r := Request(pl, mem, p, n, answer, []), Request(pl, mem, p, n, answer, bytes);
      if r0.ok then r0.mem == mem && r0.out + n <= |mem| && r == r0.(mem := Store(mem, r0.out, bytes))
      else r0 == r == Failed(p, mem)
  {
    RequestIsFresh(pl, mem, p, n, answer, []);
    var r0 := Request(pl, mem, p, n, answer, []);
    if r0.ok {
      assert Store(mem, r0.out, []) == mem;
    }
  }

  lemma {:induction false} BlockFilled(pl: Platform, mem: seq<byte>, p: PoolRec, n: nat, answer: Answer,
                                       bytes: seq<byte>)
    requires Sound(pl, p, |mem|) && KernelKeepsFaith(pl, p, n, answer, |mem|) && |bytes| == n
    ensures var r0, r := Request(pl, mem, p, n, answer, []), Request(pl, mem, p, n, answer, bytes);
      && r0.ok == r.ok && r0.out == r.out && r0.pool == r.pool && r0.mem == mem
      && (r.ok ==>
            && r.out + n == r.pool.next <= |mem| && |r.mem| == |mem|
            && r.mem == Store(mem, r.out, bytes)
            && forall x :: r.out <= x < r.pool.next ==> r.mem[x] == bytes[x - r.out])
      && (!r.ok ==> r == Failed(p, mem) && r0 == r)
  {
    hide Place, AlignUp, Multiple, Remapped;
    RequestIsFresh(pl, mem, p, n, answer, bytes);
    RequestThenWrite(pl, mem, p, n, answer, bytes);
    var r := Request(pl, mem, p, n, answer, bytes);
    if r.ok {
      StoredAt(mem, r.out, bytes);
    }
  }

  /** To a block that is large enough, reallocating is a request that writes the source. */
  lemma {:induction false} ReallocatedIsRequest(pl: Platform, mem: seq<byte>, p: PoolRec, src: nat, srcLen: nat,
                                                newLen: nat, answer: Answer)
    requires Sound(pl, p, |mem|) && KernelKeepsFaith(pl, p, newLen, answer, |mem|)
    requires srcLen <= newLen && src + srcLen <= |mem|
    ensures Reallocated(pl, mem, p, src, srcLen, newLen, answer)
         == if EndsAtNext(p, src, srcLen) then Failed(p, mem)
            else Request(pl, mem, p, newLen, answer, Load(mem, src, srcLen))
  {
    hide Place, AlignUp, Multiple, Sound;
    RequestThenWrite(pl, mem, p, newLen, answer, Load(mem, src, srcLen));
  }

  /** The reallocation writes nothing but the block it is granted. */
  ghost predicate WritesBlockOnly(pl: Platform, mem: seq<byte>, p: PoolRec, src: nat, srcLen: nat,
                                  newLen: nat, answer: Answer)
    requires Sound(pl, p, |mem|) && KernelKeepsFaith(pl, p, newLen, answer, |mem|)
    requires CopyLands(pl, mem, p, src, srcLen, newLen)
  {
    var r := Reallocated(pl, mem, p, src, srcLen, newLen, answer);
    SameOutside(mem, r.mem, r.out, r.out + newLen)
  }

  /** A smaller block is overrun as soon as the first byte behind it differs. */
  lemma {:induction false} SmallerIsOverrun(pl: Platform, mem: seq<byte>, p: PoolRec, src: nat, srcLen: nat,
                                            newLen: nat, answer: Answer)
    requires Sound(pl, p, |mem|) && KernelKeepsFaith(pl, p, newLen, answer, |mem|)
    requires CopyLands(pl, mem, p, src, srcLen, newLen) && newLen < srcLen
    requires !EndsAtNext(p, src, srcLen) && Place(pl, p, newLen, answer).Some?
    requires mem[src + newLen] != mem[AlignUp(p.next, pl.Align()) + newLen]
    ensures !WritesBlockOnly(pl, mem, p, src, srcLen, newLen, answer)
  {
    hide AlignUp, Multiple;
    var at := AlignUp(p.next, pl.Align());
    var r := Reallocated(pl, mem, p, src, srcLen, newLen, answer);
    assert r.out == at && r.mem == Store(mem, at, Load(mem, src, srcLen));
    assert r.mem[at + newLen] == Load(mem, src, srcLen)[newLen];
  }

  /** Whatever memory holds, a granted reallocation writes nothing but its new
      block: this is so exactly when the new length is not below the old one. */
  lemma {:induction false} ReallocStaysInsideIff(pl: Platform, p: PoolRec, space: nat, src: nat, srcLen: nat,
                                                 newLen: nat, answer: Answer)
    requires Sound(pl, p, space) && KernelKeepsFaith(pl, p, newLen, answer, space)
    requires !EndsAtNext(p, src, srcLen) && Place(pl, p, newLen, answer).Some?
    requires var at := AlignUp(p.next, pl.Align());
      src + srcLen <= space && at + srcLen <= space && (src + srcLen <= at || at + srcLen <= src)
    ensures (forall mem: seq<byte> | |mem| == space :: WritesBlockOnly(pl, mem, p, src, srcLen, newLen, answer))
            <==> srcLen <= newLen
  {
    hide AlignUp, Multiple, Sound, Place, Reallocated, WritesBlockOnly;
    if srcLen <= newLen {
      forall mem: seq<byte> | |mem| == space
        ensures WritesBlockOnly(pl, mem, p, src, srcLen, newLen, answer)
      {
        LargerIsKept(pl, mem, p, src, srcLen, newLen, answer);
      }
    } else {
      var mem: seq<byte> := seq(space, x => if x == src + newLen then 1 else 0);
      SmallerIsOverrun(pl, mem, p, src, srcLen, newLen, answer);
    }
  }

  lemma {:induction false} LargerIsKept(pl: Platform, mem: seq<byte>, p: PoolRec, src: nat, srcLen: nat,
                                        newLen: nat, answer: Answer)
    requires Sound(pl, p, |mem|) && KernelKeepsFaith(pl, p, newLen, answer, |mem|)
    requires srcLen <= newLen && src + srcLen <= |mem|
    ensures WritesBlockOnly(pl, mem, p, src, srcLen, newLen, answer)
  {
    hide AlignUp, Multiple, Place, Request, Reallocated;
    ReallocatedIsRequest(pl, mem, p, src, srcLen, newLen, answer);
    RequestIsFresh(pl, mem, p, newLen, answer, Load(mem, src, srcLen));
  }

  lemma {:induction false} BlockBelowGrownEnd(pl: Platform, mem: seq<byte>, p: PoolRec, n: nat, answer: Answer)
    requires Sound(pl, p, |mem|) && KernelKeepsFaith(pl, p, n, answer, |mem|)
    ensures var r := Request(pl, mem, p, n, answer, []);
            r.ok ==> r.out + n <= p.end + AlignUp(n, pl.pageSize)
  {
    AligningStaysInside(pl, p, |mem|);
    AlignUpIsLeast(n, pl.pageSize);
  }

  /** The text held at an address, up to the first NUL, when there is one in the block. */
  predicate IsCString(block: seq<byte>, s: seq<byte>) {
    s < block && block[|s|] == 0 && 0 !in s
  }

  /** The size of the copy; a length of -1 asks for that of the source. */
  function DupLength(s: seq<byte>, srcLen: int): nat
    requires srcLen >= -1
  {
    (if srcLen == -1 then |s| else srcLen) + 1
  }

  /** The values of ssize_t. */
  predicate IsSsize(pl: Platform, n: int) {
    -(Range(pl.PtrSize()) / 2) <= n < Range(pl.PtrSize()) / 2
  }

  /** The conversion to size_t of a length that is not -1. */
  function AsSize(pl: Platform, srcLen: int): (r: int)
    requires IsSsize(pl, srcLen)
    ensures r >= -1
  {
    if srcLen < -1 then Range(pl.PtrSize()) + srcLen else srcLen
  }

  /** The first `n` bytes are a copy of the string exactly when they reach its
      terminator; otherwise they have none at all. */
  lemma {:induction false} StrncpyCopiesIff(s: seq<byte>, n: nat)
    requires 0 !in s
    ensures IsCString(StrnBytes(s, n), s) <==> n > |s|
    ensures n <= |s| ==> 0 !in StrnBytes(s, n)
  {
    if n > |s| {
      assert StrnBytes(s, n)[..|s|] == s;
    } else {
      forall i | 0 <= i < n
        ensures StrnBytes(s, n)[i] != 0
      {
        assert s[i] in s;
      }
    }
  }

  // ----- sums of the machine -----

  /** The low bits of a sum, as many as a pointer has. */
  function Low(pl: Platform, x: int): nat {
    x % Range(pl.PtrSize())
  }

  /** The length of a mapping of at least `newTotal` bytes. */
  function CodedLength(pl: Platform, newTotal: nat): nat
    requires pl.pageSize > 0
  {
    Low(pl, Low(pl, newTotal + pl.pageSize - 1) / pl.pageSize * pl.pageSize)
  }

  /** The request in the arithmetic of the machine, where a sum of an address or
      a size and a size keeps its low bits only. */
  function CodedPlace(pl: Platform, p: PoolRec, n: nat, answer: Answer): Option<Grant>
    requires pl.pageSize > 0
  {
    var addr := AlignUp(p.next, pl.Align());
    var next := Low(pl, addr + n);
    if next <= p.end then Some(Grant(p.(next := next), addr))
    else if answer != At(p.start) then None
    else
      var newLen := CodedLength(pl, Low(pl, p.len + n));
      Some(Grant(PoolRec(newLen, p.start, Low(pl, p.start + newLen), next), addr))
  }

  /** A pool in the address space of the machine, whose last page is never mapped. */
  ghost predicate InMachine(pl: Platform, p: PoolRec, space: nat) {
    Sound(pl, p, space) && space + pl.pageSize <= Range(pl.PtrSize())
  }

  /** A kernel that says it resized a mapping in place was asked for some pages and
      had the room for them. */
  ghost predicate CodedFaith(pl: Platform, p: PoolRec, n: nat, answer: Answer, space: nat)
    requires pl.pageSize > 0
  {
    answer == At(p.start) ==>
      var newLen := CodedLength(pl, Low(pl, p.len + n));
      0 < newLen && p.start + newLen <= space
  }

  /** The aligned bump pointer and the size add up to an address. */
  predicate NoWrap(pl: Platform, p: PoolRec, n: nat) {
    AlignUp(p.next, pl.Align()) + n < Range(pl.PtrSize())
  }

  predicate FitsNow(pl: Platform, p: PoolRec, n: nat) {
    AlignUp(p.next, pl.Align()) + n <= p.end
  }

  /** The size of the mapping and that of the request add up to a size. */
  predicate NoLengthWrap(pl: Platform, p: PoolRec, n: nat) {
    p.len + n < Range(pl.PtrSize())
  }

  lemma {:induction false} LowOf(pl: Platform, x: nat)
    ensures x < Range(pl.PtrSize()) ==> Low(pl, x) == x
    ensures Range(pl.PtrSize()) <= x < 2 * Range(pl.PtrSize()) ==> Low(pl, x) == x - Range(pl.PtrSize())
  {
    hide Range;
  }

  /** A length is rounded up, or to nothing where that is out of range. */
  lemma {:induction false} CodedLengthRounds(pl: Platform, x: nat)
    requires 0 < pl.pageSize <= Range(pl.PtrSize()) && x < Range(pl.PtrSize())
    ensures CodedLength(pl, x) == if x + pl.pageSize <= Range(pl.PtrSize()) then AlignUp(x, pl.pageSize) else 0
  {
    hide AlignUp, Range, Low;
    LowOf(pl, x + pl.pageSize - 1);
    if x + pl.pageSize <= Range(pl.PtrSize()) {
      AlignUpIsLeast(x, pl.pageSize);
      CeilDivIsAlignUp(x, pl.pageSize);
      LowOf(pl, AlignUp(x, pl.pageSize));
    } else {
      SmallDivision(x + pl.pageSize - 1 - Range(pl.PtrSize()), pl.pageSize);
      LowOf(pl, 0);
    }
  }

  /** Asked for a length whose sum has wrapped around, a kernel that agrees makes the
      mapping no longer than it was. */
  lemma {:induction false} WrappedLength(pl: Platform, p: PoolRec, n: nat, answer: Answer, space: nat)
    requires InMachine(pl, p, space) && n < Range(pl.PtrSize()) && CodedFaith(pl, p, n, answer, space)
    ensures !NoLengthWrap(pl, p, n) && answer == At(p.start) ==>
              && Low(pl, p.len + n) == p.len + n - Range(pl.PtrSize())
              && 0 < CodedLength(pl, Low(pl, p.len + n)) <= p.len
  {
    hide AlignUp, Multiple, Range, CodedLength, Low;
    if !NoLengthWrap(pl, p, n) && answer == At(p.start) {
      LowOf(pl, p.len + n);
      CodedLengthRounds(pl, p.len + n - Range(pl.PtrSize()));
      AlignUpIsLeast(p.len + n - Range(pl.PtrSize()), pl.pageSize);
    }
  }

  /** The machine does with a request what is meant exactly when the sum with the
      bump pointer is an address, and the request fits, or the new length of the
      mapping is a size, or the kernel refuses. */
  lemma {:induction false} CodedPlaceIff(pl: Platform, p: PoolRec, n: nat, answer: Answer, space: nat)
    requires InMachine(pl, p, space) && n < Range(pl.PtrSize()) && CodedFaith(pl, p, n, answer, space)
    ensures CodedPlace(pl, p, n, answer) == Place(pl, p, n, answer) <==>
            NoWrap(pl, p, n) && (FitsNow(pl, p, n) || NoLengthWrap(pl, p, n) || answer != At(p.start))
  {
    hide AlignUp, Multiple, Range, CodedLength, Low;
    AligningStaysInside(pl, p, space);
    LowOf(pl, AlignUp(p.next, pl.Align()) + n);
    if NoWrap(pl, p, n) && !FitsNow(pl, p, n) && answer == At(p.start) {
      if NoLengthWrap(pl, p, n) {
        LowOf(pl, p.len + n);
        CodedLengthRounds(pl, p.len + n);
        LowOf(pl, p.start + AlignUp(p.len + n, pl.pageSize));
      } else {
        WrappedLength(pl, p, n, answer, space);
        AlignUpIsLeast(p.len + n, pl.pageSize);
      }
    }
  }

  /** What it does otherwise. Where the first sum wraps around, the request is granted
      whatever the kernel would say, and the bump pointer moves back. Where only
      the second one does, it is granted when the kernel agrees to a mapping that
      is no longer than before, and the bump pointer passes the end. */
  lemma {:induction false} Miscalculated(pl: Platform, p: PoolRec, n: nat, answer: Answer, space: nat)
    requires InMachine(pl, p, space) && n < Range(pl.PtrSize()) && CodedFaith(pl, p, n, answer, space)
    ensures !NoWrap(pl, p, n) ==>
              var addr := AlignUp(p.next, pl.Align());
              && CodedPlace(pl, p, n, answer) == Some(Grant(p.(next := addr + n - Range(pl.PtrSize())), addr))
              && addr + n - Range(pl.PtrSize()) < addr
    ensures NoWrap(pl, p, n) && !FitsNow(pl, p, n) && !NoLengthWrap(pl, p, n) && answer == At(p.start) ==>
              var addr, len := AlignUp(p.next, pl.Align()), CodedLength(pl, Low(pl, p.len + n));
              && CodedPlace(pl, p, n, answer) == Some(Grant(PoolRec(len, p.start, p.start + len, addr + n), addr))
              && 0 < len <= p.len && p.start + len < addr + n
  {
    hide AlignUp, Multiple, Range, CodedLength, Low;
    AligningStaysInside(pl, p, space);
    LowOf(pl, AlignUp(p.next, pl.Align()) + n);
    WrappedLength(pl, p, n, answer, space);
    if !NoLengthWrap(pl, p, n) && answer == At(p.start) {
      LowOf(pl, p.start + CodedLength(pl, Low(pl, p.len + n)));
    }
  }

  /** A granted request has its block in a sound pool exactly when none of the sums
      it depends on wraps around. */
  lemma {:induction false} GrantSoundIff(pl: Platform, p: PoolRec, n: nat, answer: Answer, space: nat)
    requires InMachine(pl, p, space) && n < Range(pl.PtrSize()) && CodedFaith(pl, p, n, answer, space)
    requires CodedPlace(pl, p, n, answer).Some?
    ensures var g := CodedPlace(pl, p, n, answer).value;
      Sound(pl, g.pool, space) && g.addr + n <= g.pool.next <==>
      NoWrap(pl, p, n) && (FitsNow(pl, p, n) || NoLengthWrap(pl, p, n))
  {
    hide AlignUp, Multiple, Range, CodedLength, Low;
    CodedPlaceIff(pl, p, n, answer, space);
    if CodedPlace(pl, p, n, answer) == Place(pl, p, n, answer) {
      FaithMeant(pl, p, n, answer, space);
    } else {
      Miscalculated(pl, p, n, answer, space);
    }
  }

  lemma {:induction false} FaithMeant(pl: Platform, p: PoolRec, n: nat, answer: Answer, space: nat)
    requires InMachine(pl, p, space) && n < Range(pl.PtrSize()) && CodedFaith(pl, p, n, answer, space)
    requires CodedPlace(pl, p, n, answer).Some? && NoWrap(pl, p, n)
    requires FitsNow(pl, p, n) || NoLengthWrap(pl, p, n)
    requires CodedPlace(pl, p, n, answer) == Place(pl, p, n, answer)
    ensures Sound(pl, Place(pl, p, n, answer).value.pool, space)
    ensures var g := Place(pl, p, n, answer).value; g.addr + n <= g.pool.next
  {
    hide AlignUp, Multiple, Range, CodedLength, Low, CodedPlace;
    AligningStaysInside(pl, p, space);
    if FitsNow(pl, p, n) {
      AllocStaysInside(pl, p, n, Refused, space);
    } else {
      LowOf(pl, p.len + n);
      CodedLengthRounds(pl, p.len + n);
      AllocStaysInside(pl, p, n, answer, space);
    }
  }

  /** For every ssize_t length that is granted: the block lies in a sound pool and
      holds the same string exactly when the length is negative or not understated
      and no sum the request depends on wraps around. */
  lemma {:induction false} StrdupCopiesIff(pl: Platform, p: PoolRec, s: seq<byte>, srcLen: int, answer: Answer,
                                           space: nat)
    requires InMachine(pl, p, space) && IsSsize(pl, srcLen) && IsSsize(pl, |s|) && 0 !in s
    requires CodedFaith(pl, p, DupLength(s, AsSize(pl, srcLen)), answer, space)
    requires CodedPlace(pl, p, DupLength(s, AsSize(pl, srcLen)), answer).Some?
    ensures var n := DupLength(s, AsSize(pl, srcLen));
      var g := CodedPlace(pl, p, n, answer).value;
      && (Sound(pl, g.pool, space) && g.addr + n <= g.pool.next && IsCString(StrnBytes(s, n), s) <==>
          && (srcLen < 0 || srcLen >= |s|)
          && NoWrap(pl, p, n) && (FitsNow(pl, p, n) || NoLengthWrap(pl, p, n)))
      && (0 <= srcLen < |s| ==> 0 !in StrnBytes(s, n))
  {
    hide AlignUp, Multiple, Range, CodedPlace, CodedFaith, StrnBytes, IsCString, NoWrap, NoLengthWrap, FitsNow;
    var n := DupLength(s, AsSize(pl, srcLen));
    GrantSoundIff(pl, p, n, answer, space);
    StrncpyCopiesIff(s, n);
  }

  /** A length below -1 is a huge size. It is asked for as such only while the aligned
      bump pointer is below the magnitude of that length less one, and so is the
      length of the mapping unless the request fits or the kernel refuses. */
  lemma {:induction false} NegativeLengthIff(pl: Platform, p: PoolRec, s: seq<byte>, srcLen: int, answer: Answer,
                                             space: nat)
    requires InMachine(pl, p, space) && IsSsize(pl, srcLen) && srcLen < -1
    requires CodedFaith(pl, p, DupLength(s, AsSize(pl, srcLen)), answer, space)
    ensures var n, addr := DupLength(s, AsSize(pl, srcLen)), AlignUp(p.next, pl.Align());
      && (CodedPlace(pl, p, n, answer) == Place(pl, p, n, answer) <==>
          addr < -srcLen - 1 && (FitsNow(pl, p, n) || p.len < -srcLen - 1 || answer != At(p.start)))
      && (addr >= -srcLen - 1 ==>
            CodedPlace(pl, p, n, answer) == Some(Grant(p.(next := addr + srcLen + 1), addr)))
  {
    hide AlignUp, Multiple, CodedPlace, CodedFaith, Place, Range, FitsNow;
    var n := DupLength(s, AsSize(pl, srcLen));
    CodedPlaceIff(pl, p, n, answer, space);
    if CodedPlace(pl, p, n, answer) != Place(pl, p, n, answer) {
      Miscalculated(pl, p, n, answer, space);
    }
  }

  /** A pool of two pages behind the first page of memory, with nothing handed out,
      and a string with the length of minus two pages: the mapping loses a page, and
      the bump pointer is far behind its end. */
  lemma {:induction false} ShrunkByNegativeLength(pl: Platform, s: seq<byte>) returns (p: PoolRec, n: nat)
    requires pl.Ok() && 4 * pl.pageSize <= Range(pl.PtrSize())
    ensures IsSsize(pl, -2 * pl.pageSize) && n == DupLength(s, AsSize(pl, -2 * pl.pageSize))
    ensures p == PoolRec(2 * pl.pageSize, pl.pageSize, 3 * pl.pageSize, pl.pageSize)
    ensures InMachine(pl, p, 3 * pl.pageSize) && NoWrap(pl, p, n)
    ensures CodedFaith(pl, p, n, At(p.start), 3 * pl.pageSize)
    ensures CodedPlace(pl, p, n, At(p.start)) ==
            Some(Grant(PoolRec(pl.pageSize, p.start, 2 * pl.pageSize, p.start + n), p.start))
  {
    hide AlignUp, Multiple, CodedLength, Low, Range;
    var size: int := pl.pageSize;
    p := PoolRec(2 * size, size, 3 * size, size);
    n := DupLength(s, AsSize(pl, -2 * size));
    MultipleIsMod(size, size);
    MultipleIsMod(0, size);
    MultipleSum(size, size, size);
    PagesAreAligned(pl, size);
    AlignedStays(size, pl.Align());
    LowOf(pl, p.len + n);
    CodedLengthRounds(pl, 1);
    OnePage(size);
    LowOf(pl, p.start + n);
    LowOf(pl, 2 * size);
  }

  lemma {:induction false} OnePage(size: nat)
    requires size > 0
    ensures AlignUp(1, size) == size
  {
  }

  // ----- the object -----

  class Pool {
    const platform: Platform
    const memory: array<byte>
    var len: nat
    var start: nat
    var end: nat
    var next: nat

    constructor (platform: Platform, memory: array<byte>)
      ensures this.platform == platform && this.memory == memory
    {
      this.platform, this.memory := platform, memory;
      len, start, end, next := 0, 0, 0, 0;
    }

    function State(): PoolRec
      reads this
    {
      PoolRec(len, start, end, next)
    }

    ghost predicate Valid()
      reads this
    {
      Sound(platform, State(), memory.Length)
    }

    /** The value of MAP_FAILED, the all-ones pointer. */
    function MapFailed(): nat {
      Range(platform.PtrSize()) - 1
    }

    method Init(initialSize: nat, answer: Answer) returns (ok: bool)
      requires platform.Ok()
      // mmap hands out whole free pages and refuses an empty mapping
      requires answer.At? ==>
        && initialSize > 0 && Multiple(answer.addr, platform.pageSize) && answer.addr != MapFailed()
        && answer.addr + AlignUp(initialSize, platform.pageSize) <= memory.Length
      modifies this
      ensures ok == answer.At?
      ensures ok ==> Valid() && start == answer.addr && next == start
      ensures len == AlignUp(initialSize, platform.pageSize)
      ensures !ok ==> start == MapFailed() && next == old(next) && end == old(end)
    {
      var pageSize := platform.pageSize;
      var pagesNeeded := (initialSize + pageSize - 1) / pageSize;
      CeilDivIsAlignUp(initialSize, pageSize);
      AlignUpIsLeast(initialSize, pageSize);
      len := pagesNeeded * pageSize;
      start := match answer case Refused => MapFailed() case At(a) => a;
      if start == MapFailed() {
        return false;
      }
      next := start;
      end := start + len;
      return true;
    }

    method Reset() returns (ok: bool)
      requires Valid()
      modifies this`next
      ensures ok && Valid() && State() == old(State()).(next := start)
    {
      next := start;
      return true;
    }

    method Remap(more: nat, answer: Answer) returns (ok: bool)
      requires Valid() && KernelKeepsFaith(platform, State(), more, answer, memory.Length)
      modifies this`len, this`end
      ensures Valid()
      ensures ok == (answer == At(start))
      ensures State() == if ok then Remapped(platform, old(State()), more, answer).value else old(State())
    {
      var pageSize := platform.pageSize;
      var newTotal := len + more;
      var pagesNeeded := (newTotal + pageSize - 1) / pageSize;
      CeilDivIsAlignUp(newTotal, pageSize);
      var newLen := pagesNeeded * pageSize;
      if answer.Refused? {
        return false;
      }
      if answer.addr != start {
        return false;
      }
      RemapKeepsSound(platform, State(), more, answer, memory.Length);
      len := newLen;
      end := start + len;
      return true;
    }

    /** The request `n` seen through the fields of this object. */
    ghost predicate MayAsk(n: nat, answer: Answer)
      reads this
    {
      Valid() && KernelKeepsFaith(platform, State(), n, answer, memory.Length)
    }

    method Alloc(n: nat, answer: Answer) returns (ok: bool, out: nat)
      requires MayAsk(n, answer)
      modifies this`len, this`end, this`next
      ensures Valid()
      ensures After(ok, out, State(), memory[..])
           == Request(platform, old(memory[..]), old(State()), n, answer, [])
    {
      hide AlignUp, AlignPtr, Multiple;
      ghost var before := State();
      AllocStaysInside(platform, before, n, answer, memory.Length);
      var align := if platform.lp64 then 16 else 8;
      MaskIsAlignment(platform, next);
      var aligned := AlignPtr(next, align);
      if aligned + n > end {
        ok := Remap(n, answer);
        if !ok {
          return false, 0;
        }
      }
      out := aligned;
      next := aligned + n;
      ok := true;
      assert Place(platform, before, n, answer) == Some(Grant(State(), out));
      assert Store(memory[..], out, []) == memory[..];
    }

    method Calloc(n: nat, answer: Answer) returns (ok: bool, out: nat)
      requires MayAsk(n, answer)
      modifies this`len, this`end, this`next, memory
      ensures Valid()
      ensures After(ok, out, State(), memory[..])
           == Request(platform, old(memory[..]), old(State()), n, answer, Zeros(n))
      ensures ok ==> next == out + n && forall x :: out <= x < next ==> memory[x] == 0
    {
      hide Place, AlignUp, Multiple, Remapped, Request, Store;
      BlockFilled(platform, memory[..], State(), n, answer, Zeros(n));
      ok, out := Alloc(n, answer);
      if !ok {
        return false, 0;
      }
      MemSet(memory, out, 0, n);
    }

    /** `src` is memory of the caller that the copy does not overlap. */
    method Realloc(src: nat, srcLen: nat, newLen: nat, answer: Answer) returns (ok: bool, out: nat)
      requires MayAsk(newLen, answer)
      requires CopyLands(platform, memory[..], State(), src, srcLen, newLen)
      requires var at := AlignUp(next, platform.Align()); src + srcLen <= at || at + srcLen <= src
      modifies this`len, this`end, this`next, memory
      ensures Valid()
      ensures After(ok, out, State(), memory[..])
           == Reallocated(platform, old(memory[..]), old(State()), src, srcLen, newLen, answer)
    {
      hide AlignUp, Multiple, Remapped;
      if src == next - srcLen {
        return false, 0;
      }
      RequestIsFresh(platform, memory[..], State(), newLen, answer, []);
      RequestThenWrite(platform, memory[..], State(), newLen, answer, []);
      ok, out := Alloc(newLen, answer);
      if !ok {
        return false, 0;
      }
      MemCpy(memory, out, src, srcLen);
    }

    /** A length below -1 is taken while no sum it leads to wraps around. */
    method Strdup(src: seq<byte>, srcLen: int, answer: Answer) returns (ok: bool, out: nat)
      requires 0 !in src && IsSsize(platform, srcLen)
      requires srcLen < -1 ==> NoWrap(platform, State(), DupLength(src, AsSize(platform, srcLen)))
      requires MayAsk(DupLength(src, AsSize(platform, srcLen)), answer)
      modifies this`len, this`end, this`next, memory
      ensures Valid()
      ensures var n := DupLength(src, AsSize(platform, srcLen));
              After(ok, out, State(), memory[..])
              == Request(platform, old(memory[..]), old(State()), n, answer, StrnBytes(src, n))
      ensures ok && srcLen >= -1 ==> next == out + (if srcLen == -1 then |src| else srcLen) + 1
      ensures ok ==> forall x :: out <= x < next ==> memory[x] == if x - out < |src| then src[x - out] else 0
    {
      hide Place, AlignUp, Multiple, StrnBytes, Remapped, Request, Store, Range;
      ghost var size := DupLength(src, AsSize(platform, srcLen));
      BlockFilled(platform, memory[..], State(), size, answer, StrnBytes(src, size));
      StrnBytesAt(src, size);
      var n := if srcLen == -1 then |src| else AsSize(platform, srcLen);
      n := n + 1;
      ok, out := Alloc(n, answer);
      if !ok {
        return false, 0;
      }
      StrNCpy(memory, out, src, n);
    }
  }
}
