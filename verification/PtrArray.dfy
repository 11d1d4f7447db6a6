/** libae/ptrarray.c: a growable array of pointers whose slots live in a pool. */
module PtrArray {
  import opened Wrappers
  import opened Align
  import opened Memory
  import opened Pool

  /** The fields of ae_ptrarray_t, the pool aside. */
  datatype ArrayRec = ArrayRec(data: nat, len: nat, capacity: nat)

  /** The array's slots are part of what the pool has handed out. */
  ghost predicate InPool(pl: Platform, p: PoolRec, a: ArrayRec) {
    a.len <= a.capacity && p.start <= a.data && a.data + pl.Span(a.capacity) <= p.next
  }

  /** The pointers in the array, in order. */
  function Items(pl: Platform, mem: seq<byte>, a: ArrayRec): seq<nat>
    requires a.data + pl.Span(a.len) <= |mem|
  {
    Words(pl, mem, a.data, a.len)
  }

  /** What an operation on an array leaves behind. */
  datatype Step = Step(ok: bool, arr: ArrayRec, pool: PoolRec, mem: seq<byte>)

  /** The kernel's answer, were the array to ask for `n` slots. */
  ghost predicate MayGrowTo(pl: Platform, mem: seq<byte>, p: PoolRec, n: nat, answer: Answer) {
    Sound(pl, p, |mem|) && KernelKeepsFaith(pl, p, pl.Span(n), answer, |mem|)
  }

  function Initialised(pl: Platform, mem: seq<byte>, p: PoolRec, a: ArrayRec, n: nat, answer: Answer): Step
    requires MayGrowTo(pl, mem, p, n, answer)
  {
    var r := Request(pl, mem, p, pl.Span(n), answer, []);
    Step(r.ok, if r.ok then ArrayRec(r.out, 0, n) else a, r.pool, r.mem)
  }

  function CapacityGrown(pl: Platform, mem: seq<byte>, p: PoolRec, a: ArrayRec, more: nat, answer: Answer): Step
    requires MayGrowTo(pl, mem, p, a.capacity + more, answer) && InPool(pl, p, a)
  {
    var r := Reallocated(pl, mem, p, a.data, pl.Span(a.len), pl.Span(a.capacity + more), answer);
    Step(r.ok, if r.ok then ArrayRec(r.out, a.len, a.capacity + more) else a, r.pool, r.mem)
  }

  /** As coded, growing to less than the capacity is refused. */
  function Grown(pl: Platform, mem: seq<byte>, p: PoolRec, a: ArrayRec, more: nat, answer: Answer): Step
    requires Sound(pl, p, |mem|) && InPool(pl, p, a)
    requires MayGrowTo(pl, mem, p, if a.len + more > a.capacity then a.len + more else a.capacity, answer)
  {
    if a.len + more < a.capacity then Step(false, a, p, mem)
    else
      var s := if a.len + more > a.capacity
               then CapacityGrown(pl, mem, p, a, a.len + more - a.capacity, answer)
               else Step(true, a, p, mem);
      if s.ok then s.(arr := s.arr.(len := a.len + more)) else s
  }

  function Appended(pl: Platform, mem: seq<byte>, p: PoolRec, a: ArrayRec, item: nat, answer: Answer): Step
    requires MayGrowTo(pl, mem, p, a.capacity + 16, answer) && InPool(pl, p, a)
  {
    var s := if a.len == a.capacity then CapacityGrown(pl, mem, p, a, 16, answer) else Step(true, a, p, mem);
    GrowthFacts(pl, mem, p, a, 16, answer);
    if !s.ok then s
    else s.(mem := SetSlot(pl, s.mem, s.arr.data, a.len, item), arr := s.arr.(len := a.len + 1))
  }

  /** The index is unused when the array has at most one item. */
  function Removed(pl: Platform, mem: seq<byte>, a: ArrayRec, index: nat): (seq<byte>, ArrayRec)
    requires a.data + pl.Span(a.len) <= |mem| && (a.len > 1 ==> index < a.len)
  {
    if a.len == 0 then (mem, a)
    else
      var mem' := if a.len > 1 then SetSlot(pl, mem, a.data, index, Slot(pl, mem, a.data, a.len - 1)) else mem;
      (mem', a.(len := a.len - 1))
  }

  function Shrunk(a: ArrayRec, n: nat): ArrayRec {
    if n >= a.len then a else a.(len := n)
  }

  /** The copy of `a`. A refused copy has the new length and capacity but keeps
      the old data pointer of `out`. */
  function Duplicated(pl: Platform, mem: seq<byte>, p: PoolRec, a: ArrayRec, out: ArrayRec, answer: Answer): Step
    requires MayGrowTo(pl, mem, p, a.capacity, answer) && a.data + pl.Span(a.capacity) <= |mem|
  {
    var r := Request(pl, mem, p, pl.Span(a.capacity), answer, Load(mem, a.data, pl.Span(a.capacity)));
    Step(r.ok, ArrayRec(if r.ok then r.out else out.data, a.len, a.capacity), r.pool, r.mem)
  }

  // ----- what the operations do to the items -----

  /** `s` holds the items of `a` in an aligned block fresh from the pool, and
      nothing outside that block has changed. */
  ghost predicate FreshCopy(pl: Platform, mem: seq<byte>, p: PoolRec, a: ArrayRec, s: Step)
    requires a.data + pl.Span(a.len) <= |mem|
  {
    && s.arr.len == a.len <= s.arr.capacity
    && Sound(pl, s.pool, |mem|) && s.pool.start == p.start && p.end <= s.pool.end
    && Multiple(s.arr.data, pl.Align())
    && p.next <= s.arr.data && s.arr.data + pl.Span(s.arr.capacity) == s.pool.next
    && SameOutside(mem, s.mem, s.arr.data, s.arr.data + pl.Span(s.arr.capacity))
    && Items(pl, s.mem, s.arr) == Items(pl, mem, a)
  }

  /** Asking for room and copying the first `k` slots into it. */
  lemma {:induction false} RequestCopies(pl: Platform, mem: seq<byte>, p: PoolRec, a: ArrayRec,
                                         k: nat, capacity: nat, answer: Answer)
    requires MayGrowTo(pl, mem, p, capacity, answer)
    requires a.len <= k <= capacity && a.data + pl.Span(k) <= |mem|
    ensures var r := Request(pl, mem, p, pl.Span(capacity), answer, Load(mem, a.data, pl.Span(k)));
      if r.ok then FreshCopy(pl, mem, p, a, Step(true, ArrayRec(r.out, a.len, capacity), r.pool, r.mem))
      else r == Failed(p, mem)
  {
    hide Place, AlignUp, Multiple, Request, Words, Sound;
    var bytes := Load(mem, a.data, pl.Span(k));
    RequestIsFresh(pl, mem, p, pl.Span(capacity), answer, bytes);
    RequestThenWrite(pl, mem, p, pl.Span(capacity), answer, bytes);
    var r := Request(pl, mem, p, pl.Span(capacity), answer, bytes);
    if r.ok {
      SubLoad(mem, a.data, pl.Span(k), 0, pl.Span(a.len));
      SubLoad(r.mem, r.out, pl.Span(k), 0, pl.Span(a.len));
      WordsOfCopy(pl, mem, a.data, r.mem, r.out, a.len);
    }
  }

  lemma {:induction false} GrowthFacts(pl: Platform, mem: seq<byte>, p: PoolRec, a: ArrayRec, more: nat, answer: Answer)
    requires MayGrowTo(pl, mem, p, a.capacity + more, answer) && InPool(pl, p, a)
    ensures var s := CapacityGrown(pl, mem, p, a, more, answer);
      if s.ok then FreshCopy(pl, mem, p, a, s) && s.arr.capacity == a.capacity + more
      else s == Step(false, a, p, mem)
  {
    hide Place, AlignUp, Multiple, Request, Reallocated, FreshCopy;
    ReallocatedIsRequest(pl, mem, p, a.data, pl.Span(a.len), pl.Span(a.capacity + more), answer);
    RequestCopies(pl, mem, p, a, a.len, a.capacity + more, answer);
  }

  /** Growing fails exactly when the slots in use end at the bump pointer, or the
      request does not fit and the kernel will not grow the mapping. */
  lemma {:induction false} GrowthFailsIff(pl: Platform, mem: seq<byte>, p: PoolRec, a: ArrayRec, more: nat,
                                          answer: Answer)
    requires MayGrowTo(pl, mem, p, a.capacity + more, answer) && InPool(pl, p, a)
    ensures !CapacityGrown(pl, mem, p, a, more, answer).ok <==>
            || a.data + pl.Span(a.len) == p.next
            || (AlignUp(p.next, pl.Align()) + pl.Span(a.capacity + more) > p.end && answer != At(p.start))
  {
    AllocFailsIff(pl, p, pl.Span(a.capacity + more), answer);
  }

  /** Growing is impossible right after the array was created full: an array
      that is the newest block of the pool and has no free slot cannot grow. */
  lemma {:induction false} NewestFullArrayCannotGrow(pl: Platform, mem: seq<byte>, p: PoolRec, a: ArrayRec,
                                                     item: nat, answer: Answer)
    requires MayGrowTo(pl, mem, p, a.capacity + 16, answer) && InPool(pl, p, a)
    requires a.data + pl.Span(a.capacity) == p.next
    ensures Appended(pl, mem, p, a, item, answer).ok <==> a.len < a.capacity
  {
    GrowthFailsIff(pl, mem, p, a, 16, answer);
  }

  /** Writing the slot after the last item appends to the items. */
  lemma {:induction false} PushFacts(pl: Platform, mem: seq<byte>, a: ArrayRec, item: nat)
    requires a.len < a.capacity && a.data + pl.Span(a.capacity) <= |mem|
    requires item < Range(pl.PtrSize())
    ensures var mem' := SetSlot(pl, mem, a.data, a.len, item);
      && SameOutside(mem, mem', a.data, a.data + pl.Span(a.capacity))
      && Items(pl, mem', a.(len := a.len + 1)) == Items(pl, mem, a) + [item]
  {
    var mem' := SetSlot(pl, mem, a.data, a.len, item);
    SlotSet(pl, mem, a.data, a.len, item);
    var was, now := Items(pl, mem, a), Items(pl, mem', a.(len := a.len + 1));
    forall i | 0 <= i < a.len
      ensures now[i] == was[i]
    {
      assert was[i] == Slot(pl, mem, a.data, i);
    }
    assert now == was + [item];
  }

  /** An append adds the item at the end, in a fresh block when the array was
      full, or changes nothing at all. */
  lemma {:induction false} AppendFacts(pl: Platform, mem: seq<byte>, p: PoolRec, a: ArrayRec, item: nat, answer: Answer)
    requires MayGrowTo(pl, mem, p, a.capacity + 16, answer) && InPool(pl, p, a)
    requires item < Range(pl.PtrSize())
    ensures var s := Appended(pl, mem, p, a, item, answer);
      if !s.ok then
        s == Step(false, a, p, mem) && a.len == a.capacity
      else
        && Sound(pl, s.pool, |mem|) && InPool(pl, s.pool, s.arr)
        && s.pool.start == p.start
        && SameOutside(mem, s.mem, s.arr.data, s.arr.data + pl.Span(s.arr.capacity))
        && Items(pl, s.mem, s.arr) == Items(pl, mem, a) + [item]
        && (if a.len < a.capacity then
              s.pool == p && s.arr == a.(len := a.len + 1)
            else
              && s.arr.capacity == a.capacity + 16
              && Multiple(s.arr.data, pl.Align())
              && p.next <= s.arr.data && s.arr.data + pl.Span(s.arr.capacity) == s.pool.next)
  {
    hide Place, Request, Reallocated, Words, Multiple, AlignUp;
    GrowthFacts(pl, mem, p, a, 16, answer);
    if a.len < a.capacity {
      PushFacts(pl, mem, a, item);
    } else {
      var g := CapacityGrown(pl, mem, p, a, 16, answer);
      if g.ok {
        PushFacts(pl, g.mem, g.arr, item);
      }
    }
  }

  /** As coded, growing succeeds exactly when the new length is the capacity, or
      is above it, the slots in use do not end at the bump pointer, and the
      request fits or the kernel grows the mapping. */
  lemma {:induction false} GrownIff(pl: Platform, mem: seq<byte>, p: PoolRec, a: ArrayRec, more: nat, answer: Answer)
    requires Sound(pl, p, |mem|) && InPool(pl, p, a)
    requires MayGrowTo(pl, mem, p, if a.len + more > a.capacity then a.len + more else a.capacity, answer)
    ensures Grown(pl, mem, p, a, more, answer).ok <==>
      || a.len + more == a.capacity
      || (a.len + more > a.capacity && a.data + pl.Span(a.len) != p.next &&
          (AlignUp(p.next, pl.Align()) + pl.Span(a.len + more) <= p.end || answer == At(p.start)))
  {
    hide CapacityGrown, Multiple, AlignUp;
    if a.len + more > a.capacity {
      GrowthFailsIff(pl, mem, p, a, a.len + more - a.capacity, answer);
    }
  }

  /** Growing keeps the old items in front and the new length is the capacity. */
  lemma {:induction false} GrownFacts(pl: Platform, mem: seq<byte>, p: PoolRec, a: ArrayRec, more: nat, answer: Answer)
    requires Sound(pl, p, |mem|) && InPool(pl, p, a)
    requires MayGrowTo(pl, mem, p, if a.len + more > a.capacity then a.len + more else a.capacity, answer)
    ensures var s := Grown(pl, mem, p, a, more, answer);
      if !s.ok then
        s == Step(false, a, p, mem)
      else
        && s.arr.len == s.arr.capacity == a.len + more
        && Sound(pl, s.pool, |mem|) && s.pool.start == p.start && |s.mem| == |mem|
        && s.arr.data + pl.Span(s.arr.len) <= s.pool.next
        && Items(pl, s.mem, s.arr)[..a.len] == Items(pl, mem, a)
        && (if a.len + more == a.capacity then s.pool == p && s.mem == mem && s.arr.data == a.data
            else
              && Multiple(s.arr.data, pl.Align())
              && p.next <= s.arr.data && s.arr.data + pl.Span(s.arr.capacity) == s.pool.next
              && SameOutside(mem, s.mem, s.arr.data, s.arr.data + pl.Span(s.arr.capacity)))
  {
    hide Request, Reallocated, Multiple, AlignUp;
    if a.len + more >= a.capacity {
      var s := Grown(pl, mem, p, a, more, answer);
      var g := Step(true, a, p, mem);
      if a.len + more > a.capacity {
        GrowthFacts(pl, mem, p, a, a.len + more - a.capacity, answer);
        g := CapacityGrown(pl, mem, p, a, a.len + more - a.capacity, answer);
      }
      if s.ok {
        PrefixItems(pl, s.mem, s.arr, a.len);
        assert Items(pl, g.mem, g.arr) == Items(pl, mem, a);
      }
    }
  }

  lemma {:induction false} PrefixItems(pl: Platform, mem: seq<byte>, a: ArrayRec, n: nat)
    requires n <= a.len && a.data + pl.Span(a.len) <= |mem|
    ensures Items(pl, mem, a)[..n] == Items(pl, mem, a.(len := n))
  {
  }

  /** The list after the last item is moved over the one at `index`. */
  function SwapRemoved(items: seq<nat>, index: nat): seq<nat>
    requires |items| > 1 ==> index < |items|
  {
    if |items| == 0 then []
    else if |items| == 1 then []
    else items[index := items[|items| - 1]][..|items| - 1]
  }

  /** The words in memory are what pointers can hold. */
  lemma {:induction false} DecodeBound(bs: seq<byte>)
    ensures Decode(bs) < Range(|bs|)
  {
    if bs == [] {
    } else {
      DecodeBound(bs[1..]);
    }
  }

  lemma {:induction false} RemoveFacts(pl: Platform, mem: seq<byte>, a: ArrayRec, index: nat)
    requires a.data + pl.Span(a.len) <= |mem| && (a.len > 1 ==> index < a.len)
    ensures var (mem', a') := Removed(pl, mem, a, index);
      && SameOutside(mem, mem', a.data, a.data + pl.Span(a.len))
      && a'.data == a.data && a'.capacity == a.capacity && a'.len <= a.len
      && Items(pl, mem', a') == SwapRemoved(Items(pl, mem, a), index)
      && a'.len == (if a.len == 0 then 0 else a.len - 1)
    ensures var was, now := Items(pl, mem, a), SwapRemoved(Items(pl, mem, a), index);
      forall k :: 0 <= k < a.len - 1 ==> now[k] == was[if k == index then a.len - 1 else k]
  {
    hide SetSlot, Decode;
    var (mem', a') := Removed(pl, mem, a, index);
    if a.len > 1 {
      var last := Slot(pl, mem, a.data, a.len - 1);
      DecodeBound(Load(mem, a.data + pl.Span(a.len - 1), pl.PtrSize()));
      SlotSet(pl, mem, a.data, index, last);
      var was, now := Items(pl, mem, a), Items(pl, mem', a');
      forall i | 0 <= i < a.len - 1
        ensures now[i] == SwapRemoved(was, index)[i]
      {
        assert was[i] == Slot(pl, mem, a.data, i);
      }
      assert now == SwapRemoved(was, index);
    }
  }

  lemma {:induction false} ShrinkFacts(pl: Platform, mem: seq<byte>, a: ArrayRec, n: nat)
    requires a.data + pl.Span(a.len) <= |mem|
    ensures Shrunk(a, n) == a.(len := Shrunk(a, n).len) && Shrunk(a, n).len <= a.len
    ensures Items(pl, mem, Shrunk(a, n)) == (if n >= a.len then Items(pl, mem, a) else Items(pl, mem, a)[..n])
  {
  }

  lemma {:induction false} DuplicateFacts(pl: Platform, mem: seq<byte>, p: PoolRec, a: ArrayRec, out: ArrayRec,
                                          answer: Answer)
    requires MayGrowTo(pl, mem, p, a.capacity, answer)
    requires a.len <= a.capacity && a.data + pl.Span(a.capacity) <= |mem|
    ensures var s := Duplicated(pl, mem, p, a, out, answer);
      if s.ok then FreshCopy(pl, mem, p, a, s) && s.arr.capacity == a.capacity
      else s.pool == p && s.mem == mem
  {
    hide Place, AlignUp, Multiple, Request, FreshCopy;
    RequestCopies(pl, mem, p, a, a.capacity, a.capacity, answer);
  }

  /** A refused copy makes an array of pool `q` point to pool `p` while its slots
      stay in `q`, so it is an array of `p` only by accident: when it had no slot
      at all, `q` ends where `p` starts, and so do its slots. */
  lemma {:induction false} RefusedDuplicateElsewhere(pl: Platform, mem: seq<byte>, p: PoolRec, q: PoolRec,
                                                     a: ArrayRec, out: ArrayRec, answer: Answer)
    requires MayGrowTo(pl, mem, p, a.capacity, answer)
    requires a.len <= a.capacity && a.data + pl.Span(a.capacity) <= |mem|
    requires Sound(pl, q, |mem|) && (p.end <= q.start || q.end <= p.start) && InPool(pl, q, out)
    requires !Duplicated(pl, mem, p, a, out, answer).ok
    ensures InPool(pl, p, Duplicated(pl, mem, p, a, out, answer).arr) <==>
            out.data == p.start && p.start + pl.Span(a.capacity) <= p.next
    ensures out.capacity > 0 ==> !InPool(pl, p, Duplicated(pl, mem, p, a, out, answer).arr)
  {
    hide AlignUp, Multiple;
    AligningStaysInside(pl, p, |mem|);
    AllocFailsIff(pl, p, pl.Span(a.capacity), answer);
    assert pl.Span(a.capacity) > 0;
  }

  // ----- products of the machine -----

  /** The machine asks for the low bits of the size of `n` slots. The block granted
      has room for them in a sound pool exactly when neither that product nor a sum
      the request depends on wraps around. */
  lemma {:induction false} RoomForSlotsIff(pl: Platform, p: PoolRec, n: nat, answer: Answer, space: nat)
    requires InMachine(pl, p, space) && CodedFaith(pl, p, Low(pl, pl.Span(n)), answer, space)
    requires CodedPlace(pl, p, Low(pl, pl.Span(n)), answer).Some?
    ensures var g := CodedPlace(pl, p, Low(pl, pl.Span(n)), answer).value;
      Sound(pl, g.pool, space) && g.addr + pl.Span(n) <= g.pool.next <==>
      && pl.Span(n) < Range(pl.PtrSize())
      && NoWrap(pl, p, pl.Span(n)) && (FitsNow(pl, p, pl.Span(n)) || NoLengthWrap(pl, p, pl.Span(n)))
  {
    hide AlignUp, Multiple, Range, Low, CodedPlace, CodedFaith, NoWrap, NoLengthWrap, FitsNow;
    LowOf(pl, pl.Span(n));
    LowBelow(pl, pl.Span(n));
    GrantSoundIff(pl, p, Low(pl, pl.Span(n)), answer, space);
  }

  lemma {:induction false} LowBelow(pl: Platform, x: nat)
    ensures Low(pl, x) < Range(pl.PtrSize())
  {
    hide Range;
  }

  /** As many slots as fill the address space are granted without a byte. */
  lemma {:induction false} SlotsWithoutBytes(pl: Platform, p: PoolRec, answer: Answer, space: nat) returns (n: nat)
    requires InMachine(pl, p, space)
    ensures 0 < n < Range(pl.PtrSize()) && Low(pl, pl.Span(n)) == 0
    ensures var addr := AlignUp(p.next, pl.Align());
            CodedPlace(pl, p, Low(pl, pl.Span(n)), answer) == Some(Grant(p.(next := addr), addr))
  {
    hide AlignUp, Multiple, Low;
    n := if pl.lp64 then 32 * Range(7) else 64 * Range(3);
    assert pl.Span(n) == Range(pl.PtrSize());
    LowOf(pl, pl.Span(n));
    AligningStaysInside(pl, p, space);
    LowOf(pl, AlignUp(p.next, pl.Align()));
  }

  // ----- the object -----

  class PtrArray {
    var pool: Pool
    var len: nat
    var data: nat
    var capacity: nat

    constructor (pool: Pool)
      ensures this.pool == pool && State() == ArrayRec(0, 0, 0)
    {
      this.pool := pool;
      len, data, capacity := 0, 0, 0;
    }

    function State(): ArrayRec
      reads this
    {
      ArrayRec(data, len, capacity)
    }

    ghost predicate Valid()
      reads this, pool
    {
      pool.Valid() && InPool(pool.platform, pool.State(), State())
    }

    /** This array, its pool and its memory are as `s` says. */
    ghost predicate Is(s: Step, ok: bool)
      reads this, pool, pool.memory
    {
      s == Step(ok, State(), pool.State(), pool.memory[..])
    }

    method Init(pool: Pool, initialSize: nat, answer: Answer) returns (ok: bool)
      requires pool.MayAsk(pool.platform.Span(initialSize), answer)
      modifies this, pool`len, pool`end, pool`next
      ensures this.pool == if ok then pool else old(this.pool)
      ensures Step(ok, State(), pool.State(), pool.memory[..])
           == Initialised(pool.platform, old(pool.memory[..]), old(pool.State()), old(State()), initialSize, answer)
      ensures ok ==> Valid() && Items(pool.platform, pool.memory[..], State()) == []
    {
      hide Place, Multiple, AlignUp;
      RequestIsFresh(pool.platform, pool.memory[..], pool.State(), pool.platform.Span(initialSize), answer, []);
      var out;
      ok, out := pool.Alloc(pool.platform.Span(initialSize), answer);
      if !ok {
        return false;
      }
      data := out;
      this.pool := pool;
      len := 0;
      capacity := initialSize;
    }

    method GrowCapacity(increaseBy: nat, answer: Answer) returns (ok: bool)
      requires Valid() && pool.MayAsk(pool.platform.Span(capacity + increaseBy), answer)
      modifies this`data, this`capacity, pool`len, pool`end, pool`next, pool.memory
      ensures Valid()
      ensures Is(CapacityGrown(pool.platform, old(pool.memory[..]), old(pool.State()), old(State()),
                               increaseBy, answer), ok)
    {
      hide Place, Remapped, Items, Multiple, AlignUp, Words, Store;
      ghost var mem, p, a := pool.memory[..], pool.State(), State();
      GrowthFacts(pool.platform, mem, p, a, increaseBy, answer);
      AligningStaysInside(pool.platform, p, |mem|);
      var newCapacity := capacity + increaseBy;
      var out;
      ok, out := pool.Realloc(data, pool.platform.Span(len), pool.platform.Span(newCapacity), answer);
      if !ok {
        return false;
      }
      capacity := newCapacity;
      data := out;
      assert Is(CapacityGrown(pool.platform, mem, p, a, increaseBy, answer), ok);
    }

    method Grow(increaseBy: nat, answer: Answer) returns (ok: bool)
      requires Valid()
      requires pool.MayAsk(
        pool.platform.Span(if len + increaseBy > capacity then len + increaseBy else capacity), answer)
      modifies this`len, this`data, this`capacity, pool`len, pool`end, pool`next, pool.memory
      ensures Valid()
      ensures Is(Grown(pool.platform, old(pool.memory[..]), old(pool.State()), old(State()),
                       increaseBy, answer), ok)
    {
      hide Multiple, AlignUp, Request, Reallocated, Items, Words, Slot, Load, Store;
      var newLen := len + increaseBy;
      if newLen < capacity {
        return false;
      }
      if newLen > capacity {
        ok := GrowCapacity(newLen - capacity, answer);
        if !ok {
          return false;
        }
      }
      len := newLen;
      return true;
    }

    method Append(item: nat, answer: Answer) returns (ok: bool)
      requires Valid() && item < Range(pool.platform.PtrSize())
      requires pool.MayAsk(pool.platform.Span(capacity + 16), answer)
      modifies this`len, this`data, this`capacity, pool`len, pool`end, pool`next, pool.memory
      ensures Valid()
      ensures Is(Appended(pool.platform, old(pool.memory[..]), old(pool.State()), old(State()), item, answer), ok)
    {
      hide Multiple, AlignUp, Request, Reallocated, Items, Words, Slot, Load, Store;
      GrowthFacts(pool.platform, pool.memory[..], pool.State(), State(), 16, answer);
      if len == capacity {
        ok := GrowCapacity(16, answer);
        if !ok {
          return false;
        }
      }
      WriteWord(pool.platform, pool.memory, data, len, item);
      len := len + 1;
      return true;
    }

    method Remove(index: nat)
      requires Valid() && (len > 1 ==> index < len)
      modifies this`len, pool.memory
      ensures Valid()
      ensures (pool.memory[..], State()) == Removed(pool.platform, old(pool.memory[..]), old(State()), index)
    {
      hide Multiple, Items, Words, Slot, SetSlot, Store, Load;
      if len == 0 {
        return;
      }
      if len > 1 {
        var last := ReadWord(pool.platform, pool.memory, data, len - 1);
        WriteWord(pool.platform, pool.memory, data, index, last);
      }
      len := len - 1;
    }

    method Shrink(newSize: nat)
      requires Valid()
      modifies this`len
      ensures Valid()
      ensures State() == Shrunk(old(State()), newSize)
    {
      if newSize >= len {
        return;
      }
      len := newSize;
    }

    method Dup(pool: Pool, out: PtrArray, answer: Answer) returns (ok: bool)
      requires Valid() && out != this && pool.memory == this.pool.memory && pool.platform == this.pool.platform
      requires pool.MayAsk(pool.platform.Span(capacity), answer)
      // when the copy goes to another pool, that pool lies elsewhere
      requires data + pool.platform.Span(capacity) <= pool.next
            || pool.end + AlignUp(pool.platform.Span(capacity), pool.platform.pageSize) <= data
      modifies out, pool`len, pool`end, pool`next, pool.memory
      ensures out.pool == pool && pool.Valid()
      ensures ok ==> out.Valid()
      ensures out.Is(Duplicated(pool.platform, old(pool.memory[..]), old(pool.State()), old(State()),
                                old(out.State()), answer), ok)
    {
      hide Request, Items, Multiple, AlignUp, Words, Store;
      ghost var pl, mem, p := pool.platform, pool.memory[..], pool.State();
      ghost var n := pl.Span(capacity);
      BlockBelowGrownEnd(pl, mem, p, n, answer);
      RequestIsFresh(pl, mem, p, n, answer, []);
      RequestThenWrite(pl, mem, p, n, answer, Load(mem, data, n));
      out.pool := pool;
      out.len := len;
      out.capacity := capacity;
      var nBytes := pool.platform.Span(out.capacity);
      var block;
      ok, block := pool.Alloc(nBytes, answer);
      if !ok {
        return false;
      }
      out.data := block;
      MemCpy(pool.memory, out.data, data, nBytes);
    }
  }
}
