/** Runs of a pool with many objects in it: separation, contents, conservation
    and space. */
module PoolRuns {
  import opened Align
  import opened Memory
  import opened Pool
  import opened PtrArray
  import opened PoolWorld

  /** Object `j` is where it was and holds the bytes it held, spare capacity included. */
  ghost predicate Kept(pl: Platform, w: World, w': World, j: nat)
    requires Inv(pl, w) && Inv(pl, w')
  {
    j < |w.objs| && j < |w'.objs| && w'.objs[j] == w.objs[j] &&
    var o := w.objs[j];
    Load(w'.mem, Lo(o), Hi(pl, o) - Lo(o)) == Load(w.mem, Lo(o), Hi(pl, o) - Lo(o))
  }

  /** The object an operation works on, or -1. */
  function Target(op: Op): int {
    match op
    case Poke(i, _, _) => i
    case Append(i, _, _) => i
    case Set(i, _, _) => i
    case Remove(i, _) => i
    case Shrink(i, _) => i
    case GrowCapacity(i, _, _) => i
    case Grow(i, _, _) => i
    case DupOnto(_, k, _) => k
    case _ => -1
  }

  predicate Touches(op: Op, j: nat) { Target(op) == j }

  predicate Within(pl: Platform, o: Obj, x: nat) { Lo(o) <= x < Hi(pl, o) }

  /** Of all that was handed out before, in use or not, only bytes of object `t`
      may have changed; every object is where one was before, or behind it all. */
  ghost predicate Framed(pl: Platform, w: World, w': World, t: int) {
    && |w'.mem| == |w.mem| && w.pool.next <= w'.pool.next && |w.objs| <= |w'.objs|
    && (forall x :: 0 <= x < w.pool.next && x < |w.mem| && w'.mem[x] != w.mem[x] ==>
          0 <= t < |w.objs| && Within(pl, w.objs[t], x))
    && (forall j :: 0 <= j < |w'.objs| && Lo(w'.objs[j]) < w.pool.next ==>
          j < |w.objs| && Lo(w.objs[j]) == Lo(w'.objs[j]) && Hi(pl, w'.objs[j]) <= Hi(pl, w.objs[j]))
  }

  lemma {:induction false} KeptView(pl: Platform, w: World, w': World, j: nat)
    requires Inv(pl, w) && Inv(pl, w') && Kept(pl, w, w', j)
    ensures ViewOf(pl, w'.mem, w'.objs[j]) == ViewOf(pl, w.mem, w.objs[j])
  {
    var o := w.objs[j];
    if o.Arr? {
      var n := Hi(pl, o) - Lo(o);
      SubLoad(w.mem, Lo(o), n, 0, pl.Span(o.rec.len));
      SubLoad(w'.mem, Lo(o), n, 0, pl.Span(o.rec.len));
      WordsOfCopy(pl, w.mem, Lo(o), w'.mem, Lo(o), o.rec.len);
    }
  }

  /** The extent of `o` has been handed out after everything in `p`. */
  ghost predicate FreshIn(pl: Platform, p: PoolRec, p': PoolRec, o: Obj) {
    Multiple(Lo(o), pl.Align()) && p.next <= Lo(o) && Hi(pl, o) == p'.next
  }

  /** A new object leaves all others alone. */
  lemma {:induction false} Adding(pl: Platform, w: World, mem': seq<byte>, p': PoolRec, o: Obj)
    requires Inv(pl, w) && Sound(pl, p', |w.mem|) && p'.start == w.pool.start
    requires FreshIn(pl, w.pool, p', o) && (o.Arr? ==> o.rec.len <= o.rec.capacity)
    requires SameOutside(w.mem, mem', Lo(o), Hi(pl, o))
    ensures var w' := World(mem', p', w.objs + [o]);
      && Inv(pl, w')
      && Views(pl, w') == Views(pl, w) + [ViewOf(pl, mem', o)]
      && (forall j :: 0 <= j < |w.objs| ==> Kept(pl, w, w', j))
      && Framed(pl, w, w', -1)
  {
    var w' := World(mem', p', w.objs + [o]);
    forall k | 0 <= k < |w'.objs|
      ensures WellPlaced(pl, p', w'.objs[k])
    {
      if k < |w.objs| {
        assert WellPlaced(pl, w.pool, w.objs[k]);
      }
    }
    forall j | 0 <= j < |w.objs|
      ensures Kept(pl, w, w', j) && ViewOf(pl, mem', w'.objs[j]) == ViewOf(pl, w.mem, w.objs[j])
    {
      assert WellPlaced(pl, w.pool, w.objs[j]);
      LoadElsewhere(w.mem, mem', Lo(o), Hi(pl, o), Lo(w.objs[j]), Hi(pl, w.objs[j]) - Lo(w.objs[j]));
      KeptView(pl, w, w', j);
    }
  }

  /** Rewriting object `i`, or moving it to a fresh block, writes to no other memory. */
  lemma {:induction false} ReplacingFrame(pl: Platform, w: World, i: nat, mem': seq<byte>, p': PoolRec, o: Obj)
    requires Inv(pl, w) && i < |w.objs|
    requires FreshIn(pl, w.pool, p', o) ||
             (p' == w.pool && Lo(o) == Lo(w.objs[i]) && Hi(pl, o) <= Hi(pl, w.objs[i]))
    requires Lo(o) <= Hi(pl, o) && SameOutside(w.mem, mem', Lo(o), Hi(pl, o))
    ensures Framed(pl, w, World(mem', p', w.objs[i := o]), i)
  {
    hide Multiple, AlignUp, Sound, Apart;
  }

  /** An object that is rewritten within its own extent, or moved to a fresh block,
      leaves all others alone. */
  lemma {:induction false} Replacing(pl: Platform, w: World, i: nat, mem': seq<byte>, p': PoolRec, o: Obj)
    requires Inv(pl, w) && Sound(pl, p', |w.mem|) && p'.start == w.pool.start && i < |w.objs|
    requires o.Arr? ==> o.rec.len <= o.rec.capacity
    requires FreshIn(pl, w.pool, p', o) ||
             (p' == w.pool && Lo(o) == Lo(w.objs[i]) && Hi(pl, o) <= Hi(pl, w.objs[i]))
    requires SameOutside(w.mem, mem', Lo(o), Hi(pl, o))
    ensures var w' := World(mem', p', w.objs[i := o]);
      && Inv(pl, w')
      && Views(pl, w') == Views(pl, w)[i := ViewOf(pl, mem', o)]
      && (forall j :: 0 <= j < |w.objs| && j != i ==> Kept(pl, w, w', j))
      && Framed(pl, w, w', i)
  {
    hide Framed;
    var w' := World(mem', p', w.objs[i := o]);
    ReplacingFrame(pl, w, i, mem', p', o);
    forall k | 0 <= k < |w.objs|
      ensures WellPlaced(pl, p', w'.objs[k])
    {
      assert WellPlaced(pl, w.pool, w.objs[k]);
    }
    forall k | 0 <= k < |w.objs| && k != i
      ensures Apart(pl, o, w.objs[k])
    {
      assert WellPlaced(pl, w.pool, w.objs[k]);
      assert Apart(pl, w.objs[if k < i then k else i], w.objs[if k < i then i else k]);
    }
    assert Inv(pl, w');
    forall j | 0 <= j < |w.objs| && j != i
      ensures Kept(pl, w, w', j) && ViewOf(pl, mem', w'.objs[j]) == ViewOf(pl, w.mem, w.objs[j])
    {
      LoadElsewhere(w.mem, mem', Lo(o), Hi(pl, o), Lo(w.objs[j]), Hi(pl, w.objs[j]) - Lo(w.objs[j]));
      KeptView(pl, w, w', j);
    }
  }

  /** The operation does to the contents what Effect says, keeps the invariant
      and does not change a byte of any other object, nor of memory handed out
      and no longer in use. */
  ghost predicate Simulates(pl: Platform, w: World, op: Op)
    requires Inv(pl, w) && Enabled(pl, w, op)
  {
    var r := Do(pl, w, op);
    && Inv(pl, r.world) && |r.world.mem| == |w.mem|
    && Views(pl, r.world) == Effect(Views(pl, w), op, r.out)
    && (!op.Reset? ==> forall j :: 0 <= j < |w.objs| && !Touches(op, j) ==> Kept(pl, w, r.world, j))
    && (!op.Reset? ==> Framed(pl, w, r.world, Target(op)))
  }

  lemma {:induction false} NothingDone(pl: Platform, w: World)
    requires Inv(pl, w)
    ensures forall j :: 0 <= j < |w.objs| ==> Kept(pl, w, w, j)
    ensures forall t :: Framed(pl, w, w, t)
  {
  }

  /** A request for a raw block filled from the front with `bytes`. */
  lemma {:induction false} RequestSim(pl: Platform, w: World, n: nat, answer: Answer, bytes: seq<byte>)
    requires Inv(pl, w) && KernelKeepsFaith(pl, w.pool, n, answer, |w.mem|) && |bytes| <= n
    ensures var r := Request(pl, w.mem, w.pool, n, answer, bytes);
      var w' := AddRaw(w, r, n);
      && Inv(pl, w') && |w'.mem| == |w.mem|
      && (forall j :: 0 <= j < |w.objs| ==> Kept(pl, w, w', j))
      && Framed(pl, w, w', -1)
      && (if r.ok then
            r.out + n <= |r.mem| &&
            Views(pl, w') == Views(pl, w) + [Bytes(bytes + Load(r.mem, r.out + |bytes|, n - |bytes|))]
          else Views(pl, w') == Views(pl, w))
  {
    hide Framed, Place, Multiple, AlignUp, Views, ViewOf;
    RequestIsFresh(pl, w.mem, w.pool, n, answer, bytes);
    NothingDone(pl, w);
    var r := Request(pl, w.mem, w.pool, n, answer, bytes);
    if r.ok {
      Adding(pl, w, r.mem, r.pool, Raw(r.out, n));
      RawView(pl, r.mem, r.out, n, bytes);
    }
  }

  lemma {:induction false} RawView(pl: Platform, mem: seq<byte>, addr: nat, n: nat, bytes: seq<byte>)
    requires addr + n <= |mem| && |bytes| <= n && Load(mem, addr, |bytes|) == bytes
    ensures ViewOf(pl, mem, Raw(addr, n)) == Bytes(bytes + Load(mem, addr + |bytes|, n - |bytes|))
  {
    assert Load(mem, addr, n) == Load(mem, addr, |bytes|) + Load(mem, addr + |bytes|, n - |bytes|);
  }

  lemma {:induction false} RawSim(pl: Platform, w: World, op: Op)
    requires Inv(pl, w) && Enabled(pl, w, op)
    requires op.Alloc? || op.Calloc? || op.Strdup?
    ensures Simulates(pl, w, op)
  {
    hide Framed, Place, Multiple, AlignUp, Request;
    match op {
      case Alloc(n, answer) =>
        RequestSim(pl, w, n, answer, []);
        assert forall b: seq<byte> :: [] + b == b;
      case Calloc(n, answer) => FilledSim(pl, w, n, answer, Zeros(n));
      case Strdup(s, srcLen, answer) =>
        FilledSim(pl, w, DupLength(s, srcLen), answer, StrnBytes(s, DupLength(s, srcLen)));
    }
  }

  lemma {:induction false} FilledSim(pl: Platform, w: World, n: nat, answer: Answer, bytes: seq<byte>)
    requires Inv(pl, w) && KernelKeepsFaith(pl, w.pool, n, answer, |w.mem|) && |bytes| == n
    ensures var r := Request(pl, w.mem, w.pool, n, answer, bytes);
      var w' := AddRaw(w, r, n);
      && Inv(pl, w') && |w'.mem| == |w.mem|
      && (forall j :: 0 <= j < |w.objs| ==> Kept(pl, w, w', j))
      && Framed(pl, w, w', -1)
      && Views(pl, w') == if r.ok then Views(pl, w) + [Bytes(bytes)] else Views(pl, w)
  {
    hide Framed, Place, Multiple, AlignUp, Request, Views;
    RequestSim(pl, w, n, answer, bytes);
    var r := Request(pl, w.mem, w.pool, n, answer, bytes);
    if r.ok {
      assert bytes + Load(r.mem, r.out + n, 0) == bytes;
    }
  }

  lemma {:induction false} ReallocSim(pl: Platform, w: World, op: Op)
    requires Inv(pl, w) && Enabled(pl, w, op) && op.Realloc?
    ensures Simulates(pl, w, op)
  {
    hide Framed, Place, Multiple, AlignUp, Request, Reallocated, Apart;
    var Raw(addr, size) := w.objs[op.i];
    NothingDone(pl, w);
    ReallocatedIsRequest(pl, w.mem, w.pool, addr, size, op.newLen, op.answer);
    if !EndsAtNext(w.pool, addr, size) {
      RequestSim(pl, w, op.newLen, op.answer, Load(w.mem, addr, size));
    }
  }

  lemma {:induction false} PokeSim(pl: Platform, w: World, op: Op)
    requires Inv(pl, w) && Enabled(pl, w, op) && op.Poke?
    ensures Simulates(pl, w, op)
  {
    hide Framed;
    var o := w.objs[op.i];
    var at := o.addr + op.off;
    var mem' := Store(w.mem, at, [op.v]);
    LoadStored(w.mem, at, [op.v]);
    Replacing(pl, w, op.i, mem', w.pool, o);
    assert Load(mem', o.addr, o.size) == Load(w.mem, o.addr, o.size)[op.off := op.v];
    assert w.objs[op.i := o] == w.objs;
  }

  lemma {:induction false} InitSim(pl: Platform, w: World, op: Op)
    requires Inv(pl, w) && Enabled(pl, w, op) && op.Init?
    ensures Simulates(pl, w, op)
  {
    hide Framed, Place, Multiple, AlignUp;
    NothingDone(pl, w);
    RequestIsFresh(pl, w.mem, w.pool, pl.Span(op.n), op.answer, []);
    var s := Initialised(pl, w.mem, w.pool, ArrayRec(0, 0, 0), op.n, op.answer);
    if s.ok {
      Adding(pl, w, s.mem, s.pool, Arr(s.arr));
      assert ViewOf(pl, s.mem, Arr(s.arr)) == List([], op.n);
    }
  }

  lemma {:induction false} AppendSim(pl: Platform, w: World, op: Op)
    requires Inv(pl, w) && Enabled(pl, w, op) && op.Append?
    ensures Simulates(pl, w, op)
  {
    hide Framed, Place, Multiple, AlignUp, Request, Reallocated, Words, Appended;
    var a := w.objs[op.i].rec;
    var s := Appended(pl, w.mem, w.pool, a, op.item, op.answer);
    AppendFacts(pl, w.mem, w.pool, a, op.item, op.answer);
    assert Views(pl, w)[op.i] == List(Items(pl, w.mem, a), a.capacity);
    if s.ok {
      Replacing(pl, w, op.i, s.mem, s.pool, Arr(s.arr));
    } else {
      NothingDone(pl, w);
      assert w.objs[op.i := Arr(s.arr)] == w.objs;
    }
  }

  lemma {:induction false} SetSim(pl: Platform, w: World, op: Op)
    requires Inv(pl, w) && Enabled(pl, w, op) && op.Set?
    ensures Simulates(pl, w, op)
  {
    hide Framed;
    var a := w.objs[op.i].rec;
    var mem' := SetSlot(pl, w.mem, a.data, op.index, op.item);
    SlotSet(pl, w.mem, a.data, op.index, op.item);
    Replacing(pl, w, op.i, mem', w.pool, w.objs[op.i]);
    assert w.objs[op.i := w.objs[op.i]] == w.objs;
    var was, now := Items(pl, w.mem, a), Items(pl, mem', a);
    forall k | 0 <= k < a.len
      ensures now[k] == was[op.index := op.item][k]
    {
      assert was[k] == Slot(pl, w.mem, a.data, k) && now[k] == Slot(pl, mem', a.data, k);
    }
    assert now == was[op.index := op.item];
  }

  lemma {:induction false} RemoveSim(pl: Platform, w: World, op: Op)
    requires Inv(pl, w) && Enabled(pl, w, op) && op.Remove?
    ensures Simulates(pl, w, op)
  {
    hide Framed, Words, SwapRemoved, Multiple, Removed;
    var a := w.objs[op.i].rec;
    RemoveFacts(pl, w.mem, a, op.index);
    var (mem', a') := Removed(pl, w.mem, a, op.index);
    Replacing(pl, w, op.i, mem', w.pool, Arr(a'));
  }

  lemma {:induction false} ShrinkSim(pl: Platform, w: World, op: Op)
    requires Inv(pl, w) && Enabled(pl, w, op) && op.Shrink?
    ensures Simulates(pl, w, op)
  {
    hide Framed;
    var a := w.objs[op.i].rec;
    ShrinkFacts(pl, w.mem, a, op.n);
    Replacing(pl, w, op.i, w.mem, w.pool, Arr(Shrunk(a, op.n)));
    if op.n >= a.len {
      assert w.objs[op.i := Arr(a)] == w.objs;
    }
  }

  lemma {:induction false} GrowCapacitySim(pl: Platform, w: World, op: Op)
    requires Inv(pl, w) && Enabled(pl, w, op) && op.GrowCapacity?
    ensures Simulates(pl, w, op)
  {
    hide Framed, Place, Multiple, AlignUp, Request, Reallocated, Words;
    var a := w.objs[op.i].rec;
    var s := CapacityGrown(pl, w.mem, w.pool, a, op.more, op.answer);
    GrowthFacts(pl, w.mem, w.pool, a, op.more, op.answer);
    if s.ok {
      Replacing(pl, w, op.i, s.mem, s.pool, Arr(s.arr));
    } else {
      NothingDone(pl, w);
      assert w.objs[op.i := Arr(s.arr)] == w.objs;
    }
  }

  lemma {:induction false} GrowSim(pl: Platform, w: World, op: Op)
    requires Inv(pl, w) && Enabled(pl, w, op) && op.Grow?
    ensures Simulates(pl, w, op)
  {
    hide Framed, Place, Multiple, AlignUp, Request, Reallocated, Words, Grown;
    var a := w.objs[op.i].rec;
    var s := Grown(pl, w.mem, w.pool, a, op.more, op.answer);
    GrownFacts(pl, w.mem, w.pool, a, op.more, op.answer);
    if s.ok {
      Replacing(pl, w, op.i, s.mem, s.pool, Arr(s.arr));
      var now := Items(pl, s.mem, s.arr);
      assert now == now[..a.len] + now[a.len..];
    } else {
      NothingDone(pl, w);
      assert w.objs[op.i := Arr(s.arr)] == w.objs;
    }
  }

  lemma {:induction false} DupSim(pl: Platform, w: World, op: Op)
    requires Inv(pl, w) && Enabled(pl, w, op) && op.Dup?
    ensures Simulates(pl, w, op)
  {
    hide Framed, Place, Multiple, AlignUp, Request, Words;
    NothingDone(pl, w);
    var a := w.objs[op.i].rec;
    var s := Duplicated(pl, w.mem, w.pool, a, ArrayRec(0, 0, 0), op.answer);
    DuplicateFacts(pl, w.mem, w.pool, a, ArrayRec(0, 0, 0), op.answer);
    if s.ok {
      Adding(pl, w, s.mem, s.pool, Arr(s.arr));
    }
  }

  lemma {:induction false} DupOntoSim(pl: Platform, w: World, op: Op)
    requires Inv(pl, w) && Enabled(pl, w, op) && op.DupOnto?
    ensures Simulates(pl, w, op)
  {
    hide Framed, Place, Multiple, AlignUp, Request, Words;
    var a, b := w.objs[op.i].rec, w.objs[op.k].rec;
    var s := Duplicated(pl, w.mem, w.pool, a, b, op.answer);
    DuplicateFacts(pl, w.mem, w.pool, a, b, op.answer);
    if s.ok {
      Replacing(pl, w, op.k, s.mem, s.pool, Arr(s.arr));
    } else if a.capacity <= b.capacity {
      Replacing(pl, w, op.k, w.mem, w.pool, Arr(s.arr));
      if a.len <= b.len {
        PrefixItems(pl, w.mem, b, a.len);
        SameSlots(pl, w.mem, s.arr, b.(len := a.len));
      } else {
        PrefixItems(pl, w.mem, s.arr, b.len);
        SameSlots(pl, w.mem, s.arr.(len := b.len), b);
        var now := Items(pl, w.mem, s.arr);
        assert now == now[..b.len] + now[b.len..];
      }
    } else {
      Replacing(pl, w, op.k, w.mem, w.pool, Raw(b.data, pl.Span(b.capacity)));
    }
  }

  /** The capacity of an array has no part in its items. */
  lemma {:induction false} SameSlots(pl: Platform, mem: seq<byte>, a: ArrayRec, b: ArrayRec)
    requires a.data == b.data && a.len == b.len && a.data + pl.Span(a.len) <= |mem|
    ensures Items(pl, mem, a) == Items(pl, mem, b)
  {
  }

  lemma {:induction false} StepSim(pl: Platform, w: World, op: Op)
    requires Inv(pl, w) && Enabled(pl, w, op)
    ensures Simulates(pl, w, op)
  {
    if op.Reset? {
    } else {
      hide Do, Effect, Framed;
      match op {
        case Alloc(_, _) => RawSim(pl, w, op);
        case Calloc(_, _) => RawSim(pl, w, op);
        case Strdup(_, _, _) => RawSim(pl, w, op);
        case Realloc(_, _, _) => ReallocSim(pl, w, op);
        case Poke(_, _, _) => PokeSim(pl, w, op);
        case Init(_, _) => InitSim(pl, w, op);
        case Append(_, _, _) => AppendSim(pl, w, op);
        case Set(_, _, _) => SetSim(pl, w, op);
        case Remove(_, _) => RemoveSim(pl, w, op);
        case Shrink(_, _) => ShrinkSim(pl, w, op);
        case GrowCapacity(_, _, _) => GrowCapacitySim(pl, w, op);
        case Grow(_, _, _) => GrowSim(pl, w, op);
        case Dup(_, _) => DupSim(pl, w, op);
        case DupOnto(_, _, _) => DupOntoSim(pl, w, op);
      }
    }
  }

  // ----- refused copies -----

  /** A refused copy onto an array in use is not without effect: with the array
      changed as the code changes it the objects stay in order exactly when
      the slots it now claims end below the bump pointer and meet no other object,
      as they do whenever the capacity of the source is not above its own. The
      source may be in another pool. */
  lemma {:induction false} RefusedDuplicate(pl: Platform, w: World, a: ArrayRec, k: nat, answer: Answer)
    requires Inv(pl, w) && k < |w.objs| && w.objs[k].Arr?
    requires MayGrowTo(pl, w.mem, w.pool, a.capacity, answer)
    requires a.len <= a.capacity && a.data + pl.Span(a.capacity) <= |w.mem|
    requires !Duplicated(pl, w.mem, w.pool, a, w.objs[k].rec, answer).ok
    ensures var o := Arr(Duplicated(pl, w.mem, w.pool, a, w.objs[k].rec, answer).arr);
      && (Inv(pl, w.(objs := w.objs[k := o])) <==>
          Hi(pl, o) <= w.pool.next && forall j :: 0 <= j < |w.objs| && j != k ==> Apart(pl, o, w.objs[j]))
      && (a.capacity <= w.objs[k].rec.capacity ==> Inv(pl, w.(objs := w.objs[k := o])))
  {
    hide Framed, Place, Multiple, AlignUp, Request, Sound;
    var o := Arr(Duplicated(pl, w.mem, w.pool, a, w.objs[k].rec, answer).arr);
    var w' := w.(objs := w.objs[k := o]);
    assert WellPlaced(pl, w.pool, w.objs[k]);
    if Inv(pl, w') {
      assert WellPlaced(pl, w.pool, w'.objs[k]);
      forall j | 0 <= j < |w.objs| && j != k
        ensures Apart(pl, o, w.objs[j])
      {
        assert Apart(pl, w'.objs[if j < k then j else k], w'.objs[if j < k then k else j]);
      }
    }
    if a.capacity <= w.objs[k].rec.capacity {
      forall j | 0 <= j < |w.objs| && j != k
        ensures Apart(pl, o, w.objs[j])
      {
        assert Apart(pl, w.objs[if j < k then j else k], w.objs[if j < k then k else j]);
      }
    }
  }

  /** One page, taken by the given objects. */
  lemma {:induction false} FullPage(pl: Platform, objs: seq<Obj>) returns (w: World)
    requires pl.Ok()
    requires forall k :: 0 <= k < |objs| ==>
      && Lo(objs[k]) % 16 == 0 && Hi(pl, objs[k]) <= pl.pageSize
      && (objs[k].Arr? ==> objs[k].rec.len <= objs[k].rec.capacity)
    requires forall j, k :: 0 <= j < k < |objs| ==> Apart(pl, objs[j], objs[k])
    ensures Inv(pl, w) && w.objs == objs && w.pool == PoolRec(pl.pageSize, 0, pl.pageSize, pl.pageSize)
  {
    hide Multiple, AlignUp;
    w := World(Zeros(pl.pageSize), PoolRec(pl.pageSize, 0, pl.pageSize, pl.pageSize), objs);
    MultipleIsMod(0, pl.pageSize);
    MultipleIsMod(pl.pageSize, pl.pageSize);
    forall k | 0 <= k < |objs|
      ensures Multiple(Lo(objs[k]), pl.Align())
    {
      MultipleIsMod(Lo(objs[k]), pl.Align());
    }
  }

  lemma {:induction false} ViewAt(pl: Platform, w: World, k: nat)
    requires Inv(pl, w) && k < |w.objs|
    ensures |Views(pl, w)| == |w.objs| && Hi(pl, w.objs[k]) <= |w.mem|
    ensures Views(pl, w)[k] == ViewOf(pl, w.mem, w.objs[k])
  {
    assert WellPlaced(pl, w.pool, w.objs[k]);
  }

  /** Below the bump pointer is not enough: a pool in order, and a refused copy
      after which the array claims slots that are in another block. The page is
      full with an array of one slot, a block, the source of eight slots, a block. */
  lemma {:induction false} RefusedDuplicateOverlaps(pl: Platform) returns (w: World)
    requires pl.Ok() && pl.pageSize >= 96
    ensures |w.objs| == 4 && w.objs[0].Arr? && w.objs[2].Arr?
    ensures Inv(pl, w) && MayGrowTo(pl, w.mem, w.pool, w.objs[2].rec.capacity, Refused)
    ensures w.objs[2].rec.data + pl.Span(w.objs[2].rec.capacity) <= |w.mem|
    ensures var s := Duplicated(pl, w.mem, w.pool, w.objs[2].rec, w.objs[0].rec, Refused);
            !s.ok && Hi(pl, Arr(s.arr)) <= w.pool.next && !Inv(pl, w.(objs := w.objs[0 := Arr(s.arr)]))
  {
    hide Multiple, AlignUp, Place, Load, Store;
    w := FullPage(pl, [Arr(ArrayRec(0, 0, 1)), Raw(16, 16), Arr(ArrayRec(32, 0, 8)), Raw(96, pl.pageSize - 96)]);
    AligningStaysInside(pl, w.pool, |w.mem|);
    AllocFailsIff(pl, w.pool, pl.Span(8), Refused);
    var s := Duplicated(pl, w.mem, w.pool, w.objs[2].rec, w.objs[0].rec, Refused);
    assert s.arr == ArrayRec(0, 0, 8);
    assert !Apart(pl, Arr(s.arr), w.objs[1]);
    RefusedDuplicate(pl, w, w.objs[2].rec, 0, Refused);
  }

  /** And in order is not unchanged: a refused copy leaves the contents of the target
      as they were exactly when length and capacity are those of the source. */
  lemma {:induction false} RefusedDuplicateHarmlessIff(pl: Platform, w: World, i: nat, k: nat, answer: Answer)
    requires Inv(pl, w) && Enabled(pl, w, DupOnto(i, k, answer)) && !Do(pl, w, DupOnto(i, k, answer)).out.ok
    ensures Inv(pl, Do(pl, w, DupOnto(i, k, answer)).world)
    ensures Views(pl, Do(pl, w, DupOnto(i, k, answer)).world) == Views(pl, w) <==>
            w.objs[i].rec.len == w.objs[k].rec.len && w.objs[i].rec.capacity == w.objs[k].rec.capacity
  {
    hide Framed, Kept, Request, Place, Multiple, AlignUp;
    var op := DupOnto(i, k, answer);
    StepSim(pl, w, op);
    var v, out := Views(pl, w), Do(pl, w, op).out;
    assert v[i] == ViewOf(pl, w.mem, w.objs[i]) && v[k] == ViewOf(pl, w.mem, w.objs[k]);
    assert !(w.objs[i].rec.capacity > w.objs[k].rec.capacity) && w.objs[i].rec.len > w.objs[k].rec.len ==>
             |out.words| == w.objs[i].rec.len - w.objs[k].rec.len;
    MisdirectedIff(v[i], v[k], out);
    if Misdirected(v[i], v[k], out) == v[k] {
      assert v[k := v[k]] == v;
    } else {
      assert v[k := Misdirected(v[i], v[k], out)][k] != v[k];
    }
  }

  lemma {:induction false} MisdirectedIff(a: View, b: View, out: Outcome)
    requires a.List? && b.List?
    requires a.capacity <= b.capacity && |a.items| > |b.items| ==> out.words != []
    ensures Misdirected(a, b, out) == b <==> |a.items| == |b.items| && a.capacity == b.capacity
  {
    if |a.items| == |b.items| {
      assert b.items[..|a.items|] == b.items;
    } else if |a.items| < |b.items| {
      assert |b.items[..|a.items|]| != |b.items|;
    } else if a.capacity <= b.capacity {
      assert |b.items + out.words| != |b.items|;
    }
  }

  /** In a full pool that may not grow copies are refused. */
  lemma {:induction false} FullPoolRefuses(pl: Platform, w: World, i: nat, k: nat)
    requires Inv(pl, w) && w.pool.next == w.pool.end && i < |w.objs| && k < |w.objs| && i != k
    requires w.objs[i].Arr? && w.objs[k].Arr? && w.objs[i].rec.capacity > 0
    ensures Enabled(pl, w, DupOnto(i, k, Refused)) && !Do(pl, w, DupOnto(i, k, Refused)).out.ok
  {
    hide Multiple, AlignUp, Framed, Kept, Words, Place;
    var v := Views(pl, w);
    assert WellPlaced(pl, w.pool, w.objs[i]) && WellPlaced(pl, w.pool, w.objs[k]);
    assert v[i] == ViewOf(pl, w.mem, w.objs[i]) && v[k] == ViewOf(pl, w.mem, w.objs[k]);
    AligningStaysInside(pl, w.pool, |w.mem|);
    AllocFailsIff(pl, w.pool, pl.Span(w.objs[i].rec.capacity), Refused);
  }

  /** An array of two items, and an empty one whose refused copy leaves it without any. */
  lemma {:induction false} RefusedDuplicateEmpties(pl: Platform) returns (w: World)
    requires pl.Ok() && pl.pageSize >= 96
    ensures Inv(pl, w) && Enabled(pl, w, DupOnto(0, 1, Refused))
    ensures !Do(pl, w, DupOnto(0, 1, Refused)).out.ok
    ensures |Views(pl, w)| == 3 && Views(pl, w)[1].List? && |Views(pl, w)[1].items| == 2
    ensures Inv(pl, Do(pl, w, DupOnto(0, 1, Refused)).world)
    ensures |Views(pl, Do(pl, w, DupOnto(0, 1, Refused)).world)| == 3
    ensures Views(pl, Do(pl, w, DupOnto(0, 1, Refused)).world)[1] == List([], 2)
  {
    hide Multiple, AlignUp, Framed, Kept, Do, Enabled, Inv, Slot;
    w := FullPage(pl, [Arr(ArrayRec(0, 0, 2)), Arr(ArrayRec(16, 2, 2)), Raw(32, pl.pageSize - 32)]);
    FullPoolRefuses(pl, w, 0, 1);
    StepSim(pl, w, DupOnto(0, 1, Refused));
    ViewAt(pl, w, 0);
    ViewAt(pl, w, 1);
  }

  /** A pool just initialised or reset is a world without objects. */
  lemma {:induction false} FreshPool(pl: Platform, mem: seq<byte>, p: PoolRec)
    requires Sound(pl, p, |mem|)
    ensures Inv(pl, World(mem, p, [])) && Views(pl, World(mem, p, [])) == []
  {
    assert |Views(pl, World(mem, p, []))| == 0;
  }

  // ----- runs -----

  ghost predicate AllEnabled(pl: Platform, w: World, ops: seq<Op>)
    requires Inv(pl, w)
    decreases |ops|
  {
    ops == [] ||
    (Enabled(pl, w, ops[0]) &&
     (StepSim(pl, w, ops[0]); AllEnabled(pl, Do(pl, w, ops[0]).world, ops[1..])))
  }

  /** The world after a run. */
  ghost function Run(pl: Platform, w: World, ops: seq<Op>): World
    requires Inv(pl, w) && AllEnabled(pl, w, ops)
    decreases |ops|
  {
    if ops == [] then w else StepSim(pl, w, ops[0]); Run(pl, Do(pl, w, ops[0]).world, ops[1..])
  }

  /** What the operations of a run report. */
  ghost function Outcomes(pl: Platform, w: World, ops: seq<Op>): (outs: seq<Outcome>)
    requires Inv(pl, w) && AllEnabled(pl, w, ops)
    ensures |outs| == |ops|
    decreases |ops|
  {
    if ops == [] then []
    else
      StepSim(pl, w, ops[0]);
      var r := Do(pl, w, ops[0]);
      [r.out] + Outcomes(pl, r.world, ops[1..])
  }

  predicate Lawful(v: seq<View>, ops: seq<Op>, outs: seq<Outcome>)
    requires |outs| == |ops|
    decreases |ops|
  {
    ops == [] || (MayDo(v, ops[0]) && Lawful(Effect(v, ops[0], outs[0]), ops[1..], outs[1..]))
  }

  /** The contents after a run, computed from contents and reports alone. */
  function Effects(v: seq<View>, ops: seq<Op>, outs: seq<Outcome>): seq<View>
    requires |outs| == |ops| && Lawful(v, ops, outs)
    decreases |ops|
  {
    if ops == [] then v else Effects(Effect(v, ops[0], outs[0]), ops[1..], outs[1..])
  }

  /** Any interleaving of operations on any number of arrays and blocks leaves
      them aligned, apart and below the bump pointer, with the contents that
      each would have if it were alone. */
  lemma {:induction false} RunSim(pl: Platform, w: World, ops: seq<Op>)
    requires Inv(pl, w) && AllEnabled(pl, w, ops)
    ensures Inv(pl, Run(pl, w, ops))
    ensures Lawful(Views(pl, w), ops, Outcomes(pl, w, ops))
    ensures Views(pl, Run(pl, w, ops)) == Effects(Views(pl, w), ops, Outcomes(pl, w, ops))
    decreases |ops|
  {
    hide Do, Effect, Views;
    if ops == [] {
    } else {
      StepSim(pl, w, ops[0]);
      var r := Do(pl, w, ops[0]);
      RunSim(pl, r.world, ops[1..]);
      assert Outcomes(pl, w, ops)[1..] == Outcomes(pl, r.world, ops[1..]);
    }
  }

  /** An object no operation of the run works on keeps its place and its bytes. */
  lemma {:induction false} BystanderKept(pl: Platform, w: World, ops: seq<Op>, j: nat)
    requires Inv(pl, w) && AllEnabled(pl, w, ops) && j < |w.objs|
    requires forall op :: op in ops ==> !op.Reset? && !Touches(op, j)
    ensures Inv(pl, Run(pl, w, ops)) && Kept(pl, w, Run(pl, w, ops), j)
    decreases |ops|
  {
    hide Do, Effect, Views;
    if ops == [] {
      NothingDone(pl, w);
    } else {
      StepSim(pl, w, ops[0]);
      assert ops[0] in ops;
      var w' := Do(pl, w, ops[0]).world;
      assert Kept(pl, w, w', j);
      BystanderKept(pl, w', ops[1..], j);
    }
  }

  /** Byte `x` is in an object that an operation of the run works on. */
  ghost predicate InTouched(pl: Platform, w: World, ops: seq<Op>, x: nat) {
    exists op :: op in ops && 0 <= Target(op) < |w.objs| && Within(pl, w.objs[Target(op)], x)
  }

  /** Over a run no byte handed out before it changes but in the objects worked on:
      memory a growing array has left behind keeps its bytes as well. */
  lemma {:induction false} RunFrame(pl: Platform, w: World, ops: seq<Op>, x: nat)
    requires Inv(pl, w) && AllEnabled(pl, w, ops) && forall op :: op in ops ==> !op.Reset?
    requires x < w.pool.next && !InTouched(pl, w, ops, x)
    ensures |Run(pl, w, ops).mem| == |w.mem| && x < |w.mem| && Run(pl, w, ops).mem[x] == w.mem[x]
    decreases |ops|
  {
    hide Do, Effect, Views, Enabled;
    if ops == [] {
    } else {
      StepSim(pl, w, ops[0]);
      assert ops[0] in ops;
      var w' := Do(pl, w, ops[0]).world;
      assert w'.mem[x] == w.mem[x];
      assert !InTouched(pl, w', ops[1..], x) by {
        StillOutside(pl, w, w', ops, x);
      }
      RunFrame(pl, w', ops[1..], x);
    }
  }

  lemma {:induction false} StillOutside(pl: Platform, w: World, w': World, ops: seq<Op>, x: nat)
    requires ops != [] && Framed(pl, w, w', Target(ops[0])) && x < w.pool.next && !InTouched(pl, w, ops, x)
    ensures !InTouched(pl, w', ops[1..], x)
  {
    if op :| op in ops[1..] && 0 <= Target(op) < |w'.objs| && Within(pl, w'.objs[Target(op)], x) {
      assert op in ops && Within(pl, w.objs[Target(op)], x);
      assert false;
    }
  }

  // ----- an array is a bag -----

  /** The items of an object; a raw block has none. */
  function ItemsOf(v: View): seq<nat> {
    if v.List? then v.items else []
  }

  /** The items an operation puts into object `i`. */
  function Gains(v: seq<View>, op: Op, out: Outcome, i: nat): multiset<nat>
    requires MayDo(v, op)
  {
    if !Touches(op, i) then multiset{}
    else match op
      case Append(_, item, _) => if out.ok then multiset{item} else multiset{}
      case Set(_, _, item) => multiset{item}
      case Grow(_, _, _) => if out.ok then multiset(out.words) else multiset{}
      case DupOnto(k, _, _) =>
        if out.ok then multiset(v[k].items)
        else if v[k].capacity <= v[i].capacity && |v[k].items| > |v[i].items| then multiset(out.words)
        else multiset{}
      case _ => multiset{}
  }

  /** The items an operation takes out of object `i`. */
  function Losses(v: seq<View>, op: Op, out: Outcome, i: nat): multiset<nat>
    requires MayDo(v, op)
  {
    if !Touches(op, i) then multiset{}
    else match op
      case Set(_, index, _) => multiset{v[i].items[index]}
      case Remove(_, index) =>
        var items := v[i].items;
        if |items| == 0 then multiset{} else multiset{if |items| == 1 then items[0] else items[index]}
      case Shrink(_, n) => if n >= |v[i].items| then multiset{} else multiset(v[i].items[n..])
      case DupOnto(k, _, _) =>
        if out.ok || v[k].capacity > v[i].capacity then multiset(v[i].items)
        else if |v[k].items| < |v[i].items| then multiset(v[i].items[|v[k].items|..])
        else multiset{}
      case _ => multiset{}
  }

  lemma {:induction false} UpdateBag(s: seq<nat>, k: nat, x: nat)
    requires k < |s|
    ensures multiset(s[k := x]) + multiset{s[k]} == multiset(s) + multiset{x}
  {
    assert s == s[..k] + [s[k]] + s[k + 1..];
    assert s[k := x] == s[..k] + [x] + s[k + 1..];
  }

  lemma {:induction false} SwapRemovedBag(s: seq<nat>, k: nat)
    requires |s| > 1 && k < |s|
    ensures multiset(SwapRemoved(s, k)) + multiset{s[k]} == multiset(s)
  {
    var last := s[|s| - 1];
    var t := s[k := last];
    UpdateBag(s, k, last);
    assert t == SwapRemoved(s, k) + [last];
    assert multiset(t) == multiset(SwapRemoved(s, k)) + multiset{last};
    CancelOne(multiset(SwapRemoved(s, k)) + multiset{s[k]}, multiset(s), last);
  }

  lemma {:induction false} CancelOne(a: multiset<nat>, b: multiset<nat>, x: nat)
    requires a + multiset{x} == b + multiset{x}
    ensures a == b
  {
    forall y: nat
      ensures a[y] == b[y]
    {
      assert (a + multiset{x})[y] == (b + multiset{x})[y];
    }
  }

  /** One operation moves between object `i` and the outside exactly its gains
      and losses; an array stays one but for a copy onto it. */
  ghost predicate Balanced(v: seq<View>, op: Op, out: Outcome, i: nat)
    requires MayDo(v, op)
  {
    var v' := Effect(v, op, out);
    && i < |v| && i < |v'|
    && (v[i].List? && !CopiesOnto(op, i) ==> v'[i].List?)
    && multiset(ItemsOf(v'[i])) + Losses(v, op, out, i) == multiset(ItemsOf(v[i])) + Gains(v, op, out, i)
  }

  predicate CopiesOnto(op: Op, i: nat) { op.DupOnto? && op.k == i }

  lemma {:induction false} BagUntouched(v: seq<View>, op: Op, out: Outcome, i: nat)
    requires MayDo(v, op) && !op.Reset? && i < |v| && !Touches(op, i)
    ensures Balanced(v, op, out, i)
  {
    hide SwapRemoved, StrnBytes, Zeros, Misdirected;
    assert Effect(v, op, out)[i] == v[i];
  }

  lemma {:induction false} BagRemove(v: seq<View>, op: Op, out: Outcome, i: nat)
    requires MayDo(v, op) && op.Remove? && op.i == i
    ensures Balanced(v, op, out, i)
  {
    var items := v[i].items;
    if |items| > 1 {
      SwapRemovedBag(items, op.index);
    } else if |items| == 1 {
      assert items == [items[0]];
    }
  }

  lemma {:induction false} BagCopied(v: seq<View>, op: Op, out: Outcome)
    requires MayDo(v, op) && op.DupOnto?
    ensures Balanced(v, op, out, op.k)
  {
    var a, b := v[op.i].items, v[op.k].items;
    if !out.ok && v[op.i].capacity <= v[op.k].capacity && |a| <= |b| {
      assert b == b[..|a|] + b[|a|..];
    }
  }

  lemma {:induction false} BagShrunk(v: seq<View>, op: Op, out: Outcome)
    requires MayDo(v, op) && op.Shrink?
    ensures Balanced(v, op, out, op.i)
  {
    var items := v[op.i].items;
    if op.n < |items| {
      assert items == items[..op.n] + items[op.n..];
    }
  }

  /** The operations that only add, and the one that replaces an item. */
  lemma {:induction false} BagAdded(v: seq<View>, op: Op, out: Outcome)
    requires MayDo(v, op) && (op.Poke? || op.Append? || op.Set? || op.GrowCapacity? || op.Grow?)
    ensures Balanced(v, op, out, op.i)
  {
    if op.Set? {
      UpdateBag(v[op.i].items, op.index, op.item);
    }
  }

  lemma {:induction false} BagStep(v: seq<View>, op: Op, out: Outcome, i: nat)
    requires MayDo(v, op) && !op.Reset? && i < |v|
    ensures Balanced(v, op, out, i)
  {
    hide Balanced, MayDo;
    if !Touches(op, i) {
      BagUntouched(v, op, out, i);
    } else if op.DupOnto? {
      BagCopied(v, op, out);
    } else if op.Remove? {
      BagRemove(v, op, out, i);
    } else if op.Shrink? {
      BagShrunk(v, op, out);
    } else {
      BagAdded(v, op, out);
    }
  }

  lemma {:induction false} Chain(m: multiset<nat>, m1: multiset<nat>, m2: multiset<nat>,
                                 l: multiset<nat>, l1: multiset<nat>, g: multiset<nat>, g1: multiset<nat>)
    requires m1 + l == m + g && m2 + l1 == m1 + g1
    ensures m2 + (l + l1) == m + (g + g1)
  {
    assert m2 + (l + l1) == (m2 + l1) + l;
    assert (m1 + g1) + l == (m1 + l) + g1;
  }

  function AllGains(v: seq<View>, ops: seq<Op>, outs: seq<Outcome>, i: nat): multiset<nat>
    requires |outs| == |ops| && Lawful(v, ops, outs)
    decreases |ops|
  {
    if ops == [] then multiset{}
    else Gains(v, ops[0], outs[0], i) + AllGains(Effect(v, ops[0], outs[0]), ops[1..], outs[1..], i)
  }

  function AllLosses(v: seq<View>, ops: seq<Op>, outs: seq<Outcome>, i: nat): multiset<nat>
    requires |outs| == |ops| && Lawful(v, ops, outs)
    decreases |ops|
  {
    if ops == [] then multiset{}
    else Losses(v, ops[0], outs[0], i) + AllLosses(Effect(v, ops[0], outs[0]), ops[1..], outs[1..], i)
  }

  /** Over any run, what object `i` holds at the end and what was taken out of it
      is what it held at the start and what was put in. */
  lemma {:induction false} BagConserved(v: seq<View>, ops: seq<Op>, outs: seq<Outcome>, i: nat)
    requires |outs| == |ops| && Lawful(v, ops, outs)
    requires i < |v| && forall op :: op in ops ==> !op.Reset?
    ensures var v' := Effects(v, ops, outs);
      && i < |v'|
      && (v[i].List? && (forall op :: op in ops ==> !CopiesOnto(op, i)) ==> v'[i].List?)
      && multiset(ItemsOf(v'[i])) + AllLosses(v, ops, outs, i)
      == multiset(ItemsOf(v[i])) + AllGains(v, ops, outs, i)
    decreases |ops|
  {
    hide Effect, Gains, Losses, ItemsOf;
    if ops == [] {
    } else {
      assert ops[0] in ops;
      BagStep(v, ops[0], outs[0], i);
      var v1 := Effect(v, ops[0], outs[0]);
      BagConserved(v1, ops[1..], outs[1..], i);
      Chain(multiset(ItemsOf(v[i])), multiset(ItemsOf(v1[i])), multiset(ItemsOf(Effects(v, ops, outs)[i])),
            Losses(v, ops[0], outs[0], i), AllLosses(v1, ops[1..], outs[1..], i),
            Gains(v, ops[0], outs[0], i), AllGains(v1, ops[1..], outs[1..], i));
    }
  }

  /** The pointers in object `i`. */
  function Held(pl: Platform, w: World, i: nat): seq<nat>
    requires Inv(pl, w) && i < |w.objs|
  {
    if w.objs[i].Arr? then Items(pl, w.mem, w.objs[i].rec) else []
  }

  lemma {:induction false} HeldIsView(pl: Platform, w: World, i: nat)
    requires Inv(pl, w) && i < |w.objs|
    ensures Held(pl, w, i) == ItemsOf(Views(pl, w)[i])
    ensures w.objs[i].Arr? <==> Views(pl, w)[i].List?
  {
    assert Views(pl, w)[i] == ViewOf(pl, w.mem, w.objs[i]);
  }

  /** The same, of an array in memory. */
  lemma {:induction false} ArrayIsBag(pl: Platform, w: World, ops: seq<Op>, i: nat)
    requires Inv(pl, w) && AllEnabled(pl, w, ops)
    requires i < |w.objs| && forall op :: op in ops ==> !op.Reset?
    ensures var w' := Run(pl, w, ops);
      && Inv(pl, w') && i < |w'.objs|
      && (w.objs[i].Arr? && (forall op :: op in ops ==> !CopiesOnto(op, i)) ==> w'.objs[i].Arr?)
      && (w'.objs[i].Arr? ==> w'.objs[i].rec.len <= w'.objs[i].rec.capacity)
      && Lawful(Views(pl, w), ops, Outcomes(pl, w, ops))
      && multiset(Held(pl, w', i)) + AllLosses(Views(pl, w), ops, Outcomes(pl, w, ops), i)
      == multiset(Held(pl, w, i)) + AllGains(Views(pl, w), ops, Outcomes(pl, w, ops), i)
  {
    hide Views, Held, ItemsOf, Effects;
    RunSim(pl, w, ops);
    ViewsSize(pl, Run(pl, w, ops));
    ViewsSize(pl, w);
    BagConserved(Views(pl, w), ops, Outcomes(pl, w, ops), i);
    HeldIsView(pl, w, i);
    HeldIsView(pl, Run(pl, w, ops), i);
  }

  lemma {:induction false} ViewsSize(pl: Platform, w: World)
    requires Inv(pl, w)
    ensures |Views(pl, w)| == |w.objs|
  {
  }
}
