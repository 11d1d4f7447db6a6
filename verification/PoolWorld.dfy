/** Any number of raw blocks and pointer arrays living in one pool, and what a
    program that only sees their contents can tell about them. */
module PoolWorld {
  import opened Align
  import opened Memory
  import opened Pool
  import opened PtrArray

  /** Something the pool handed out. */
  datatype Obj = Raw(addr: nat, size: nat) | Arr(rec: ArrayRec)

  function Lo(o: Obj): nat {
    match o
    case Raw(addr, _) => addr
    case Arr(rec) => rec.data
  }

  function Hi(pl: Platform, o: Obj): nat {
    match o
    case Raw(addr, size) => addr + size
    case Arr(rec) => rec.data + pl.Span(rec.capacity)
  }

  datatype World = World(mem: seq<byte>, pool: PoolRec, objs: seq<Obj>)

  /** An aligned block between the start of the pool and its bump pointer. */
  ghost predicate WellPlaced(pl: Platform, p: PoolRec, o: Obj) {
    && Multiple(Lo(o), pl.Align()) && p.start <= Lo(o) && Hi(pl, o) <= p.next
    && (o.Arr? ==> o.rec.len <= o.rec.capacity)
  }

  ghost predicate Apart(pl: Platform, o: Obj, o': Obj) {
    Hi(pl, o) <= Lo(o') || Hi(pl, o') <= Lo(o)
  }

  ghost predicate Inv(pl: Platform, w: World) {
    && Sound(pl, w.pool, |w.mem|)
    && (forall k :: 0 <= k < |w.objs| ==> WellPlaced(pl, w.pool, w.objs[k]))
    && (forall j, k :: 0 <= j < k < |w.objs| ==> Apart(pl, w.objs[j], w.objs[k]))
  }

  // ----- operations -----

  /** `answer` is what the kernel would say to a request for more pages;
      `i` selects the object operated on, `k` the array that is copied onto. */
  datatype Op =
    | Reset
    | Alloc(n: nat, answer: Answer)
    | Calloc(n: nat, answer: Answer)
    | Realloc(i: nat, newLen: nat, answer: Answer)
    | Strdup(s: seq<byte>, srcLen: int, answer: Answer)
    | Poke(i: nat, off: nat, v: byte)
    | Init(n: nat, answer: Answer)
    | Append(i: nat, item: nat, answer: Answer)
    | Set(i: nat, index: nat, item: nat)
    | Remove(i: nat, index: nat)
    | Shrink(i: nat, n: nat)
    | GrowCapacity(i: nat, more: nat, answer: Answer)
    | Grow(i: nat, more: nat, answer: Answer)
    | Dup(i: nat, answer: Answer)
    | DupOnto(i: nat, k: nat, answer: Answer)

  /** The contents of an object: the bytes of a block, or the items and the
      capacity of an array. */
  datatype View = Bytes(bytes: seq<byte>) | List(items: seq<nat>, capacity: nat)

  predicate IsBytes(v: seq<View>, i: nat) { i < |v| && v[i].Bytes? }

  predicate IsList(v: seq<View>, i: nat) { i < |v| && v[i].List? && |v[i].items| <= v[i].capacity }

  /** What the callers of an operation have to respect. */
  predicate MayDo(v: seq<View>, op: Op) {
    match op
    case Reset | Alloc(_, _) | Calloc(_, _) | Init(_, _) => true
    case Realloc(i, newLen, _) => IsBytes(v, i) && |v[i].bytes| <= newLen
    case Strdup(s, srcLen, _) => srcLen >= -1 && 0 !in s
    case Poke(i, off, _) => IsBytes(v, i) && off < |v[i].bytes|
    case Append(i, _, _) => IsList(v, i)
    case Set(i, index, _) => IsList(v, i) && index < |v[i].items|
    case Remove(i, index) => IsList(v, i) && (|v[i].items| > 1 ==> index < |v[i].items|)
    case Shrink(i, _) => IsList(v, i)
    case GrowCapacity(i, _, _) => IsList(v, i)
    case Grow(i, _, _) => IsList(v, i)
    case Dup(i, _) => IsList(v, i)
    case DupOnto(i, k, _) => IsList(v, i) && IsList(v, k) && i != k
  }

  /** What an operation reports: its verdict, and the bytes or words it exposes
      without having written them. */
  datatype Outcome = Outcome(ok: bool, bytes: seq<byte>, words: seq<nat>)

  /** The effect of an operation on contents alone: every object is its own
      sequence, and an operation reaches only the one it names. */
  function Effect(v: seq<View>, op: Op, out: Outcome): seq<View>
    requires MayDo(v, op)
  {
    match op
    case Reset => []
    case Alloc(n, _) => if out.ok then v + [Bytes(out.bytes)] else v
    case Calloc(n, _) => if out.ok then v + [Bytes(Zeros(n))] else v
    case Realloc(i, _, _) => if out.ok then v + [Bytes(v[i].bytes + out.bytes)] else v
    case Strdup(s, srcLen, _) => if out.ok then v + [Bytes(StrnBytes(s, DupLength(s, srcLen)))] else v
    case Poke(i, off, b) => v[i := Bytes(v[i].bytes[off := b])]
    case Init(n, _) => if out.ok then v + [List([], n)] else v
    case Append(i, item, _) =>
      if out.ok then
        v[i := List(v[i].items + [item],
                    if |v[i].items| == v[i].capacity then v[i].capacity + 16 else v[i].capacity)]
      else v
    case Set(i, index, item) => v[i := v[i].(items := v[i].items[index := item])]
    case Remove(i, index) => v[i := v[i].(items := SwapRemoved(v[i].items, index))]
    case Shrink(i, n) => if n >= |v[i].items| then v else v[i := v[i].(items := v[i].items[..n])]
    case GrowCapacity(i, more, _) => if out.ok then v[i := v[i].(capacity := v[i].capacity + more)] else v
    case Grow(i, more, _) =>
      if out.ok then v[i := List(v[i].items + out.words, |v[i].items| + more)] else v
    case Dup(i, _) => if out.ok then v + [v[i]] else v
    case DupOnto(i, k, _) => if out.ok then v[k := v[i]] else v[k := Misdirected(v[i], v[k], out)]
  }

  /** What a refused copy of `a` makes of `b`: the length and the capacity of `a`
      over the slots of `b`, or a mere block where those are too few. */
  function Misdirected(a: View, b: View, out: Outcome): View
    requires a.List? && b.List?
  {
    if a.capacity > b.capacity then Bytes(out.bytes)
    else if |a.items| <= |b.items| then List(b.items[..|a.items|], a.capacity)
    else List(b.items + out.words, a.capacity)
  }

  function ViewOf(pl: Platform, mem: seq<byte>, o: Obj): View
    requires Hi(pl, o) <= |mem| && (o.Arr? ==> o.rec.len <= o.rec.capacity)
  {
    match o
    case Raw(addr, size) => Bytes(Load(mem, addr, size))
    case Arr(rec) => List(Items(pl, mem, rec), rec.capacity)
  }

  function Views(pl: Platform, w: World): seq<View>
    requires Inv(pl, w)
  {
    seq(|w.objs|, k requires 0 <= k < |w.objs| => ViewOf(pl, w.mem, w.objs[k]))
  }

  /** How many bytes the operation would ask the pool for. */
  function Asked(pl: Platform, v: seq<View>, op: Op): nat
    requires MayDo(v, op)
  {
    match op
    case Alloc(n, _) => n
    case Calloc(n, _) => n
    case Realloc(_, newLen, _) => newLen
    case Strdup(s, srcLen, _) => DupLength(s, srcLen)
    case Init(n, _) => pl.Span(n)
    case Append(i, _, _) => pl.Span(v[i].capacity + 16)
    case GrowCapacity(i, more, _) => pl.Span(v[i].capacity + more)
    case Grow(i, more, _) =>
      pl.Span(if |v[i].items| + more > v[i].capacity then |v[i].items| + more else v[i].capacity)
    case Dup(i, _) => pl.Span(v[i].capacity)
    case DupOnto(i, _, _) => pl.Span(v[i].capacity)
    case _ => 0
  }

  function AnswerOf(op: Op): Answer {
    match op
    case Reset | Poke(_, _, _) | Set(_, _, _) | Remove(_, _) | Shrink(_, _) => Refused
    case _ => op.answer
  }

  ghost predicate Enabled(pl: Platform, w: World, op: Op)
    requires Inv(pl, w)
  {
    && MayDo(Views(pl, w), op)
    && KernelKeepsFaith(pl, w.pool, Asked(pl, Views(pl, w), op), AnswerOf(op), |w.mem|)
    && (op.Append? || op.Set? ==> op.item < Range(pl.PtrSize()))
  }

  function AddRaw(w: World, r: After, n: nat): World {
    if r.ok then World(r.mem, r.pool, w.objs + [Raw(r.out, n)]) else w
  }

  function AddArr(w: World, s: Step): World {
    if s.ok then World(s.mem, s.pool, w.objs + [Arr(s.arr)]) else w
  }

  function PutArr(w: World, i: nat, s: Step): World
    requires i < |w.objs|
  {
    World(s.mem, s.pool, w.objs[i := Arr(s.arr)])
  }

  datatype Result = Result(world: World, out: Outcome)

  /** One operation on the machine. */
  function Do(pl: Platform, w: World, op: Op): Result
    requires Inv(pl, w) && Enabled(pl, w, op)
  {
    match op
    case Reset => Result(World(w.mem, w.pool.(next := w.pool.start), []), Done(true))
    case Alloc(_, _) | Calloc(_, _) | Realloc(_, _, _) | Strdup(_, _, _) | Poke(_, _, _) => DoRaw(pl, w, op)
    case Init(_, _) | GrowCapacity(_, _, _) | Grow(_, _, _) | Dup(_, _) => DoSized(pl, w, op)
    case DupOnto(i, k, answer) => CopyOnto(pl, w, i, k, answer)
    case Append(_, _, _) | Set(_, _, _) | Remove(_, _) | Shrink(_, _) => DoItems(pl, w, op)
  }

  /** The operations on raw blocks. */
  function DoRaw(pl: Platform, w: World, op: Op): Result
    requires Inv(pl, w) && Enabled(pl, w, op)
    requires op.Alloc? || op.Calloc? || op.Realloc? || op.Strdup? || op.Poke?
  {
    match op
    case Alloc(n, answer) =>
      var r := Request(pl, w.mem, w.pool, n, answer, []);
      RequestIsFresh(pl, w.mem, w.pool, n, answer, []);
      Result(AddRaw(w, r, n), Outcome(r.ok, if r.ok then Load(r.mem, r.out, n) else [], []))
    case Calloc(n, answer) =>
      var r := Request(pl, w.mem, w.pool, n, answer, Zeros(n));
      Result(AddRaw(w, r, n), Done(r.ok))
    case Realloc(i, n, answer) =>
      var Raw(addr, size) := w.objs[i];
      var r := Reallocated(pl, w.mem, w.pool, addr, size, n, answer);
      RequestIsFresh(pl, w.mem, w.pool, n, answer, Load(w.mem, addr, size));
      Result(AddRaw(w, r, n), Outcome(r.ok, if r.ok then Load(r.mem, r.out + size, n - size) else [], []))
    case Strdup(s, srcLen, answer) =>
      var n := DupLength(s, srcLen);
      var r := Request(pl, w.mem, w.pool, n, answer, StrnBytes(s, n));
      Result(AddRaw(w, r, n), Done(r.ok))
    case Poke(i, off, b) =>
      Result(w.(mem := Store(w.mem, w.objs[i].addr + off, [b])), Done(true))
  }

  /** The operations on the capacity of arrays. */
  function DoSized(pl: Platform, w: World, op: Op): Result
    requires Inv(pl, w) && Enabled(pl, w, op)
    requires op.Init? || op.GrowCapacity? || op.Grow? || op.Dup?
  {
    match op
    case Init(n, answer) =>
      var s := Initialised(pl, w.mem, w.pool, ArrayRec(0, 0, 0), n, answer);
      Result(AddArr(w, s), Done(s.ok))
    case GrowCapacity(i, more, answer) =>
      var s := CapacityGrown(pl, w.mem, w.pool, w.objs[i].rec, more, answer);
      Result(PutArr(w, i, s), Done(s.ok))
    case Grow(i, more, answer) =>
      var a := w.objs[i].rec;
      var s := Grown(pl, w.mem, w.pool, a, more, answer);
      GrownFacts(pl, w.mem, w.pool, a, more, answer);
      Result(PutArr(w, i, s), Outcome(s.ok, [], if s.ok then Items(pl, s.mem, s.arr)[a.len..] else []))
    case Dup(i, answer) =>
      var s := Duplicated(pl, w.mem, w.pool, w.objs[i].rec, ArrayRec(0, 0, 0), answer);
      Result(AddArr(w, s), Done(s.ok))
  }

  /** A copy onto an array in use. Refused, it leaves the array with a length and
      a capacity that are not its own; where its slots are too few for them, the
      program can go on to use the block but not the array. */
  function CopyOnto(pl: Platform, w: World, i: nat, k: nat, answer: Answer): Result
    requires Inv(pl, w) && Enabled(pl, w, DupOnto(i, k, answer))
  {
    var a, b := w.objs[i].rec, w.objs[k].rec;
    var s := Duplicated(pl, w.mem, w.pool, a, b, answer);
    if s.ok then Result(PutArr(w, k, s), Done(true))
    else if a.capacity <= b.capacity then
      var words := if a.len > b.len then Items(pl, w.mem, s.arr)[b.len..] else [];
      Result(w.(objs := w.objs[k := Arr(s.arr)]), Outcome(false, [], words))
    else
      var bytes := Load(w.mem, b.data, pl.Span(b.capacity));
      Result(w.(objs := w.objs[k := Raw(b.data, pl.Span(b.capacity))]), Outcome(false, bytes, []))
  }

  /** The operations on the items of arrays. */
  function DoItems(pl: Platform, w: World, op: Op): Result
    requires Inv(pl, w) && Enabled(pl, w, op)
    requires op.Append? || op.Set? || op.Remove? || op.Shrink?
  {
    match op
    case Append(i, item, answer) =>
      var s := Appended(pl, w.mem, w.pool, w.objs[i].rec, item, answer);
      Result(PutArr(w, i, s), Done(s.ok))
    case Set(i, index, item) =>
      Result(w.(mem := SetSlot(pl, w.mem, w.objs[i].rec.data, index, item)), Done(true))
    case Remove(i, index) =>
      var (mem', a') := Removed(pl, w.mem, w.objs[i].rec, index);
      Result(World(mem', w.pool, w.objs[i := Arr(a')]), Done(true))
    case Shrink(i, n) =>
      Result(w.(objs := w.objs[i := Arr(Shrunk(w.objs[i].rec, n))]), Done(true))
  }

  function Done(ok: bool): Outcome { Outcome(ok, [], []) }
}
