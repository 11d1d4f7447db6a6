/** How much of a pool is used, and how far its mapping grows, over a run. */
module PoolSpace {
  import opened Wrappers
  import opened Align
  import opened Memory
  import opened Pool
  import opened PtrArray
  import opened PoolWorld
  import opened PoolRuns

  /** The distance from the start of the pool to the next aligned address. */
  function Used(pl: Platform, p: PoolRec): int {
    AlignUp(p.next, pl.Align()) - p.start
  }

  /** The size of the block an operation was granted, if it was granted one. */
  function Granted(pl: Platform, v: seq<View>, op: Op, out: Outcome): Option<nat>
    requires MayDo(v, op)
  {
    if !out.ok then None
    else match op
      case Reset | Poke(_, _, _) | Set(_, _, _) | Remove(_, _) | Shrink(_, _) => None
      case Append(i, _, _) => if |v[i].items| == v[i].capacity then Some(Asked(pl, v, op)) else None
      case Grow(i, more, _) => if |v[i].items| + more > v[i].capacity then Some(Asked(pl, v, op)) else None
      case _ => Some(Asked(pl, v, op))
  }

  function Rounded(n: Option<nat>, a: nat): nat
    requires a > 0
  {
    match n
    case None => 0
    case Some(k) => AlignUp(k, a)
  }

  /** From `p` to `p'` a block of the given size was handed out, or none. */
  ghost predicate Spends(pl: Platform, p: PoolRec, p': PoolRec, n: Option<nat>)
    requires pl.Ok()
  {
    Used(pl, p') == Used(pl, p) + Rounded(n, pl.Align()) &&
    p.len <= p'.len <= p.len + Rounded(n, pl.pageSize)
  }

  lemma {:induction false} RequestSpends(pl: Platform, mem: seq<byte>, p: PoolRec, n: nat, answer: Answer,
                                         bytes: seq<byte>)
    requires Sound(pl, p, |mem|) && KernelKeepsFaith(pl, p, n, answer, |mem|) && |bytes| <= n
    ensures var r := Request(pl, mem, p, n, answer, bytes);
            Spends(pl, p, r.pool, if r.ok then Some(n) else None)
  {
    AllocStaysInside(pl, p, n, answer, |mem|);
    if Place(pl, p, n, answer).Some? {
      AllocAccounting(pl, p, n, answer, |mem|);
    }
  }

  lemma {:induction false} ReallocSpends(pl: Platform, mem: seq<byte>, p: PoolRec, src: nat, srcLen: nat,
                                         n: nat, answer: Answer)
    requires Sound(pl, p, |mem|) && KernelKeepsFaith(pl, p, n, answer, |mem|)
    requires srcLen <= n && src + srcLen <= |mem|
    ensures var r := Reallocated(pl, mem, p, src, srcLen, n, answer);
            Spends(pl, p, r.pool, if r.ok then Some(n) else None)
  {
    hide Place, Multiple, AlignUp, Request, Reallocated;
    ReallocatedIsRequest(pl, mem, p, src, srcLen, n, answer);
    RequestSpends(pl, mem, p, n, answer, Load(mem, src, srcLen));
  }

  lemma {:induction false} ResetSpace(pl: Platform, p: PoolRec, space: nat)
    requires Sound(pl, p, space)
    ensures Used(pl, p.(next := p.start)) == 0
  {
    PagesAreAligned(pl, p.start);
    AlignedStays(p.start, pl.Align());
  }

  lemma {:induction false} RawStepSpends(pl: Platform, w: World, op: Op)
    requires Inv(pl, w) && Enabled(pl, w, op)
    requires op.Alloc? || op.Calloc? || op.Strdup? || op.Realloc?
    ensures var r := Do(pl, w, op);
            Spends(pl, w.pool, r.world.pool, Granted(pl, Views(pl, w), op, r.out))
  {
    hide Place, Multiple, AlignUp, Request, Reallocated, Used;
    match op {
      case Alloc(n, answer) => RequestSpends(pl, w.mem, w.pool, n, answer, []);
      case Calloc(n, answer) => RequestSpends(pl, w.mem, w.pool, n, answer, Zeros(n));
      case Strdup(s, srcLen, answer) =>
        RequestSpends(pl, w.mem, w.pool, DupLength(s, srcLen), answer, StrnBytes(s, DupLength(s, srcLen)));
      case Realloc(i, n, answer) =>
        ReallocSpends(pl, w.mem, w.pool, w.objs[i].addr, w.objs[i].size, n, answer);
    }
  }

  lemma {:induction false} NewArraySpends(pl: Platform, w: World, op: Op)
    requires Inv(pl, w) && Enabled(pl, w, op)
    requires op.Init? || op.Dup? || op.DupOnto?
    ensures var r := Do(pl, w, op);
            Spends(pl, w.pool, r.world.pool, Granted(pl, Views(pl, w), op, r.out))
  {
    hide Place, Multiple, AlignUp, Request, Reallocated, Used;
    if op.Init? {
      RequestSpends(pl, w.mem, w.pool, pl.Span(op.n), op.answer, []);
    } else {
      var a := w.objs[op.i].rec;
      RequestSpends(pl, w.mem, w.pool, pl.Span(a.capacity), op.answer, Load(w.mem, a.data, pl.Span(a.capacity)));
    }
  }

  lemma {:induction false} GrownArraySpends(pl: Platform, w: World, op: Op)
    requires Inv(pl, w) && Enabled(pl, w, op)
    requires op.Append? || op.GrowCapacity?
    ensures var r := Do(pl, w, op);
            Spends(pl, w.pool, r.world.pool, Granted(pl, Views(pl, w), op, r.out))
  {
    hide Place, Multiple, AlignUp, Request, Reallocated, Used;
    var a := w.objs[op.i].rec;
    var more := if op.Append? then 16 else op.more;
    ReallocSpends(pl, w.mem, w.pool, a.data, pl.Span(a.len), pl.Span(a.capacity + more), op.answer);
  }

  lemma {:induction false} LengthenedArraySpends(pl: Platform, w: World, op: Op)
    requires Inv(pl, w) && Enabled(pl, w, op)
    requires op.Grow?
    ensures var r := Do(pl, w, op);
            Spends(pl, w.pool, r.world.pool, Granted(pl, Views(pl, w), op, r.out))
  {
    hide Place, Multiple, AlignUp, Request, Reallocated, Used;
    var a := w.objs[op.i].rec;
    if a.len + op.more > a.capacity {
      ReallocSpends(pl, w.mem, w.pool, a.data, pl.Span(a.len), pl.Span(a.len + op.more), op.answer);
    }
  }

  lemma {:induction false} StepSpace(pl: Platform, w: World, op: Op)
    requires Inv(pl, w) && Enabled(pl, w, op)
    ensures var r := Do(pl, w, op);
            if op.Reset? then Used(pl, r.world.pool) == 0 && r.world.pool.len == w.pool.len
            else Spends(pl, w.pool, r.world.pool, Granted(pl, Views(pl, w), op, r.out))
  {
    hide Multiple, AlignUp, Used;
    if op.Reset? {
      ResetSpace(pl, w.pool, |w.mem|);
    } else if op.Alloc? || op.Calloc? || op.Strdup? || op.Realloc? {
      RawStepSpends(pl, w, op);
    } else if op.Init? || op.Dup? || op.DupOnto? {
      NewArraySpends(pl, w, op);
    } else if op.Append? || op.GrowCapacity? {
      GrownArraySpends(pl, w, op);
    } else if op.Grow? {
      LengthenedArraySpends(pl, w, op);
    }
  }

  /** The space in use after a run: the rounded sizes granted since the last reset. */
  function UsedAfter(pl: Platform, used: int, v: seq<View>, ops: seq<Op>, outs: seq<Outcome>): int
    requires |outs| == |ops| && Lawful(v, ops, outs)
    decreases |ops|
  {
    if ops == [] then used
    else
      var u := if ops[0].Reset? then 0
               else used + Rounded(Granted(pl, v, ops[0], outs[0]), pl.Align());
      UsedAfter(pl, u, Effect(v, ops[0], outs[0]), ops[1..], outs[1..])
  }

  /** The page-rounded sizes granted over a whole run, resets notwithstanding. */
  function PagesGranted(pl: Platform, v: seq<View>, ops: seq<Op>, outs: seq<Outcome>): nat
    requires |outs| == |ops| && Lawful(v, ops, outs) && pl.pageSize > 0
    decreases |ops|
  {
    if ops == [] then 0
    else
      var rest := PagesGranted(pl, Effect(v, ops[0], outs[0]), ops[1..], outs[1..]);
      Rounded(Granted(pl, v, ops[0], outs[0]), pl.pageSize) + rest
  }

  /** Over any run the space in use is exactly accounted for, and the mapping
      never shrinks and grows by no more than was granted. */
  lemma {:induction false} RunSpace(pl: Platform, w: World, ops: seq<Op>)
    requires Inv(pl, w) && AllEnabled(pl, w, ops)
    ensures Lawful(Views(pl, w), ops, Outcomes(pl, w, ops))
    ensures Used(pl, Run(pl, w, ops).pool)
         == UsedAfter(pl, Used(pl, w.pool), Views(pl, w), ops, Outcomes(pl, w, ops))
    ensures w.pool.len <= Run(pl, w, ops).pool.len
         <= w.pool.len + PagesGranted(pl, Views(pl, w), ops, Outcomes(pl, w, ops))
    decreases |ops|
  {
    hide Do, Effect, Views, Used, Granted, Multiple, AlignUp;
    RunSim(pl, w, ops);
    if ops == [] {
    } else {
      StepSim(pl, w, ops[0]);
      StepSpace(pl, w, ops[0]);
      var r := Do(pl, w, ops[0]);
      RunSpace(pl, r.world, ops[1..]);
      assert Outcomes(pl, w, ops)[1..] == Outcomes(pl, r.world, ops[1..]);
    }
  }
}
