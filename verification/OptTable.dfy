/** The option table of libae/opt.c, the variables it writes to and what one
    matched option does to them. */
module OptTable {
  import opened Wrappers
  import opened Decimal

  /** ae_opt_type_t. */
  datatype Kind = Group | Help | Version | Flag | Int | Double | String | Bit | Counter | CallbackOnly

  /** ae_opt_required_t. */
  datatype Param = NoParam | OptionalParam | RequiredParam

  /** What `in` points to: nothing, a default with limits, or the bits to set. */
  datatype Input = NoInput | IntInput(def: int, min: int, max: int)
                 | RealInput(rdef: real, rmin: real, rmax: real) | BitInput(mask: bv32)

  /** ae_opt_option_t. A variable is named by a number; callbacks see the parameter
      and give a verdict. */
  datatype Entry = Entry(name: string, nameLen: nat, help: Option<string>, helpParam: Option<string>,
                         kind: Kind, param: Param, input: Input, out: Option<nat>,
                         callback: Option<Option<string> -> bool>)

  /** What the library is given: "%lg" of sscanf, and the global callback's verdict
      on an unknown argument. */
  datatype Env = Env(scanReal: string -> Option<real>, unknown: Option<string -> bool>)

  datatype Var = BoolVar(b: bool) | IntVar(i: int) | RealVar(r: real) | StrVar(s: Option<string>) | BitsVar(bits: bv32)

  type Vars = map<nat, Var>

  /** The variable of an entry has the type its kind calls for. */
  predicate Typed(e: Entry, vars: Vars) {
    match e.out
    case None => !e.kind.String?
    case Some(t) =>
      t in vars &&
      match e.kind
      case Flag => vars[t].BoolVar?
      case Int | Counter => vars[t].IntVar? && IsInt(vars[t].i)
      case Double => vars[t].RealVar?
      case String => vars[t].StrVar?
      case Bit => vars[t].BitsVar?
      case _ => true
  }

  ghost predicate TableTyped(table: seq<Entry>, vars: Vars) {
    forall e :: e in table ==> Typed(e, vars) && InputTyped(e)
  }

  predicate InputTyped(e: Entry) {
    match e.input
    case NoInput => true
    case IntInput(def, min, max) => e.kind.Int? && IsInt(def) && IsInt(min) && IsInt(max)
    case RealInput(_, _, _) => e.kind.Double?
    case BitInput(_) => e.kind.Bit?
  }

  /** A matched option with the parameter it was given. */
  datatype Event = Event(entry: Entry, param: Option<string>)

  function IntOf(e: Entry, param: Option<string>): Option<int> {
    match param
    case None => Some(if e.input.IntInput? then e.input.def else -1)
    case Some(s) =>
      match Scan(s)
      case None => None
      case Some(n) => Some(ToInt(n))
  }

  function RealOf(env: Env, e: Entry, param: Option<string>): Option<real> {
    match param
    case None => Some(if e.input.RealInput? then e.input.rdef else -1.0)
    case Some(s) => env.scanReal(s)
  }

  /** How much an occurrence of a counter adds. */
  function CountOf(param: Option<string>): int {
    match param
    case None => 1
    case Some(s) =>
      match Scan(s)
      case None => 0
      case Some(n) => ToInt(n)
  }

  function Or(a: bv32, b: bv32): bv32 { a | b }

  /** Some bit of `bit` is set in `bits`. */
  predicate HasBit(bits: bv32, bit: bv32) { bits & bit != 0 }

  /** A bit is set afterwards when it was set before or is set now. */
  lemma {:induction false} OrBits(a: bv32, b: bv32, bit: bv32)
    ensures HasBit(Or(a, b), bit) <==> HasBit(a, bit) || HasBit(b, bit)
    ensures !HasBit(0, bit)
  {
    Distribute(a, b, bit);
    NoneSet(a & bit, b & bit);
    NoBits(bit);
  }

  lemma {:induction false} Distribute(a: bv32, b: bv32, c: bv32)
    ensures (a | b) & c == (a & c) | (b & c)
  {
  }

  lemma {:induction false} NoneSet(a: bv32, b: bv32)
    ensures a | b == 0 <==> a == 0 && b == 0
  {
  }

  lemma {:induction false} NoBits(a: bv32)
    ensures 0 & a == 0
  {
  }

  /** The bits an entry sets. */
  function MaskOf(e: Entry): bv32 {
    if e.input.BitInput? then e.input.mask else 0
  }

  /** What an event leaves in its variable. */
  function Written(env: Env, ev: Event, was: Var): Var {
    match (ev.entry.kind, was)
    case (Flag, _) => BoolVar(true)
    case (Int, _) =>
      (match IntOf(ev.entry, ev.param) case None => was case Some(n) => IntVar(n))
    case (Double, _) =>
      (match RealOf(env, ev.entry, ev.param) case None => was case Some(x) => RealVar(x))
    case (String, _) => StrVar(ev.param)
    case (Bit, BitsVar(bits)) => BitsVar(Or(bits, MaskOf(ev.entry)))
    case (Counter, IntVar(i)) => IntVar(Wrap(i + CountOf(ev.param)))
    case _ => was
  }

  /** The value is usable: there is a variable, a number where one is expected,
      and it is within the limits. */
  predicate ValueAccepted(env: Env, ev: Event) {
    var e := ev.entry;
    match e.kind
    case Flag | Bit | Counter => e.out.Some?
    case Int =>
      e.out.Some? && IntOf(e, ev.param).Some? &&
      (e.input.IntInput? ==> e.input.min <= IntOf(e, ev.param).value <= e.input.max)
    case Double =>
      e.out.Some? && RealOf(env, e, ev.param).Some? &&
      (e.input.RealInput? ==> e.input.rmin <= RealOf(env, e, ev.param).value <= e.input.rmax)
    case _ => true
  }

  /** The event lets processing go on. */
  predicate Accepted(env: Env, ev: Event) {
    ValueAccepted(env, ev) && (ev.entry.callback.Some? ==> ev.entry.callback.value(ev.param))
  }

  /** The variables after an event. */
  function Apply(env: Env, vars: Vars, ev: Event): Vars {
    if ev.entry.out.Some? && ev.entry.out.value in vars
    then vars[ev.entry.out.value := Written(env, ev, vars[ev.entry.out.value])]
    else vars
  }

  function ApplyAll(env: Env, vars: Vars, evs: seq<Event>): Vars {
    if evs == [] then vars else Apply(env, ApplyAll(env, vars, evs[..|evs| - 1]), evs[|evs| - 1])
  }

  lemma {:induction false} ApplyTyped(env: Env, table: seq<Entry>, vars: Vars, ev: Event)
    requires TableTyped(table, vars) && ev.entry in table
    ensures TableTyped(table, Apply(env, vars, ev))
  {
    ghost var vars' := Apply(env, vars, ev);
    forall e | e in table
      ensures Typed(e, vars')
    {
      if ev.entry.out.Some? && e.out == ev.entry.out {
        assert Typed(ev.entry, vars) && InputTyped(ev.entry);
      }
    }
  }

  lemma {:induction false} NothingApplied(env: Env, vars: Vars)
    ensures ApplyAll(env, vars, []) == vars
  {
  }

  lemma {:induction false} ApplyOneMore(env: Env, vars: Vars, evs: seq<Event>, ev: Event)
    ensures ApplyAll(env, vars, evs + [ev]) == Apply(env, ApplyAll(env, vars, evs), ev)
  {
    assert (evs + [ev])[..|evs|] == evs;
  }

  lemma {:induction false} ApplyMore(env: Env, vars: Vars, evs: seq<Event>, evs': seq<Event>)
    ensures ApplyAll(env, ApplyAll(env, vars, evs), evs') == ApplyAll(env, vars, evs + evs')
    decreases |evs'|
  {
    if evs' == [] {
      assert evs + [] == evs;
    } else {
      var init, last := evs'[..|evs'| - 1], evs'[|evs'| - 1];
      ApplyMore(env, vars, evs, init);
      ApplyOneMore(env, vars, evs + init, last);
      assert evs + evs' == evs + init + [last];
    }
  }
}
