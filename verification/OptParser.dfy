/** libae/opt.c: the parser object and its loops. */
module OptParser {
  import opened Wrappers
  import opened Decimal
  import opened OptTable
  import opened OptSpec
  import opened OptRuns

  class OptParser {
    var env: Env
    var options: array<Entry>
    var vars: Vars
    var optind: int

    constructor (env: Env, options: array<Entry>, vars: Vars, optind: int)
      ensures this.env == env && this.options == options && this.vars == vars && this.optind == optind
    {
      this.env, this.options, this.vars, this.optind := env, options, vars, optind;
    }

    /** The table is initialised and its variables are there. */
    ghost predicate Valid()
      reads this, options
    {
      && optind >= 0
      && TableTyped(options[..], vars)
      && forall j :: 0 <= j < options.Length ==> options[j].nameLen == |options[j].name|
    }

    /** The lengths of the names are filled in; the cursor is not set. */
    method Init(env: Env, options: array<Entry>)
      modifies this`env, this`options, options
      ensures this.env == env && this.options == options
      ensures forall j :: 0 <= j < options.Length ==>
                options[j] == old(options[j]).(nameLen := |old(options[j]).name|)
    {
      this.env := env;
      this.options := options;
      var i := 0;
      while i < options.Length
        modifies options
        invariant 0 <= i <= options.Length
        invariant forall j :: 0 <= j < i ==> options[j] == old(options[j]).(nameLen := |old(options[j]).name|)
        invariant forall j :: i <= j < options.Length ==> options[j] == old(options[j])
      {
        options[i] := options[i].(nameLen := |options[i].name|);
        i := i + 1;
      }
    }

    method ArgGet(args: seq<string>) returns (param: Option<string>)
      requires optind >= 0
      ensures param == Lookahead(args, optind)
      ensures param == if optind >= |args| || "--" <= args[optind] then None else Some(args[optind])
    {
      if optind < |args| {
        DashedIff(args[optind]);
      }
      if optind >= |args| {
        return None;
      }
      var maybe := args[optind];
      if |maybe| > 0 && maybe[0] == '-' && |maybe| > 1 && maybe[1] == '-' {
        return None;
      }
      return Some(maybe);
    }

    method ParseFlag(e: Entry, param: Option<string>) returns (ok: bool)
      requires e.kind.Flag? && Typed(e, vars)
      modifies this`vars
      ensures vars == Apply(env, old(vars), Event(e, param)) && ok == ValueAccepted(env, Event(e, param))
    {
      if e.out.None? {
        return false;
      }
      vars := vars[e.out.value := BoolVar(true)];
      return true;
    }

    /** Success means a variable, a number or its default, and the limits. */
    method ParseInt(e: Entry, param: Option<string>) returns (ok: bool)
      requires e.kind.Int? && Typed(e, vars)
      modifies this`vars
      ensures vars == Apply(env, old(vars), Event(e, param)) && ok == ValueAccepted(env, Event(e, param))
      ensures ok ==> e.out.Some? && (param.Some? ==> Scan(param.value).Some?)
      ensures e.out.Some? && (param.Some? ==> Scan(param.value).Some?) ==>
                var n := if param.Some? then ToInt(Scan(param.value).value)
                         else if e.input.IntInput? then e.input.def else -1;
                && vars == old(vars)[e.out.value := IntVar(n)]
                && (ok <==> e.input.IntInput? ==> e.input.min <= n <= e.input.max)
      ensures param.Some? && Scan(param.value).None? ==> vars == old(vars)
    {
      var def, min, max := 0, 0, 0;
      if e.input.IntInput? {
        def, min, max := e.input.def, e.input.min, e.input.max;
      }
      if e.out.None? {
        return false;
      }
      var out := e.out.value;
      if param.Some? {
        var n := Scan(param.value);
        if n.None? {
          assert Written(env, Event(e, param), vars[out]) == vars[out];
          assert vars == vars[out := vars[out]];
          return false;
        }
        vars := vars[out := IntVar(ToInt(n.value))];
      } else {
        vars := vars[out := IntVar(if e.input.IntInput? then def else -1)];
      }
      if e.input.IntInput? {
        if vars[out].i < min || vars[out].i > max {
          return false;
        }
      }
      return true;
    }

    method ParseDouble(e: Entry, param: Option<string>) returns (ok: bool)
      requires e.kind.Double? && Typed(e, vars)
      modifies this`vars
      ensures vars == Apply(env, old(vars), Event(e, param)) && ok == ValueAccepted(env, Event(e, param))
    {
      var def, min, max := 0.0, 0.0, 0.0;
      if e.input.RealInput? {
        def, min, max := e.input.rdef, e.input.rmin, e.input.rmax;
      }
      if e.out.None? {
        return false;
      }
      var out := e.out.value;
      if param.Some? {
        var x := env.scanReal(param.value);
        if x.None? {
          assert vars == vars[out := vars[out]];
          return false;
        }
        vars := vars[out := RealVar(x.value)];
      } else {
        vars := vars[out := RealVar(if e.input.RealInput? then def else -1.0)];
      }
      if e.input.RealInput? {
        if vars[out].r < min || vars[out].r > max {
          return false;
        }
      }
      return true;
    }

    method ParseBit(e: Entry, param: Option<string>) returns (ok: bool)
      requires e.kind.Bit? && Typed(e, vars)
      modifies this`vars
      ensures vars == Apply(env, old(vars), Event(e, param)) && ok == ValueAccepted(env, Event(e, param))
      ensures ok <==> e.out.Some?
      ensures ok ==> vars.Keys == old(vars.Keys) && vars[e.out.value].BitsVar?
      ensures ok ==> forall bit :: HasBit(vars[e.out.value].bits, bit) <==>
                HasBit(old(vars)[e.out.value].bits, bit) || (e.input.BitInput? && HasBit(e.input.mask, bit))
    {
      hide Or, HasBit;
      var whichBits := MaskOf(e);
      if e.out.None? {
        return false;
      }
      ghost var was := vars[e.out.value].bits;
      vars := vars[e.out.value := BitsVar(Or(vars[e.out.value].bits, whichBits))];
      forall bit
        ensures HasBit(vars[e.out.value].bits, bit) <==>
                HasBit(was, bit) || (e.input.BitInput? && HasBit(e.input.mask, bit))
      {
        OrBits(was, whichBits, bit);
      }
      return true;
    }

    /** A parameter that is no number leaves the counter alone and is not an error. */
    method ParseCounter(e: Entry, param: Option<string>) returns (ok: bool)
      requires e.kind.Counter? && Typed(e, vars)
      modifies this`vars
      ensures vars == Apply(env, old(vars), Event(e, param)) && ok == ValueAccepted(env, Event(e, param))
      ensures ok <==> e.out.Some?
      ensures ok && param.Some? && Scan(param.value).None? ==> vars == old(vars)
      ensures ok && (param.Some? ==> Scan(param.value).Some?) ==>
                var more := if param.Some? then ToInt(Scan(param.value).value) else 1;
                vars == old(vars)[e.out.value := IntVar(Wrap(old(vars)[e.out.value].i + more))]
    {
      if e.out.None? {
        return false;
      }
      var out := e.out.value;
      if param.None? {
        vars := vars[out := IntVar(Wrap(vars[out].i + 1))];
        return true;
      }
      var n := Scan(param.value);
      if n.None? {
        assert vars == vars[out := vars[out]];
        return true;
      }
      vars := vars[out := IntVar(Wrap(vars[out].i + ToInt(n.value)))];
      return true;
    }

    method ParseString(e: Entry, param: Option<string>) returns (ok: bool)
      requires e.kind.String? && Typed(e, vars)
      modifies this`vars
      ensures vars == Apply(env, old(vars), Event(e, param)) && ok == ValueAccepted(env, Event(e, param))
    {
      vars := vars[e.out.value := StrVar(param)];
      return true;
    }

    method OptionProcess(param: Option<string>, e: Entry) returns (verdict: Verdict)
      requires Valid() && e in options[..] && !e.kind.Group?
      modifies this`optind, this`vars
      ensures Valid()
      ensures optind == if !e.param.NoParam? && param.Some? then old(optind) + 1 else old(optind)
      ensures verdict.Exit? <==> e.kind.Help? || e.kind.Version?
      ensures verdict.Exit? ==> vars == old(vars)
      ensures !verdict.Exit? ==>
                vars == Apply(env, old(vars), Event(e, param)) &&
                (verdict.Success? <==> Accepted(env, Event(e, param)))
      ensures verdict.Success? <==>
                && !e.kind.Help? && !e.kind.Version?
                && (if param.Some? then GoesWith(env, e, param.value) else GoesWithout(e))
    {
      hide GoesWith, GoesWithout;
      AcceptedIff(env, e);
      var argOk := if e.param.NoParam? then false else true;
      if argOk && param.Some? {
        optind := optind + 1;
      }
      ghost var before := vars;
      ApplyTyped(env, options[..], vars, Event(e, param));
      var ok := true;
      match e.kind {
        case Help | Version => return Exit;
        case Flag => ok := ParseFlag(e, param);
        case Int => ok := ParseInt(e, param);
        case Double => ok := ParseDouble(e, param);
        case String => ok := ParseString(e, param);
        case Bit => ok := ParseBit(e, param);
        case Counter => ok := ParseCounter(e, param);
        case CallbackOnly =>
          assert before == Apply(env, before, Event(e, param));
      }
      if !ok {
        return Failure;
      }
      if e.callback.Some? {
        if !e.callback.value(param) {
          return Failure;
        }
      }
      return Success;
    }

    method ArgumentIsValid(arg: string) returns (ok: bool)
      ensures ok == StartsDashed(arg) && (ok <==> "--" <= arg)
    {
      DashedIff(arg);
      if |arg| < 2 {
        return false;
      }
      if arg[0] != '-' || arg[1] != '-' {
        return false;
      }
      return true;
    }

    /** The part of the inner loop that compares names and processes a match. */
    method TryOption(args: seq<string>, arg: string, option: Entry) returns (matched: bool, verdict: Verdict)
      requires Valid() && option in options[..] && !option.kind.Group? && StartsDashed(arg)
      modifies this`optind, this`vars
      ensures Valid()
      ensures matched <==> option.name == Key(arg)
      ensures !matched ==> verdict.Success? && optind == old(optind) && vars == old(vars)
      ensures matched ==>
                var ev := Event(option, ParamAt(args, Inline(arg), old(optind)));
                && optind == CursorAfter(option, ev.param, old(optind))
                && (verdict.Exit? <==> option.kind.Help? || option.kind.Version?)
                && (verdict.Exit? ==> vars == old(vars))
                && (!verdict.Exit? ==> vars == Apply(env, old(vars), ev) && (verdict.Success? <==> Accepted(env, ev)))
    {
      hide Key, Inline, IndexOfEquals, UpToEquals, Accepted, Apply, Typed;
      NameTest(arg, option.name);
      var stripped := arg[2..];
      var pos := IndexOfEquals(stripped);
      var limit := if pos >= 0 then pos else |stripped|;
      if limit != option.nameLen {
        return false, Success;
      }
      if option.name[..limit] != stripped[..limit] {
        return false, Success;
      }
      var param := None;
      if pos >= 0 {
        param := Some(stripped[pos + 1..]);
      } else {
        param := ArgGet(args);
      }
      matched := true;
      verdict := OptionProcess(param, option);
    }

    method UnknownArgument(arg: string) returns (ok: bool)
      ensures ok == UnknownAccepted(env, arg)
      ensures env.unknown.None? ==> !ok
      ensures env.unknown.Some? ==> ok == env.unknown.value(arg)
    {
      if env.unknown.Some? {
        return env.unknown.value(arg);
      }
      return false;
    }

    /** The inner loop: one argument against the whole table. `stop` tells that
        processing ends here with the verdict. */
    method ProcessArgument(args: seq<string>, arg: string) returns (stop: bool, verdict: Verdict, processed: bool)
      requires Valid() && optind > 0
      modifies this`optind, this`vars
      ensures Valid()
      ensures StartsDashed(arg) ==>
                var es := Matching(options[..], Key(arg));
                var p := Matched(env, es, args, Inline(arg), old(optind));
                && vars == ApplyAll(env, old(vars), p.events) && optind == p.optind && verdict == p.verdict
                && stop == !p.verdict.Success? && (!stop ==> processed == (es != []))
      ensures !StartsDashed(arg) ==>
                && stop == HasOption(options[..]) && vars == old(vars) && verdict == Success
                && optind == (if stop then old(optind) - 1 else old(optind)) && !processed
    {
      hide Key, Inline, Matching, Matched, Accepted, Apply, ApplyAll, Typed, InputTyped, ParamAt;
      ghost var table, dashed, step: seq<Event> := options[..], StartsDashed(arg), [];
      ghost var key, inline := if dashed then Key(arg) else "", if dashed then Inline(arg) else None;
      ghost var all := Matched(env, Matching(table, key), args, inline, optind);
      AfterAfter([], [], all);
      NothingApplied(env, vars);
      assert table[0..] == table;
      processed := false;
      for j := 0 to options.Length
        invariant Valid() && options[..] == table && optind >= old(optind)
        invariant vars == ApplyAll(env, old(vars), step)
        invariant processed <==> step != []
        invariant !processed ==> Matching(table, key) == Matching(table[j..], key) && optind == old(optind)
        invariant processed ==> dashed && Matching(table, key) != []
        invariant all == After(step, Matched(env, Matching(table[j..], key), args, inline, optind))
        invariant !dashed ==> forall k :: 0 <= k < j ==> table[k].kind.Group?
      {
        var option := options[j];
        assert table[j] == option;
        InnerStep(env, table, j, key, args, inline, optind, step);
        if option.kind.Group? {
          continue;
        }
        var valid := ArgumentIsValid(arg);
        if !valid {
          optind := optind - 1;
          return true, Success, false;
        }
        ghost var ev := Event(option, ParamAt(args, inline, optind));
        ApplyOneMore(env, old(vars), step, ev);
        var matched;
        matched, verdict := TryOption(args, arg, option);
        if !matched {
          continue;
        }
        if !verdict.Success? {
          return true, verdict, true;
        }
        step := step + [ev];
        processed := true;
      }
      assert table[options.Length..] == [];
      NothingMatched(env, key, args, inline, optind, step);
      return false, Success, processed;
    }

    /** The nested loops do what the recursion over the list says: the same
        options with the same parameters, the same variables, cursor and verdict. */
    method Process(args: seq<string>) returns (verdict: Verdict)
      requires Valid()
      modifies this`optind, this`vars
      ensures Valid()
      ensures var p := Call(env, options[..], args, old(optind));
              verdict == p.verdict && optind == p.optind && vars == ApplyAll(env, old(vars), p.events)
    {
      hide Parse, Key, Inline, Matching, UnknownAccepted, Apply, ApplyAll, Typed, InputTyped;
      NothingApplied(env, vars);
      if optind > |args| {
        return Failure;
      }
      ghost var table := options[..];
      ghost var whole := Parse(env, table, args, optind);
      ghost var evs: seq<Event> := [];
      AfterAfter([], [], whole);
      while optind < |args|
        invariant Valid() && options[..] == table
        invariant vars == ApplyAll(env, old(vars), evs)
        invariant whole == After(evs, Parse(env, table, args, optind))
      {
        ParseStep(env, table, args, optind, evs);
        var arg := args[optind];
        optind := optind + 1;
        if arg == "--" {
          return Success;
        }
        ghost var p := if StartsDashed(arg) then Matched(env, Matching(table, Key(arg)), args, Inline(arg), optind)
                       else Parsed([], optind, Success);
        ApplyMore(env, old(vars), evs, p.events);
        var stop, processed;
        stop, verdict, processed := ProcessArgument(args, arg);
        if stop {
          assert evs + [] == evs;
          return verdict;
        }
        if !processed {
          if StartsDashed(arg) {
            NothingMatched(env, Key(arg), args, Inline(arg), optind, []);
          }
          assert evs + [] == evs;
          var ok := UnknownArgument(arg);
          if !ok {
            return Failure;
          }
        }
        evs := evs + p.events;
      }
      ParseDone(env, table, args, optind, evs);
      return Success;
    }
  }
}
