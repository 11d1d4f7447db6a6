/** What a parse means for the caller: where the cursor ends, what the variables
    hold, and that settings written out are read back. */
module OptRuns {
  import opened Wrappers
  import opened Decimal
  import opened OptTable
  import opened OptSpec

  ghost predicate UniqueNames(table: seq<Entry>) {
    forall j, k :: 0 <= j < k < |table| && !table[j].kind.Group? && !table[k].kind.Group? ==>
      table[j].name != table[k].name
  }

  lemma {:induction false} MatchingNone(table: seq<Entry>, key: string)
    requires forall k :: 0 <= k < |table| ==> table[k].kind.Group? || table[k].name != key
    ensures Matching(table, key) == []
  {
    if table == [] {
    } else {
      assert forall k :: 0 <= k < |table| - 1 ==> table[1..][k] == table[k + 1];
      MatchingNone(table[1..], key);
    }
  }

  /** With unique names a name selects its entry and no other. */
  lemma {:induction false} MatchingOne(table: seq<Entry>, k: nat)
    requires UniqueNames(table) && k < |table| && !table[k].kind.Group?
    ensures Matching(table, table[k].name) == [table[k]]
  {
    var tail := table[1..];
    assert forall j :: 0 <= j < |tail| ==> tail[j] == table[j + 1];
    if k == 0 {
      MatchingNone(tail, table[0].name);
    } else {
      assert tail[k - 1] == table[k];
      MatchingOne(tail, k - 1);
    }
  }

  lemma {:induction false} MatchingAtMostOne(table: seq<Entry>, key: string)
    requires UniqueNames(table)
    ensures |Matching(table, key)| <= 1
  {
    if k :| 0 <= k < |table| && !table[k].kind.Group? && table[k].name == key {
      MatchingOne(table, k);
    } else {
      MatchingNone(table, key);
    }
  }

  // ----- the cursor -----

  /** The cursor never moves back, and passes the end of the list by at most one. */
  lemma {:induction false} CursorBounds(env: Env, table: seq<Entry>, args: seq<string>, i: nat)
    requires UniqueNames(table) && i <= |args| + 1
    ensures i <= Parse(env, table, args, i).optind <= |args| + 1
    decreases |args| - i
  {
    hide Key, Inline, Matching, Matched, UnknownAccepted;
    if i >= |args| || args[i] == "--" || (HasOption(table) && !StartsDashed(args[i])) {
    } else {
      if !HasOption(table) || Matching(table, Key(args[i])) == [] {
        CursorBounds(env, table, args, i + 1);
      } else {
        var es := Matching(table, Key(args[i]));
        MatchingAtMostOne(table, Key(args[i]));
        MatchedAdvances(env, es, args, Inline(args[i]), i + 1);
        CursorBounds(env, table, args, Matched(env, es, args, Inline(args[i]), i + 1).optind);
      }
    }
  }

  /** The argument names no option of the table. */
  predicate Unknown(table: seq<Entry>, arg: string) {
    !HasOption(table) || (StartsDashed(arg) && Matching(table, Key(arg)) == [])
  }

  /** The cursor stands at a positional argument, behind "--", or at the end. */
  ghost predicate EndsProperly(table: seq<Entry>, args: seq<string>, i: nat, n: nat) {
    || n >= |args|
    || (i < n && args[n - 1] == "--")
    || (HasOption(table) && !StartsDashed(args[n]))
  }

  /** The last option was not accepted, or the last argument is unknown and unwanted. */
  ghost predicate EndsBadly(env: Env, table: seq<Entry>, args: seq<string>, i: nat, p: Parsed) {
    || (p.events != [] && !Accepted(env, p.events[|p.events| - 1]))
    || (i < p.optind <= |args| && Unknown(table, args[p.optind - 1]) && !UnknownAccepted(env, args[p.optind - 1]))
  }

  /** Every way processing can end has its reason, and all options but the one
      it may have failed on were accepted. */
  lemma {:induction false} StopReason(env: Env, table: seq<Entry>, args: seq<string>, i: nat)
    ensures var p := Parse(env, table, args, i);
      && i <= p.optind
      && (p.verdict.Success? ==> EndsProperly(table, args, i, p.optind))
      && (p.verdict.Failure? ==> EndsBadly(env, table, args, i, p))
      && (forall k :: 0 <= k < |p.events| - 1 ==> Accepted(env, p.events[k]))
      && (!p.verdict.Failure? ==> forall ev :: ev in p.events ==> Accepted(env, ev))
    decreases |args| - i
  {
    hide Key, Inline, Matched, UnknownAccepted, Accepted, Matching;
    if i >= |args| || args[i] == "--" || (HasOption(table) && !StartsDashed(args[i])) {
    } else {
      if !HasOption(table) || Matching(table, Key(args[i])) == [] {
        StopReason(env, table, args, i + 1);
      } else {
        var es := Matching(table, Key(args[i]));
        var p := Matched(env, es, args, Inline(args[i]), i + 1);
        MatchedAdvances(env, es, args, Inline(args[i]), i + 1);
        MatchedReason(env, es, args, Inline(args[i]), i + 1);
        if p.verdict.Success? {
          StopReason(env, table, args, p.optind);
        }
      }
    }
  }

  lemma {:induction false} MatchedReason(env: Env, es: seq<Entry>, args: seq<string>, inline: Option<string>, i: nat)
    ensures var p := Matched(env, es, args, inline, i);
      && (p.verdict.Failure? ==> p.events != [] && !Accepted(env, p.events[|p.events| - 1]))
      && (forall k :: 0 <= k < |p.events| - 1 ==> Accepted(env, p.events[k]))
      && (!p.verdict.Failure? ==> forall ev :: ev in p.events ==> Accepted(env, ev))
    decreases |es|
  {
    hide Accepted;
    if es == [] {
    } else {
      MatchedReason(env, es[1..], args, inline, CursorAfter(es[0], ParamAt(args, inline, i), i));
    }
  }

  // ----- a second call -----

  /** A second call after a success changes nothing, neither cursor nor variables,
      exactly when the first one stopped at the end or at a positional argument.
      Otherwise it stopped behind "--", or the second call is an error because
      the cursor has passed the end. */
  lemma {:induction false} SecondCallIff(env: Env, table: seq<Entry>, args: seq<string>, i: nat)
    requires Call(env, table, args, i).verdict.Success?
    ensures var n := Call(env, table, args, i).optind;
            var again := Call(env, table, args, n);
      && (again == Parsed([], n, Success) <==>
            n == |args| || (n < |args| && HasOption(table) && !StartsDashed(args[n])))
      && (n > |args| ==> again == Parsed([], n, Failure))
      && (n < |args| && again != Parsed([], n, Success) ==> i < n && args[n - 1] == "--" && again.optind > n)
  {
    hide Matched, Matching, Key, Inline, UnknownAccepted;
    StopReason(env, table, args, i);
    var n := Call(env, table, args, i).optind;
    if n < |args| {
      assert StartsDashed("--");
      if !(HasOption(table) && !StartsDashed(args[n])) {
        MovesOn(env, table, args, n);
      }
    }
  }

  lemma {:induction false} MovesOn(env: Env, table: seq<Entry>, args: seq<string>, i: nat)
    requires i < |args| && !(HasOption(table) && !StartsDashed(args[i]))
    ensures Parse(env, table, args, i).optind > i
  {
    hide Matched, Matching, Key, Inline, UnknownAccepted;
    if args[i] != "--" {
      if !HasOption(table) || Matching(table, Key(args[i])) == [] {
        StopReason(env, table, args, i + 1);
      } else {
        var es := Matching(table, Key(args[i]));
        MatchedAdvances(env, es, args, Inline(args[i]), i + 1);
        StopReason(env, table, args, Matched(env, es, args, Inline(args[i]), i + 1).optind);
      }
    }
  }

  /** The argument gives a value with '=' to an option that takes a parameter. */
  ghost predicate JoinedTaker(table: seq<Entry>, arg: string) {
    && StartsDashed(arg) && Inline(arg).Some?
    && exists e :: e in Matching(table, Key(arg)) && !e.param.NoParam?
  }

  /** With unique names the cursor passes the end of the list only by an '=' with
      an option that takes a parameter, in the last argument. */
  lemma {:induction false} PastTheEnd(env: Env, table: seq<Entry>, args: seq<string>, i: nat)
    requires UniqueNames(table) && i <= |args| < Parse(env, table, args, i).optind
    ensures i < |args| && JoinedTaker(table, args[|args| - 1])
    decreases |args| - i
  {
    hide Key, Inline, Matching, UnknownAccepted, Accepted, UniqueNames, HasOption;
    if i >= |args| || args[i] == "--" || (HasOption(table) && !StartsDashed(args[i])) {
    } else {
      if !HasOption(table) || Matching(table, Key(args[i])) == [] {
        PastTheEnd(env, table, args, i + 1);
      } else {
        var es := Matching(table, Key(args[i]));
        MatchingAtMostOne(table, Key(args[i]));
        assert es == [es[0]];
        OneMatched(env, es[0], args, Inline(args[i]), i + 1);
        var p := Matched(env, es, args, Inline(args[i]), i + 1);
        if p.optind <= |args| {
          PastTheEnd(env, table, args, p.optind);
        } else {
          assert es[0] in es;
        }
      }
    }
  }

  // ----- what the arguments do to each other -----

  /** Only the arguments from the cursor on matter. */
  lemma {:induction false} OnlyRestMatters(env: Env, table: seq<Entry>, args: seq<string>, args': seq<string>, i: nat)
    requires |args| == |args'| && forall k :: i <= k < |args| ==> args[k] == args'[k]
    ensures Parse(env, table, args, i) == Parse(env, table, args', i)
    decreases |args| - i
  {
    if i >= |args| || args[i] == "--" || (HasOption(table) && !StartsDashed(args[i])) {
    } else {
      if !HasOption(table) || Matching(table, Key(args[i])) == [] {
        OnlyRestMatters(env, table, args, args', i + 1);
      } else {
        var es := Matching(table, Key(args[i]));
        SameMatched(env, es, args, args', Inline(args[i]), i + 1);
        var p := Matched(env, es, args, Inline(args[i]), i + 1);
        MatchedAdvances(env, es, args, Inline(args[i]), i + 1);
        OnlyRestMatters(env, table, args, args', p.optind);
      }
    }
  }

  lemma {:induction false} SameMatched(env: Env, es: seq<Entry>, args: seq<string>, args': seq<string>,
                                       inline: Option<string>, i: nat)
    requires |args| == |args'| && forall k :: i <= k < |args| ==> args[k] == args'[k]
    ensures Matched(env, es, args, inline, i) == Matched(env, es, args', inline, i)
    decreases |es|
  {
    if es == [] {
    } else {
      SameMatched(env, es[1..], args, args', inline, CursorAfter(es[0], ParamAt(args, inline, i), i));
    }
  }

  lemma {:induction false} OneMatched(env: Env, e: Entry, args: seq<string>, inline: Option<string>, i: nat)
    ensures var param := ParamAt(args, inline, i);
      Matched(env, [e], args, inline, i)
      == if e.kind.Help? || e.kind.Version? then Parsed([], CursorAfter(e, param, i), Exit)
         else Parsed([Event(e, param)], CursorAfter(e, param, i),
                     if Accepted(env, Event(e, param)) then Success else Failure)
  {
    assert [e][1..] == [];
    var ev := Event(e, ParamAt(args, inline, i));
    assert [ev] + [] == [ev];
  }

  /** An argument that names entry `k` and how parsing goes on behind it. */
  lemma {:induction false} NamedOption(env: Env, table: seq<Entry>, args: seq<string>, i: nat, k: nat)
    requires UniqueNames(table) && k < |table| && !table[k].kind.Group?
    requires i < |args| && args[i] != "--" && StartsDashed(args[i]) && Key(args[i]) == table[k].name
    ensures var e := table[k];
      var ev := Event(e, ParamAt(args, Inline(args[i]), i + 1));
      var n := CursorAfter(e, ev.param, i + 1);
      Parse(env, table, args, i)
      == if e.kind.Help? || e.kind.Version? then Parsed([], n, Exit)
         else if Accepted(env, ev) then After([ev], Parse(env, table, args, n))
         else Parsed([ev], n, Failure)
  {
    hide Key, Inline, Accepted, UniqueNames;
    MatchingOne(table, k);
    OneMatched(env, table[k], args, Inline(args[i]), i + 1);
    assert HasOption(table);
  }

  /** What an entry must be to go through without a parameter: nothing in it asks
      whether the parameter is required. */
  predicate GoesWithout(e: Entry) {
    && (match e.kind
        case Flag | Bit | Counter => e.out.Some?
        case Int => e.out.Some? && (e.input.IntInput? ==> e.input.min <= e.input.def <= e.input.max)
        case Double => e.out.Some? && (e.input.RealInput? ==> e.input.rmin <= e.input.rdef <= e.input.rmax)
        case _ => true)
    && (e.callback.Some? ==> e.callback.value(None))
  }

  /** What an entry leaves in its variable then: the default, -1, no string. */
  function Stored(e: Entry, was: Var): Var {
    match (e.kind, was)
    case (Int, _) => IntVar(if e.input.IntInput? then e.input.def else -1)
    case (Double, _) => RealVar(if e.input.RealInput? then e.input.rdef else -1.0)
    case (String, _) => StrVar(None)
    case (Flag, _) => BoolVar(true)
    case (Counter, IntVar(i)) => IntVar(Wrap(i + 1))
    case (Bit, BitsVar(bits)) => BitsVar(Or(bits, if e.input.BitInput? then e.input.mask else 0))
    case _ => was
  }

  /** What an entry must be to go through with the parameter `v`. */
  predicate GoesWith(env: Env, e: Entry, v: string) {
    && (match e.kind
        case Flag | Bit | Counter => e.out.Some?
        case Int =>
          && e.out.Some? && Scan(v).Some?
          && (e.input.IntInput? ==> e.input.min <= ToInt(Scan(v).value) <= e.input.max)
        case Double =>
          && e.out.Some? && env.scanReal(v).Some?
          && (e.input.RealInput? ==> e.input.rmin <= env.scanReal(v).value <= e.input.rmax)
        case _ => true)
    && (e.callback.Some? ==> e.callback.value(Some(v)))
  }

  lemma {:induction false} AcceptedIff(env: Env, e: Entry)
    ensures Accepted(env, Event(e, None)) <==> GoesWithout(e)
    ensures forall v :: Accepted(env, Event(e, Some(v))) <==> GoesWith(env, e, v)
  {
  }

  /** What the entry leaves in its variable with the parameter `v`: a number that
      cannot be read leaves it alone. */
  function StoredWith(env: Env, e: Entry, v: string, was: Var): Var {
    match (e.kind, was)
    case (Flag, _) => BoolVar(true)
    case (Int, _) => if Scan(v).Some? then IntVar(ToInt(Scan(v).value)) else was
    case (Double, _) => if env.scanReal(v).Some? then RealVar(env.scanReal(v).value) else was
    case (String, _) => StrVar(Some(v))
    case (Counter, IntVar(i)) => if Scan(v).Some? then IntVar(Wrap(i + ToInt(Scan(v).value))) else was
    case (Bit, BitsVar(bits)) => BitsVar(Or(bits, if e.input.BitInput? then e.input.mask else 0))
    case _ => was
  }

  /** The parameter `v` stands behind an '=' or, apart, in the next argument. */
  predicate Given(args: seq<string>, i: nat, v: string) {
    && i < |args| && args[i] != "--" && StartsDashed(args[i])
    && (Inline(args[i]) == Some(v)
        || (Inline(args[i]) == None && i + 1 < |args| && !("--" <= args[i + 1]) && v == args[i + 1]))
  }

  /** Whatever the kind: processing goes on behind an option given with a parameter
      exactly when the entry goes with it, and the variable holds what the kind
      makes of the parameter in any case. */
  lemma {:induction false} OptionGiven(env: Env, table: seq<Entry>, vars: Vars, args: seq<string>, i: nat, k: nat,
                                       v: string)
    requires UniqueNames(table) && k < |table| && !table[k].kind.Group?
    requires !table[k].kind.Help? && !table[k].kind.Version?
    requires Given(args, i, v) && Key(args[i]) == table[k].name
    requires table[k].out.Some? ==> Typed(table[k], vars)
    ensures var e, p := table[k], Parse(env, table, args, i);
      var n := if e.param.NoParam? then i + 1 else i + 2;
      if GoesWith(env, e, v) then p == After([Event(e, Some(v))], Parse(env, table, args, n))
      else p == Parsed([Event(e, Some(v))], n, Failure)
    ensures var e, r := table[k], Apply(env, vars, Event(table[k], Some(v)));
      r == if e.out.Some? then vars[e.out.value := StoredWith(env, e, v, vars[e.out.value])] else vars
  {
    hide Parse, Key, Inline, UniqueNames, Accepted, GoesWith, Or, Scan;
    if i + 1 < |args| {
      DashedIff(args[i + 1]);
    }
    NamedOption(env, table, args, i, k);
    AcceptedIff(env, table[k]);
  }

  /** An integer option with a variable goes on exactly when the parameter is a number
      within the limits and the callback agrees; the number is then in the variable. */
  lemma {:induction false} IntGivenIff(env: Env, table: seq<Entry>, vars: Vars, args: seq<string>, i: nat, k: nat,
                                       v: string, t: nat)
    requires UniqueNames(table) && k < |table| && table[k].kind.Int? && table[k].out == Some(t) && t in vars
    requires Given(args, i, v) && Key(args[i]) == table[k].name && Typed(table[k], vars)
    ensures var e, n := table[k], if table[k].param.NoParam? then i + 1 else i + 2;
      Parse(env, table, args, i) ==
      if && Scan(v).Some? && (e.callback.Some? ==> e.callback.value(Some(v)))
         && (e.input.IntInput? ==> e.input.min <= ToInt(Scan(v).value) <= e.input.max)
      then After([Event(e, Some(v))], Parse(env, table, args, n)) else Parsed([Event(e, Some(v))], n, Failure)
    ensures Apply(env, vars, Event(table[k], Some(v)))
         == if Scan(v).Some? then vars[t := IntVar(ToInt(Scan(v).value))] else vars
  {
    hide Parse, Key, Inline, UniqueNames, Scan, ToInt;
    OptionGiven(env, table, vars, args, i, k, v);
    assert vars[t := vars[t]] == vars;
  }

  /** Every int within the limits is taken in decimal notation, negative ones apart
      from the name as well. */
  lemma {:induction false} PrintedIntTaken(env: Env, table: seq<Entry>, vars: Vars, args: seq<string>, i: nat, k: nat,
                                           x: int, t: nat)
    requires UniqueNames(table) && k < |table| && table[k].kind.Int? && table[k].out == Some(t) && t in vars
    requires IsInt(x) && (table[k].input.IntInput? ==> table[k].input.min <= x <= table[k].input.max)
    requires table[k].callback.Some? ==> table[k].callback.value(Some(Print(x)))
    requires Typed(table[k], vars)
    requires i < |args| && args[i] != "--" && StartsDashed(args[i]) && Key(args[i]) == table[k].name
    requires Inline(args[i]) == Some(Print(x)) ||
             (Inline(args[i]) == None && i + 1 < |args| && args[i + 1] == Print(x))
    ensures var e, n := table[k], if table[k].param.NoParam? then i + 1 else i + 2;
      && Parse(env, table, args, i) == After([Event(e, Some(Print(x)))], Parse(env, table, args, n))
      && Apply(env, vars, Event(e, Some(Print(x)))) == vars[t := IntVar(x)]
  {
    hide Parse, Key, Inline, UniqueNames, Scan, ToInt, Print;
    PrintedIsNoOption(x);
    ScanPrinted(x);
    ToIntKeeps(x);
    IntGivenIff(env, table, vars, args, i, k, Print(x), t);
  }

  /** With an option in the table an argument without two dashes in front ends
      processing where it stands, and so does, behind it, one of two dashes alone. */
  lemma {:induction false} EndsAt(env: Env, table: seq<Entry>, args: seq<string>, i: nat)
    requires i < |args|
    ensures HasOption(table) && !("--" <= args[i]) ==> Parse(env, table, args, i) == Parsed([], i, Success)
    ensures args[i] == "--" ==> Parse(env, table, args, i) == Parsed([], i + 1, Success)
  {
    DashedIff(args[i]);
  }

  /** An option no entry has the name of is for the global callback, and so is any
      argument where the table has no option at all; without a callback it is an error. */
  lemma {:induction false} UnknownOption(env: Env, table: seq<Entry>, args: seq<string>, i: nat)
    requires i < |args| && args[i] != "--"
    requires || (forall k :: 0 <= k < |table| ==> table[k].kind.Group?)
             || (StartsDashed(args[i]) && forall k :: 0 <= k < |table| ==>
                   table[k].kind.Group? || table[k].name != Key(args[i]))
    ensures Parse(env, table, args, i)
         == if env.unknown.Some? && env.unknown.value(args[i]) then Parse(env, table, args, i + 1)
            else Parsed([], i + 1, Failure)
  {
    hide Key;
    if StartsDashed(args[i]) {
      MatchingNone(table, Key(args[i]));
    }
  }

  /** Entries of the same name are all processed, in table order. */
  lemma {:induction false} SameNameTwice(env: Env, a: seq<Entry>, e: Entry, b: seq<Entry>, f: Entry, c: seq<Entry>,
                                         args: seq<string>, i: nat, v: string)
    requires forall g :: g in a + b + c ==> g.kind.Group? || g.name != e.name
    requires e.name == f.name && !e.kind.Group? && !f.kind.Group? && e.param.NoParam? && f.param.NoParam?
    requires !e.kind.Help? && !e.kind.Version? && !f.kind.Help? && !f.kind.Version?
    requires Given(args, i, v) && Key(args[i]) == e.name && GoesWith(env, e, v) && GoesWith(env, f, v)
    ensures var table := a + ([e] + (b + ([f] + c)));
      Parse(env, table, args, i)
      == After([Event(e, Some(v)), Event(f, Some(v))], Parse(env, table, args, i + 1))
  {
    hide Key, Inline, Accepted, GoesWith;
    var table := a + ([e] + (b + ([f] + c)));
    var key := e.name;
    assert table[|a|] == e;
    assert HasOption(table);
    MatchingNone(a, key);
    MatchingNone(b, key);
    MatchingNone(c, key);
    MatchingSplit(a, [e] + (b + ([f] + c)), key);
    MatchingSplit([e], b + ([f] + c), key);
    MatchingSplit(b, [f] + c, key);
    MatchingSplit([f], c, key);
    assert [e][1..] == [] && [f][1..] == [];
    assert Matching([e], key) == [e] && Matching([f], key) == [f];
    assert Matching(table, key) == [e, f];
    TwoMatched(env, e, f, args, i, v);
  }

  lemma {:induction false} TwoMatched(env: Env, e: Entry, f: Entry, args: seq<string>, i: nat, v: string)
    requires e.param.NoParam? && f.param.NoParam?
    requires !e.kind.Help? && !e.kind.Version? && !f.kind.Help? && !f.kind.Version?
    requires Given(args, i, v) && GoesWith(env, e, v) && GoesWith(env, f, v)
    ensures Matched(env, [e, f], args, Inline(args[i]), i + 1)
         == Parsed([Event(e, Some(v)), Event(f, Some(v))], i + 1, Success)
  {
    hide Key, Inline, Accepted, GoesWith;
    if i + 1 < |args| {
      DashedIff(args[i + 1]);
    }
    AcceptedIff(env, e);
    AcceptedIff(env, f);
    assert [e, f][1..] == [f];
    OneMatched(env, f, args, Inline(args[i]), i + 1);
    assert [Event(e, Some(v))] + [Event(f, Some(v))] == [Event(e, Some(v)), Event(f, Some(v))];
  }

  /** A required parameter that is missing is an error exactly when the entry does
      not go without. The cursor stands behind the name in any case, and whether
      accepted or not the variable holds the substitute. */
  lemma {:induction false} MissingRequired(env: Env, table: seq<Entry>, vars: Vars, args: seq<string>, i: nat, k: nat)
    requires UniqueNames(table) && k < |table| && !table[k].kind.Group? && table[k].param.RequiredParam?
    requires i < |args| && args[i] != "--" && StartsDashed(args[i]) && Key(args[i]) == table[k].name
    requires Inline(args[i]) == None && Lookahead(args, i + 1) == None
    ensures var e, p := table[k], Parse(env, table, args, i);
      if e.kind.Help? || e.kind.Version? then p == Parsed([], i + 1, Exit)
      else if GoesWithout(e) then p == After([Event(e, None)], Parse(env, table, args, i + 1))
      else p == Parsed([Event(e, None)], i + 1, Failure)
    ensures var e, r := table[k], Apply(env, vars, Event(table[k], None));
      r == if e.out.Some? && e.out.value in vars then vars[e.out.value := Stored(e, vars[e.out.value])] else vars
  {
    hide Parse, Key, Inline, UniqueNames, Accepted, GoesWithout, Or;
    NamedOption(env, table, args, i, k);
    AcceptedIff(env, table[k]);
  }

  /** An integer option without limits whose required parameter is missing. */
  lemma {:induction false} MissingRequiredAccepted(env: Env, vars: Vars)
    requires 0 in vars && vars[0] == IntVar(7)
    ensures var e := Entry("n", 1, None, None, Int, RequiredParam, NoInput, Some(0), None);
      var p := Parse(env, [e], ["--n"], 0);
      var r := ApplyAll(env, vars, p.events);
      p == Parsed([Event(e, None)], 1, Success) && 0 in r && r[0] == IntVar(-1)
  {
    hide Matched, Matching;
    var e := Entry("n", 1, None, None, Int, RequiredParam, NoInput, Some(0), None);
    var args := ["--n"];
    assert args[0][2..] == "n";
    assert UpToEquals("n") == "n" by {
      assert "n"[1..] == "";
    }
    MissingRequired(env, [e], vars, args, 0, 0);
    ParseDone(env, [e], args, 1, [Event(e, None)]);
    ApplyOneMore(env, vars, [], Event(e, None));
    assert [] + [Event(e, None)] == [Event(e, None)];
  }

  /** An option that takes no parameter is handed a positional argument that follows
      all the same. The cursor stays in front of it, so processing ends there. A
      counter adds what the argument says; flags and bits do not look at it. */
  lemma {:induction false} NoParamSeesPositional(env: Env, table: seq<Entry>, vars: Vars, args: seq<string>,
                                                 i: nat, k: nat)
    requires UniqueNames(table) && k < |table| && !table[k].kind.Group? && table[k].param.NoParam?
    requires !table[k].kind.Help? && !table[k].kind.Version?
    requires i < |args| && args[i] != "--" && StartsDashed(args[i]) && Key(args[i]) == table[k].name
    requires Inline(args[i]) == None && i + 1 < |args| && !StartsDashed(args[i + 1])
    ensures var ev := Event(table[k], Some(args[i + 1]));
      Parse(env, table, args, i)
      == Parsed([ev], i + 1, if GoesWith(env, table[k], args[i + 1]) then Success else Failure)
    ensures var e, r := table[k], Apply(env, vars, Event(table[k], Some(args[i + 1])));
      && (e.kind.Flag? || e.kind.Bit? ==> r == Apply(env, vars, Event(e, None)))
      && (e.kind.Counter? && e.out.Some? && Typed(e, vars) ==>
            r == vars[e.out.value := IntVar(Wrap(vars[e.out.value].i + CountOf(Some(args[i + 1]))))])
  {
    hide Key, Inline, UniqueNames, Accepted, GoesWith;
    NamedOption(env, table, args, i, k);
    AcceptedIff(env, table[k]);
    assert HasOption(table) && args[i + 1] != "--" by {
      assert StartsDashed("--");
    }
    var ev := Event(table[k], Some(args[i + 1]));
    assert [ev] + [] == [ev];
  }

  /** An option that takes a parameter and is given it with '=' swallows the next
      argument as well: whatever it is, nothing changes. */
  lemma {:induction false} InlineSwallowsNext(env: Env, table: seq<Entry>, args: seq<string>, i: nat, k: nat,
                                              other: string)
    requires UniqueNames(table) && k < |table| && !table[k].kind.Group? && !table[k].param.NoParam?
    requires i + 1 < |args| && StartsDashed(args[i]) && Key(args[i]) == table[k].name && Inline(args[i]).Some?
    ensures Parse(env, table, args, i) == Parse(env, table, args[i + 1 := other], i)
  {
    hide Parse, Key, Inline, UniqueNames;
    var args' := args[i + 1 := other];
    assert args[i] != "--" by {
      BareDashes();
    }
    NamedOption(env, table, args, i, k);
    NamedOption(env, table, args', i, k);
    OnlyRestMatters(env, table, args, args', i + 2);
  }

  lemma {:induction false} BareDashes()
    ensures Inline("--") == None
  {
  }

  // ----- the variables -----

  predicate OnVar(ev: Event, t: nat) { ev.entry.out == Some(t) }

  /** The kinds that overwrite their variable. */
  predicate Assigns(e: Entry) { e.kind.Flag? || e.kind.Int? || e.kind.Double? || e.kind.String? }

  lemma {:induction false} KeysKept(env: Env, vars: Vars, evs: seq<Event>)
    ensures ApplyAll(env, vars, evs).Keys == vars.Keys
  {
    if evs == [] {
    } else {
      KeysKept(env, vars, evs[..|evs| - 1]);
    }
  }

  /** Every event of a parse, failed or not, is about an entry of the table. */
  lemma {:induction false} EntriesInTable(env: Env, table: seq<Entry>, args: seq<string>, i: nat)
    ensures forall ev :: ev in Parse(env, table, args, i).events ==> ev.entry in table
    decreases |args| - i
  {
    hide Key, Inline, Matching, Matched, UnknownAccepted;
    if i >= |args| || args[i] == "--" || (HasOption(table) && !StartsDashed(args[i])) {
    } else {
      if !HasOption(table) || Matching(table, Key(args[i])) == [] {
        EntriesInTable(env, table, args, i + 1);
      } else {
        var es := Matching(table, Key(args[i]));
        var p := Matched(env, es, args, Inline(args[i]), i + 1);
        MatchedAdvances(env, es, args, Inline(args[i]), i + 1);
        MatchedEntries(env, es, args, Inline(args[i]), i + 1);
        MatchingInTable(table, Key(args[i]));
        if p.verdict.Success? {
          EntriesInTable(env, table, args, p.optind);
        }
      }
    }
  }

  lemma {:induction false} MatchedEntries(env: Env, es: seq<Entry>, args: seq<string>, inline: Option<string>, i: nat)
    ensures forall ev :: ev in Matched(env, es, args, inline, i).events ==> ev.entry in es
    decreases |es|
  {
    if es == [] {
    } else {
      MatchedEntries(env, es[1..], args, inline, CursorAfter(es[0], ParamAt(args, inline, i), i));
    }
  }

  /** A variable that no event names keeps its value. */
  lemma {:induction false} Untouched(env: Env, vars: Vars, evs: seq<Event>, t: nat)
    requires t in vars && forall ev :: ev in evs ==> !OnVar(ev, t)
    ensures t in ApplyAll(env, vars, evs) && ApplyAll(env, vars, evs)[t] == vars[t]
  {
    if evs == [] {
    } else {
      assert evs[|evs| - 1] in evs;
      Untouched(env, vars, evs[..|evs| - 1], t);
    }
  }

  /** The last accepted event on a variable decides what it holds, whatever came before. */
  lemma {:induction false} LastWins(env: Env, vars: Vars, evs: seq<Event>, k: nat, t: nat, was: Var)
    requires t in vars && k < |evs| && OnVar(evs[k], t)
    requires Assigns(evs[k].entry) && ValueAccepted(env, evs[k])
    requires forall j :: k < j < |evs| ==> !OnVar(evs[j], t)
    ensures t in ApplyAll(env, vars, evs) && ApplyAll(env, vars, evs)[t] == Written(env, evs[k], was)
  {
    var upto, rest := evs[..k + 1], evs[k + 1..];
    assert evs == upto + rest;
    ApplyMore(env, vars, upto, rest);
    KeysKept(env, vars, evs[..k]);
    KeysKept(env, vars, upto);
    assert upto == evs[..k] + [evs[k]];
    ApplyOneMore(env, vars, evs[..k], evs[k]);
    forall ev | ev in rest
      ensures !OnVar(ev, t)
    {
      var j :| 0 <= j < |rest| && rest[j] == ev;
      assert evs[k + 1 + j] == ev;
    }
    Untouched(env, ApplyAll(env, vars, upto), rest, t);
  }

  /** When all events are accepted, the variable of an integer option with limits
      is as it was or within the limits. */
  lemma {:induction false} IntWithinLimits(env: Env, vars: Vars, evs: seq<Event>, e: Entry, t: nat)
    requires t in vars && e.kind.Int? && e.input.IntInput? && e.out == Some(t)
    requires forall ev :: ev in evs ==> Accepted(env, ev) && (OnVar(ev, t) ==> ev.entry == e)
    ensures var r := ApplyAll(env, vars, evs);
            t in r && (r[t] == vars[t] || (r[t].IntVar? && e.input.min <= r[t].i <= e.input.max))
  {
    if evs == [] {
    } else {
      var init, ev := evs[..|evs| - 1], evs[|evs| - 1];
      assert ev in evs;
      IntWithinLimits(env, vars, init, e, t);
    }
  }

  lemma {:induction false} AcceptedUntilStop(env: Env, es: seq<Entry>, args: seq<string>,
                                             inline: Option<string>, i: nat)
    requires Matched(env, es, args, inline, i).verdict.Success?
    ensures forall ev :: ev in Matched(env, es, args, inline, i).events ==> ev.entry in es && Accepted(env, ev)
    decreases |es|
  {
    if es == [] {
    } else {
      AcceptedUntilStop(env, es[1..], args, inline, CursorAfter(es[0], ParamAt(args, inline, i), i));
    }
  }

  lemma {:induction false} MatchingInTable(table: seq<Entry>, key: string)
    ensures forall e :: e in Matching(table, key) ==> e in table
  {
    if table == [] {
    } else {
      MatchingInTable(table[1..], key);
    }
  }

  /** A successful parse accepted every event, and each is about an entry of the table. */
  lemma {:induction false} SuccessAccepts(env: Env, table: seq<Entry>, args: seq<string>, i: nat)
    requires Parse(env, table, args, i).verdict.Success?
    ensures forall ev :: ev in Parse(env, table, args, i).events ==> ev.entry in table && Accepted(env, ev)
    decreases |args| - i
  {
    if i >= |args| || args[i] == "--" || (HasOption(table) && !StartsDashed(args[i])) {
    } else {
      if !HasOption(table) || Matching(table, Key(args[i])) == [] {
        SuccessAccepts(env, table, args, i + 1);
      } else {
        var es := Matching(table, Key(args[i]));
        var p := Matched(env, es, args, Inline(args[i]), i + 1);
        MatchedAdvances(env, es, args, Inline(args[i]), i + 1);
        AcceptedUntilStop(env, es, args, Inline(args[i]), i + 1);
        MatchingInTable(table, Key(args[i]));
        SuccessAccepts(env, table, args, p.optind);
      }
    }
  }

  /** After a successful parse every integer variable that only one entry writes
      is untouched or within that entry's limits, defaults included. */
  lemma {:induction false} ParsedIntWithinLimits(env: Env, table: seq<Entry>, vars: Vars, args: seq<string>,
                                                 i: nat, e: Entry, t: nat)
    requires Parse(env, table, args, i).verdict.Success?
    requires t in vars && e.kind.Int? && e.input.IntInput? && e.out == Some(t)
    requires forall e' :: e' in table && e'.out == Some(t) ==> e' == e
    ensures var r := ApplyAll(env, vars, Parse(env, table, args, i).events);
            t in r && (r[t] == vars[t] || (r[t].IntVar? && e.input.min <= r[t].i <= e.input.max))
  {
    SuccessAccepts(env, table, args, i);
    IntWithinLimits(env, vars, Parse(env, table, args, i).events, e, t);
  }

  /** All the bits that events set in variable `t`. */
  function BitsSet(evs: seq<Event>, t: nat): bv32 {
    if evs == [] then 0
    else
      var ev := evs[|evs| - 1];
      if OnVar(ev, t) then Or(BitsSet(evs[..|evs| - 1], t), MaskOf(ev.entry)) else BitsSet(evs[..|evs| - 1], t)
  }

  lemma {:induction false} OrFacts(a: bv32, b: bv32, c: bv32)
    ensures Or(Or(a, b), c) == Or(a, Or(b, c)) && Or(a, 0) == a && Or(a, b) == Or(b, a)
  {
  }

  /** A bit variable ends as its initial value with all those bits set. */
  lemma {:induction false} BitsAccumulate(env: Env, vars: Vars, evs: seq<Event>, t: nat)
    requires t in vars && vars[t].BitsVar?
    requires forall ev :: ev in evs && OnVar(ev, t) ==> ev.entry.kind.Bit?
    ensures t in ApplyAll(env, vars, evs)
    ensures ApplyAll(env, vars, evs)[t] == BitsVar(Or(vars[t].bits, BitsSet(evs, t)))
  {
    hide Or;
    if evs == [] {
      OrFacts(vars[t].bits, 0, 0);
    } else {
      var init, ev := evs[..|evs| - 1], evs[|evs| - 1];
      assert ev in evs;
      BitsAccumulate(env, vars, init, t);
      OrFacts(vars[t].bits, BitsSet(init, t), MaskOf(ev.entry));
    }
  }

  /** What events add to counter `t`. */
  function Counted(evs: seq<Event>, t: nat): int {
    if evs == [] then 0
    else
      var ev := evs[|evs| - 1];
      Counted(evs[..|evs| - 1], t) + (if OnVar(ev, t) then CountOf(ev.param) else 0)
  }

  /** A counter ends as its initial value plus all contributions, as a 32-bit int. */
  lemma {:induction false} CountsAccumulate(env: Env, vars: Vars, evs: seq<Event>, t: nat)
    requires t in vars && vars[t].IntVar? && IsInt(vars[t].i)
    requires forall ev :: ev in evs && OnVar(ev, t) ==> ev.entry.kind.Counter?
    ensures t in ApplyAll(env, vars, evs)
    ensures ApplyAll(env, vars, evs)[t] == IntVar(Wrap(vars[t].i + Counted(evs, t)))
  {
    if evs == [] {
    } else {
      var init, ev := evs[..|evs| - 1], evs[|evs| - 1];
      assert ev in evs;
      CountsAccumulate(env, vars, init, t);
      if OnVar(ev, t) {
        WrapAdd(vars[t].i + Counted(init, t), CountOf(ev.param));
      }
    }
  }

  /** For every table and argument list: a variable that only bit options write
      ends as its initial value and all masks matched, even if the parse fails. */
  lemma {:induction false} ParsedBits(env: Env, table: seq<Entry>, vars: Vars, args: seq<string>, i: nat, t: nat)
    requires t in vars && vars[t].BitsVar?
    requires forall e :: e in table && e.out == Some(t) ==> e.kind.Bit?
    ensures var evs := Parse(env, table, args, i).events;
            var r := ApplyAll(env, vars, evs);
            t in r && r[t] == BitsVar(Or(vars[t].bits, BitsSet(evs, t)))
  {
    EntriesInTable(env, table, args, i);
    BitsAccumulate(env, vars, Parse(env, table, args, i).events, t);
  }

  /** Bit by bit: afterwards a bit is set exactly when it was, or a mask matched has it. */
  lemma {:induction false} ParsedBitIff(env: Env, table: seq<Entry>, vars: Vars, args: seq<string>, i: nat, t: nat,
                                        bit: bv32)
    requires t in vars && vars[t].BitsVar?
    requires forall e :: e in table && e.out == Some(t) ==> e.kind.Bit?
    ensures var evs := Parse(env, table, args, i).events;
      var r := ApplyAll(env, vars, evs);
      && t in r && r[t].BitsVar?
      && (HasBit(r[t].bits, bit) <==>
          || HasBit(vars[t].bits, bit)
          || exists ev :: ev in evs && ev.entry.out == Some(t) && ev.entry.input.BitInput?
                          && HasBit(ev.entry.input.mask, bit))
  {
    hide Or, HasBit, Parse, ApplyAll, BitsSet;
    var evs := Parse(env, table, args, i).events;
    ParsedBits(env, table, vars, args, i, t);
    OrBits(vars[t].bits, BitsSet(evs, t), bit);
    BitSetIff(evs, t, bit);
  }

  lemma {:induction false} BitSetIff(evs: seq<Event>, t: nat, bit: bv32)
    ensures HasBit(BitsSet(evs, t), bit) <==>
            exists ev :: ev in evs && ev.entry.out == Some(t) && ev.entry.input.BitInput?
                         && HasBit(ev.entry.input.mask, bit)
  {
    hide Or, HasBit;
    if evs == [] {
      OrBits(0, 0, bit);
    } else {
      var init, ev := evs[..|evs| - 1], evs[|evs| - 1];
      assert evs == init + [ev];
      BitSetIff(init, t, bit);
      OrBits(BitsSet(init, t), MaskOf(ev.entry), bit);
    }
  }

  /** The same of a variable that only counters write. */
  lemma {:induction false} ParsedCounter(env: Env, table: seq<Entry>, vars: Vars, args: seq<string>, i: nat, t: nat)
    requires t in vars && vars[t].IntVar? && IsInt(vars[t].i)
    requires forall e :: e in table && e.out == Some(t) ==> e.kind.Counter?
    ensures var evs := Parse(env, table, args, i).events;
            var r := ApplyAll(env, vars, evs);
            t in r && r[t] == IntVar(Wrap(vars[t].i + Counted(evs, t)))
  {
    EntriesInTable(env, table, args, i);
    CountsAccumulate(env, vars, Parse(env, table, args, i).events, t);
  }

  // ----- order does not matter -----

  lemma {:induction false} CountedConcat(a: seq<Event>, b: seq<Event>, t: nat)
    ensures Counted(a + b, t) == Counted(a, t) + Counted(b, t)
    decreases |b|
  {
    if b == [] {
      assert a + b == a;
    } else {
      var init := b[..|b| - 1];
      CountedConcat(a, init, t);
      assert (a + b)[..|a + b| - 1] == a + init;
    }
  }

  lemma {:induction false} BitsConcat(a: seq<Event>, b: seq<Event>, t: nat)
    ensures BitsSet(a + b, t) == Or(BitsSet(a, t), BitsSet(b, t))
    decreases |b|
  {
    hide Or;
    if b == [] {
      assert a + b == a;
      OrFacts(BitsSet(a, t), 0, 0);
    } else {
      var init, ev := b[..|b| - 1], b[|b| - 1];
      BitsConcat(a, init, t);
      assert (a + b)[..|a + b| - 1] == a + init;
      OrFacts(BitsSet(a, t), BitsSet(init, t), MaskOf(ev.entry));
    }
  }

  lemma {:induction false} TakeOut(init: seq<Event>, a: seq<Event>, b: seq<Event>, ev: Event)
    requires multiset(init + [ev]) == multiset(a + ([ev] + b))
    ensures multiset(init) == multiset(a + b)
  {
    assert multiset(init) + multiset{ev} == multiset(a + b) + multiset{ev};
    forall x: Event
      ensures multiset(init)[x] == multiset(a + b)[x]
    {
      assert (multiset(init) + multiset{ev})[x] == (multiset(a + b) + multiset{ev})[x];
    }
  }

  /** The same events in another order count the same and set the same bits. */
  lemma {:induction false} OrderIrrelevant(evs: seq<Event>, evs': seq<Event>, t: nat)
    requires multiset(evs) == multiset(evs')
    ensures Counted(evs, t) == Counted(evs', t) && BitsSet(evs, t) == BitsSet(evs', t)
    decreases |evs|
  {
    hide Or;
    if evs == [] {
      assert |multiset(evs')| == 0;
      assert evs' == [];
    } else {
      var init, ev := evs[..|evs| - 1], evs[|evs| - 1];
      assert evs == init + [ev];
      assert ev in multiset(evs');
      var k :| 0 <= k < |evs'| && evs'[k] == ev;
      var a, b := evs'[..k], evs'[k + 1..];
      assert evs' == a + ([ev] + b);
      TakeOut(init, a, b, ev);
      OrderIrrelevant(init, a + b, t);
      CountedConcat(a, [ev] + b, t);
      CountedConcat([ev], b, t);
      CountedConcat(a, b, t);
      CountedConcat(init, [ev], t);
      BitsMove(init, a, b, ev, t);
    }
  }

  lemma {:induction false} BitsMove(init: seq<Event>, a: seq<Event>, b: seq<Event>, ev: Event, t: nat)
    requires BitsSet(init, t) == BitsSet(a + b, t)
    ensures BitsSet(init + [ev], t) == BitsSet(a + ([ev] + b), t)
  {
    hide Or, BitsSet;
    BitsConcat(init, [ev], t);
    BitsConcat(a, b, t);
    BitsConcat(a, [ev] + b, t);
    BitsConcat([ev], b, t);
    OrFacts(BitsSet(a, t), BitsSet(b, t), BitsSet([ev], t));
    OrFacts(BitsSet([ev], t), BitsSet(b, t), 0);
  }
}
