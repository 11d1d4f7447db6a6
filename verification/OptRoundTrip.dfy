/** Settings written out as arguments are read back. */
module OptRoundTrip {
  import opened Wrappers
  import opened Decimal
  import opened OptTable
  import opened OptSpec
  import opened OptRuns

  /** One use of an option: by name alone, with '=', or followed by its parameter. */
  datatype Setting = Bare(e: Entry) | Joined(e: Entry, value: string) | Apart(e: Entry, value: string)

  function Render(s: Setting): seq<string> {
    match s
    case Bare(e) => ["--" + e.name]
    case Joined(e, value) => ["--" + e.name + "=" + value]
    case Apart(e, value) => ["--" + e.name, value]
  }

  function RenderAll(ss: seq<Setting>): seq<string> {
    if ss == [] then [] else Render(ss[0]) + RenderAll(ss[1..])
  }

  function Meant(s: Setting): Event {
    match s
    case Bare(e) => Event(e, None)
    case Joined(e, value) => Event(e, Some(value))
    case Apart(e, value) => Event(e, Some(value))
  }

  function AllMeant(ss: seq<Setting>): seq<Event> {
    seq(|ss|, k requires 0 <= k < |ss| => Meant(ss[k]))
  }

  /** A setting of an option of the table in the notation that suits it: with '='
      where no parameter is taken from the list, apart where one is. */
  ghost predicate Writable(env: Env, table: seq<Entry>, s: Setting) {
    && s.e in table && s.e.name != "" && '=' !in s.e.name
    && !s.e.kind.Group? && !s.e.kind.Help? && !s.e.kind.Version?
    && (s.Joined? ==> s.e.param.NoParam?)
    && (s.Apart? ==> !s.e.param.NoParam? && !StartsDashed(s.value))
    && (if s.Bare? then GoesWithout(s.e) else GoesWith(env, s.e, s.value))
  }

  lemma {:induction false} NameBeforeEquals(name: string, rest: string)
    requires '=' !in name && (rest == "" || rest[0] == '=')
    ensures UpToEquals(name + rest) == name
  {
    if name == "" {
      assert name + rest == rest;
    } else {
      assert name[0] in name;
      assert (name + rest)[1..] == name[1..] + rest;
      NameBeforeEquals(name[1..], rest);
    }
  }

  /** The first argument of a rendered setting gives back its name and its inline value. */
  lemma {:induction false} RenderedKey(s: Setting)
    requires '=' !in s.e.name
    ensures var arg := Render(s)[0];
      && StartsDashed(arg) && Key(arg) == s.e.name
      && Inline(arg) == (if s.Joined? then Some(s.value) else None)
      && (s.e.name != "" ==> arg != "--")
  {
    var arg := Render(s)[0];
    var rest := if s.Joined? then "=" + s.value else "";
    assert arg == "--" + (s.e.name + rest);
    assert arg[2..] == s.e.name + rest;
    NameBeforeEquals(s.e.name, rest);
    if s.Joined? {
      assert arg[2 + |s.e.name| + 1..] == s.value;
    }
  }

  /** Every setting but the value of one that stands apart begins with dashes. */
  lemma {:induction false} NextIsDashed(ss: seq<Setting>, rest: seq<string>)
    requires forall s :: s in ss ==> '=' !in s.e.name
    requires rest != [] && StartsDashed(rest[0])
    ensures var all := RenderAll(ss) + rest;
            all != [] && StartsDashed(all[0])
  {
    if ss != [] {
      assert ss[0] in ss;
      RenderedKey(ss[0]);
    }
  }

  /** Reading one setting at the front of what is left. */
  lemma {:induction false} ReadOne(env: Env, table: seq<Entry>, s: Setting, args: seq<string>, i: nat)
    requires UniqueNames(table) && Writable(env, table, s)
    requires i + |Render(s)| < |args| && args[i..i + |Render(s)|] == Render(s)
    requires StartsDashed(args[i + |Render(s)|])
    ensures Parse(env, table, args, i) == After([Meant(s)], Parse(env, table, args, i + |Render(s)|))
  {
    RenderedKey(s);
    AcceptedIff(env, s.e);
    assert args[i] == Render(s)[0] by {
      assert args[i..i + |Render(s)|][0] == args[i];
    }
    if s.Apart? {
      assert args[i + 1] == s.value by {
        assert args[i..i + 2][1] == args[i + 1];
      }
    }
    var k :| 0 <= k < |table| && table[k] == s.e;
    MatchingOne(table, k);
    OneMatched(env, s.e, args, Inline(args[i]), i + 1);
    ParseStep(env, table, args, i, []);
    AfterAfter([], [], Parse(env, table, args, i));
    assert [] + [Meant(s)] == [Meant(s)];
  }

  /** The whole list: what was there before, the settings, and the rest. */
  function Line(pre: seq<string>, ss: seq<Setting>, rest: seq<string>): seq<string> {
    pre + (RenderAll(ss) + rest)
  }

  lemma {:induction false} LineStep(pre: seq<string>, ss: seq<Setting>, rest: seq<string>)
    requires ss != [] && rest != [] && StartsDashed(rest[0])
    requires forall s :: s in ss ==> '=' !in s.e.name
    ensures var n, args := |Render(ss[0])|, Line(pre, ss, rest);
      && args == Line(pre + Render(ss[0]), ss[1..], rest)
      && |RenderAll(ss)| == n + |RenderAll(ss[1..])|
      && |pre| + n < |args| && args[|pre|..|pre| + n] == Render(ss[0]) && StartsDashed(args[|pre| + n])
  {
    var r, more := Render(ss[0]), RenderAll(ss[1..]) + rest;
    assert RenderAll(ss) + rest == r + more;
    assert Line(pre, ss, rest) == (pre + r) + more;
    NextIsDashed(ss[1..], rest);
  }

  lemma {:induction false} MeantStep(ss: seq<Setting>)
    requires ss != []
    ensures [Meant(ss[0])] + AllMeant(ss[1..]) == AllMeant(ss)
  {
  }

  /** Settings in front of anything that begins with dashes are read first, in order. */
  lemma {:induction false} ReadAll(env: Env, table: seq<Entry>, pre: seq<string>, ss: seq<Setting>, rest: seq<string>)
    requires UniqueNames(table) && forall s :: s in ss ==> Writable(env, table, s)
    requires rest != [] && StartsDashed(rest[0])
    ensures Parse(env, table, Line(pre, ss, rest), |pre|)
         == After(AllMeant(ss), Parse(env, table, Line(pre, ss, rest), |pre| + |RenderAll(ss)|))
    decreases |ss|
  {
    hide Parse, Render, UniqueNames, Line, AllMeant, Meant, StartsDashed, Writable;
    NamesPlain(env, table, ss);
    var args := Line(pre, ss, rest);
    if ss == [] {
      NothingMeant();
      AfterAfter([], [], Parse(env, table, args, |pre|));
    } else {
      var s := ss[0];
      assert s in ss && forall s' :: s' in ss[1..] ==> s' in ss;
      LineStep(pre, ss, rest);
      ReadOne(env, table, s, args, |pre|);
      ReadAll(env, table, pre + Render(s), ss[1..], rest);
      MeantStep(ss);
      AfterAfter([Meant(s)], AllMeant(ss[1..]), Parse(env, table, args, |pre| + |RenderAll(ss)|));
    }
  }

  lemma {:induction false} NamesPlain(env: Env, table: seq<Entry>, ss: seq<Setting>)
    requires forall s :: s in ss ==> Writable(env, table, s)
    ensures forall s :: s in ss ==> '=' !in s.e.name
  {
  }

  lemma {:induction false} NothingMeant()
    ensures AllMeant([]) == []
  {
  }

  /** Any list of settings, then "--" and anything at all, is read as those
      settings, in order, with the cursor behind the "--". */
  lemma {:induction false} RoundTrip(env: Env, table: seq<Entry>, pre: seq<string>, ss: seq<Setting>, tail: seq<string>)
    requires UniqueNames(table) && forall s :: s in ss ==> Writable(env, table, s)
    ensures Parse(env, table, Line(pre, ss, ["--"] + tail), |pre|)
         == Parsed(AllMeant(ss), |pre| + |RenderAll(ss)| + 1, Success)
  {
    hide RenderAll, UniqueNames, AllMeant;
    var args := Line(pre, ss, ["--"] + tail);
    ReadAll(env, table, pre, ss, ["--"] + tail);
    assert args[|pre| + |RenderAll(ss)|] == "--";
    assert AllMeant(ss) + [] == AllMeant(ss);
  }

  lemma {:induction false} OneMoreSetting(ss: seq<Setting>, s: Setting)
    ensures RenderAll(ss + [s]) == RenderAll(ss) + Render(s)
    ensures AllMeant(ss + [s]) == AllMeant(ss) + [Meant(s)]
  {
    if ss == [] {
      assert RenderAll([s]) == Render(s) + RenderAll([]) by {
        assert [s][1..] == [];
      }
      assert [] + [s] == [s];
    } else {
      assert (ss + [s])[1..] == ss[1..] + [s];
      OneMoreSetting(ss[1..], s);
    }
  }

  /** The last setting in front of a positional argument. */
  lemma {:induction false} LastSetting(env: Env, table: seq<Entry>, s: Setting, args: seq<string>, i: nat)
    requires UniqueNames(table) && Writable(env, table, s)
    requires i + |Render(s)| < |args| && args[i..i + |Render(s)|] == Render(s)
    requires !StartsDashed(args[i + |Render(s)|])
    ensures !s.Bare? ==> Parse(env, table, args, i) == Parsed([Meant(s)], i + |Render(s)|, Success)
    ensures s.Bare? ==> var p := Parse(env, table, args, i);
              p.events != [] && p.events[0] == Event(s.e, Some(args[i + 1]))
  {
    hide Key, Inline, UniqueNames, Accepted, GoesWith, GoesWithout;
    AcceptedIff(env, s.e);
    RenderedKey(s);
    assert args[i] == Render(s)[0] by {
      assert args[i..i + |Render(s)|][0] == args[i];
    }
    if s.Apart? {
      assert args[i + 1] == s.value by {
        assert args[i..i + 2][1] == args[i + 1];
      }
    }
    var k :| 0 <= k < |table| && table[k] == s.e;
    NamedOption(env, table, args, i, k);
    assert HasOption(table) && StartsDashed("--");
    assert [Meant(s)] + [] == [Meant(s)];
  }

  /** Settings in front of a positional argument are read as written, with the cursor
      at that argument, exactly when the last one does not stand bare: a bare one is
      handed the argument whether its option takes a parameter or not. */
  lemma {:induction false} BeforePositionalIff(env: Env, table: seq<Entry>, pre: seq<string>, ss: seq<Setting>,
                                               x: string, tail: seq<string>)
    requires UniqueNames(table) && forall s :: s in ss ==> Writable(env, table, s)
    requires HasOption(table) && !StartsDashed(x)
    ensures Parse(env, table, Line(pre, ss, [x] + tail), |pre|)
         == Parsed(AllMeant(ss), |pre| + |RenderAll(ss)|, Success)
        <==> ss == [] || !ss[|ss| - 1].Bare?
  {
    hide UniqueNames, Render, RenderAll, Writable;
    if ss == [] {
      NothingMeant();
      assert RenderAll([]) == [] by {
        RenderNothing();
      }
      assert Line(pre, [], [x] + tail)[|pre|] == x && x != "--" by {
        assert StartsDashed("--");
      }
    } else {
      var init, s := ss[..|ss| - 1], ss[|ss| - 1];
      assert ss == init + [s] && s in ss && forall s' :: s' in init ==> s' in ss;
      OneMoreSetting(init, s);
      BeforeLast(env, table, pre, init, s, x, tail);
    }
  }

  lemma {:induction false} RenderNothing()
    ensures RenderAll([]) == []
  {
  }

  lemma {:induction false} BeforeLast(env: Env, table: seq<Entry>, pre: seq<string>, init: seq<Setting>, s: Setting,
                                      x: string, tail: seq<string>)
    requires UniqueNames(table) && Writable(env, table, s) && forall s' :: s' in init ==> Writable(env, table, s')
    requires !StartsDashed(x)
    requires RenderAll(init + [s]) == RenderAll(init) + Render(s)
    requires AllMeant(init + [s]) == AllMeant(init) + [Meant(s)]
    ensures Parse(env, table, Line(pre, init + [s], [x] + tail), |pre|)
         == Parsed(AllMeant(init + [s]), |pre| + |RenderAll(init + [s])|, Success)
        <==> !s.Bare?
  {
    hide UniqueNames, Render, RenderAll, Writable, Parse, AllMeant, StartsDashed;
    var rest := Render(s) + ([x] + tail);
    var args := Line(pre, init + [s], [x] + tail);
    var i := |pre| + |RenderAll(init)|;
    assert args == Line(pre, init, rest);
    FirstIsDashed(env, table, s);
    ReadAll(env, table, pre, init, rest);
    assert args[i..i + |Render(s)|] == Render(s) && args[i + |Render(s)|] == x;
    LastSetting(env, table, s, args, i);
    MeantSize(init);
    var p := Parse(env, table, args, |pre|);
    if s.Bare? {
      assert p.events[|init|] == Event(s.e, Some(args[i + 1]));
      assert AllMeant(init + [s])[|init|] == Event(s.e, None);
    }
  }

  lemma {:induction false} MeantSize(ss: seq<Setting>)
    ensures |AllMeant(ss)| == |ss|
  {
  }

  lemma {:induction false} FirstIsDashed(env: Env, table: seq<Entry>, s: Setting)
    requires Writable(env, table, s)
    ensures Render(s) != [] && StartsDashed(Render(s)[0])
  {
    RenderedKey(s);
  }

  /** A number and the integer option it is for. */
  datatype Number = Number(e: Entry, x: int)

  function NumberApart(m: Number): Setting { Apart(m.e, Print(m.x)) }

  function NumbersApart(ms: seq<Number>): seq<Setting> {
    seq(|ms|, k requires 0 <= k < |ms| => NumberApart(ms[k]))
  }

  /** Ints within the limits of their options, negative ones among them, each apart
      from the name, are read as they are. */
  lemma {:induction false} NumbersRoundTrip(env: Env, table: seq<Entry>, pre: seq<string>, ms: seq<Number>,
                                            tail: seq<string>)
    requires UniqueNames(table)
    requires forall m :: m in ms ==>
      && m.e in table && m.e.kind.Int? && m.e.name != "" && '=' !in m.e.name && !m.e.param.NoParam? && m.e.out.Some?
      && IsInt(m.x) && (m.e.input.IntInput? ==> m.e.input.min <= m.x <= m.e.input.max)
      && (m.e.callback.Some? ==> m.e.callback.value(Some(Print(m.x))))
    ensures Parse(env, table, Line(pre, NumbersApart(ms), ["--"] + tail), |pre|)
         == Parsed(AllMeant(NumbersApart(ms)), |pre| + |RenderAll(NumbersApart(ms))| + 1, Success)
  {
    hide Parse, RenderAll, Line, AllMeant, Scan, Print, ToInt, StartsDashed;
    forall s | s in NumbersApart(ms)
      ensures Writable(env, table, s)
    {
      var k :| 0 <= k < |ms| && NumberApart(ms[k]) == s;
      assert ms[k] in ms;
      PrintedIsNoOption(ms[k].x);
      DashedIff(Print(ms[k].x));
      ScanPrinted(ms[k].x);
      ToIntKeeps(ms[k].x);
    }
    RoundTrip(env, table, pre, NumbersApart(ms), tail);
  }

  /** Behind a setting written with '=', wherever it stands, reading goes on at the
      next argument exactly when its option takes no parameter from the list, and
      otherwise one further. */
  lemma {:induction false} JoinedIff(env: Env, table: seq<Entry>, args: seq<string>, i: nat, e: Entry, value: string)
    requires UniqueNames(table) && e in table && '=' !in e.name
    requires !e.kind.Group? && !e.kind.Help? && !e.kind.Version? && GoesWith(env, e, value)
    requires i < |args| && args[i] == Render(Joined(e, value))[0]
    ensures var n := if e.param.NoParam? then i + 1 else i + 2;
      Parse(env, table, args, i) == After([Event(e, Some(value))], Parse(env, table, args, n))
    ensures Matched(env, Matching(table, e.name), args, Some(value), i + 1).optind == i + 1 <==> e.param.NoParam?
  {
    hide Parse, Accepted, GoesWith, UniqueNames, Key, Inline, Render;
    AcceptedIff(env, e);
    RenderedKey(Joined(e, value));
    assert args[i] != "--" by {
      BareDashes();
    }
    var k :| 0 <= k < |table| && table[k] == e;
    NamedOption(env, table, args, i, k);
    MatchingOne(table, k);
    OneMatched(env, e, args, Some(value), i + 1);
  }

  /** As the last argument, behind any settings, it leaves the cursor at the end of
      the list exactly when its option takes no parameter; otherwise the cursor
      passes the end and the next call fails. */
  lemma {:induction false} JoinedAtEndIff(env: Env, table: seq<Entry>, pre: seq<string>, ss: seq<Setting>,
                                          e: Entry, value: string)
    requires UniqueNames(table) && forall s :: s in ss ==> Writable(env, table, s)
    requires e in table && '=' !in e.name && !e.kind.Group? && !e.kind.Help? && !e.kind.Version?
    requires GoesWith(env, e, value)
    ensures var args := Line(pre, ss, Render(Joined(e, value)));
      var p := Parse(env, table, args, |pre|);
      && p.events == AllMeant(ss) + [Event(e, Some(value))] && p.verdict == Success
      && (p.optind == |args| <==> e.param.NoParam?)
      && (p.optind == |args| + 1 <==> !e.param.NoParam?)
      && (Call(env, table, args, p.optind).verdict.Failure? <==> !e.param.NoParam?)
  {
    hide Parse, Matched, GoesWith, UniqueNames, Matching, RenderAll, AllMeant;
    var last := Render(Joined(e, value));
    var args := Line(pre, ss, last);
    RenderedKey(Joined(e, value));
    ReadAll(env, table, pre, ss, last);
    JoinedIff(env, table, args, |args| - 1, e, value);
    var n := if e.param.NoParam? then |args| else |args| + 1;
    ParseDone(env, table, args, n, [Event(e, Some(value))]);
    ParseDone(env, table, args, n, []);
    AfterAfter([], [], Parse(env, table, args, n));
  }

  /** The values come back: after reading the settings, each variable holds what
      its last setting says, integers through their decimal notation. */
  lemma {:induction false} SettingsRecovered(env: Env, table: seq<Entry>, vars: Vars, pre: seq<string>,
                                             ss: seq<Setting>, tail: seq<string>, k: nat, t: nat)
    requires UniqueNames(table) && forall s :: s in ss ==> Writable(env, table, s)
    requires k < |ss| && ss[k].e.out == Some(t) && t in vars
    requires forall j :: k < j < |ss| ==> ss[j].e.out != Some(t)
    ensures var p := Parse(env, table, Line(pre, ss, ["--"] + tail), |pre|);
      var r := ApplyAll(env, vars, p.events);
      && p.verdict == Success
      && t in r
      && (ss[k].e.kind.Flag? ==> r[t] == BoolVar(true))
      && (ss[k].e.kind.String? && !ss[k].Bare? ==> r[t] == StrVar(Some(ss[k].value)))
      && (forall n :: ss[k].e.kind.Int? && IsInt(n) && !ss[k].Bare? && ss[k].value == Print(n) ==> r[t] == IntVar(n))
      && (ss[k].e.kind.Int? && ss[k].Bare? ==>
            r[t] == IntVar(if ss[k].e.input.IntInput? then ss[k].e.input.def else -1))
  {
    RoundTrip(env, table, pre, ss, tail);
    var evs := AllMeant(ss);
    KeysKept(env, vars, evs);
    assert ss[k] in ss;
    forall n | IsInt(n)
      ensures Scan(Print(n)) == Some(n) && ToInt(n) == n
    {
      ScanPrinted(n);
      ToIntKeeps(n);
    }
    if Assigns(ss[k].e) {
      assert forall j :: k < j < |evs| ==> !OnVar(evs[j], t);
      LastWins(env, vars, evs, k, t, BoolVar(false));
    }
  }

  lemma {:induction false} MeantBy(ss: seq<Setting>, t: nat)
    ensures forall ev :: ev in AllMeant(ss) && OnVar(ev, t) ==>
              exists s :: s in ss && s.e == ev.entry && s.e.out == Some(t)
  {
    forall ev | ev in AllMeant(ss) && OnVar(ev, t)
      ensures exists s :: s in ss && s.e == ev.entry && s.e.out == Some(t)
    {
      var j :| 0 <= j < |ss| && Meant(ss[j]) == ev;
      assert ss[j] in ss;
    }
  }

  /** A bit variable comes back as its initial bits and those of all settings on it. */
  lemma {:induction false} BitsRecovered(env: Env, table: seq<Entry>, vars: Vars, pre: seq<string>, ss: seq<Setting>,
                                         tail: seq<string>, t: nat)
    requires UniqueNames(table) && forall s :: s in ss ==> Writable(env, table, s)
    requires t in vars && vars[t].BitsVar? && forall s :: s in ss && s.e.out == Some(t) ==> s.e.kind.Bit?
    ensures var p := Parse(env, table, Line(pre, ss, ["--"] + tail), |pre|);
      var r := ApplyAll(env, vars, p.events);
      p.verdict == Success && t in r && r[t] == BitsVar(Or(vars[t].bits, BitsSet(AllMeant(ss), t)))
  {
    hide Or, Parse, Writable, Line, AllMeant;
    RoundTrip(env, table, pre, ss, tail);
    MeantBy(ss, t);
    BitsAccumulate(env, vars, AllMeant(ss), t);
  }

  /** A counter comes back as its initial value and the sum of all settings on it. */
  lemma {:induction false} CounterRecovered(env: Env, table: seq<Entry>, vars: Vars, pre: seq<string>, ss: seq<Setting>,
                                            tail: seq<string>, t: nat)
    requires UniqueNames(table) && forall s :: s in ss ==> Writable(env, table, s)
    requires t in vars && vars[t].IntVar? && IsInt(vars[t].i)
    requires forall s :: s in ss && s.e.out == Some(t) ==> s.e.kind.Counter?
    ensures var p := Parse(env, table, Line(pre, ss, ["--"] + tail), |pre|);
      var r := ApplyAll(env, vars, p.events);
      p.verdict == Success && t in r && r[t] == IntVar(Wrap(vars[t].i + Counted(AllMeant(ss), t)))
  {
    hide Parse, Writable, Line, AllMeant;
    RoundTrip(env, table, pre, ss, tail);
    MeantBy(ss, t);
    CountsAccumulate(env, vars, AllMeant(ss), t);
  }
}
