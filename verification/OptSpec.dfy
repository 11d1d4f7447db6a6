/** What ae_opt_process makes of an argument list, told by recursion over the list:
    first which options are matched with which parameters, then what they do. */
module OptSpec {
  import opened Wrappers
  import opened OptTable

  predicate StartsDashed(arg: string) { |arg| >= 2 && arg[0] == '-' && arg[1] == '-' }

  lemma {:induction false} DashedIff(arg: string)
    ensures StartsDashed(arg) <==> "--" <= arg
  {
    assert "--"[0] == '-' && "--"[1] == '-';
    if StartsDashed(arg) {
      assert arg[..2] == "--";
    }
  }

  /** The name an argument gives: what is between the dashes and the first '='. */
  function Key(arg: string): string
    requires StartsDashed(arg)
  {
    UpToEquals(arg[2..])
  }

  function UpToEquals(s: string): string {
    if s == [] || s[0] == '=' then [] else [s[0]] + UpToEquals(s[1..])
  }

  /** strchr(s, '=') as an index, or -1. */
  function IndexOfEquals(s: string): int {
    if |UpToEquals(s)| == |s| then -1 else |UpToEquals(s)|
  }

  /** The parameter written behind an '='. */
  function Inline(arg: string): Option<string>
    requires StartsDashed(arg)
  {
    UpToEqualsPrefix(arg[2..]);
    var n := |Key(arg)|;
    if n == |arg| - 2 then None else Some(arg[2 + n + 1..])
  }

  lemma {:induction false} UpToEqualsPrefix(s: string)
    ensures UpToEquals(s) <= s && '=' !in UpToEquals(s)
    ensures |UpToEquals(s)| < |s| ==> s[|UpToEquals(s)|] == '='
  {
    if s == [] || s[0] == '=' {
    } else {
      UpToEqualsPrefix(s[1..]);
    }
  }

  /** The comparison by length and then by characters is the comparison with the key. */
  lemma {:induction false} NameTest(arg: string, name: string)
    requires StartsDashed(arg)
    ensures var s := arg[2..];
      var pos := IndexOfEquals(s);
      var limit := if pos >= 0 then pos else |s|;
      && 0 <= limit <= |s| && pos < |s|
      && (limit == |name| && name[..limit] == s[..limit] <==> name == Key(arg))
      && Inline(arg) == (if pos >= 0 then Some(s[pos + 1..]) else None)
  {
    var s := arg[2..];
    UpToEqualsPrefix(s);
    assert s[..|Key(arg)|] == Key(arg);
    if |name| == |Key(arg)| {
      assert name[..|name|] == name;
    }
    if |Key(arg)| < |s| {
      assert arg[2 + |Key(arg)| + 1..] == s[|Key(arg)| + 1..];
    }
  }

  /** The entries of a table with a given name, in table order. */
  function Matching(table: seq<Entry>, key: string): seq<Entry> {
    if table == [] then []
    else (if !table[0].kind.Group? && table[0].name == key then [table[0]] else []) + Matching(table[1..], key)
  }

  /** Every entry of the name is there, in table order. */
  lemma {:induction false} MatchingSplit(front: seq<Entry>, back: seq<Entry>, key: string)
    ensures Matching(front + back, key) == Matching(front, key) + Matching(back, key)
  {
    if front == [] {
      assert front + back == back;
    } else {
      assert (front + back)[1..] == front[1..] + back;
      MatchingSplit(front[1..], back, key);
    }
  }

  /** Groups aside, the table has an entry. */
  predicate HasOption(table: seq<Entry>) {
    exists k :: 0 <= k < |table| && !table[k].kind.Group?
  }

  /** An argument at position `i` that can serve as a parameter. */
  function Lookahead(args: seq<string>, i: nat): Option<string> {
    if i >= |args| || StartsDashed(args[i]) then None else Some(args[i])
  }

  datatype Verdict = Success | Failure | Exit

  datatype Parsed = Parsed(events: seq<Event>, optind: nat, verdict: Verdict)

  /** What `p` comes to when the events `evs` have gone before. */
  function After(evs: seq<Event>, p: Parsed): Parsed {
    p.(events := evs + p.events)
  }

  lemma {:induction false} AfterAfter(evs: seq<Event>, evs': seq<Event>, p: Parsed)
    ensures After(evs, After(evs', p)) == After(evs + evs', p) && After([], p) == p
  {
    assert evs + (evs' + p.events) == (evs + evs') + p.events;
    assert [] + p.events == p.events;
  }

  /** The options an argument matches, one after the other; `i` is the cursor. */
  function Matched(env: Env, es: seq<Entry>, args: seq<string>, inline: Option<string>, i: nat): Parsed
    decreases |es|
  {
    if es == [] then Parsed([], i, Success)
    else
      var e := es[0];
      var param := ParamAt(args, inline, i);
      var i' := CursorAfter(e, param, i);
      if e.kind.Help? || e.kind.Version? then Parsed([], i', Exit)
      else
        var ev := Event(e, param);
        if Accepted(env, ev) then After([ev], Matched(env, es[1..], args, inline, i'))
        else Parsed([ev], i', Failure)
  }

  /** The parameter an entry gets with the cursor at `i`, and the cursor after it. */
  function ParamAt(args: seq<string>, inline: Option<string>, i: nat): Option<string> {
    if inline.Some? then inline else Lookahead(args, i)
  }

  function CursorAfter(e: Entry, param: Option<string>, i: nat): nat {
    if !e.param.NoParam? && param.Some? then i + 1 else i
  }

  /** What looking at entry `j` contributes. */
  lemma {:induction false} InnerStep(env: Env, table: seq<Entry>, j: nat, key: string, args: seq<string>,
                                     inline: Option<string>, i: nat, step: seq<Event>)
    requires j < |table|
    ensures var e, rest := table[j], Matching(table[j + 1..], key);
      var p := Matched(env, Matching(table[j..], key), args, inline, i);
      if e.kind.Group? || e.name != key then
        Matching(table[j..], key) == rest
      else
        var param := ParamAt(args, inline, i);
        var i' := CursorAfter(e, param, i);
        && Matching(table[j..], key) != []
        && (if e.kind.Help? || e.kind.Version? then After(step, p) == Parsed(step, i', Exit)
            else if Accepted(env, Event(e, param)) then
              After(step, p) == After(step + [Event(e, param)], Matched(env, rest, args, inline, i'))
            else After(step, p) == Parsed(step + [Event(e, param)], i', Failure))
  {
    var e, rest := table[j], Matching(table[j + 1..], key);
    assert table[j..][0] == e && table[j..][1..] == table[j + 1..];
    if !e.kind.Group? && e.name == key {
      var ms := Matching(table[j..], key);
      assert ms == [e] + rest && ms[0] == e && ms[1..] == rest;
      var param := ParamAt(args, inline, i);
      AfterAfter(step, [Event(e, param)], Matched(env, rest, args, inline, CursorAfter(e, param, i)));
      assert step + [] == step;
    } else {
      assert [] + rest == rest;
    }
  }

  lemma {:induction false} NothingMatched(env: Env, key: string, args: seq<string>, inline: Option<string>,
                                          i: nat, step: seq<Event>)
    ensures Matching([], key) == []
    ensures After(step, Matched(env, [], args, inline, i)) == Parsed(step, i, Success)
  {
    assert step + [] == step;
  }

  lemma {:induction false} MatchedAdvances(env: Env, es: seq<Entry>, args: seq<string>, inline: Option<string>, i: nat)
    ensures i <= Matched(env, es, args, inline, i).optind <= i + |es|
    decreases |es|
  {
    if es == [] {
    } else {
      var e := es[0];
      var param := ParamAt(args, inline, i);
      var i' := CursorAfter(e, param, i);
      MatchedAdvances(env, es[1..], args, inline, i');
    }
  }

  predicate UnknownAccepted(env: Env, arg: string) {
    env.unknown.Some? && env.unknown.value(arg)
  }

  /** The whole list from position `i` on. */
  function Parse(env: Env, table: seq<Entry>, args: seq<string>, i: nat): Parsed
    decreases |args| - i
  {
    if i >= |args| then Parsed([], i, Success)
    else if args[i] == "--" then Parsed([], i + 1, Success)
    else if HasOption(table) && !StartsDashed(args[i]) then Parsed([], i, Success)
    else if !HasOption(table) || Matching(table, Key(args[i])) == [] then
      if UnknownAccepted(env, args[i]) then Parse(env, table, args, i + 1) else Parsed([], i + 1, Failure)
    else
      var p := Matched(env, Matching(table, Key(args[i])), args, Inline(args[i]), i + 1);
      MatchedAdvances(env, Matching(table, Key(args[i])), args, Inline(args[i]), i + 1);
      if p.verdict.Success? then After(p.events, Parse(env, table, args, p.optind)) else p
  }

  /** One call of ae_opt_process with the cursor at `i`. */
  function Call(env: Env, table: seq<Entry>, args: seq<string>, i: nat): Parsed {
    if i > |args| then Parsed([], i, Failure) else Parse(env, table, args, i)
  }

  lemma {:induction false} GroupsMatchNothing(table: seq<Entry>, key: string)
    requires !HasOption(table)
    ensures Matching(table, key) == []
  {
    if table == [] {
    } else {
      assert table[0].kind.Group?;
      assert forall k :: 0 <= k < |table| - 1 ==> table[1..][k] == table[k + 1];
      GroupsMatchNothing(table[1..], key);
    }
  }

  /** One argument of the list, with the events `evs` already seen. */
  lemma {:induction false} ParseStep(env: Env, table: seq<Entry>, args: seq<string>, i: nat, evs: seq<Event>)
    requires i < |args|
    ensures args[i] == "--" ==> After(evs, Parse(env, table, args, i)) == Parsed(evs, i + 1, Success)
    ensures HasOption(table) && !StartsDashed(args[i]) ==>
              After(evs, Parse(env, table, args, i)) == Parsed(evs, i, Success)
    ensures args[i] != "--" &&
            (if StartsDashed(args[i]) then Matching(table, Key(args[i])) == [] else !HasOption(table)) ==>
              After(evs, Parse(env, table, args, i))
              == if UnknownAccepted(env, args[i]) then After(evs, Parse(env, table, args, i + 1))
                 else Parsed(evs, i + 1, Failure)
    ensures args[i] != "--" && StartsDashed(args[i]) && Matching(table, Key(args[i])) != [] ==>
              var p := Matched(env, Matching(table, Key(args[i])), args, Inline(args[i]), i + 1);
              && i < p.optind
              && After(evs, Parse(env, table, args, i))
                 == if p.verdict.Success? then After(evs + p.events, Parse(env, table, args, p.optind))
                    else After(evs, p)
  {
    assert evs + [] == evs;
    if StartsDashed(args[i]) {
      if !HasOption(table) {
        GroupsMatchNothing(table, Key(args[i]));
      }
      var p := Matched(env, Matching(table, Key(args[i])), args, Inline(args[i]), i + 1);
      MatchedAdvances(env, Matching(table, Key(args[i])), args, Inline(args[i]), i + 1);
      AfterAfter(evs, p.events, Parse(env, table, args, p.optind));
    }
  }

  lemma {:induction false} ParseDone(env: Env, table: seq<Entry>, args: seq<string>, i: nat, evs: seq<Event>)
    requires i >= |args|
    ensures After(evs, Parse(env, table, args, i)) == Parsed(evs, i, Success)
  {
    assert evs + [] == evs;
  }
}
