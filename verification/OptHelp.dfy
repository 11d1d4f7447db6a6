/** The help output of libae/opt.c: which columns line up. */
module OptHelp {
  import opened Wrappers
  import opened Decimal
  import opened OptTable

  function Blanks(n: nat): string {
    seq(n, _ => ' ')
  }

  /** "%-*s". */
  function PadRight(s: string, width: nat): string {
    if |s| >= width then s else s + Blanks(width - |s|)
  }

  /** "%*s". */
  function PadLeft(s: string, width: nat): string {
    if |s| >= width then s else Blanks(width - |s|) + s
  }

  /** snprintf into a buffer of `size` characters. */
  function Cut(s: string, size: nat): string
    requires size > 0
  {
    if |s| < size then s else s[..size - 1]
  }

  /** The hint about a parameter: s_PARAM_BRACES around the help text. */
  function ParamHint(e: Entry): string {
    var text := if e.helpParam.Some? then e.helpParam.value else "";
    match e.param
    case NoParam => ""
    case OptionalParam => "=[" + text + "]"
    case RequiredParam => "=<" + text + ">"
  }

  /** The first field with its hint, as the buffer of 512 characters holds it. */
  function Field1(e: Entry): string {
    Cut(e.name + ParamHint(e), 512)
  }

  /** The hints fit their buffer of 256 characters and the lengths are initialised. */
  predicate Printable(table: seq<Entry>) {
    forall k :: 0 <= k < |table| ==> |ParamHint(table[k])| < 256 && table[k].nameLen == |table[k].name|
  }

  /** What an option counts for when the column is chosen. */
  function CountedWidth(e: Entry): nat {
    match e.kind
    case Int | String => |Field1(e)|
    case _ => e.nameLen
  }

  /** What is printed in the first field. */
  function Shown(e: Entry): string {
    match e.kind
    case Int | Double | String | Counter => Field1(e)
    case _ => e.name
  }

  /** The widest counted option from `i` to the next group heading or the end. */
  function Longest(table: seq<Entry>, i: nat): nat
    decreases |table| - i
  {
    if i >= |table| || table[i].kind.Group? then 0
    else
      var rest := Longest(table, i + 1);
      if table[i].help.Some? && CountedWidth(table[i]) > rest then CountedWidth(table[i]) else rest
  }

  /** Where the group of option `k` begins. */
  function GroupStart(table: seq<Entry>, k: nat): nat
    requires k <= |table|
  {
    if k == 0 then 0 else if table[k - 1].kind.Group? then k else GroupStart(table, k - 1)
  }

  /** A line of output: the text in front of the " - " and the text behind it. */
  datatype Row = Heading(text: string) | OptionRow(left: string, right: string)

  function Limits(e: Entry, printReal: real -> string): string {
    match (e.kind, e.input)
    case (Int, IntInput(def, min, max)) =>
      " (min: " + Print(min) + ", max: " + Print(max) + ", default: " + Print(def) + ")"
    case (Double, RealInput(def, min, max)) =>
      " (min: " + printReal(min) + ", max: " + printReal(max) + ", default: " + printReal(def) + ")"
    case _ => ""
  }

  function GroupRows(e: Entry): seq<Row> {
    [Heading("\n" + PadLeft(e.name, 40 + |e.name| / 2))] + (if e.help.Some? then [Heading(e.help.value)] else [])
  }

  /** What stands in front of the separator of option `k`. */
  function Left(table: seq<Entry>, k: nat): string
    requires k < |table|
  {
    "  --" + PadRight(Shown(table[k]), Longest(table, GroupStart(table, k)))
  }

  /** The lines for entry `k`. */
  function RowsOf(table: seq<Entry>, k: nat, printReal: real -> string): seq<Row>
    requires k < |table|
  {
    var e := table[k];
    if e.kind.Group? then GroupRows(e)
    else if e.help.None? then []
    else [OptionRow(Left(table, k), e.help.value + Limits(e, printReal))]
  }

  function AllRows(table: seq<Entry>, n: nat, printReal: real -> string): seq<Row>
    requires n <= |table|
  {
    if n == 0 then [] else AllRows(table, n - 1, printReal) + RowsOf(table, n - 1, printReal)
  }

  /** The whole output. */
  function HelpRows(programName: string, help: string, table: seq<Entry>, printReal: real -> string): seq<Row> {
    [Heading("Usage " + programName + ": " + help)] + AllRows(table, |table|, printReal)
  }

  // ----- what the reader sees -----

  /** How many lines an entry takes. */
  function Lines(e: Entry): nat {
    if e.kind.Group? then (if e.help.Some? then 2 else 1)
    else if e.help.Some? then 1 else 0
  }

  /** The line at which entry `k` begins; line 0 is the usage. */
  function Place(table: seq<Entry>, k: nat): nat
    requires k <= |table|
  {
    if k == 0 then 1 else Place(table, k - 1) + Lines(table[k - 1])
  }

  predicate AllBlank(s: string) { forall c :: c in s ==> c == ' ' }

  /** An empty line, the name in the middle of eighty columns, and the help text. */
  ghost predicate ShowsHeading(rows: seq<Row>, at: nat, e: Entry) {
    && at + Lines(e) <= |rows| && e.kind.Group?
    && (exists blanks :: AllBlank(blanks) && rows[at] == Heading("\n" + blanks + e.name)
          && (|e.name| <= 40 + |e.name| / 2 ==> |blanks| + |e.name| == 40 + |e.name| / 2)
          && (|e.name| > 40 + |e.name| / 2 ==> blanks == ""))
    && (e.help.Some? ==> rows[at + 1] == Heading(e.help.value))
  }

  /** The kinds that show the hint about their parameter. */
  predicate ShowsHint(e: Entry) { e.kind.Int? || e.kind.Double? || e.kind.String? || e.kind.Counter? }

  ghost predicate IsHint(hint: string, e: Entry) {
    var text := if e.helpParam.Some? then e.helpParam.value else "";
    && (e.param.NoParam? || !ShowsHint(e) ==> hint == "")
    && (e.param.OptionalParam? && ShowsHint(e) ==> hint == "=[" + text + "]")
    && (e.param.RequiredParam? && ShowsHint(e) ==> hint == "=<" + text + ">")
  }

  /** Two blanks, two dashes, the name with its hint as far as the buffer holds it,
      and blanks. */
  ghost predicate ShowsName(left: string, e: Entry) {
    exists hint, blanks :: IsHint(hint, e) && AllBlank(blanks) &&
      left == "  --" + (if ShowsHint(e) && |e.name| + |hint| > 511 then (e.name + hint)[..511] else e.name + hint)
              + blanks
  }

  /** The limits and the default of a number, each readable where it stands. */
  ghost predicate TellsLimits(text: string, e: Entry, printReal: real -> string) {
    if e.kind.Int? && e.input.IntInput? then
      exists x, y, z ::
        && text == " (min: " + x && x == Print(e.input.min) + ", max: " + y && Scan(x) == Some(e.input.min)
        && y == Print(e.input.max) + ", default: " + z && Scan(y) == Some(e.input.max)
        && z == Print(e.input.def) + ")" && Scan(z) == Some(e.input.def)
    else if e.kind.Double? && e.input.RealInput? then
      text == " (min: " + printReal(e.input.rmin) + ", max: " + printReal(e.input.rmax)
              + ", default: " + printReal(e.input.rdef) + ")"
    else text == ""
  }

  ghost predicate ShowsOption(row: Row, e: Entry, printReal: real -> string) {
    && row.OptionRow? && e.help.Some? && ShowsName(row.left, e)
    && exists text :: row.right == e.help.value + text && TellsLimits(text, e, printReal)
  }

  /** Entry `k` stands at its place: a heading, an option, or nothing without help text. */
  ghost predicate Shows(rows: seq<Row>, table: seq<Entry>, k: nat, printReal: real -> string)
    requires k < |table|
  {
    var at, e := Place(table, k), table[k];
    && at + Lines(e) <= |rows|
    && (e.kind.Group? ==> ShowsHeading(rows, at, e))
    && (!e.kind.Group? && e.help.Some? ==>
          ShowsOption(rows[at], e, printReal) && |rows[at].left| == Column(table, k))
  }

  /** The usage, every entry at its place, and nothing else. */
  ghost predicate ShowsAll(rows: seq<Row>, programName: string, help: string, table: seq<Entry>,
                           printReal: real -> string)
  {
    && |rows| == Place(table, |table|) && |rows| > 0 && rows[0] == Heading("Usage " + programName + ": " + help)
    && forall k :: 0 <= k < |table| ==> Shows(rows, table, k, printReal)
  }

  /** The text in front of the separator of option `k`. */
  function LeftOf(rows: seq<Row>, table: seq<Entry>, k: nat): string
    requires k < |table|
  {
    var at := Place(table, k);
    if at < |rows| && rows[at].OptionRow? then rows[at].left else ""
  }

  lemma {:induction false} LimitsTold(e: Entry, printReal: real -> string)
    ensures TellsLimits(Limits(e, printReal), e, printReal)
  {
    hide Print, Scan;
    if e.kind.Int? && e.input.IntInput? {
      var z := Print(e.input.def) + ")";
      var y := Print(e.input.max) + ", default: " + z;
      var x := Print(e.input.min) + ", max: " + y;
      ScanPrintedThen(e.input.def, ")");
      ScanPrintedThen(e.input.max, ", default: " + z);
      ScanPrintedThen(e.input.min, ", max: " + y);
      assert y == Print(e.input.max) + (", default: " + z);
      assert x == Print(e.input.min) + (", max: " + y);
      assert Limits(e, printReal) == " (min: " + x;
    }
  }

  lemma {:induction false} NameShown(table: seq<Entry>, k: nat)
    requires k < |table|
    ensures ShowsName(Left(table, k), table[k])
  {
    hide Longest;
    var e := table[k];
    var hint := if ShowsHint(e) then ParamHint(e) else "";
    var width := Longest(table, GroupStart(table, k));
    var blanks := if |Shown(e)| >= width then "" else Blanks(width - |Shown(e)|);
    assert e.name + "" == e.name;
    assert PadRight(Shown(e), width) == Shown(e) + blanks;
    assert IsHint(hint, e) && AllBlank(blanks);
    assert Left(table, k) == "  --" + Shown(e) + blanks;
  }

  lemma {:induction false} HeadingShown(e: Entry)
    requires e.kind.Group?
    ensures |GroupRows(e)| == Lines(e) && ShowsHeading(GroupRows(e), 0, e)
  {
    var width := 40 + |e.name| / 2;
    var blanks := if |e.name| >= width then "" else Blanks(width - |e.name|);
    assert "\n" + PadLeft(e.name, width) == "\n" + blanks + e.name;
    assert AllBlank(blanks) && GroupRows(e)[0] == Heading("\n" + blanks + e.name);
  }

  lemma {:induction false} PlaceIs(table: seq<Entry>, n: nat, printReal: real -> string)
    requires n <= |table|
    ensures |AllRows(table, n, printReal)| + 1 == Place(table, n)
  {
    hide RowsOf;
    if n == 0 {
    } else {
      PlaceIs(table, n - 1, printReal);
      RowsCounted(table, n - 1, printReal);
    }
  }

  /** The lines of entry `k` stand at its place. */
  lemma {:induction false} RowsPlaced(table: seq<Entry>, n: nat, k: nat, printReal: real -> string)
    requires k < n <= |table|
    ensures var at := Place(table, k) - 1;
      && 0 <= at && at + Lines(table[k]) <= |AllRows(table, n, printReal)|
      && AllRows(table, n, printReal)[at..at + Lines(table[k])] == RowsOf(table, k, printReal)
  {
    hide RowsOf, Lines;
    PlaceIs(table, k, printReal);
    RowsCounted(table, k, printReal);
    if k == n - 1 {
    } else {
      RowsPlaced(table, n - 1, k, printReal);
    }
  }

  lemma {:induction false} RowsCounted(table: seq<Entry>, k: nat, printReal: real -> string)
    requires k < |table|
    ensures |RowsOf(table, k, printReal)| == Lines(table[k])
  {
  }

  lemma {:induction false} EntryShown(programName: string, help: string, table: seq<Entry>, k: nat,
                                      printReal: real -> string)
    requires k < |table|
    ensures Shows(HelpRows(programName, help, table, printReal), table, k, printReal)
  {
    hide GroupRows, Left, Limits, AllRows, Place, ShowsName, TellsLimits;
    PlaceIs(table, k, printReal);
    RowsPlaced(table, |table|, k, printReal);
    var rows := HelpRows(programName, help, table, printReal);
    var all, at, e := AllRows(table, |table|, printReal), Place(table, k), table[k];
    assert rows[1..] == all;
    var mine := all[at - 1..at - 1 + Lines(e)];
    if e.kind.Group? {
      HeadingShown(e);
      assert rows[at] == mine[0];
      if e.help.Some? {
        assert rows[at + 1] == mine[1];
      }
    } else if e.help.Some? {
      assert rows[at] == mine[0] == OptionRow(Left(table, k), e.help.value + Limits(e, printReal));
      NameShown(table, k);
      LimitsTold(e, printReal);
    }
  }

  // ----- the loops -----

  method GetLongest(options: seq<Entry>, ix: nat) returns (longest: nat)
    requires ix <= |options|
    ensures longest == Longest(options, ix)
    ensures forall k :: PrintedIn(options, ix, k) ==> CountedWidth(options[k]) <= longest
    ensures longest > 0 ==> exists k :: PrintedIn(options, ix, k) && CountedWidth(options[k]) == longest
  {
    LongestBounds(options, ix);
    longest := 0;
    for i := ix to |options|
      invariant Longest(options, ix) == Max(longest, Longest(options, i))
    {
      var option := options[i];
      if option.kind.Group? {
        return longest;
      }
      if option.help.None? {
        continue;
      }
      var argLen := CountedWidth(option);
      if argLen > longest {
        longest := argLen;
      }
    }
  }

  lemma {:induction false} AllRowsStep(table: seq<Entry>, n: nat, printReal: real -> string)
    requires n <= |table|
    ensures AllRows(table, n, printReal)
         == if n == 0 then [] else AllRows(table, n - 1, printReal) + RowsOf(table, n - 1, printReal)
  {
  }

  lemma {:induction false} AppendRows(a: seq<Row>, b: seq<Row>, c: seq<Row>)
    ensures (a + b) + c == a + (b + c) && a + [] == a && b + [] == b
  {
  }

  method HelpPrint(programName: string, help: string, options: seq<Entry>, printReal: real -> string)
    returns (rows: seq<Row>)
    requires Printable(options)
    ensures rows == HelpRows(programName, help, options, printReal)
    ensures ShowsAll(rows, programName, help, options, printReal)
  {
    forall k | 0 <= k < |options|
      ensures Shows(HelpRows(programName, help, options, printReal), options, k, printReal)
    {
      EntryShown(programName, help, options, k, printReal);
    }
    PlaceIs(options, |options|, printReal);
    hide Shown, PadRight, Limits, GroupRows, Longest, CountedWidth, AllRows;
    AllRowsStep(options, 0, printReal);
    rows := [Heading("Usage " + programName + ": " + help)];
    ghost var usage := rows;
    var longest := GetLongest(options, 0);
    for i := 0 to |options|
      invariant rows == usage + AllRows(options, i, printReal)
      invariant i < |options| ==> longest == Longest(options, GroupStart(options, i))
    {
      AllRowsStep(options, i + 1, printReal);
      AppendRows(usage, AllRows(options, i, printReal), RowsOf(options, i, printReal));
      var option := options[i];
      if option.kind.Group? {
        rows := rows + GroupRows(option);
        if i + 1 < |options| {
          longest := GetLongest(options, i + 1);
        }
        continue;
      }
      if option.help.None? {
        continue;
      }
      var text := option.help.value + Limits(option, printReal);
      rows := rows + [OptionRow("  --" + PadRight(Shown(option), longest), text)];
    }
  }

  function Max(a: nat, b: nat): nat { if a >= b then a else b }

  // ----- the columns -----

  /** Entry `k` follows `start` with no group heading from there on. */
  predicate InGroupFrom(table: seq<Entry>, start: nat, k: int) {
    start <= k < |table| && forall j :: start <= j <= k ==> !table[j].kind.Group?
  }

  lemma {:induction false} LongestBounds(table: seq<Entry>, start: nat)
    ensures forall k :: PrintedIn(table, start, k) ==> CountedWidth(table[k]) <= Longest(table, start)
    ensures Longest(table, start) > 0 ==>
              exists k :: PrintedIn(table, start, k) && CountedWidth(table[k]) == Longest(table, start)
    decreases |table| - start
  {
    hide CountedWidth;
    if start >= |table| || table[start].kind.Group? {
    } else {
      LongestBounds(table, start + 1);
      forall k | PrintedIn(table, start, k)
        ensures CountedWidth(table[k]) <= Longest(table, start)
      {
        if k > start {
          assert PrintedIn(table, start + 1, k);
        }
      }
      if Longest(table, start) == Longest(table, start + 1) && Longest(table, start) > 0 {
        var k :| PrintedIn(table, start + 1, k) && CountedWidth(table[k]) == Longest(table, start + 1);
        assert PrintedIn(table, start, k);
      } else if Longest(table, start) > 0 {
        assert PrintedIn(table, start, start);
      }
    }
  }

  /** Options with no heading between them share the start of their group. */
  lemma {:induction false} SameGroup(table: seq<Entry>, start: nat, k: nat)
    requires start <= |table| && (start == 0 || table[start - 1].kind.Group?)
    requires InGroupFrom(table, start, k)
    ensures GroupStart(table, k) == start
  {
    if k <= start {
    } else {
      SameGroup(table, start, k - 1);
    }
  }

  /** The column in which the separator of option `k` stands. */
  function Column(table: seq<Entry>, k: nat): nat
    requires k < |table|
  {
    |Left(table, k)|
  }

  lemma {:induction false} ColumnIs(table: seq<Entry>, start: nat, k: nat)
    requires start <= |table| && (start == 0 || table[start - 1].kind.Group?)
    requires InGroupFrom(table, start, k)
    ensures Column(table, k) == 4 + Max(Longest(table, start), |Shown(table[k])|)
  {
    SameGroup(table, start, k);
  }

  /** An entry whose hint is printed but not counted. */
  predicate Undercounted(e: Entry) {
    (e.kind.Double? || e.kind.Counter?) && !e.param.NoParam?
  }

  lemma {:induction false} CountedCovers(e: Entry)
    requires e.nameLen == |e.name| && !Undercounted(e)
    ensures |Shown(e)| <= CountedWidth(e)
  {
    if e.kind.Double? || e.kind.Counter? {
      assert ParamHint(e) == "" && e.name + "" == e.name;
    }
  }

  /** Options `j` and `k` are printed in the group that begins at `start`. */
  predicate PrintedIn(table: seq<Entry>, start: nat, k: int) {
    InGroupFrom(table, start, k) && table[k].help.Some?
  }

  ghost predicate LinedUp(table: seq<Entry>, start: nat) {
    forall j, k :: PrintedIn(table, start, j) && PrintedIn(table, start, k) ==> Column(table, j) == Column(table, k)
  }

  /** The separators of a group stand in one column exactly when every printed
      field is within the counted width, or all printed fields are equally wide. */
  lemma {:induction false} LinedUpIff(table: seq<Entry>, start: nat)
    requires start <= |table| && (start == 0 || table[start - 1].kind.Group?)
    ensures LinedUp(table, start) <==>
      || (forall k :: PrintedIn(table, start, k) ==> |Shown(table[k])| <= Longest(table, start))
      || (forall j, k :: PrintedIn(table, start, j) && PrintedIn(table, start, k) ==>
            |Shown(table[j])| == |Shown(table[k])|)
  {
    hide Shown, Column, Longest;
    forall k | PrintedIn(table, start, k)
      ensures Column(table, k) == 4 + Max(Longest(table, start), |Shown(table[k])|)
    {
      ColumnIs(table, start, k);
    }
    if LinedUp(table, start) && exists w :: PrintedIn(table, start, w) && |Shown(table[w])| > Longest(table, start) {
      var w :| PrintedIn(table, start, w) && |Shown(table[w])| > Longest(table, start);
      forall k | PrintedIn(table, start, k)
        ensures |Shown(table[k])| == |Shown(table[w])|
      {
        assert Column(table, k) == Column(table, w);
      }
    }
  }

  /** Groups in which real-valued options and counters take no parameter line up. */
  lemma {:induction false} PlainGroupsLineUp(table: seq<Entry>, start: nat)
    requires start <= |table| && (start == 0 || table[start - 1].kind.Group?) && Printable(table)
    requires forall k :: PrintedIn(table, start, k) ==> !Undercounted(table[k])
    ensures LinedUp(table, start)
    ensures forall k :: PrintedIn(table, start, k) ==> Column(table, k) == 4 + Longest(table, start)
  {
    hide Shown, Column, Longest, CountedWidth, ParamHint;
    LongestBounds(table, start);
    forall k | PrintedIn(table, start, k)
      ensures Column(table, k) == 4 + Longest(table, start)
    {
      CountedCovers(table[k]);
      ColumnIs(table, start, k);
    }
  }

  /** In a help output whose entries are shown at their places, the options of such a
      group are cut or filled to the width of the widest. */
  lemma {:induction false} PlainRowsLineUp(rows: seq<Row>, table: seq<Entry>, start: nat, printReal: real -> string)
    requires forall k :: 0 <= k < |table| ==> Shows(rows, table, k, printReal)
    requires start <= |table| && (start == 0 || table[start - 1].kind.Group?) && Printable(table)
    requires forall k :: PrintedIn(table, start, k) ==> !Undercounted(table[k])
    ensures forall j, k :: PrintedIn(table, start, j) && PrintedIn(table, start, k) ==>
              |LeftOf(rows, table, j)| == |LeftOf(rows, table, k)|
    ensures forall k :: PrintedIn(table, start, k) ==>
              exists w :: PrintedIn(table, start, w) && |LeftOf(rows, table, k)| == 4 + CountedWidth(table[w])
                          && CountedWidth(table[k]) <= CountedWidth(table[w])
  {
    hide Column, Longest, CountedWidth, Shows, LeftOf, LinedUp, Printable, Undercounted;
    PlainGroupsLineUp(table, start);
    forall k | PrintedIn(table, start, k)
      ensures |LeftOf(rows, table, k)| == 4 + Longest(table, start)
      ensures exists w :: PrintedIn(table, start, w) && Longest(table, start) == CountedWidth(table[w])
                          && CountedWidth(table[k]) <= CountedWidth(table[w])
    {
      assert Shows(rows, table, k, printReal);
      ShownRow(rows, table, k, printReal);
      var w := Widest(table, start, k);
    }
  }

  lemma {:induction false} Widest(table: seq<Entry>, start: nat, k: int) returns (w: int)
    requires PrintedIn(table, start, k)
    ensures PrintedIn(table, start, w) && Longest(table, start) == CountedWidth(table[w])
    ensures CountedWidth(table[k]) <= CountedWidth(table[w])
  {
    hide Longest, CountedWidth;
    LongestBounds(table, start);
    if Longest(table, start) > 0 {
      w :| PrintedIn(table, start, w) && CountedWidth(table[w]) == Longest(table, start);
    } else {
      w := k;
    }
  }

  lemma {:induction false} ShownRow(rows: seq<Row>, table: seq<Entry>, k: nat, printReal: real -> string)
    requires k < |table| && !table[k].kind.Group? && table[k].help.Some? && Shows(rows, table, k, printReal)
    ensures |LeftOf(rows, table, k)| == Column(table, k)
  {
    hide Column, ShowsName;
  }

  /** An integer or a string counts with its hint, as far as the buffer of 512 characters
      holds it, everything else with its name alone. */
  lemma {:induction false} CountedIs(e: Entry)
    requires e.nameLen == |e.name|
    ensures var hint := if e.param.NoParam? then 0 else 3 + (if e.helpParam.Some? then |e.helpParam.value| else 0);
      CountedWidth(e) ==
      if !e.kind.Int? && !e.kind.String? then |e.name|
      else if |e.name| + hint <= 511 then |e.name| + hint else 511
  {
  }

  function Sample(name: string, kind: Kind, param: Param): Entry {
    Entry(name, |name|, Some("text"), Some("n"), kind, param, NoInput, Some(0), None)
  }

  /** A flag next to a counter that takes a parameter. */
  lemma {:induction false} CounterHintBreaksColumn()
    ensures Printable([Sample("v", Flag, NoParam), Sample("c", Counter, RequiredParam)])
    ensures !LinedUp([Sample("v", Flag, NoParam), Sample("c", Counter, RequiredParam)], 0)
  {
    var table := [Sample("v", Flag, NoParam), Sample("c", Counter, RequiredParam)];
    assert ParamHint(table[1]) == "=<n>";
    assert |Shown(table[0])| == 1 && |Shown(table[1])| == 5;
    assert Longest(table, 2) == 0 && Longest(table, 1) == 1 && Longest(table, 0) == 1;
    assert PrintedIn(table, 0, 0) && PrintedIn(table, 0, 1);
    ColumnIs(table, 0, 0);
    ColumnIs(table, 0, 1);
  }
}
