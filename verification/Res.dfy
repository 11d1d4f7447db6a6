/** libae/res.c: result messages collected in fixed buffers. */
module Res {
  import opened Str

  /** sizeof(msg) in ae_res_msg_t. */
  const SIZE: nat := 4000

  /** The fields of ae_res_msg_t. */
  datatype MsgRec = MsgRec(count: nat, head: nat, msg: seq<char>)

  ghost predicate MsgOk(m: MsgRec) {
    m.count < 256 && m.head <= SIZE && |m.msg| == SIZE
  }

  /** There is room for the separator and a terminator. */
  predicate Roomy(m: MsgRec) {
    m.count > 0 ==> m.head + 1 != SIZE
  }

  /** One message added. */
  function Added(m: MsgRec, f: Formatted): MsgRec
    requires MsgOk(m) && Roomy(m)
  {
    if m.head == SIZE then m
    else
      var m1 := if m.count > 0 then m.(msg := m.msg[m.head := '\n'], head := m.head + 1) else m;
      var n := SIZE - m1.head;
      MsgRec((m.count + 1) % 256,
             m1.head + (if Fits(f, n) then |f.text| else 0),
             Printed(m1.msg, m1.head, n, f))
  }

  /** One message added where the newline takes the last character: the NUL that
      printing puts at the end of no room at all falls on the newline, and no further
      message is let in. The other NUL it writes goes behind the buffer. */
  function Closed(m: MsgRec): MsgRec
    requires MsgOk(m) && !Roomy(m)
  {
    MsgRec((m.count + 1) % 256, SIZE, m.msg[SIZE - 1 := NUL])
  }

  class ResMsg {
    var count: nat
    var head: nat
    const msg: array<char>

    constructor ()
      ensures MsgOk(State()) && fresh(msg) && msg.Length == SIZE
    {
      count, head := 0, 0;
      msg := new char[SIZE];
    }

    function State(): MsgRec
      reads this, msg
    {
      MsgRec(count, head, msg[..])
    }

    method Init()
      modifies this
      ensures State() == MsgRec(0, 0, old(msg[..]))
    {
      count := 0;
      head := 0;
    }

    method AddV(f: Formatted)
      requires MsgOk(State()) && Roomy(State())
      modifies this, msg
      ensures MsgOk(State())
      ensures State() == Added(old(State()), f)
    {
      hide Printed;
      var remain := SIZE - head;
      if remain == 0 {
        return;
      }
      if count != 0 {
        msg[head] := '\n';
        head := head + 1;
        remain := remain - 1;
      }
      var n := PrintV(msg, head, remain, f);
      head := head + n;
      count := (count + 1) % 256;
    }

    /** The same where there are messages and one free character. The byte behind the
        buffer is the count of `behind`. */
    method AddVAtEnd(behind: ResMsg)
      requires MsgOk(State()) && !Roomy(State()) && behind != this
      modifies this, msg, behind`count
      ensures MsgOk(State()) && State() == Closed(old(State()))
      ensures behind.count == 0
    {
      msg[head] := '\n';
      head := head + 1;
      behind.count := 0;
      msg[head - 1] := NUL;
      count := (count + 1) % 256;
    }
  }

  // ----- a series of messages -----

  /** Every message of the series finds the room it needs. */
  ghost predicate AllRoomy(m: MsgRec, fs: seq<Formatted>)
    requires MsgOk(m)
    decreases |fs|, 0
  {
    fs == [] ||
    var before := fs[..|fs| - 1];
    AllRoomy(m, before) && Roomy(AddAll(m, before))
  }

  /** The buffer after a series of messages. */
  ghost function AddAll(m: MsgRec, fs: seq<Formatted>): (r: MsgRec)
    requires MsgOk(m) && AllRoomy(m, fs)
    ensures MsgOk(r)
    decreases |fs|, 1
  {
    if fs == [] then m
    else
      AddedOk(AddAll(m, fs[..|fs| - 1]), fs[|fs| - 1]);
      Added(AddAll(m, fs[..|fs| - 1]), fs[|fs| - 1])
  }

  lemma {:induction false} AddedOk(m: MsgRec, f: Formatted)
    requires MsgOk(m) && Roomy(m)
    ensures MsgOk(Added(m, f))
  {
  }

  /** What stands between message `k` and its predecessor; the count of messages
      has eight bits, so every 256th starts without a newline. */
  function Separator(k: nat): seq<char> {
    if k % 256 == 0 then [] else "\n"
  }

  /** The text committed before the last message of a series, its separator included. */
  function Opened(fs: seq<Formatted>): seq<char>
    requires fs != []
    decreases |fs|, 0
  {
    Committed(fs[..|fs| - 1]) + Separator(|fs| - 1)
  }

  /** The text a series commits: of a message that does not fit only the separator stays. */
  function Committed(fs: seq<Formatted>): seq<char>
    decreases |fs|, 1
  {
    if fs == [] then []
    else
      var f := fs[|fs| - 1];
      if Fits(f, SIZE - |Opened(fs)|) then Opened(fs) + f.text else Opened(fs)
  }

  /** The string a reader of the buffer finds after a series: the last message is
      shown truncated when it does not fit. */
  function Shown(fs: seq<Formatted>): seq<char>
    requires fs != [] && |Opened(fs)| < SIZE
  {
    Opened(fs) + Take(fs[|fs| - 1].text, SIZE - |Opened(fs)| - 1)
  }

  ghost predicate NulFree(fs: seq<Formatted>) {
    forall f :: f in fs ==> NUL !in f.text
  }

  /** One message, seen from the text in front of `head`. */
  lemma {:induction false} AddedText(m: MsgRec, f: Formatted)
    requires MsgOk(m) && Roomy(m) && m.head < SIZE
    ensures var r := Added(m, f);
      var t := m.msg[..m.head] + (if m.count > 0 then "\n" else []);
      && |t| < SIZE && r.head < SIZE && r.count == (m.count + 1) % 256
      && r.msg[..r.head] == (if Fits(f, SIZE - |t|) then t + f.text else t)
      && t + Take(f.text, SIZE - |t| - 1) < r.msg
      && r.msg[|t + Take(f.text, SIZE - |t| - 1)|] == NUL
  {
    hide Printed, Take;
    var m1 := if m.count > 0 then m.(msg := m.msg[m.head := '\n'], head := m.head + 1) else m;
    var t := m.msg[..m.head] + (if m.count > 0 then "\n" else []);
    assert m1.msg[..m1.head] == t;
    var n := SIZE - m1.head;
    PrintedText(m1.msg, m1.head, n, f);
    TakeAll(f.text, n - 1);
    if Fits(f, n) {
      var b := Printed(m1.msg, m1.head, n, f);
      assert b[..|t + f.text|] == t + f.text;
    }
  }

  lemma {:induction false} TakeAll(s: seq<char>, n: nat)
    ensures |s| <= n ==> Take(s, n) == s
  {
  }

  /** One more message at the end of a series. */
  lemma {:induction false} OneMore(m: MsgRec, fs: seq<Formatted>, f: Formatted)
    requires MsgOk(m)
    ensures AllRoomy(m, fs + [f]) <==> AllRoomy(m, fs) && Roomy(AddAll(m, fs))
    ensures AllRoomy(m, fs + [f]) ==> AddAll(m, fs + [f]) == Added(AddAll(m, fs), f)
  {
    assert (fs + [f])[..|fs|] == fs;
  }

  /** The text in front of the head is what the series commits. */
  ghost predicate Holds(r: MsgRec, fs: seq<Formatted>) {
    && MsgOk(r) && r.count == |fs| % 256
    && r.head < SIZE && r.msg[..r.head] == Committed(fs)
  }

  /** The buffer is a string, and what it shows is the text of the series. */
  ghost predicate Shows(r: MsgRec, fs: seq<Formatted>) {
    fs != [] && |Opened(fs)| < SIZE && Shown(fs) < r.msg && r.msg[|Shown(fs)|] == NUL
  }

  lemma {:induction false} OpenedStep(fs: seq<Formatted>)
    requires fs != []
    ensures Opened(fs) == Committed(fs[..|fs| - 1]) + Separator(|fs| - 1)
    ensures var f := fs[|fs| - 1];
            Committed(fs) == if Fits(f, SIZE - |Opened(fs)|) then Opened(fs) + f.text else Opened(fs)
  {
  }

  lemma {:induction false} HoldsStep(r: MsgRec, fs: seq<Formatted>)
    requires fs != [] && Holds(r, fs[..|fs| - 1]) && Roomy(r)
    ensures var r' := Added(r, fs[|fs| - 1]);
            Holds(r', fs) && Shows(r', fs)
  {
    hide Added, Take, Committed, Opened;
    OpenedStep(fs);
    AddedText(r, fs[|fs| - 1]);
    AddedOk(r, fs[|fs| - 1]);
    assert r.msg[..r.head] + (if r.count > 0 then "\n" else []) == Opened(fs);
  }

  /** For every series of messages that finds room, whatever the buffer held
      before: the text in front of the head is the committed text, the buffer is
      a string, and that string is the shown text. */
  lemma {:induction false} SeriesText(msg: seq<char>, fs: seq<Formatted>)
    requires |msg| == SIZE && AllRoomy(MsgRec(0, 0, msg), fs)
    ensures var r := AddAll(MsgRec(0, 0, msg), fs);
      && Holds(r, fs)
      && (fs != [] ==> Shows(r, fs))
      && (fs != [] && NulFree(fs) ==> CString(r.msg) == Shown(fs))
    decreases |fs|
  {
    hide Added, Take, CString, Holds, Shows;
    var m := MsgRec(0, 0, msg);
    if fs == [] {
      NothingHeld(msg);
    } else {
      var before := fs[..|fs| - 1];
      SeriesText(msg, before);
      HoldsStep(AddAll(m, before), fs);
      if NulFree(fs) {
        ShownIsString(AddAll(m, fs), fs);
      }
    }
  }

  lemma {:induction false} NothingHeld(msg: seq<char>)
    requires |msg| == SIZE
    ensures Holds(MsgRec(0, 0, msg), [])
  {
  }

  lemma {:induction false} ShownIsString(r: MsgRec, fs: seq<Formatted>)
    requires Shows(r, fs) && NulFree(fs)
    ensures CString(r.msg) == Shown(fs)
  {
    ShownNulFree(fs);
    CStringIs(r.msg, Shown(fs));
  }

  lemma {:induction false} EmptySeries(m: MsgRec)
    requires MsgOk(m)
    ensures AllRoomy(m, []) && AddAll(m, []) == m
  {
  }

  lemma {:induction false} CommittedNulFree(fs: seq<Formatted>)
    requires NulFree(fs)
    ensures NUL !in Committed(fs)
    decreases |fs|
  {
    if fs == [] {
    } else {
      CommittedNulFree(fs[..|fs| - 1]);
      assert fs[|fs| - 1] in fs;
    }
  }

  lemma {:induction false} ShownNulFree(fs: seq<Formatted>)
    requires fs != [] && NulFree(fs) && |Opened(fs)| < SIZE
    ensures NUL !in Shown(fs)
  {
    assert fs[|fs| - 1] in fs;
    CommittedNulFree(fs[..|fs| - 1]);
  }

  /** A series can take one more message exactly when it is the 256th multiple or
      the committed text leaves two free characters. */
  lemma {:induction false} OneMoreIff(msg: seq<char>, fs: seq<Formatted>, f: Formatted)
    requires |msg| == SIZE && AllRoomy(MsgRec(0, 0, msg), fs)
    ensures AllRoomy(MsgRec(0, 0, msg), fs + [f]) <==>
            |fs| % 256 == 0 || |Committed(fs)| + 2 <= SIZE
  {
    SeriesText(msg, fs);
    assert (fs + [f])[..|fs|] == fs;
  }

  /** A first message that fills the buffer exactly leaves one free character,
      and the code has no room for a second one. */
  lemma {:induction false} ExactFitIsLast(msg: seq<char>, f: Formatted, g: Formatted)
    requires |msg| == SIZE && !f.failed && |f.text| == SIZE - 1
    ensures AllRoomy(MsgRec(0, 0, msg), [f]) && !AllRoomy(MsgRec(0, 0, msg), [f, g])
  {
    assert [f][..0] == [];
    assert AllRoomy(MsgRec(0, 0, msg), []);
    OneMoreIff(msg, [], f);
    assert [] + [f] == [f];
    assert Opened([f]) == [];
    assert Committed([f]) == f.text;
    OneMoreIff(msg, [f], g);
    assert [f] + [g] == [f, g];
  }

  /** The texts with a newline between each two. */
  function Joined(fs: seq<Formatted>): seq<char> {
    if fs == [] then []
    else if |fs| == 1 then fs[0].text
    else Joined(fs[..|fs| - 1]) + "\n" + fs[|fs| - 1].text
  }

  /** Up to 256 messages that fit together are all kept, separated by newlines. */
  lemma {:induction false} AllKept(msg: seq<char>, fs: seq<Formatted>)
    requires |msg| == SIZE && |fs| <= 256 && |Joined(fs)| < SIZE
    requires forall f :: f in fs ==> !f.failed
    ensures AllRoomy(MsgRec(0, 0, msg), fs) && Committed(fs) == Joined(fs)
    decreases |fs|
  {
    hide AllRoomy, AddAll;
    if fs == [] {
      EmptySeries(MsgRec(0, 0, msg));
    } else {
      var before, f := fs[..|fs| - 1], fs[|fs| - 1];
      assert f in fs;
      AllKept(msg, before);
      OneMoreIff(msg, before, f);
      assert before + [f] == fs;
      if |fs| == 1 {
        assert before == [] && Opened(fs) == [];
      }
    }
  }

  /** A last message that does not fit is shown as far as 3999 characters reach. */
  lemma {:induction false} CutAtEnd(msg: seq<char>, fs: seq<Formatted>)
    requires |msg| == SIZE && AllRoomy(MsgRec(0, 0, msg), fs) && fs != [] && NulFree(fs)
    requires |Opened(fs)| + |fs[|fs| - 1].text| >= 4000
    ensures var s := CString(AddAll(MsgRec(0, 0, msg), fs).msg);
      |Opened(fs)| < 4000 && |s| == 3999 && s == Opened(fs) + fs[|fs| - 1].text[..3999 - |Opened(fs)|]
  {
    hide AllRoomy, AddAll, Opened;
    SeriesText(msg, fs);
  }

  /** Behind up to 255 messages that fit a long one is kept up to its 3999th character,
      theirs and the newlines counted. */
  lemma {:induction false} LongLast(msg: seq<char>, before: seq<Formatted>, f: Formatted)
    requires |msg| == SIZE && |before| < 256 && |Joined(before)| <= 3998 && |Joined(before)| + |f.text| >= 3999
    requires before == [] ==> |f.text| >= 4000
    requires NulFree(before + [f]) && forall g :: g in before ==> !g.failed
    ensures AllRoomy(MsgRec(0, 0, msg), before + [f])
    ensures var s := CString(AddAll(MsgRec(0, 0, msg), before + [f]).msg);
      s == if before == [] then f.text[..3999] else Joined(before) + "\n" + f.text[..3998 - |Joined(before)|]
  {
    hide AllRoomy, AddAll;
    AllKept(msg, before);
    OneMoreIff(msg, before, f);
    var fs := before + [f];
    assert fs[..|fs| - 1] == before;
    assert Opened(fs) == Joined(before) + Separator(|before|);
    CutAtEnd(msg, fs);
  }

  // ----- the result object -----

  /** AE_RES_N_ENDMARKER. */
  const KINDS: nat := 4

  datatype ResRec = ResRec(mask: bv8, msg: seq<MsgRec>)

  /** The mask bit of a kind of message: 1 for errors, 2 for warnings, 3 for information. */
  function Bit(kind: nat): bv8
    requires 1 <= kind < KINDS
  {
    1 << (kind - 1)
  }

  function Uncounted(m: MsgRec): MsgRec {
    m.(count := 0)
  }

  /** There is room, or what lies behind the buffer is the next message. */
  predicate MayAdd(r: ResRec, kind: nat) {
    1 <= kind < KINDS == |r.msg| && (Roomy(r.msg[kind]) || kind + 1 < KINDS)
  }

  /** The message goes to its buffer. */
  function WithRoom(r: ResRec, kind: nat, f: Formatted): ResRec
    requires kind < |r.msg| && MsgOk(r.msg[kind]) && Roomy(r.msg[kind])
  {
    r.(msg := r.msg[kind := Added(r.msg[kind], f)])
  }

  /** The buffer is full, and the message behind it loses its count. */
  function WithoutRoom(r: ResRec, kind: nat): ResRec
    requires kind + 1 < |r.msg| && MsgOk(r.msg[kind]) && !Roomy(r.msg[kind])
  {
    r.(msg := r.msg[kind := Closed(r.msg[kind])][kind + 1 := Uncounted(r.msg[kind + 1])])
  }

  function ResAdded(r: ResRec, kind: nat, f: Formatted): ResRec
    requires MayAdd(r, kind) && MsgOk(r.msg[kind])
  {
    var marked := r.(mask := r.mask | Bit(kind));
    if Roomy(r.msg[kind]) then WithRoom(marked, kind, f) else WithoutRoom(marked, kind)
  }

  lemma {:induction false} ResAddedCases(r: ResRec, kind: nat, f: Formatted)
    requires MayAdd(r, kind) && MsgOk(r.msg[kind])
    ensures var marked := r.(mask := r.mask | Bit(kind));
      if Roomy(r.msg[kind]) then ResAdded(r, kind, f) == WithRoom(marked, kind, f)
      else kind + 1 < KINDS && ResAdded(r, kind, f) == WithoutRoom(marked, kind)
  {
  }

  function Cleared(m: MsgRec): MsgRec {
    m.(count := 0, head := 0)
  }

  lemma {:induction false} BitOfKind(kind: nat)
    requires 1 <= kind < KINDS
    ensures Bit(kind) == if kind == 1 then 1 else if kind == 2 then 2 else 4
    ensures KINDS == 4 && SIZE == 4000
  {
    assert kind == 1 || kind == 2 || kind == 3;
  }

  function ResCleared(r: ResRec): ResRec
    requires |r.msg| == KINDS
  {
    r.(msg := seq(KINDS, k requires 0 <= k < KINDS => Cleared(r.msg[k])))
  }

  class Res {
    var mask: bv8
    const msg: seq<ResMsg>
    ghost const repr: set<object>

    /** Four messages with four buffers of their own. */
    ghost predicate Linked()
    {
      && |msg| == KINDS && this !in repr
      && (forall k :: 0 <= k < KINDS ==> msg[k] in repr && msg[k].msg in repr && msg[k].msg.Length == SIZE)
      && (forall j, k :: 0 <= j < k < KINDS ==> msg[j] != msg[k] && msg[j].msg != msg[k].msg)
    }

    ghost predicate Valid()
      reads repr
    {
      Linked() && forall k :: 0 <= k < KINDS ==> MsgOk(msg[k].State())
    }

    constructor ()
      ensures Valid() && fresh(repr)
    {
      hide MsgOk, ResMsg.State;
      mask := 0;
      var a := new ResMsg();
      var b := new ResMsg();
      var c := new ResMsg();
      var d := new ResMsg();
      msg := [a, b, c, d];
      repr := {a, a.msg, b, b.msg, c, c.msg, d, d.msg};
    }

    ghost function State(): (r: ResRec)
      requires Linked()
      reads this, repr
      ensures r.mask == mask && |r.msg| == KINDS
      ensures forall k :: 0 <= k < KINDS ==> r.msg[k] == msg[k].State()
    {
      ResRec(mask, [msg[0].State(), msg[1].State(), msg[2].State(), msg[3].State()])
    }

    /** The messages go; the mask and the characters in the buffers stay. */
    method Clear()
      requires Linked()
      modifies msg
      ensures Valid()
      ensures State() == ResCleared(old(State()))
    {
      var i := 0;
      while i < |msg|
        invariant 0 <= i <= |msg|
        invariant forall k :: 0 <= k < i ==> msg[k].State() == Cleared(old(msg[k].State()))
        invariant forall k :: i <= k < |msg| ==> msg[k].State() == old(msg[k].State())
      {
        msg[i].Init();
        i := i + 1;
      }
    }

    /** Whatever the fields held before. */
    method Init()
      requires Linked()
      modifies this`mask, msg
      ensures Valid()
      ensures State() == ResCleared(old(State())).(mask := 0)
    {
      mask := 0;
      Clear();
    }

    method AddWithRoom(kind: nat, f: Formatted)
      requires Valid() && 1 <= kind < KINDS && Roomy(State().msg[kind])
      modifies msg[kind], msg[kind].msg
      ensures Valid()
      ensures State() == WithRoom(old(State()), kind, f)
    {
      hide Added, Roomy, MsgOk;
      msg[kind].AddV(f);
      assert forall k :: 0 <= k < KINDS && k != kind ==> msg[k].State() == old(msg[k].State());
    }

    method AddWithoutRoom(kind: nat)
      requires Valid() && 1 <= kind < KINDS - 1 && !Roomy(State().msg[kind])
      modifies msg[kind], msg[kind].msg, msg[kind + 1]
      ensures Valid()
      ensures State() == WithoutRoom(old(State()), kind)
    {
      hide Closed, Roomy, MsgOk;
      msg[kind].AddVAtEnd(msg[kind + 1]);
      UncountedOk(old(msg[kind + 1].State()));
      assert msg[kind + 1].State() == Uncounted(old(msg[kind + 1].State()));
      assert forall k :: 0 <= k < KINDS && k != kind && k != kind + 1 ==> msg[k].State() == old(msg[k].State());
    }

    method SetBit(kind: nat)
      requires Valid() && 1 <= kind < KINDS
      modifies this`mask
      ensures Valid() && State() == old(State()).(mask := old(mask) | Bit(kind))
    {
      hide Bit, MsgOk, ResMsg.State;
      mask := mask | Bit(kind);
    }

    /** One body in the code; which of the two it comes to depends on the room. */
    method AddV(kind: nat, f: Formatted)
      requires Valid() && MayAdd(State(), kind)
      modifies this`mask, msg[kind], msg[kind].msg, if kind + 1 < KINDS then {msg[kind + 1]} else {}
      ensures Valid()
      ensures State() == ResAdded(old(State()), kind, f)
    {
      hide ResAdded, WithRoom, WithoutRoom, Bit, Roomy, ResMsg.State;
      ResAddedCases(State(), kind, f);
      SetBit(kind);
      if Roomy(msg[kind].State()) {
        AddWithRoom(kind, f);
      } else {
        AddWithoutRoom(kind);
      }
    }
  }

  lemma {:induction false} UncountedOk(m: MsgRec)
    requires MsgOk(m)
    ensures MsgOk(Uncounted(m))
  {
  }

  // ----- a series of messages of several kinds -----

  datatype Entry = Entry(kind: nat, f: Formatted)

  /** The messages of one kind, in order. */
  function OfKind(es: seq<Entry>, kind: nat): seq<Formatted> {
    if es == [] then []
    else
      var before, e := es[..|es| - 1], es[|es| - 1];
      if e.kind == kind then OfKind(before, kind) + [e.f] else OfKind(before, kind)
  }

  ghost predicate ResOk(r: ResRec) {
    |r.msg| == KINDS && forall k :: 0 <= k < KINDS ==> MsgOk(r.msg[k])
  }

  /** Each entry has a kind and finds room among those of its kind. */
  ghost predicate Admissible(r: ResRec, es: seq<Entry>)
    requires ResOk(r)
  {
    (forall e :: e in es ==> 1 <= e.kind < KINDS) &&
    (forall k :: 0 <= k < KINDS ==> AllRoomy(r.msg[k], OfKind(es, k)))
  }

  ghost predicate ResRunOk(r: ResRec, es: seq<Entry>)
    requires ResOk(r)
    decreases |es|, 0
  {
    es == [] ||
    var before, e := es[..|es| - 1], es[|es| - 1];
    ResRunOk(r, before) && MayAdd(ResRun(r, before), e.kind)
  }

  ghost function ResRun(r: ResRec, es: seq<Entry>): (r': ResRec)
    requires ResOk(r) && ResRunOk(r, es)
    ensures ResOk(r')
    decreases |es|, 1
  {
    if es == [] then r
    else
      var e := es[|es| - 1];
      ResAddedOk(ResRun(r, es[..|es| - 1]), e.kind, e.f);
      ResAdded(ResRun(r, es[..|es| - 1]), e.kind, e.f)
  }

  lemma {:induction false} ResAddedOk(r: ResRec, kind: nat, f: Formatted)
    requires ResOk(r) && MayAdd(r, kind)
    ensures ResOk(ResAdded(r, kind, f))
  {
    hide Added, Bit;
    if Roomy(r.msg[kind]) {
      AddedOk(r.msg[kind], f);
    }
  }

  lemma {:induction false} ResAddedMask(r: ResRec, kind: nat, f: Formatted)
    requires ResOk(r) && MayAdd(r, kind)
    ensures 1 <= kind < KINDS && ResAdded(r, kind, f).mask == r.mask | Bit(kind)
  {
    hide Added, Bit, Closed;
  }

  /** Adding one kind of message sets its own mask bit and no other. */
  lemma {:induction false} BitsApart(mask: bv8, kind: nat, k: nat)
    requires 1 <= kind < KINDS && 1 <= k < KINDS
    ensures (mask | Bit(kind)) & Bit(k) != 0 <==> mask & Bit(k) != 0 || k == kind
  {
    assert kind == 1 || kind == 2 || kind == 3;
    assert k == 1 || k == 2 || k == 3;
  }

  lemma {:induction false} AdmissiblePrefix(r: ResRec, es: seq<Entry>)
    requires ResOk(r) && Admissible(r, es) && es != []
    ensures var before, e := es[..|es| - 1], es[|es| - 1];
      && 1 <= e.kind < KINDS
      && Admissible(r, before)
      && Roomy(AddAll(r.msg[e.kind], OfKind(before, e.kind)))
      && AddAll(r.msg[e.kind], OfKind(es, e.kind)) == Added(AddAll(r.msg[e.kind], OfKind(before, e.kind)), e.f)
  {
    hide Added, Roomy, AllRoomy, AddAll;
    var before, e := es[..|es| - 1], es[|es| - 1];
    assert e in es;
    OneMore(r.msg[e.kind], OfKind(before, e.kind), e.f);
  }

  /** Kinds do not interfere: after any mixed series each kind holds what its own
      messages make of it. */
  lemma {:induction false} KindsApart(r: ResRec, es: seq<Entry>)
    requires ResOk(r) && Admissible(r, es)
    ensures ResRunOk(r, es)
    ensures forall k :: 0 <= k < KINDS ==> ResRun(r, es).msg[k] == AddAll(r.msg[k], OfKind(es, k))
    decreases |es|
  {
    hide Added, Bit, Roomy, AllRoomy;
    if es == [] {
    } else {
      AdmissiblePrefix(r, es);
      KindsApart(r, es[..|es| - 1]);
    }
  }

  /** A mask bit is set exactly when it was before or a message of its kind came. */
  lemma {:induction false} MaskApart(r: ResRec, es: seq<Entry>, k: nat)
    requires ResOk(r) && ResRunOk(r, es) && 1 <= k < KINDS
    ensures ResRun(r, es).mask & Bit(k) != 0 <==> r.mask & Bit(k) != 0 || OfKind(es, k) != []
    decreases |es|
  {
    hide ResAdded, Bit, MayAdd;
    if es == [] {
    } else {
      var before, e := es[..|es| - 1], es[|es| - 1];
      MaskApart(r, before, k);
      ResAddedMask(ResRun(r, before), e.kind, e.f);
      BitsApart(ResRun(r, before).mask, e.kind, k);
    }
  }

  // ----- no room for the terminator -----

  /** A message leaves the other kinds alone exactly when it finds room, or the count
      behind its buffer, which it resets otherwise, is 0 anyway. */
  lemma {:induction false} OthersKeptIff(r: ResRec, kind: nat, f: Formatted)
    requires ResOk(r) && MayAdd(r, kind)
    ensures (forall k :: 0 <= k < KINDS && k != kind ==> ResAdded(r, kind, f).msg[k] == r.msg[k]) <==>
            Roomy(r.msg[kind]) || r.msg[kind + 1].count == 0
  {
    hide Added, Bit, Closed, Roomy;
    if !Roomy(r.msg[kind]) {
      assert ResAdded(r, kind, f).msg[kind + 1] == Uncounted(r.msg[kind + 1]);
    }
  }

  /** A message that finds one free character is not kept and takes that character:
      its kind is full. */
  lemma {:induction false} FullAfterNoRoom(r: ResRec, kind: nat, f: Formatted)
    requires ResOk(r) && MayAdd(r, kind) && !Roomy(r.msg[kind])
    ensures var m := ResAdded(r, kind, f).msg[kind];
      && m.head == SIZE && m.count == (r.msg[kind].count + 1) % 256
      && m.msg[SIZE - 1] == NUL && m.msg[..SIZE - 1] == r.msg[kind].msg[..SIZE - 1]
  {
  }

  /** A full kind takes no message any more, whatever is added to it or to others. */
  lemma {:induction false} FullForGood(r: ResRec, kind: nat, es: seq<Entry>)
    requires ResOk(r) && 1 <= kind < KINDS && r.msg[kind].head == SIZE && ResRunOk(r, es)
    ensures ResRun(r, es).msg[kind].head == SIZE && ResRun(r, es).msg[kind].msg == r.msg[kind].msg
    ensures ResRun(r, es).msg[kind].count == r.msg[kind].count || ResRun(r, es).msg[kind].count == 0
    decreases |es|
  {
    hide Bit, Closed;
    if es == [] {
    } else {
      FullForGood(r, kind, es[..|es| - 1]);
    }
  }

  /** The next message of the kind whose count was reset stands behind the others
      without a newline. */
  lemma {:induction false} SeparatorLost(r: ResRec, kind: nat, f: Formatted, g: Formatted)
    requires ResOk(r) && MayAdd(r, kind) && !Roomy(r.msg[kind]) && r.msg[kind + 1].head < SIZE
    ensures MayAdd(ResAdded(r, kind, f), kind + 1) && ResOk(ResAdded(r, kind, f))
    ensures var was, m := r.msg[kind + 1], ResAdded(ResAdded(r, kind, f), kind + 1, g).msg[kind + 1];
      && m.head < SIZE && |m.msg| == SIZE && m.count == 1
      && m.msg[..m.head] == was.msg[..was.head] + (if Fits(g, SIZE - was.head) then g.text else [])
  {
    hide Added, Bit, Closed;
    ResAddedOk(r, kind, f);
    var was := Uncounted(r.msg[kind + 1]);
    assert ResAdded(r, kind, f).msg[kind + 1] == was;
    AddedText(was, g);
    AddedOk(was, g);
    assert was.msg[..was.head] + [] == was.msg[..was.head];
  }

  // ----- what clearing leaves behind -----

  /** The object as ae_res_init leaves it. */
  ghost predicate Fresh(r: ResRec) {
    && ResOk(r) && r.mask == 0
    && forall k :: 0 <= k < KINDS ==> r.msg[k].count == 0 && r.msg[k].head == 0
  }

  /** A second message brings its separator. */
  lemma {:induction false} SomethingCommitted(fs: seq<Formatted>)
    requires |fs| >= 2
    ensures Committed(fs) != [] && Opened(fs) != []
    decreases |fs|
  {
    if |fs| <= 2 {
    } else {
      SomethingCommitted(fs[..|fs| - 1]);
    }
  }

  /** A buffer that took the messages `fs` still reads as their series, so it is
      empty only if there was one message and that was empty. */
  lemma {:induction false} ClearedText(m: MsgRec, fs: seq<Formatted>)
    requires MsgOk(m) && m.count == 0 && m.head == 0 && AllRoomy(m, fs) && NulFree(fs)
    ensures var c := Cleared(AddAll(m, fs));
      && c.count == 0 && c.head == 0
      && (fs == [] ==> CString(c.msg) == CString(m.msg))
      && (fs != [] ==> |Opened(fs)| < SIZE && CString(c.msg) == Shown(fs))
      && (fs != [] ==> (CString(c.msg) == [] <==> |fs| == 1 && fs[0].text == []))
  {
    SeriesText(m.msg, fs);
    if |fs| >= 2 {
      SomethingCommitted(fs);
    }
  }

  /** Clearing removes no text: after any series from a fresh object and a clear
      every kind reads as before the clear, and its mask bit is set exactly when
      a message of it came. */
  lemma {:induction false} ClearKeepsText(r: ResRec, es: seq<Entry>, k: nat)
    requires Fresh(r) && Admissible(r, es) && 1 <= k < KINDS && NulFree(OfKind(es, k))
    ensures ResRunOk(r, es)
    ensures var c, fs := ResCleared(ResRun(r, es)), OfKind(es, k);
      && c.msg[k].count == 0 && c.msg[k].head == 0
      && (fs == [] ==> CString(c.msg[k].msg) == CString(r.msg[k].msg))
      && (fs != [] ==> |Opened(fs)| < SIZE && CString(c.msg[k].msg) == Shown(fs))
      && (fs != [] ==> (CString(c.msg[k].msg) == [] <==> |fs| == 1 && fs[0].text == []))
      && (c.mask & Bit(k) != 0 <==> fs != [])
  {
    hide AllRoomy, AddAll, Shown, CString, Bit, ResRun, ResRunOk, NulFree, OfKind;
    KindsApart(r, es);
    MaskApart(r, es, k);
    NoBit(k);
    ClearedText(r.msg[k], OfKind(es, k));
  }

  lemma {:induction false} NoBit(k: nat)
    requires 1 <= k < KINDS
    ensures 0 & Bit(k) == 0
  {
  }

  /** A clear brings back the fresh object only if there was nothing to clear. */
  lemma {:induction false} ClearUndoesIff(r: ResRec, es: seq<Entry>)
    requires Fresh(r) && ResRunOk(r, es)
    ensures ResCleared(ResRun(r, es)) == r <==> es == []
  {
    hide AllRoomy, AddAll, Bit;
    if es == [] {
      assert ResCleared(r).msg == r.msg;
    } else {
      var k := es[|es| - 1].kind;
      MaskApart(r, es, k);
      NoBit(k);
      assert OfKind(es, k) != [];
    }
  }

  lemma {:induction false} OneEntry(r: ResRec, kind: nat, f: Formatted)
    requires Fresh(r) && 1 <= kind < KINDS
    ensures Admissible(r, [Entry(kind, f)]) && OfKind([Entry(kind, f)], kind) == [f]
  {
    hide AllRoomy, AddAll;
    var es := [Entry(kind, f)];
    assert es[..0] == [] && OfKind([], kind) == [] && [] + [f] == [f];
    forall k | 0 <= k < KINDS
      ensures AllRoomy(r.msg[k], OfKind(es, k))
    {
      assert OfKind(es[..0], k) == [];
      EmptySeries(r.msg[k]);
      OneMore(r.msg[k], [], f);
    }
  }

  /** One error message, then a clear: the message can still be read and the mask
      still tells of an error. */
  lemma {:induction false} ClearKeepsError(r: ResRec)
    requires Fresh(r)
    ensures var es := [Entry(1, Formatted("no", false))];
      && ResRunOk(r, es)
      && CString(ResCleared(ResRun(r, es)).msg[1].msg) == "no"
      && ResCleared(ResRun(r, es)).mask & Bit(1) != 0
  {
    hide AllRoomy, AddAll, CString, Bit, ResRun, ResRunOk, OfKind, Fresh, Admissible;
    var f := Formatted("no", false);
    OneEntry(r, 1, f);
    assert NUL !in f.text;
    ClearKeepsText(r, [Entry(1, f)], 1);
    assert [f][..0] == [] && Opened([f]) == [];
  }
}
