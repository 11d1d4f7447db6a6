/** libae/str.c: formatted printing into a fixed buffer. */
module Str {

  /** What a format string and its arguments come to: the characters, and
      whether the conversion fails half-way, after them. */
  datatype Formatted = Formatted(text: seq<char>, failed: bool)

  const NUL: char := '\0'

  function Take(s: seq<char>, n: nat): seq<char> {
    if |s| <= n then s else s[..n]
  }

  /** Overwrite part of a buffer. */
  function Write(buf: seq<char>, at: nat, s: seq<char>): seq<char>
    requires at + |s| <= |buf|
  {
    buf[..at] + s + buf[at + |s|..]
  }

  /** There is room for all of `f` and its terminator in `n` characters. */
  predicate Fits(f: Formatted, n: int) {
    !f.failed && |f.text| < n
  }

  /** The buffer after printing `f` into its `n` characters from `at` on. */
  function Printed(buf: seq<char>, at: nat, n: nat, f: Formatted): seq<char>
    requires n > 0 && at + n <= |buf|
  {
    var b := Write(buf, at, Take(f.text, n - 1) + [NUL]);
    if Fits(f, n) then b else b[at + n - 1 := NUL]
  }

  /** Printing keeps what is in front, and what can be read from there on is the
      text cut to the room there is. */
  lemma {:induction false} PrintedText(buf: seq<char>, at: nat, n: nat, f: Formatted)
    requires n > 0 && at + n == |buf|
    ensures var b, t := Printed(buf, at, n, f), buf[..at] + Take(f.text, n - 1);
            |b| == |buf| && |t| < |b| && t <= b && b[|t|] == NUL && b[..at] == buf[..at]
  {
    var s := Take(f.text, n - 1) + [NUL];
    var w := Write(buf, at, s);
    assert w[..at] == buf[..at] && w[at..at + |s|] == s;
    assert w[..at + |s| - 1] == buf[..at] + Take(f.text, n - 1);
  }

  /** Nothing is written in front and nothing behind. */
  lemma {:induction false} PrintedWithin(buf: seq<char>, at: nat, n: nat, f: Formatted)
    requires n > 0 && at + n <= |buf|
    ensures var b := Printed(buf, at, n, f);
      && |b| == |buf| && b[..at] == buf[..at] && b[at + n..] == buf[at + n..]
      && (|f.text| < n ==> b[at..at + |f.text|] == f.text && b[at + |f.text|] == '\0')
      && (|f.text| >= n ==> b[at..at + n - 1] == f.text[..n - 1] && b[at + n - 1] == '\0')
  {
    var s := Take(f.text, n - 1) + [NUL];
    var w := Write(buf, at, s);
    assert w[at..at + |s|] == s;
  }

  /** The C string in a buffer. */
  function CString(s: seq<char>): seq<char> {
    if s == [] || s[0] == NUL then [] else [s[0]] + CString(s[1..])
  }

  lemma {:induction false} CStringIs(s: seq<char>, t: seq<char>)
    requires t < s && s[|t|] == NUL && NUL !in t
    ensures CString(s) == t
  {
    if t == [] {
    } else {
      assert s[0] == t[0] && t[0] in t;
      CStringIs(s[1..], t[1..]);
    }
  }

  /** vsnprintf for `n > 0`. */
  method Vsnprintf(buf: array<char>, at: nat, n: nat, f: Formatted) returns (res: int)
    requires n > 0 && at + n <= buf.Length
    modifies buf
    ensures buf[..] == Write(old(buf[..]), at, Take(f.text, n - 1) + [NUL])
    ensures res == if f.failed then -1 else |f.text|
  {
    var s := Take(f.text, n - 1) + [NUL];
    forall i | 0 <= i < |s| {
      buf[at + i] := s[i];
    }
    res := if f.failed then -1 else |f.text|;
  }

  /** ae_str_printv on the `bufLen` characters from `at` on: the text and a terminator,
      or as much of it as leaves room for the terminator. */
  method PrintV(buf: array<char>, at: nat, bufLen: nat, f: Formatted) returns (res: nat)
    requires bufLen > 0 && at + bufLen <= buf.Length
    modifies buf
    ensures buf[..] == Printed(old(buf[..]), at, bufLen, f)
    ensures res == if !f.failed && |f.text| < bufLen then |f.text| else 0
    ensures forall i :: 0 <= i < buf.Length && !(at <= i < at + bufLen) ==> buf[i] == old(buf[i])
    ensures |f.text| < bufLen ==> buf[at..at + |f.text|] == f.text && buf[at + |f.text|] == '\0'
    ensures |f.text| >= bufLen ==>
              buf[at..at + bufLen - 1] == f.text[..bufLen - 1] && buf[at + bufLen - 1] == '\0'
  {
    PrintedWithin(buf[..], at, bufLen, f);
    buf[at] := NUL;
    var n := Vsnprintf(buf, at, bufLen, f);
    if n < 0 || n >= bufLen {
      buf[at + bufLen - 1] := NUL;
      n := 0;
    }
    res := n;
  }
}
