/** Printing a record's fields and reading them back (items 5 to 7 of section 2 of RFC 4180). */
module CsvRowRoundTrip {
  import opened CsvFormat

  /** A field as a writer may put it down: bare, or between qualifiers. */
  datatype Field = Plain(text: string) | Quoted(text: string)

  function Double(q: char, s: string): string {
    if s == "" then "" else (if s[0] == q then [q, q] else [s[0]]) + Double(q, s[1..])
  }

  function Print(x: Dialect, f: Field): string {
    match f
    case Plain(text) => text
    case Quoted(text) => [x.quote] + Double(x.quote, text) + [x.quote]
  }

  function PrintRow(x: Dialect, fs: seq<Field>): string {
    if fs == [] then ""
    else if |fs| == 1 then Print(x, fs[0]) else Print(x, fs[0]) + [x.delim] + PrintRow(x, fs[1..])
  }

  function Texts(fs: seq<Field>): (ts: seq<string>)
    ensures |ts| == |fs|
  {
    if fs == [] then [] else [fs[0].text] + Texts(fs[1..])
  }

  /** The fields that this reader gives back: a bare text must hold no delimiter and begin with an
      even number of qualifiers, a qualified one must hold something besides qualifiers. */
  predicate Readable(x: Dialect, f: Field) {
    match f
    case Plain(text) => x.delim !in text && QuoteRun(x.quote, text, 0) % 2 == 0
    case Quoted(text) => QuoteRun(x.quote, text, 0) < |text|
  }

  lemma {:induction false} FindIs(c: char, s: string, i: nat, k: nat)
    requires i <= k <= |s| && (forall j :: i <= j < k ==> s[j] != c) && (k < |s| ==> s[k] == c)
    ensures Find(c, s, i) == if k == |s| then -1 else k
    decreases k - i
  {
    if i < k {
      FindIs(c, s, i + 1, k);
    }
  }

  lemma {:induction false} QuoteRunIs(q: char, s: string, i: nat, n: nat)
    requires i + n <= |s| && (forall k :: i <= k < i + n ==> s[k] == q) && (i + n < |s| ==> s[i + n] != q)
    ensures QuoteRun(q, s, i) == n
    decreases n
  {
    if n > 0 {
      QuoteRunIs(q, s, i + 1, n - 1);
    }
  }

  lemma {:induction false} UndoubleDouble(q: char, s: string)
    ensures Undouble(q, Double(q, s)) == s
  {
    if s != "" {
      UndoubleDouble(q, s[1..]);
      var d := Double(q, s);
      assert d[if s[0] == q then 2 else 1..] == Double(q, s[1..]);
    }
  }

  /** What un-doubling leaves of an even run at the front. */
  lemma {:induction false} UndoubleRun(q: char, s: string, m: nat)
    requires 2 * m <= |s| && (forall k :: 0 <= k < 2 * m ==> s[k] == q) && (2 * m < |s| ==> s[2 * m] != q)
    ensures var v := Undouble(q, s);
      if 2 * m == |s| then |v| == m else m < |v| && v[m] == s[2 * m]
  {
    if m > 0 {
      UndoubleRun(q, s[2..], m - 1);
    }
  }

  lemma {:induction false} DoubleLead(q: char, t: string)
    ensures var n, d := QuoteRun(q, t, 0), Double(q, t);
      2 * n <= |d| && (forall k :: 0 <= k < 2 * n ==> d[k] == q) && d[2 * n..] == Double(q, t[n..])
  {
    if t != "" && t[0] == q {
      DoubleLead(q, t[1..]);
      var n := QuoteRun(q, t, 0);
      QuoteRunIs(q, t[1..], 0, n - 1);
      assert t[1..][n - 1..] == t[n..];
      assert Double(q, t)[2..] == Double(q, t[1..]);
    } else {
      assert t[0..] == t;
    }
  }

  /** At index `i` of `s` stands the doubled `t` and a closing qualifier that ends its run. */
  ghost predicate ClosedAt(q: char, s: string, i: nat, t: string) {
    var e := i + |Double(q, t)|;
    e < |s| && s[i..e] == Double(q, t) && s[e] == q && (e + 1 < |s| ==> s[e + 1] != q)
  }

  /** The leading qualifiers of a doubled text, seen in place. */
  lemma ClosedAfterLead(q: char, s: string, i: nat, t: string)
    requires ClosedAt(q, s, i, t)
    ensures var n := QuoteRun(q, t, 0);
      && i + 2 * n < |s|
      && |Double(q, t)| == 2 * n + |Double(q, t[n..])|
      && (n == |t| ==> s[i + 2 * n] == q && (i + 2 * n + 1 < |s| ==> s[i + 2 * n + 1] != q))
      && (n == |t| ==> |Double(q, t)| == 2 * n)
      && (forall k :: i <= k < i + 2 * n ==> s[k] == q)
      && ClosedAt(q, s, i + 2 * n, t[n..])
      && (n < |t| ==> s[i + 2 * n] == t[n])
  {
    var d, n := Double(q, t), QuoteRun(q, t, 0);
    var e := i + |d|;
    DoubleLead(q, t);
    if n < |t| {
      assert Double(q, t[n..])[0] == t[n];
    } else {
      assert Double(q, t[n..]) == "";
    }
    hide Double, QuoteRun;
    assert forall k :: i <= k < i + 2 * n ==> s[k] == s[i..e][k - i];
    assert s[i + 2 * n..e] == s[i..e][2 * n..] == d[2 * n..];
    if n < |t| {
      assert s[i + 2 * n] == s[i + 2 * n..e][0];
    }
  }

  /** The search for an odd run passes over doubled qualifiers and ends at the closing one. */
  lemma {:induction false} OddRunEndDoubled(q: char, s: string, i: nat, t: string)
    requires ClosedAt(q, s, i, t)
    ensures OddRunEnd(q, s, i) == i + |Double(q, t)|
    decreases |t|, 1
  {
    hide Double, ClosedAt, QuoteRun;
    var n := QuoteRun(q, t, 0);
    ClosedAfterLead(q, s, i, t);
    if n == |t| {
      QuoteRunIs(q, s, i, 2 * n + 1);
    } else {
      QuoteRunIs(q, s, i, 2 * n);
      OddRunEndAfterLead(q, s, i, t);
    }
  }

  lemma {:induction false} OddRunEndAfterLead(q: char, s: string, i: nat, t: string)
    requires ClosedAt(q, s, i, t) && QuoteRun(q, t, 0) < |t|
    ensures i + 2 * QuoteRun(q, t, 0) < |s|
    ensures OddRunEnd(q, s, i + 2 * QuoteRun(q, t, 0)) == i + |Double(q, t)|
    decreases |t|, 0
  {
    hide Double, ClosedAt;
    var n := QuoteRun(q, t, 0);
    ClosedAfterLead(q, s, i, t);
    ClosedTail(q, s, i + 2 * n, t[n..]);
    OddRunEndDoubled(q, s, i + 2 * n + 1, t[n..][1..]);
  }

  lemma ClosedTail(q: char, s: string, i: nat, t: string)
    requires ClosedAt(q, s, i, t) && t != "" && t[0] != q
    ensures |Double(q, t)| == 1 + |Double(q, t[1..])| && ClosedAt(q, s, i + 1, t[1..])
  {
    var e := i + |Double(q, t)|;
    assert s[i + 1..e] == s[i..e][1..] == Double(q, t)[1..] == Double(q, t[1..]);
  }

  /** Decoding changes a text with an odd run of qualifiers at its front: fewer are left there. */
  lemma DecodeChanges(q: char, raw: string, closing: int, t: string, n: nat)
    requires n % 2 == 1 && n <= |raw| && n <= |t| && (n < |raw| ==> raw[n] != q)
    requires forall k :: 0 <= k < n ==> raw[k] == q && t[k] == q
    requires closing == -1 || n < closing < |raw|
    requires closing != -1 ==> 2 <= closing
    ensures Decode(q, true, closing, raw) != t
  {
    hide Undouble;
    var first := if closing == -1 then raw[1..] else raw[1..closing];
    assert forall k :: 0 <= k < |first| ==> first[k] == raw[k + 1];
    UndoubleRun(q, first, (n - 1) / 2);
    assert t[(n - 1) / 2] == q;
  }

  /** A bare text that begins with an odd run of qualifiers loses some of them. */
  lemma OddLeadIsChanged(x: Dialect, row: string, t: string)
    requires x.quote != x.delim && t <= row && QuoteRun(x.quote, row, 0) == QuoteRun(x.quote, t, 0)
    requires QuoteRun(x.quote, row, 0) % 2 == 1
    ensures ReadField(x, row).value != t
  {
    hide QuoteRun, OddRunEnd, Find, Decode;
    var n := QuoteRun(x.quote, row, 0);
    var c := FindCut(x, row);
    OddRunAfterRun(x.quote, row, 0);
    DecodeChanges(x.quote, if c.delim == -1 then row else row[..c.delim], c.closing, t, n);
  }

  lemma ReadPlain(x: Dialect, text: string, tail: string)
    requires x.quote != x.delim && (tail != "" ==> tail[0] == x.delim)
    ensures var r, f := ReadField(x, text + tail), Plain(text);
      if Readable(x, f) then r == FieldRead(text, if tail == "" then "" else tail[1..], tail != "")
      else r.value != text
  {
    var row := text + tail;
    QuoteRunIs(x.quote, row, 0, QuoteRun(x.quote, text, 0));
    if QuoteRun(x.quote, text, 0) % 2 == 1 {
      OddLeadIsChanged(x, row, text);
    } else if x.delim !in text {
      FindIs(x.delim, row, 0, |text|);
    } else {
      var k := Find(x.delim, text, 0);
      assert text[0..] == text;
      FindIs(x.delim, row, 0, k);
    }
  }

  /** The leading run and the closing qualifier of a readable qualified field. */
  lemma OpenAndClose(q: char, row: string, text: string)
    requires row != "" && row[0] == q && ClosedAt(q, row, 1, text) && QuoteRun(q, text, 0) < |text|
    ensures QuoteRun(q, row, 0) == 1 + 2 * QuoteRun(q, text, 0)
    ensures OddRunEnd(q, row, QuoteRun(q, row, 0)) == 1 + |Double(q, text)|
  {
    hide Double, ClosedAt;
    ClosedAfterLead(q, row, 1, text);
    QuoteRunIs(q, row, 1, 2 * QuoteRun(q, text, 0));
    OddRunEndAfterLead(q, row, 1, text);
  }

  /** The cut of a readable qualified field with `u` behind its closing qualifier. */
  lemma CutQuoted(x: Dialect, row: string, text: string, u: string)
    requires x.quote != x.delim && Readable(x, Quoted(text)) && x.delim !in u
    requires row != "" && row[0] == x.quote && ClosedAt(x.quote, row, 1, text)
    requires var k := 2 + |Double(x.quote, text)| + |u|;
      k <= |row| && row[k - |u|..k] == u && (k < |row| ==> row[k] == x.delim)
    ensures var e := 1 + |Double(x.quote, text)|;
      FindCut(x, row) == Cut(if e + 1 + |u| == |row| then -1 else e + 1 + |u|, true, e)
  {
    hide Double, ClosedAt, OddRunEnd, Find;
    var e := 1 + |Double(x.quote, text)|;
    OpenAndClose(x.quote, row, text);
    CutOddRun(x, row, QuoteRun(x.quote, row, 0), e);
    FindBehind(x.delim, row, e + 1, u);
  }

  lemma FindBehind(c: char, s: string, i: nat, u: string)
    requires i + |u| <= |s| && s[i..i + |u|] == u && c !in u && (i + |u| < |s| ==> s[i + |u|] == c)
    ensures Find(c, s, i) == if i + |u| == |s| then -1 else i + |u|
  {
    hide Find;
    forall k | i <= k < i + |u|
      ensures s[k] != c
    {
      assert s[k] == s[i..i + |u|][k - i];
    }
    FindIs(c, s, i, i + |u|);
  }

  lemma CutOddRun(x: Dialect, row: string, n: nat, e: nat)
    requires n == QuoteRun(x.quote, row, 0) && n % 2 == 1 && e == OddRunEnd(x.quote, row, n)
    ensures FindCut(x, row) == Cut(Find(x.delim, row, e + 1), true, e)
  {
  }

  /** Text behind the closing qualifier is kept as it is: only what stands between the qualifiers is
      un-doubled. */
  lemma ReadTrailing(x: Dialect, text: string, u: string, tail: string)
    requires x.quote != x.delim && (tail != "" ==> tail[0] == x.delim) && Readable(x, Quoted(text))
    requires x.delim !in u && (u != "" ==> u[0] != x.quote)
    ensures ReadField(x, Print(x, Quoted(text)) + u + tail)
         == FieldRead(text + u, if tail == "" then "" else tail[1..], tail != "")
  {
    hide Double, FindCut, Undouble, Readable;
    var d, printed := Double(x.quote, text), Print(x, Quoted(text));
    var row, k := printed + u + tail, |d| + 2 + |u|;
    Pieces(x.quote, d, u, tail);
    assert ClosedAt(x.quote, row, 1, text);
    CutQuoted(x, row, text, u);
    UndoubleDouble(x.quote, text);
    assert tail == "" ==> row == printed + u;
  }

  lemma Pieces(q: char, d: string, u: string, tail: string)
    ensures var printed := [q] + d + [q];
      var row, k := printed + u + tail, |d| + 2 + |u|;
      && row[1..|d| + 1] == d && row[|d| + 2..k] == u && row[..k] == printed + u
      && (printed + u)[1..|d| + 1] == d && (printed + u)[|d| + 2..] == u
      && (tail != "" ==> row[k + 1..] == tail[1..])
  {
  }

  lemma ReadQuoted(x: Dialect, text: string, tail: string)
    requires x.quote != x.delim && (tail != "" ==> tail[0] == x.delim) && Readable(x, Quoted(text))
    ensures ReadField(x, Print(x, Quoted(text)) + tail)
         == FieldRead(text, if tail == "" then "" else tail[1..], tail != "")
  {
    hide ReadField, Readable;
    ReadTrailing(x, text, "", tail);
    assert Print(x, Quoted(text)) + "" + tail == Print(x, Quoted(text)) + tail;
    assert text + "" == text;
  }

  lemma {:induction false} NoOddRun(q: char, s: string, i: nat, t: string)
    requires i <= |s| && s[i..] == Double(q, t)
    ensures OddRunEnd(q, s, i) == -1 && QuoteRun(q, s, i) == 2 * QuoteRun(q, t, 0)
    decreases |t|
  {
    hide Double;
    var n := QuoteRun(q, t, 0);
    DoubleRun(q, s, i, t);
    QuoteRunIs(q, s, i, 2 * n);
    if n < |t| {
      NoOddRun(q, s, i + 2 * n + 1, t[n + 1..]);
    }
  }

  /** The leading qualifiers of a doubled text that ends `s`. */
  lemma DoubleRun(q: char, s: string, i: nat, t: string)
    requires i <= |s| && s[i..] == Double(q, t)
    ensures var n := QuoteRun(q, t, 0);
      && i + 2 * n <= |s|
      && (forall k :: i <= k < i + 2 * n ==> s[k] == q)
      && (n == |t| ==> i + 2 * n == |s|)
      && (n < |t| ==> i + 2 * n < |s| && s[i + 2 * n] != q && s[i + 2 * n + 1..] == Double(q, t[n + 1..]))
  {
    var d, n := Double(q, t), QuoteRun(q, t, 0);
    DoubleLead(q, t);
    assert forall k :: i <= k < |s| ==> s[k] == s[i..][k - i];
    assert s[i + 2 * n..] == d[2 * n..];
    if n < |t| {
      assert Double(q, t[n..])[0] == t[n] && t[n..][1..] == t[n + 1..];
      assert Double(q, t[n..])[1..] == Double(q, t[n + 1..]);
      assert s[i + 2 * n + 1..] == s[i + 2 * n..][1..];
    }
  }

  /** A qualified field that is never closed is un-doubled to its end, delimiters included. */
  lemma ReadUnterminated(x: Dialect, t: string)
    requires x.quote != x.delim
    ensures ReadField(x, [x.quote] + Double(x.quote, t)) == FieldRead(t, "", false)
  {
    hide Double, Undouble, OddRunEnd, QuoteRun, Find;
    var d := Double(x.quote, t);
    var row, n := [x.quote] + d, 1 + 2 * QuoteRun(x.quote, t, 0);
    assert row[1..] == d;
    DoubleRun(x.quote, row, 1, t);
    QuoteRunIs(x.quote, row, 0, n);
    NoOddRun(x.quote, row, 1, t);
    SkipEven(x.quote, row, 1, n);
    UndoubleDouble(x.quote, t);
    CutUnclosed(x, row, n);
    hide FindCut;
    assert Decode(x.quote, true, -1, row) == t;
  }

  lemma CutUnclosed(x: Dialect, row: string, n: nat)
    requires n == QuoteRun(x.quote, row, 0) && n % 2 == 1 && OddRunEnd(x.quote, row, n) == -1
    ensures FindCut(x, row) == Cut(-1, true, -1)
  {
  }

  lemma SkipEven(q: char, s: string, i: nat, j: nat)
    requires i <= |s| && j == i + QuoteRun(q, s, i) && QuoteRun(q, s, i) % 2 == 0
    ensures OddRunEnd(q, s, j) == OddRunEnd(q, s, i)
  {
  }

  lemma {:induction false} DoubleAppend(q: char, a: string, b: string)
    ensures Double(q, a + b) == Double(q, a) + Double(q, b)
    decreases |a|
  {
    if a == "" {
      assert a + b == b;
    } else {
      assert (a + b)[1..] == a[1..] + b;
      DoubleAppend(q, a[1..], b);
    }
  }

  /** `2 * m` qualifiers are `m` doubled ones. */
  lemma {:induction false} DoubleQuotes(q: char, s: string, m: nat) returns (t: string)
    requires |s| == 2 * m && forall k :: 0 <= k < |s| ==> s[k] == q
    ensures Double(q, t) == s
  {
    if m == 0 {
      t := "";
    } else {
      var rest := DoubleQuotes(q, s[2..], m - 1);
      t := [q] + rest;
      assert t[1..] == rest;
      assert s == [q, q] + s[2..];
    }
  }

  /** Where a text stops being a doubled one: at the end of its first odd run, or at its own end. */
  function EvenEnd(q: char, s: string, i: nat): (j: nat)
    requires i <= |s|
    ensures i <= j <= |s|
  {
    if OddRunEnd(q, s, i) == -1 then |s| else OddRunEnd(q, s, i)
  }

  lemma {:induction false} EvenRuns(q: char, s: string, i: nat) returns (t: string)
    requires i <= |s|
    ensures s[i..EvenEnd(q, s, i)] == Double(q, t)
    decreases |s| - i
  {
    hide Double, QuoteRun;
    if i == |s| {
      t := "";
      DoubleCons(q, ' ', "");
    } else if s[i] != q {
      var rest := EvenRuns(q, s, i + 1);
      t := [s[i]] + rest;
      DoubleCons(q, s[i], rest);
    } else {
      var n := QuoteRun(q, s, i);
      var lead := DoubleQuotes(q, s[i..i + n / 2 * 2], n / 2);
      if n % 2 == 1 {
        t := lead;
      } else {
        var rest := EvenRuns(q, s, i + n);
        DoubleAppend(q, lead, rest);
        t := lead + rest;
      }
    }
  }

  lemma DoubleCons(q: char, c: char, s: string)
    ensures Double(q, "") == ""
    ensures Double(q, [c] + s) == (if c == q then [q, q] else [c]) + Double(q, s)
  {
    assert ([c] + s)[1..] == s;
  }

  lemma {:induction false} OddRunIsClosed(q: char, s: string, i: nat)
    requires i <= |s|
    ensures var e := OddRunEnd(q, s, i); e != -1 ==> s[e] == q && (e + 1 < |s| ==> s[e + 1] != q)
    decreases |s| - i
  {
    if i < |s| {
      OddRunIsClosed(q, s, if s[i] == q then i + QuoteRun(q, s, i) else i + 1);
    }
  }

  /** What the first field of any record is, without the search: bare text up to the first delimiter,
      a qualified text that is never closed, or a qualified text with bare text behind it. */
  ghost predicate IsFirstField(x: Dialect, row: string, r: FieldRead) {
    var tail := if r.more then [x.delim] + r.rest else r.rest;
    if QuoteRun(x.quote, row, 0) % 2 == 0 then x.delim !in r.value && row == r.value + tail
    else Unclosed(x, row, r) || exists t, u :: Closed(x, row, r, tail, t, u)
  }

  ghost predicate Unclosed(x: Dialect, row: string, r: FieldRead) {
    row == [x.quote] + Double(x.quote, r.value) && r.rest == "" && !r.more
  }

  ghost predicate Closed(x: Dialect, row: string, r: FieldRead, tail: string, t: string, u: string) {
    && Readable(x, Quoted(t)) && x.delim !in u && (u == "" || u[0] != x.quote)
    && row == Print(x, Quoted(t)) + u + tail && r.value == t + u
  }

  lemma EveryField(x: Dialect, row: string)
    requires x.quote != x.delim
    ensures IsFirstField(x, row, ReadField(x, row))
  {
    hide ReadField;
    var n := QuoteRun(x.quote, row, 0);
    if n % 2 == 0 {
      BareField(x, row);
    } else if OddRunEnd(x.quote, row, n) == -1 {
      UnclosedField(x, row);
    } else {
      ClosedField(x, row);
    }
  }

  lemma BareField(x: Dialect, row: string)
    requires QuoteRun(x.quote, row, 0) % 2 == 0
    ensures IsFirstField(x, row, ReadField(x, row))
  {
    hide OddRunEnd;
    var d := FindCut(x, row).delim;
    if row != "" && d != -1 {
      assert row == row[..d] + ([row[d]] + row[d + 1..]);
      assert row[0..d] == row[..d];
    } else {
      assert row[0..] == row && row + "" == row;
    }
  }

  lemma UnclosedField(x: Dialect, row: string)
    requires x.quote != x.delim
    requires QuoteRun(x.quote, row, 0) % 2 == 1 && OddRunEnd(x.quote, row, QuoteRun(x.quote, row, 0)) == -1
    ensures Unclosed(x, row, ReadField(x, row))
  {
    hide Double, OddRunEnd, ReadField, QuoteRun;
    RunTail(x.quote, row, QuoteRun(x.quote, row, 0));
    var t := EvenRuns(x.quote, row, 1);
    assert row == [x.quote] + row[1..|row|];
    ReadUnterminated(x, t);
  }

  lemma ClosedField(x: Dialect, row: string)
    requires x.quote != x.delim
    requires QuoteRun(x.quote, row, 0) % 2 == 1 && OddRunEnd(x.quote, row, QuoteRun(x.quote, row, 0)) != -1
    ensures IsFirstField(x, row, ReadField(x, row))
  {
    hide Double, OddRunEnd, ReadField, Readable, QuoteRun, Find;
    var q, n := x.quote, QuoteRun(x.quote, row, 0);
    var e := OddRunEnd(q, row, n);
    RunTail(q, row, n);
    var t := EvenRuns(q, row, 1);
    OddRunAfterRun(q, row, 0);
    OddRunIsClosed(q, row, n);
    NotAllQuotes(x, row, t, n, e);
    TrailingField(x, row, t, e);
  }

  /** A record whose first field is the doubled `t` up to its closing qualifier at `e`. */
  lemma TrailingField(x: Dialect, row: string, t: string, e: nat)
    requires x.quote != x.delim && Readable(x, Quoted(t))
    requires 1 <= e < |row| && row[0] == x.quote && row[1..e] == Double(x.quote, t)
    requires row[e] == x.quote && (e + 1 < |row| ==> row[e + 1] != x.quote)
    requires QuoteRun(x.quote, row, 0) % 2 == 1
    ensures IsFirstField(x, row, ReadField(x, row))
  {
    hide Double, ReadField, Readable, QuoteRun, Find, IsFirstField;
    var end := if Find(x.delim, row, e + 1) == -1 then |row| else Find(x.delim, row, e + 1);
    var u, tail := row[e + 1..end], row[end..];
    CutApart(row, e, end);
    FindCutsOff(x.delim, row, e + 1, end);
    assert Print(x, Quoted(t)) == [x.quote] + row[1..e] + [x.quote];
    TrailingIsField(x, row, t, u, tail);
  }

  lemma CutApart(s: string, e: nat, end: nat)
    requires 1 <= e < end <= |s|
    ensures s == [s[0]] + s[1..e] + [s[e]] + s[e + 1..end] + s[end..]
  {
  }

  lemma FindCutsOff(c: char, s: string, i: nat, end: nat)
    requires i <= |s| && end == if Find(c, s, i) == -1 then |s| else Find(c, s, i)
    ensures i <= end <= |s| && c !in s[i..end] && (end < |s| ==> s[end] == c)
  {
    hide Find;
    assert s[i..|s|] == s[i..];
  }

  lemma TrailingIsField(x: Dialect, row: string, t: string, u: string, tail: string)
    requires x.quote != x.delim && Readable(x, Quoted(t)) && QuoteRun(x.quote, row, 0) % 2 == 1
    requires x.delim !in u && (u != "" ==> u[0] != x.quote) && (tail != "" ==> tail[0] == x.delim)
    requires row == Print(x, Quoted(t)) + u + tail
    ensures IsFirstField(x, row, ReadField(x, row))
  {
    hide ReadField, Readable, QuoteRun, Print;
    ReadTrailing(x, t, u, tail);
    assert tail != "" ==> tail == [tail[0]] + tail[1..];
    assert Closed(x, row, ReadField(x, row), tail, t, u);
  }

  /** Behind the first of an odd run of qualifiers the rest of the run is even. */
  lemma RunTail(q: char, row: string, n: nat)
    requires n == QuoteRun(q, row, 0) && n % 2 == 1
    ensures row[0] == q && OddRunEnd(q, row, 1) == OddRunEnd(q, row, n)
  {
    QuoteRunIs(q, row, 1, n - 1);
    SkipEven(q, row, 1, n);
  }

  lemma NotAllQuotes(x: Dialect, row: string, t: string, n: nat, e: nat)
    requires n == QuoteRun(x.quote, row, 0) && 1 <= n < e < |row| && row[1..e] == Double(x.quote, t)
    ensures Readable(x, Quoted(t))
  {
    DoubleLead(x.quote, t);
    assert row[1..e][n - 1] == row[n] != x.quote;
  }

  /** A qualified text of qualifiers only comes back with all its qualifiers. */
  lemma ReadAllQuotes(x: Dialect, text: string, tail: string)
    requires x.quote != x.delim && (tail != "" ==> tail[0] == x.delim) && !Readable(x, Quoted(text))
    ensures ReadField(x, Print(x, Quoted(text)) + tail).value == Print(x, Quoted(text)) != text
  {
    hide QuoteRun, Find, FindCut, Undouble, Double;
    var printed := Print(x, Quoted(text));
    var row := printed + tail;
    AllQuotesPrinted(x, text);
    QuoteRunIs(x.quote, row, 0, 2 * |text| + 2);
    FindIs(x.delim, row, 0, |printed|);
    CutEvenRun(x, row);
    assert row[..|printed|] == printed;
  }

  lemma AllQuotesPrinted(x: Dialect, text: string)
    requires !Readable(x, Quoted(text))
    ensures var printed := Print(x, Quoted(text));
      |printed| == 2 * |text| + 2 && forall k :: 0 <= k < |printed| ==> printed[k] == x.quote
  {
    hide QuoteRun, Double;
    var n := |text|;
    DoubleLead(x.quote, text);
    DoubleCons(x.quote, x.quote, "");
    assert text[n..] == "";
    assert Double(x.quote, text)[2 * n..] == "";
  }

  lemma CutEvenRun(x: Dialect, row: string)
    requires row != "" && QuoteRun(x.quote, row, 0) % 2 == 0
    ensures FindCut(x, row) == Cut(Find(x.delim, row, 0), false, -1)
  {
  }

  /** One field, in front of the record's end or of a delimiter, comes back exactly if it is readable. */
  lemma FieldRoundTrip(x: Dialect, f: Field, tail: string)
    requires x.quote != x.delim && (tail != "" ==> tail[0] == x.delim)
    ensures var r := ReadField(x, Print(x, f) + tail);
      if Readable(x, f) then r == FieldRead(f.text, if tail == "" then "" else tail[1..], tail != "")
      else r.value != f.text
  {
    match f
    case Plain(text) => ReadPlain(x, text, tail);
    case Quoted(text) =>
      if Readable(x, f) {
        ReadQuoted(x, text, tail);
      } else {
        ReadAllQuotes(x, text, tail);
      }
  }

  predicate AllReadable(x: Dialect, fs: seq<Field>) {
    forall k :: 0 <= k < |fs| ==> Readable(x, fs[k])
  }

  lemma RowStep(x: Dialect, f: Field, rest: string)
    requires x.quote != x.delim
    ensures var row := Print(x, f) + [x.delim] + rest;
      if Readable(x, f) then Fields(x, row) == [f.text] + Fields(x, rest) else Fields(x, row)[0] != f.text
  {
    var tail := [x.delim] + rest;
    var row := Print(x, f) + tail;
    assert Print(x, f) + [x.delim] + rest == row;
    FieldRoundTrip(x, f, tail);
    FieldsHead(x, row, ReadField(x, row));
  }

  /** A record comes back field by field exactly if all its fields are readable. */
  lemma {:induction false} RowRoundTrip(x: Dialect, fs: seq<Field>)
    requires x.quote != x.delim && |fs| > 0
    ensures Fields(x, PrintRow(x, fs)) == Texts(fs) <==> AllReadable(x, fs)
    decreases |fs|
  {
    if |fs| == 1 {
      FieldRoundTrip(x, fs[0], "");
      assert PrintRow(x, fs) == Print(x, fs[0]) + "";
      FieldsHead(x, PrintRow(x, fs), ReadField(x, PrintRow(x, fs)));
      assert Texts(fs) == [fs[0].text];
    } else {
      var rest, printed := PrintRow(x, fs[1..]), PrintRow(x, fs);
      RowStep(x, fs[0], rest);
      RowRoundTrip(x, fs[1..]);
      AllReadableCons(x, fs);
      if Readable(x, fs[0]) {
        ConsEqual(fs[0].text, Fields(x, rest), Texts(fs[1..]));
      }
    }
  }

  lemma AllReadableCons(x: Dialect, fs: seq<Field>)
    requires |fs| > 0
    ensures AllReadable(x, fs) <==> Readable(x, fs[0]) && AllReadable(x, fs[1..])
  {
    assert fs == [fs[0]] + fs[1..];
  }

  lemma ConsEqual(s: string, a: seq<string>, b: seq<string>)
    ensures [s] + a == [s] + b <==> a == b
  {
    assert ([s] + a)[1..] == a && ([s] + b)[1..] == b;
  }
}
