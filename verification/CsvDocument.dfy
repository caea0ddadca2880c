/** Whole contents: what the record scanner keeps of its input, and printing records and reading
    them back. */
module CsvDocument {
  import opened CsvFormat
  import opened CsvRowRoundTrip

  // ------------------------------------------------------- any content

  function Flatten(ls: seq<Line>): string {
    if ls == [] then "" else ls[0].row + ls[0].sep + Flatten(ls[1..])
  }

  /** Nothing is lost: records and separators make up the content again. Only the last record can
      lack a separator, and each of the others takes two characters or more. */
  lemma {:induction false} LinesConserve(x: Dialect, s: string)
    ensures var ls := Lines(x, s);
      && Flatten(ls) == s
      && (forall k :: 0 <= k < |ls| - 1 ==> ls[k].sep == [LF] || ls[k].sep == [CR, LF])
      && 2 * |ls| <= |s| + 2
    decreases |s|
  {
    var e, ls := RowEnd(x, s), Lines(x, s);
    if e + 1 < |s| {
      LinesConserve(x, s[e + 1..]);
      assert ls[1..] == Lines(x, s[e + 1..]);
      assert s == s[..e + 1] + s[e + 1..];
    } else {
      assert ls[1..] == [];
    }
  }

  function FieldsOfAll(x: Dialect, ls: seq<Line>): seq<seq<string>> {
    if ls == [] then [] else [Fields(x, ls[0].row)] + FieldsOfAll(x, ls[1..])
  }

  /** The document is the fields of the lines. */
  lemma {:induction false} DocumentIsLines(x: Dialect, s: string)
    ensures Document(x, s) == FieldsOfAll(x, Lines(x, s))
    decreases |s|
  {
    hide FirstLine, Fields, RowEnd;
    var e, ls := RowEnd(x, s), Lines(x, s);
    if e + 1 < |s| {
      DocumentIsLines(x, s[e + 1..]);
      assert ls[1..] == Lines(x, s[e + 1..]);
    } else {
      assert ls[1..] == [];
    }
  }

  /** The qualifiers from index `a` to index `b`, in the part of `s` that begins at `from`, with no
      further one next to them. */
  ghost predicate MaximalRun(q: char, s: string, from: int, a: int, b: int) {
    && 0 <= from <= a <= b < |s|
    && (forall k :: a <= k <= b ==> s[k] == q)
    && (a > from ==> s[a - 1] != q)
    && (b + 1 < |s| ==> s[b + 1] != q)
  }

  /** The search for a single qualifier, from the first character behind the leading run or from
      any other index, finds the end of the first maximal run of odd length. */
  lemma SingleQuoteIsFirstOddRun(q: char, s: string, from: nat)
    requires from <= |s|
    ensures var r := OddRunEnd(q, s, from);
      && (r != -1 ==> exists a :: MaximalRun(q, s, from, a, r) && (r - a) % 2 == 0)
      && forall a, b :: MaximalRun(q, s, from, a, b) && (b - a) % 2 == 0 ==> r != -1 && r <= b
  {
    OddRunEndIsRun(q, s, from, from);
    forall a, b | MaximalRun(q, s, from, a, b) && (b - a) % 2 == 0
      ensures OddRunEnd(q, s, from) != -1 && OddRunEnd(q, s, from) <= b
    {
      OddRunEndIsLeast(q, s, from, from, a, b);
    }
  }

  lemma {:induction false} OddRunEndIsRun(q: char, s: string, from: nat, i: nat)
    requires from <= i <= |s| && (from < i < |s| && s[i] == q ==> s[i - 1] != q)
    ensures var r := OddRunEnd(q, s, i);
      r != -1 ==> exists a :: MaximalRun(q, s, from, a, r) && (r - a) % 2 == 0
    decreases |s| - i
  {
    if i == |s| {
    } else if s[i] != q {
      OddRunEndIsRun(q, s, from, i + 1);
    } else {
      var n := QuoteRun(q, s, i);
      assert MaximalRun(q, s, from, i, i + n - 1);
      if n % 2 == 0 {
        OddRunEndIsRun(q, s, from, i + n);
      }
    }
  }

  lemma {:induction false} OddRunEndIsLeast(q: char, s: string, from: nat, i: nat, a: nat, b: nat)
    requires from <= i <= a && MaximalRun(q, s, from, a, b) && (b - a) % 2 == 0
    requires from < i && s[i] == q ==> s[i - 1] != q
    ensures OddRunEnd(q, s, i) != -1 && OddRunEnd(q, s, i) <= b
    decreases |s| - i
  {
    if s[i] != q {
      OddRunEndIsLeast(q, s, from, i + 1, a, b);
    } else {
      var n := QuoteRun(q, s, i);
      if a < i + n {
        assert a == i && b == i + n - 1;
      } else if n % 2 == 0 {
        OddRunEndIsLeast(q, s, from, i + n, a, b);
      }
    }
  }

  // ---------------------------------------------------------- automaton

  function Run(x: Dialect, st: Scan, s: string): Scan
    decreases |s|
  {
    if s == "" then st else Run(x, Step(x, st, s[0]), s[1..])
  }

  /** No character of `s` stops a scanner that reaches it in state `st`. */
  predicate Passes(x: Dialect, st: Scan, s: string)
    decreases |s|
  {
    s == "" || ((s[0] != LF || st.inField) && Passes(x, Step(x, st, s[0]), s[1..]))
  }

  lemma {:induction false} PassesAppend(x: Dialect, st: Scan, a: string, b: string)
    ensures Run(x, st, a + b) == Run(x, Run(x, st, a), b)
    ensures Passes(x, st, a + b) <==> Passes(x, st, a) && Passes(x, Run(x, st, a), b)
    decreases |a|
  {
    if a == "" {
      assert a + b == b;
    } else {
      assert (a + b)[1..] == a[1..] + b;
      PassesAppend(x, Step(x, st, a[0]), a[1..], b);
    }
  }

  lemma {:induction false} ScanThrough(x: Dialect, s: string, i: nat, j: nat, st: Scan)
    requires i <= j <= |s|
    ensures if Passes(x, st, s[i..j]) then ScanEnd(x, s, i, st) == ScanEnd(x, s, j, Run(x, st, s[i..j]))
            else ScanEnd(x, s, i, st) < j
    decreases j - i
  {
    if i < j {
      assert s[i..j][0] == s[i] && s[i..j][1..] == s[i + 1..j];
      ScanThrough(x, s, i + 1, j, Step(x, st, s[i]));
    }
  }

  /** Qualifier and delimiter differ, and are none of the characters with a meaning of their own. */
  predicate Distinct(x: Dialect) {
    && x.quote != x.delim && x.quote != LF && x.delim != LF
    && x.quote != CR && x.quote != '\0' && x.delim != '\0'
  }

  function Eol(crlf: bool): string {
    if crlf then [CR, LF] else [LF]
  }

  /** No carriage return of the record itself stands in front of a bare line feed. */
  predicate EndsClear(r: string, crlf: bool) {
    crlf || |r| <= 1 || r[|r| - 1] != CR
  }

  /** A record text the scanner recovers: it is not empty, and from its second character on, as if its
      first one were an ordinary character, the scanner never meets a line feed outside a field and
      is outside at its end. */
  predicate Kept(x: Dialect, r: string, crlf: bool) {
    r != "" && Passes(x, PLAIN, r[1..]) && !Run(x, PLAIN, r[1..]).inField && EndsClear(r, crlf)
  }

  /** Any text in front of a line end comes back as the first record exactly if it is kept. */
  lemma RowRecovered(x: Dialect, r: string, crlf: bool, tail: string)
    requires Distinct(x)
    ensures FirstLine(x, r + Eol(crlf) + tail) == Line(r, Eol(crlf)) <==> Kept(x, r, crlf)
  {
    var s, n := r + Eol(crlf) + tail, |r|;
    if r != "" {
      var st := Run(x, PLAIN, r[1..]);
      assert s[1..n] == r[1..] && s[..n] == r;
      ScanThrough(x, s, 1, n, PLAIN);
      if Passes(x, PLAIN, r[1..]) {
        assert RowEnd(x, s) == ScanEnd(x, s, n, st);
        if crlf {
          assert s[n] == CR && s[n + 1] == LF;
          assert Step(x, st, CR).inField == st.inField;
          assert RowEnd(x, s) == ScanEnd(x, s, n + 1, Step(x, st, CR));
        } else {
          assert s[n] == LF;
        }
        assert if st.inField then RowEnd(x, s) > n + |Eol(crlf)| - 1 else RowEnd(x, s) == n + |Eol(crlf)| - 1;
        RowOfEnd(x, s, r, crlf);
      }
    }
  }

  lemma RowOfEnd(x: Dialect, s: string, r: string, crlf: bool)
    requires r != "" && |r| + |Eol(crlf)| <= |s| && s[..|r| + |Eol(crlf)|] == r + Eol(crlf)
    requires RowEnd(x, s) >= |r| + |Eol(crlf)| - 1
    ensures FirstLine(x, s) == Line(r, Eol(crlf))
       <==> RowEnd(x, s) == |r| + |Eol(crlf)| - 1 && EndsClear(r, crlf)
  {
    var e, n := RowEnd(x, s), |r|;
    assert forall k :: 0 <= k < n + |Eol(crlf)| ==> s[k] == s[..n + |Eol(crlf)|][k] == (r + Eol(crlf))[k];
    assert s[..n] == r;
  }

  // --------------------------------------------------------- documents

  /** A record as it is written: its fields and its line end. */
  datatype Record = Record(fields: seq<Field>, crlf: bool)

  /** A field that the scanner leaves again whatever stands between its qualifiers; a bare text
      must not hold a line feed. */
  predicate Contained(x: Dialect, f: Field) {
    Readable(x, f) && (f.Plain? ==> LF !in f.text)
  }

  lemma {:induction false} RunOrdinary(x: Dialect, s: string)
    requires Distinct(x) && x.delim !in s
    ensures Run(x, PLAIN, s) == PLAIN && (Passes(x, PLAIN, s) <==> LF !in s)
    decreases |s|
  {
    if s != "" {
      assert s == [s[0]] + s[1..];
      RunOrdinary(x, s[1..]);
    }
  }

  lemma {:induction false} RunDoubled(x: Dialect, s: string)
    requires Distinct(x)
    ensures Run(x, INSIDE, Double(x.quote, s)) == INSIDE && Passes(x, INSIDE, Double(x.quote, s))
    decreases |s|
  {
    if s != "" {
      var d := Double(x.quote, s);
      RunDoubled(x, s[1..]);
      if s[0] == x.quote {
        assert d[1..][1..] == Double(x.quote, s[1..]) && d[1..][0] == x.quote;
      } else {
        assert d[1..] == Double(x.quote, s[1..]);
      }
    }
  }

  lemma {:induction false} RunBare(x: Dialect, s: string, open: bool)
    requires Distinct(x) && x.delim !in s && LF !in s && (QuoteRun(x.quote, s, 0) % 2 == 1) == open
    ensures Passes(x, Scan(true, open), s) && !Run(x, Scan(true, open), s).inField
    decreases |s|
  {
    if s != "" {
      assert s == [s[0]] + s[1..];
      if s[0] == x.quote {
        QuoteRunIs(x.quote, s[1..], 0, QuoteRun(x.quote, s, 0) - 1);
        RunBare(x, s[1..], !open);
      } else {
        RunOrdinary(x, s[1..]);
      }
    }
  }

  /** From a field's start the scanner passes a contained field and ends outside. */
  lemma RunField(x: Dialect, f: Field)
    requires Distinct(x) && Contained(x, f)
    ensures Passes(x, START, Print(x, f)) && !Run(x, START, Print(x, f)).inField
  {
    match f
    case Plain(text) => RunBare(x, text, false);
    case Quoted(text) =>
      var d := Double(x.quote, text);
      RunDoubled(x, text);
      PassesAppend(x, INSIDE, d, [x.quote]);
      assert Print(x, f)[1..] == d + [x.quote];
  }

  /** From a field's start the scanner passes any contained fields. */
  lemma {:induction false} RunFields(x: Dialect, fs: seq<Field>)
    requires Distinct(x) && |fs| > 0 && forall k :: 0 <= k < |fs| ==> Contained(x, fs[k])
    ensures Passes(x, START, PrintRow(x, fs)) && !Run(x, START, PrintRow(x, fs)).inField
    decreases |fs|
  {
    RunField(x, fs[0]);
    if |fs| > 1 {
      var rest := PrintRow(x, fs[1..]);
      RunFields(x, fs[1..]);
      RunDelimited(x, START, Print(x, fs[0]), rest);
    }
  }

  lemma RunDelimited(x: Dialect, st: Scan, a: string, rest: string)
    requires Distinct(x) && !Run(x, st, a).inField
    ensures Run(x, st, a + [x.delim] + rest) == Run(x, START, rest)
    ensures Passes(x, st, a + [x.delim] + rest) <==> Passes(x, st, a) && Passes(x, START, rest)
  {
    var tail := [x.delim] + rest;
    assert a + [x.delim] + rest == a + tail;
    assert tail[1..] == rest;
    PassesAppend(x, st, a, tail);
  }

  lemma {:induction false} PrintHasNone(x: Dialect, f: Field, c: char)
    requires c != x.quote && c !in f.text
    ensures c !in Print(x, f)
  {
    if f.Quoted? {
      DoubleHasNone(x.quote, f.text, c);
    }
  }

  lemma {:induction false} DoubleHasNone(q: char, s: string, c: char)
    requires c != q && c !in s
    ensures c !in Double(q, s)
    decreases |s|
  {
    if s != "" {
      assert s == [s[0]] + s[1..];
      DoubleHasNone(q, s[1..], c);
    }
  }

  /** The text that the scanner reads as ordinary: the first field behind its first character, or the
      whole second field if the first one is empty, its delimiter being the uninspected character. */
  function BlindField(x: Dialect, fs: seq<Field>): (i: nat) {
    if fs != [] && Print(x, fs[0]) == "" then 1 else 0
  }

  function BlindText(x: Dialect, fs: seq<Field>): string {
    if fs == [] then ""
    else if Print(x, fs[0]) != "" then Print(x, fs[0])[1..]
    else if |fs| == 1 then "" else Print(x, fs[1])
  }

  /** All fields behind the one read as ordinary are contained. */
  predicate RestContained(x: Dialect, fs: seq<Field>) {
    forall k :: BlindField(x, fs) < k < |fs| ==> Contained(x, fs[k])
  }

  /** If the scanner is outside a field behind the blind text, all depends on that text. */
  lemma RunRow(x: Dialect, fs: seq<Field>)
    requires Distinct(x) && RestContained(x, fs) && PrintRow(x, fs) != ""
    requires !Run(x, PLAIN, BlindText(x, fs)).inField
    ensures Passes(x, PLAIN, PrintRow(x, fs)[1..]) <==> Passes(x, PLAIN, BlindText(x, fs))
    ensures !Run(x, PLAIN, PrintRow(x, fs)[1..]).inField
  {
    var b, blind, row := BlindField(x, fs), BlindText(x, fs), PrintRow(x, fs);
    RowIsBlind(x, fs);
    if b + 1 < |fs| {
      var others := fs[b + 1..];
      assert forall k :: 0 <= k < |others| ==> others[k] == fs[b + 1 + k];
      RunFields(x, others);
      RunDelimited(x, PLAIN, blind, PrintRow(x, others));
    }
  }

  lemma RowIsBlind(x: Dialect, fs: seq<Field>)
    requires PrintRow(x, fs) != ""
    ensures var b, blind := BlindField(x, fs), BlindText(x, fs);
      PrintRow(x, fs)[1..] == if b + 1 < |fs| then blind + [x.delim] + PrintRow(x, fs[b + 1..]) else blind
  {
    var first := Print(x, fs[0]);
    if |fs| > 1 {
      var rest := PrintRow(x, fs[1..]);
      assert PrintRow(x, fs) == first + [x.delim] + rest;
      if first == "" {
        assert PrintRow(x, fs)[1..] == rest;
        assert fs[1..][1..] == fs[2..] && fs[1..][0] == fs[1];
      } else {
        assert PrintRow(x, fs)[1..] == first[1..] + [x.delim] + rest;
      }
    }
  }

  /** A record whose blind text leaves the scanner outside and whose further fields are contained is
      recovered exactly if the scanner passes the blind text; an empty record never is. */
  lemma FirstFieldOutside(x: Dialect, fs: seq<Field>, crlf: bool, tail: string)
    requires Distinct(x) && RestContained(x, fs) && EndsClear(PrintRow(x, fs), crlf)
    requires !Run(x, PLAIN, BlindText(x, fs)).inField
    ensures FirstLine(x, PrintRow(x, fs) + Eol(crlf) + tail) == Line(PrintRow(x, fs), Eol(crlf))
       <==> PrintRow(x, fs) != "" && Passes(x, PLAIN, BlindText(x, fs))
  {
    if PrintRow(x, fs) != "" {
      RunRow(x, fs);
    }
    RowRecovered(x, PrintRow(x, fs), crlf, tail);
  }

  /** The blind field holds no delimiter, so the scanner stays outside in it. */
  predicate BlindPlain(x: Dialect, fs: seq<Field>) {
    BlindField(x, fs) < |fs| ==> x.delim !in fs[BlindField(x, fs)].text
  }

  lemma BlindRun(x: Dialect, fs: seq<Field>)
    requires Distinct(x) && BlindPlain(x, fs)
    ensures Run(x, PLAIN, BlindText(x, fs)) == PLAIN
    ensures Passes(x, PLAIN, BlindText(x, fs)) <==> LF !in BlindText(x, fs)
  {
    if BlindField(x, fs) < |fs| {
      PrintHasNone(x, fs[BlindField(x, fs)], x.delim);
    }
    RunOrdinary(x, BlindText(x, fs));
  }

  /** So without a delimiter in the blind field the record is recovered exactly if it is not empty and
      its blind text has no line feed, not even one between qualifiers. */
  lemma FirstFieldGuard(x: Dialect, fs: seq<Field>, crlf: bool, tail: string)
    requires Distinct(x) && RestContained(x, fs) && BlindPlain(x, fs) && EndsClear(PrintRow(x, fs), crlf)
    ensures FirstLine(x, PrintRow(x, fs) + Eol(crlf) + tail) == Line(PrintRow(x, fs), Eol(crlf))
       <==> PrintRow(x, fs) != "" && LF !in BlindText(x, fs)
  {
    BlindRun(x, fs);
    FirstFieldOutside(x, fs, crlf, tail);
  }

  /** A qualified first field with a line break in it, readable as a field, is torn apart. */
  lemma BrokenFirstField()
    ensures var x, fs := Dialect('"', ','), [Quoted("a\nb"), Plain("c")];
      AllReadable(x, fs) && FirstLine(x, PrintRow(x, fs) + Eol(false)) != Line(PrintRow(x, fs), Eol(false))
  {
    var x, fs := Dialect('"', ','), [Quoted("a\nb"), Plain("c")];
    var d, first := Double('"', "a\nb"), Print(x, fs[0]);
    assert d[1..] == Double('"', "\nb") && d[1] == '\n';
    assert first[1..][1] == LF;
    assert PrintRow(x, fs) == first + [','] + "c";
    FirstFieldGuard(x, fs, false, "");
    assert PrintRow(x, fs) + Eol(false) + "" == PrintRow(x, fs) + Eol(false);
  }

  /** A qualified first field that holds a delimiter can leave the scanner inside a field: this record
      has no line break at all, and swallows the next line. */
  lemma SwallowingFirstField(tail: string)
    ensures var x, fs := Dialect('"', ','), [Quoted("a,\""), Plain("c")];
      AllReadable(x, fs) && LF !in PrintRow(x, fs)
      && FirstLine(x, PrintRow(x, fs) + Eol(false) + tail) != Line(PrintRow(x, fs), Eol(false))
  {
    hide Passes, FirstLine, PrintRow, Run;
    var x, fs := Dialect('"', ','), [Quoted("a,\""), Plain("c")];
    var r := PrintRow(x, fs);
    SwallowingText();
    RunSwallowing();
    assert r[1..] == "a,\"\"\",c";
    RowRecovered(x, r, false, tail);
  }

  lemma SwallowingText()
    ensures PrintRow(Dialect('"', ','), [Quoted("a,\""), Plain("c")]) == "\"a,\"\"\",c"
  {
    assert Double('"', "a,\"") == "a,\"\"" by {
      assert Double('"', "\"") == "\"\"";
      assert Double('"', ",\"") == ",\"\"";
    }
  }

  lemma RunSwallowing()
    ensures Run(Dialect('"', ','), PLAIN, "a,\"\"\",c").inField
  {
    var x, s := Dialect('"', ','), "a,\"\"\",c";
    assert s[1..] == ",\"\"\",c" && s[1..][1..] == "\"\"\",c";
    var b := "\"\"\",c";
    assert b[1..] == "\"\",c" && b[1..][1..] == "\",c" && "\",c"[1..] == ",c" && ",c"[1..] == "c" && "c"[1..] == "";
    assert Run(x, PLAIN, s) == Run(x, START, b);
    assert Run(x, START, b) == Run(x, START, "\",c") == Run(x, INSIDE, ",c") == Run(x, INSIDE, "c");
  }

  /** The records one after the other; the last one may lack its line end. */
  function PrintDocument(x: Dialect, rs: seq<Record>, terminated: bool): string {
    if rs == [] then ""
    else if |rs| == 1 then PrintRow(x, rs[0].fields) + if terminated then Eol(rs[0].crlf) else ""
    else PrintRow(x, rs[0].fields) + Eol(rs[0].crlf) + PrintDocument(x, rs[1..], terminated)
  }

  function DocumentTexts(rs: seq<Record>): seq<seq<string>> {
    if rs == [] then [] else [Texts(rs[0].fields)] + DocumentTexts(rs[1..])
  }

  // ------------------------------------------ what is lost with a record

  function Count(c: char, s: string): nat {
    if s == "" then 0 else (if s[0] == c then 1 else 0) + Count(c, s[1..])
  }

  function CountAll(c: char, ts: seq<string>): nat {
    if ts == [] then 0 else Count(c, ts[0]) + CountAll(c, ts[1..])
  }

  lemma {:induction false} CountAppend(c: char, a: string, b: string)
    ensures Count(c, a + b) == Count(c, a) + Count(c, b)
    decreases |a|
  {
    if a == "" {
      assert a + b == b;
    } else {
      assert (a + b)[1..] == a[1..] + b;
      CountAppend(c, a[1..], b);
    }
  }

  lemma {:induction false} CountUndouble(q: char, s: string, c: char)
    requires c != q
    ensures Count(c, Undouble(q, s)) == Count(c, s)
    decreases |s|
  {
    if |s| >= 2 && s[0] == q && s[1] == q {
      CountUndouble(q, s[2..], c);
      assert s[1..][1..] == s[2..];
      assert ([q] + Undouble(q, s[2..]))[1..] == Undouble(q, s[2..]);
    } else if s != "" {
      CountUndouble(q, s[1..], c);
      assert ([s[0]] + Undouble(q, s[1..]))[1..] == Undouble(q, s[1..]);
    }
  }

  lemma {:induction false} CountDouble(q: char, s: string, c: char)
    requires c != q
    ensures Count(c, Double(q, s)) == Count(c, s)
    decreases |s|
  {
    if s != "" {
      CountDouble(q, s[1..], c);
      CountAppend(c, if s[0] == q then [q, q] else [s[0]], Double(q, s[1..]));
      assert Count(c, [q, q]) == 0 by {
        assert [q, q][1..] == [q];
      }
    }
  }

  /** Decoding drops nothing but qualifiers. */
  lemma CountDecode(q: char, quoted: bool, closing: int, raw: string, c: char)
    requires c != q && (quoted ==> closing == -1 || (2 <= closing < |raw| && raw[closing] == q))
    requires quoted && raw != "" ==> raw[0] == q
    ensures Count(c, Decode(q, quoted, closing, raw)) == Count(c, raw)
  {
    if quoted && closing == -1 {
      if raw != "" {
        CountUndouble(q, raw[1..], c);
      }
    } else if quoted {
      var a, b := raw[1..closing], raw[closing + 1..];
      CountUndouble(q, a, c);
      CountAppend(c, Undouble(q, a), b);
      CountAppend(c, a, [q] + b);
      assert raw[1..] == a + ([q] + b);
      assert ([q] + b)[1..] == b;
    }
  }

  lemma {:induction false} OddRunEndIsQuote(q: char, s: string, i: nat)
    requires i <= |s|
    ensures OddRunEnd(q, s, i) != -1 ==> s[OddRunEnd(q, s, i)] == q
    decreases |s| - i
  {
    if i == |s| {
    } else if s[i] == q {
      var n := QuoteRun(q, s, i);
      if n % 2 == 0 {
        OddRunEndIsQuote(q, s, i + n);
      }
    } else {
      OddRunEndIsQuote(q, s, i + 1);
    }
  }

  lemma CountCut(x: Dialect, row: string, d: nat, c: char)
    requires d < |row| && row[d] == x.delim
    ensures Count(c, row) == Count(c, row[..d]) + (if c == x.delim then 1 else 0) + Count(c, row[d + 1..])
  {
    var rest := row[d + 1..];
    assert row == row[..d] + ([x.delim] + rest);
    CountAppend(c, row[..d], [x.delim] + rest);
    assert ([x.delim] + rest)[1..] == rest;
  }

  lemma CountField(x: Dialect, row: string, c: char)
    requires c != x.quote
    ensures var r := ReadField(x, row);
      Count(c, row) == Count(c, r.value) + (if r.more && c == x.delim then 1 else 0) + Count(c, r.rest)
  {
    hide OddRunEnd, QuoteRun, Find, Decode, Count;
    var f := FindCut(x, row);
    CutShape(x, row);
    var raw := if f.delim == -1 then row else row[..f.delim];
    CountDecode(x.quote, f.quoted, f.closing, raw, c);
    if f.delim != -1 {
      CountCut(x, row, f.delim, c);
    } else {
      CountNone(c);
    }
  }

  lemma CountNone(c: char)
    ensures Count(c, "") == 0
  {
  }

  /** The characters a cut is made at. */
  lemma CutShape(x: Dialect, row: string)
    ensures var f := FindCut(x, row);
      && (f.delim != -1 ==> row[f.delim] == x.delim)
      && (f.quoted && f.closing != -1 ==> row[f.closing] == x.quote)
      && (f.quoted && row != "" ==> row[0] == x.quote)
  {
    OddRunEndIsQuote(x.quote, row, QuoteRun(x.quote, row, 0));
  }

  /** The delimiters `c` between `n` fields. */
  function Between(x: Dialect, c: char, n: nat): nat {
    if c == x.delim && n > 0 then n - 1 else 0
  }

  /** Reading a record's fields loses only qualifiers and the delimiters between them. */
  lemma {:induction false} CountFields(x: Dialect, row: string, c: char)
    requires c != x.quote
    ensures CountAll(c, Fields(x, row)) + Between(x, c, |Fields(x, row)|) == Count(c, row)
    decreases |row|
  {
    hide ReadField;
    var r := ReadField(x, row);
    CountField(x, row, c);
    FieldsHead(x, row, r);
    if r.more {
      CountFields(x, r.rest, c);
      assert Fields(x, row)[1..] == Fields(x, r.rest);
    } else {
      assert Fields(x, row)[1..] == [];
    }
  }

  /** And printing them adds only those. */
  lemma {:induction false} CountPrinted(x: Dialect, fs: seq<Field>, c: char)
    requires c != x.quote
    ensures Count(c, PrintRow(x, fs)) == CountAll(c, Texts(fs)) + Between(x, c, |fs|)
    decreases |fs|
  {
    if fs != [] {
      var p := Print(x, fs[0]);
      CountPrint(x, fs[0], c);
      CountPrinted(x, fs[1..], c);
      assert Texts(fs)[1..] == Texts(fs[1..]);
      if |fs| > 1 {
        var rest := PrintRow(x, fs[1..]);
        CountAppend(c, p + [x.delim], rest);
        CountAppend(c, p, [x.delim]);
      }
    }
  }

  lemma CountPrint(x: Dialect, f: Field, c: char)
    requires c != x.quote
    ensures Count(c, Print(x, f)) == Count(c, f.text)
  {
    if f.Quoted? {
      var d := Double(x.quote, f.text);
      CountDouble(x.quote, f.text, c);
      CountAppend(c, [x.quote] + d, [x.quote]);
      CountAppend(c, [x.quote], d);
    }
  }

  /** A record text and the row read instead of it, one in front of the other, a line break between:
      the row's fields are not the record's. */
  lemma OtherRow(x: Dialect, fs: seq<Field>, row: string, c: char)
    requires c != x.quote
    requires var r := PrintRow(x, fs); (row < r && r[|row|] == c) || (r < row && row[|r|] == c)
    ensures Fields(x, row) != Texts(fs)
  {
    var r := PrintRow(x, fs);
    CountFields(x, row, c);
    CountPrinted(x, fs, c);
    if row < r {
      MoreOf(c, row, r);
    } else {
      MoreOf(c, r, row);
    }
  }

  lemma MoreOf(c: char, a: string, b: string)
    requires a < b && b[|a|] == c
    ensures Count(c, a) < Count(c, b)
  {
    assert b == a + b[|a|..];
    CountAppend(c, a, b[|a|..]);
  }

  /** If a printed record is not recovered as it is, its fields are not read back. */
  lemma LostRow(x: Dialect, fs: seq<Field>, ending: string)
    requires Distinct(x)
    requires ending == "" || ending[0] == CR || ending[0] == LF
    requires FirstLine(x, PrintRow(x, fs) + ending).row != PrintRow(x, fs)
    ensures Fields(x, FirstLine(x, PrintRow(x, fs) + ending).row) != Texts(fs)
  {
    var r := PrintRow(x, fs);
    var s := r + ending;
    var row, sep := FirstLine(x, s).row, FirstLine(x, s).sep;
    assert row == s[..|row|] && r == s[..|r|] by {
      assert row + sep == s[..|row + sep|];
      assert row == (row + sep)[..|row|];
    }
    if |row| < |r| {
      assert sep != "" && s[|row|] == sep[0] by {
        assert s[..|row + sep|][|row|] == (row + sep)[|row|];
      }
      OtherRow(x, fs, row, sep[0]);
    } else {
      assert |row| > |r|;
      OtherRow(x, fs, row, ending[0]);
    }
  }

  // ---------------------------------------------------- the round trip

  /** The documents that are read back: every record has fields, all readable, and its text is kept.
      The text of a last record without a line end need only let the scanner through, and it must not
      be empty behind another record. */
  predicate Recoverable(x: Dialect, rs: seq<Record>, terminated: bool) {
    rs != [] && rs[0].fields != [] && AllReadable(x, rs[0].fields)
    && var r := PrintRow(x, rs[0].fields);
       if |rs| == 1 && !terminated then r == "" || Passes(x, PLAIN, r[1..])
       else Kept(x, r, rs[0].crlf)
            && (|rs| == 1 || (PrintDocument(x, rs[1..], terminated) != "" && Recoverable(x, rs[1..], terminated)))
  }

  lemma LastRow(x: Dialect, r: string)
    requires Distinct(x)
    ensures FirstLine(x, r).row == r <==> r == "" || Passes(x, PLAIN, r[1..])
    ensures FirstLine(x, r).row == r <==> RowEnd(x, r) == |r|
  {
    if r != "" {
      assert r[1..|r|] == r[1..];
      ScanThrough(x, r, 1, |r|, PLAIN);
    }
  }

  /** A kept record is the one the row equals. */
  lemma RowIsLine(x: Dialect, r: string, crlf: bool, tail: string)
    ensures FirstLine(x, r + Eol(crlf) + tail).row == r
       <==> FirstLine(x, r + Eol(crlf) + tail) == Line(r, Eol(crlf))
  {
    var s := r + Eol(crlf) + tail;
    var l := FirstLine(x, s);
    if l.row == r {
      assert l.sep != "";
      assert s[|r|] == Eol(crlf)[0];
      assert s[..|r + l.sep|][|r|] == (r + l.sep)[|r|];
    }
  }

  /** The last record, without a line end. */
  lemma LastRecord(x: Dialect, fs: seq<Field>)
    requires Distinct(x)
    ensures var r := PrintRow(x, fs);
      Document(x, r) == [Texts(fs)]
      <==> fs != [] && AllReadable(x, fs) && (r == "" || Passes(x, PLAIN, r[1..]))
  {
    hide RowEnd, Fields, PrintRow, AllReadable, Passes;
    var r := PrintRow(x, fs);
    LastRow(x, r);
    DocumentHead(x, r);
    assert r + "" == r;
    if FirstLine(x, r).row != r {
      LostRow(x, fs, "");
    } else if fs != [] {
      RowRoundTrip(x, fs);
      assert Document(x, r) == [Fields(x, r)];
    }
    assert Document(x, r)[0] == Fields(x, FirstLine(x, r).row);
  }

  lemma DocumentHead(x: Dialect, s: string)
    ensures var e := RowEnd(x, s);
      Document(x, s) == [Fields(x, FirstLine(x, s).row)] + if e + 1 < |s| then Document(x, s[e + 1..]) else []
  {
    hide FirstLine, RowEnd, Fields;
  }

  /** A record text in front of its line end: what follows a kept one is read as a document. */
  lemma KeptHead(x: Dialect, r: string, crlf: bool, tail: string)
    requires Distinct(x) && Kept(x, r, crlf)
    ensures Document(x, r + Eol(crlf) + tail) == [Fields(x, r)] + if tail != "" then Document(x, tail) else []
  {
    hide Fields, Passes, Run, Step;
    var s := r + Eol(crlf) + tail;
    RowRecovered(x, r, crlf, tail);
    DocumentHead(x, s);
    LineLength(x, s);
    assert s[|r| + |Eol(crlf)|..] == tail;
  }

  lemma LineLength(x: Dialect, s: string)
    ensures var l := FirstLine(x, s);
      |l.row| + |l.sep| == if l.sep == "" then |s| else RowEnd(x, s) + 1
  {
  }

  /** The first record's fields are read back exactly if they are all readable and its text is kept. */
  lemma FirstRecord(x: Dialect, fs: seq<Field>, crlf: bool, tail: string)
    requires Distinct(x)
    ensures var r := PrintRow(x, fs);
      Document(x, r + Eol(crlf) + tail)[0] == Texts(fs) <==> fs != [] && AllReadable(x, fs) && Kept(x, r, crlf)
  {
    hide RowEnd, Fields, PrintRow, AllReadable, Kept;
    var r := PrintRow(x, fs);
    var s := r + Eol(crlf) + tail;
    assert s == r + (Eol(crlf) + tail);
    RowRecovered(x, r, crlf, tail);
    RowIsLine(x, r, crlf, tail);
    DocumentHead(x, s);
    if !Kept(x, r, crlf) {
      LostRow(x, fs, Eol(crlf) + tail);
    } else if fs != [] {
      RowRoundTrip(x, fs);
    }
  }

  /** A document is read back record by record and field by field exactly if it is recoverable.
      Nothing is asked of the records: any fields, either line end after each, the last one perhaps
      without. */
  lemma {:induction false} DocumentRoundTrip(x: Dialect, rs: seq<Record>, terminated: bool)
    requires Distinct(x)
    ensures Document(x, PrintDocument(x, rs, terminated)) == DocumentTexts(rs) <==> Recoverable(x, rs, terminated)
    decreases |rs|
  {
    hide FirstLine, RowEnd, Fields, PrintRow, AllReadable, Eol, Kept, Passes, Document;
    var s := PrintDocument(x, rs, terminated);
    if rs == [] {
      DocumentHead(x, s);
    } else {
      var fs, crlf := rs[0].fields, rs[0].crlf;
      var r, tail := PrintRow(x, fs), if |rs| == 1 then "" else PrintDocument(x, rs[1..], terminated);
      assert DocumentTexts(rs) == [Texts(fs)] + DocumentTexts(rs[1..]);
      if |rs| == 1 && !terminated {
        LastRecord(x, fs);
        assert s == r;
      } else {
        assert s == r + Eol(crlf) + tail;
        DocumentHead(x, s);
        FirstRecord(x, fs, crlf, tail);
        if Kept(x, r, crlf) {
          KeptHead(x, r, crlf, tail);
          RowsEqual(Texts(fs), DocumentTexts(rs[1..]), Fields(x, r), if tail != "" then Document(x, tail) else []);
        }
        if |rs| > 1 {
          DocumentRoundTrip(x, rs[1..], terminated);
        }
      }
    }
  }

  lemma RowsEqual(a: seq<string>, rest: seq<seq<string>>, b: seq<string>, others: seq<seq<string>>)
    ensures [b] + others == [a] + rest <==> b == a && others == rest
  {
    assert ([b] + others)[1..] == others && ([a] + rest)[1..] == rest;
  }

  /** What a writer can see of its fields: a document is recoverable if its records, none of them empty,
      have a blind field without delimiter and a blind text without line break, and contained further
      fields. */
  lemma {:induction false} SafeRecoverable(x: Dialect, rs: seq<Record>, terminated: bool)
    requires Distinct(x) && rs != []
    requires forall k :: 0 <= k < |rs| ==> SafeRecord(x, rs[k])
    ensures Recoverable(x, rs, terminated)
    decreases |rs|
  {
    hide Passes, Run, PrintRow, SafeRecord;
    SafeIsKept(x, rs[0]);
    if |rs| > 1 {
      SafeRecoverable(x, rs[1..], terminated);
      SafeIsKept(x, rs[1]);
    }
  }

  predicate SafeRecord(x: Dialect, r: Record) {
    && AllReadable(x, r.fields) && PrintRow(x, r.fields) != "" && EndsClear(PrintRow(x, r.fields), r.crlf)
    && RestContained(x, r.fields) && BlindPlain(x, r.fields) && LF !in BlindText(x, r.fields)
  }

  lemma SafeIsKept(x: Dialect, r: Record)
    requires Distinct(x) && SafeRecord(x, r)
    ensures r.fields != [] && AllReadable(x, r.fields) && Kept(x, PrintRow(x, r.fields), r.crlf)
  {
    BlindRun(x, r.fields);
    RunRow(x, r.fields);
  }
}
