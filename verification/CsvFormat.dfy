/** What the CSV reader computes, as functions over strings: how a record is cut out of the
    content (a toggling automaton) and how a field is cut out of a record (parity of quote runs). */
module CsvFormat {

  const LF: char := '\n'
  const CR: char := '\r'

  /** The text qualifier and the delimiter of one parser. */
  datatype Dialect = Dialect(quote: char, delim: char)

  // ---------------------------------------------------------------- records

  /** The two flags of the record scanner: may a qualifier still open or close a field here,
      and are we inside a qualified field. */
  datatype Scan = Scan(scope: bool, inField: bool)

  const START := Scan(true, false)
  const PLAIN := Scan(false, false)
  const INSIDE := Scan(true, true)

  /** One character through the flags of the record scanner. */
  function Step(x: Dialect, st: Scan, c: char): Scan {
    var inField := if st.scope && c == x.quote then !st.inField else st.inField;
    var scope := st.scope && (c == x.quote || st.inField);
    Scan(scope || c == x.delim, inField)
  }

  /** The scanner's state at the second character of a record: it has stepped over the
      character code zero, never over the record's first character. */
  function Opening(x: Dialect): Scan {
    Step(x, START, '\0')
  }

  /** Where a scan that is in state `st` at index `i` stops: the first line feed met outside a
      field, or the end. */
  function ScanEnd(x: Dialect, s: string, i: nat, st: Scan): (e: nat)
    requires i <= |s|
    ensures i <= e <= |s|
    ensures e < |s| ==> s[e] == LF
    decreases |s| - i
  {
    if i == |s| || (s[i] == LF && !st.inField) then i
    else ScanEnd(x, s, i + 1, Step(x, st, s[i]))
  }

  /** The index at which the record that starts `s` ends. */
  function RowEnd(x: Dialect, s: string): (e: nat)
    ensures e <= |s|
    ensures s != "" ==> 1 <= e
    ensures e < |s| ==> s[e] == LF
  {
    if s == "" then 0 else ScanEnd(x, s, 1, Opening(x))
  }

  /** A record and the separator that was dropped after it. */
  datatype Line = Line(row: string, sep: string)

  /** The first record of `s`: one carriage return is dropped in front of a line feed, unless it
      is the record's uninspected first character. */
  function FirstLine(x: Dialect, s: string): (l: Line)
    ensures |l.row + l.sep| <= |s| && l.row + l.sep == s[..|l.row + l.sep|]
  {
    var e := RowEnd(x, s);
    if e == |s| then Line(s, "")
    else if 2 <= e && s[e - 1] == CR then
      assert s[..e - 1] + [CR, LF] == s[..e + 1];
      Line(s[..e - 1], [CR, LF])
    else
      assert s[..e] + [LF] == s[..e + 1];
      Line(s[..e], [LF])
  }

  /** All records of `s`. A line feed that ends the content opens no further record. */
  function Lines(x: Dialect, s: string): (ls: seq<Line>)
    ensures |ls| > 0 && ls[0] == FirstLine(x, s)
    decreases |s|
  {
    var e := RowEnd(x, s);
    if e + 1 < |s| then [FirstLine(x, s)] + Lines(x, s[e + 1..])
    else [FirstLine(x, s)]
  }

  // ----------------------------------------------------------------- fields

  /** The number of consecutive qualifiers from index `i` on. */
  function QuoteRun(q: char, s: string, i: nat): (n: nat)
    requires i <= |s|
    ensures i + n <= |s|
    ensures forall k :: i <= k < i + n ==> s[k] == q
    ensures i + n < |s| ==> s[i + n] != q
    decreases |s| - i
  {
    if i < |s| && s[i] == q then 1 + QuoteRun(q, s, i + 1) else 0
  }

  /** The last index of the first run of odd length met from index `i` on, or -1. */
  function OddRunEnd(q: char, s: string, i: nat): (r: int)
    requires i <= |s|
    ensures r == -1 || i <= r < |s|
    decreases |s| - i
  {
    if i == |s| then -1
    else if s[i] == q then
      var n := QuoteRun(q, s, i);
      if n % 2 == 1 then i + n - 1 else OddRunEnd(q, s, i + n)
    else OddRunEnd(q, s, i + 1)
  }

  /** The first occurrence of `c` at or after index `i`, or -1. */
  function Find(c: char, s: string, i: nat): (r: int)
    requires i <= |s|
    ensures r == -1 ==> c !in s[i..]
    ensures r != -1 ==> i <= r < |s| && s[r] == c && c !in s[i..r]
    decreases |s| - i
  {
    if i == |s| then -1
    else if s[i] == c then i
    else
      var r := Find(c, s, i + 1);
      assert r == -1 ==> s[i..] == [s[i]] + s[i + 1..];
      assert r != -1 ==> s[i..r] == [s[i]] + s[i + 1..r];
      r
  }

  /** Every pair of qualifiers, from the left, becomes one. */
  function Undouble(q: char, s: string): string {
    if |s| >= 2 && s[0] == q && s[1] == q then [q] + Undouble(q, s[2..])
    else if s == "" then ""
    else [s[0]] + Undouble(q, s[1..])
  }

  /** Where the first field of a record ends, whether it is taken as qualified, and where its
      closing qualifier stands. */
  datatype Cut = Cut(delim: int, quoted: bool, closing: int)

  function FindCut(x: Dialect, row: string): (c: Cut)
    ensures c.delim == -1 || 0 <= c.delim < |row|
    ensures c.quoted ==> c.closing == -1 || 2 <= c.closing < |row|
    ensures c.quoted && c.delim != -1 ==> c.closing != -1 && c.closing < c.delim
  {
    var n := QuoteRun(x.quote, row, 0);
    if row == "" then Cut(-1, true, -1)
    else if n % 2 == 1 then
      var e := OddRunEnd(x.quote, row, n);
      OddRunAfterRun(x.quote, row, 0);
      Cut(if e == -1 then -1 else Find(x.delim, row, e + 1), true, e)
    else Cut(Find(x.delim, row, 0), false, -1)
  }

  /** Right behind a run there is no qualifier, so the next odd run does not end at once. */
  lemma OddRunAfterRun(q: char, s: string, i: nat)
    requires i < |s|
    ensures var n := QuoteRun(q, s, i); OddRunEnd(q, s, i + n) == -1 || i + n < OddRunEnd(q, s, i + n)
  {
  }

  /** The value of a raw field. */
  function Decode(q: char, quoted: bool, closing: int, raw: string): string
    requires quoted ==> closing == -1 || 2 <= closing < |raw|
  {
    if !quoted then raw
    else if closing == -1 then Undouble(q, if raw == "" then "" else raw[1..])
    else Undouble(q, raw[1..closing]) + raw[closing + 1..]
  }

  /** What one call reads: the value, what is left of the record, and whether a field follows. */
  datatype FieldRead = FieldRead(value: string, rest: string, more: bool)

  function ReadField(x: Dialect, row: string): (r: FieldRead)
    ensures r.more ==> |r.rest| < |row|
    ensures !r.more ==> r.rest == ""
  {
    var c := FindCut(x, row);
    if c.delim == -1 then FieldRead(Decode(x.quote, c.quoted, c.closing, row), "", false)
    else FieldRead(Decode(x.quote, c.quoted, c.closing, row[..c.delim]), row[c.delim + 1..], true)
  }

  /** All fields of a record. */
  function Fields(x: Dialect, row: string): (fs: seq<string>)
    ensures |fs| > 0
    decreases |row|
  {
    var r := ReadField(x, row);
    if r.more then [r.value] + Fields(x, r.rest) else [r.value]
  }

  lemma FieldsHead(x: Dialect, row: string, r: FieldRead)
    requires r == ReadField(x, row)
    ensures Fields(x, row) == if r.more then [r.value] + Fields(x, r.rest) else [r.value]
  {
  }

  /** The whole content, record by record and field by field. */
  function Document(x: Dialect, s: string): (doc: seq<seq<string>>)
    decreases |s|
  {
    var e := RowEnd(x, s);
    [Fields(x, FirstLine(x, s).row)] + if e + 1 < |s| then Document(x, s[e + 1..]) else []
  }
}
