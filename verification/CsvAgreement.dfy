/** The record scanner, which toggles at every qualifier, and the field reader, which looks for
    runs of odd length, cut every text at the same delimiters. */
module CsvAgreement {
  import opened CsvFormat

  /** Does the scanner, in state `st`, open the qualifier scope again at character `c`? */
  predicate Reopens(x: Dialect, st: Scan, c: char) {
    c == x.delim && !(st.scope && (c == x.quote || st.inField))
  }

  /** The states the scanner can be in: inside a field its scope is open. */
  predicate Proper(st: Scan) {
    st.inField ==> st.scope
  }

  /** The first delimiter at or after `i` that re-opens the scope of a scanner in state `st`. */
  function FirstCut(x: Dialect, s: string, i: nat, st: Scan): (r: int)
    requires i <= |s|
    ensures r == -1 || i <= r < |s|
    decreases |s| - i
  {
    if i == |s| then -1
    else if Reopens(x, st, s[i]) then i
    else FirstCut(x, s, i + 1, Step(x, st, s[i]))
  }

  /** All delimiters at or after `i` that re-open the scope of a scanner in state `st`. */
  function ScanCuts(x: Dialect, s: string, i: nat, st: Scan): seq<nat>
    decreases |s| - i
  {
    if i >= |s| then []
    else (if Reopens(x, st, s[i]) then [i] else []) + ScanCuts(x, s, i + 1, Step(x, st, s[i]))
  }

  lemma ScanCutsStep(x: Dialect, s: string, i: nat, st: Scan, cuts: seq<nat>)
    requires i < |s|
    ensures cuts + ScanCuts(x, s, i, st)
         == (if Reopens(x, st, s[i]) then cuts + [i] else cuts) + ScanCuts(x, s, i + 1, Step(x, st, s[i]))
  {
  }

  /** Where repeated field reads cut a record, from index `off` on. */
  function FieldCuts(x: Dialect, row: string, off: nat): seq<nat>
    requires off <= |row|
    decreases |row| - off
  {
    var d := FindCut(x, row[off..]).delim;
    if d == -1 then [] else [off + d] + FieldCuts(x, row, off + d + 1)
  }

  /** Through a run of qualifiers the scanner toggles as often as the run is long. */
  lemma {:induction false} CutAfterRun(x: Dialect, s: string, i: nat, inField: bool)
    requires i <= |s| && x.quote != x.delim
    ensures var n := QuoteRun(x.quote, s, i);
      FirstCut(x, s, i, Scan(true, inField)) == FirstCut(x, s, i + n, Scan(true, inField == (n % 2 == 0)))
    decreases |s| - i
  {
    if i < |s| && s[i] == x.quote {
      CutAfterRun(x, s, i + 1, !inField);
    }
  }

  /** Outside every field the scanner just looks for the delimiter. */
  lemma {:induction false} CutPlain(x: Dialect, s: string, i: nat)
    requires i <= |s| && x.quote != x.delim
    ensures FirstCut(x, s, i, PLAIN) == Find(x.delim, s, i)
    decreases |s| - i
  {
    if i < |s| && s[i] != x.delim {
      CutPlain(x, s, i + 1);
    }
  }

  /** At a field's start with no qualifier ahead, too. */
  lemma CutNoQuote(x: Dialect, s: string, i: nat)
    requires i <= |s| && x.quote != x.delim && (i < |s| ==> s[i] != x.quote)
    ensures FirstCut(x, s, i, START) == Find(x.delim, s, i)
  {
    if i < |s| && s[i] != x.delim {
      CutPlain(x, s, i + 1);
    }
  }

  /** Inside a field the scanner reaches its outside exactly behind the first odd run. */
  lemma {:induction false} CutInside(x: Dialect, s: string, i: nat)
    requires i <= |s| && x.quote != x.delim
    ensures var e := OddRunEnd(x.quote, s, i);
      FirstCut(x, s, i, INSIDE) == if e == -1 then -1 else Find(x.delim, s, e + 1)
    decreases |s| - i
  {
    if i == |s| {
    } else if s[i] == x.quote {
      var n := QuoteRun(x.quote, s, i);
      CutAfterRun(x, s, i, true);
      if n % 2 == 1 {
        CutNoQuote(x, s, i + n);
      } else {
        CutInside(x, s, i + n);
      }
    } else {
      CutInside(x, s, i + 1);
    }
  }

  lemma FindSkipsRun(x: Dialect, s: string, i: nat)
    requires i <= |s| && x.quote != x.delim
    ensures Find(x.delim, s, i) == Find(x.delim, s, i + QuoteRun(x.quote, s, i))
    decreases |s| - i
  {
    if i < |s| && s[i] == x.quote {
      FindSkipsRun(x, s, i + 1);
    }
  }

  /** One field: the parity search finds the automaton's first cut. */
  lemma CutAgrees(x: Dialect, row: string)
    requires x.quote != x.delim
    ensures FindCut(x, row).delim == FirstCut(x, row, 0, START)
  {
    var n := QuoteRun(x.quote, row, 0);
    CutAfterRun(x, row, 0, false);
    if n % 2 == 1 {
      CutInside(x, row, n);
    } else {
      CutNoQuote(x, row, n);
      FindSkipsRun(x, row, 0);
    }
  }

  lemma {:induction false} FirstCutShift(x: Dialect, s: string, off: nat, i: nat, st: Scan)
    requires off + i <= |s|
    ensures FirstCut(x, s, off + i, st) ==
            var d := FirstCut(x, s[off..], i, st); if d == -1 then -1 else off + d
    decreases |s| - i
  {
    if off + i < |s| {
      assert s[off + i] == s[off..][i];
      FirstCutShift(x, s, off, i + 1, Step(x, st, s[off + i]));
    }
  }

  lemma {:induction false} ScanCutsHead(x: Dialect, s: string, i: nat, st: Scan)
    requires i <= |s| && x.quote != x.delim && Proper(st)
    ensures var d := FirstCut(x, s, i, st);
      ScanCuts(x, s, i, st) == if d == -1 then [] else [d] + ScanCuts(x, s, d + 1, START)
    decreases |s| - i
  {
    if i < |s| && !Reopens(x, st, s[i]) {
      ScanCutsHead(x, s, i + 1, Step(x, st, s[i]));
    }
  }

  /** The two recognisers agree on every text, well formed or not. */
  lemma {:induction false} RecognisersAgree(x: Dialect, row: string, off: nat)
    requires off <= |row| && x.quote != x.delim
    ensures FieldCuts(x, row, off) == ScanCuts(x, row, off, START)
    decreases |row| - off
  {
    hide FindCut, FirstCut;
    CutAgrees(x, row[off..]);
    FirstCutShift(x, row, off, 0, START);
    ScanCutsHead(x, row, off, START);
    var d := FirstCut(x, row, off, START);
    if d != -1 {
      RecognisersAgree(x, row, d + 1);
    }
  }

  lemma {:induction false} ScanCutsSame(x: Dialect, s: string, t: string, i: nat, st: Scan)
    requires |s| == |t| && forall k :: i <= k < |s| ==> s[k] == t[k]
    ensures ScanCuts(x, s, i, st) == ScanCuts(x, t, i, st)
    decreases |s| - i
  {
    if i < |s| {
      ScanCutsSame(x, s, t, i + 1, Step(x, st, s[i]));
    }
  }

  /** The delimiters at which the record scanner re-opens its scope, in the text `t` it consumes for
      a record, are exactly those at which the field reader cuts `t` once its first character, which
      the scanner does not look at, is replaced by any ordinary one. */
  lemma ScannerAgrees(x: Dialect, t: string, ordinary: char)
    requires x.quote != x.delim && x.quote != '\0' && x.delim != '\0'
    requires t != "" && ordinary != x.quote && ordinary != x.delim
    ensures ScanCuts(x, t, 1, Opening(x)) == FieldCuts(x, t[0 := ordinary], 0)
  {
    RecognisersAgree(x, t[0 := ordinary], 0);
    ScanCutsSame(x, t, t[0 := ordinary], 1, PLAIN);
  }

  /** With the record's own first character, the scanner re-opens its scope at just the delimiters at
      which the field reader cuts if and only if the first field's end is the first delimiter behind
      that character. */
  lemma ScannerAgreesExactly(x: Dialect, t: string)
    requires x.quote != x.delim && x.quote != '\0' && x.delim != '\0' && t != ""
    ensures ScanCuts(x, t, 1, Opening(x)) == FieldCuts(x, t, 0) <==> Find(x.delim, t, 1) == FindCut(x, t).delim
  {
    hide FindCut, Find;
    var d, e := FindCut(x, t).delim, Find(x.delim, t, 1);
    RecognisersAgree(x, t, 0);
    CutAgrees(x, t);
    ScanCutsHead(x, t, 0, START);
    CutPlain(x, t, 1);
    ScanCutsHead(x, t, 1, PLAIN);
    assert d != -1 ==> FieldCuts(x, t, 0)[0] == d;
    assert e != -1 ==> ScanCuts(x, t, 1, PLAIN)[0] == e;
  }

  lemma RestAfterCut(x: Dialect, row: string, r: FieldRead, d: int)
    requires r == ReadField(x, row) && d == FindCut(x, row).delim
    ensures if d == -1 then !r.more else r.more && 0 <= d < |row| && r.rest == row[d + 1..]
  {
  }

  /** There is one field more than there are cuts. */
  lemma {:induction false} FieldsAreCut(x: Dialect, row: string, off: nat, s: string)
    requires off <= |row| && s == row[off..]
    ensures |Fields(x, s)| == |FieldCuts(x, row, off)| + 1
    decreases |row| - off
  {
    hide FindCut, ReadField;
    var r, d := ReadField(x, s), FindCut(x, s).delim;
    FieldsHead(x, s, r);
    RestAfterCut(x, s, r, d);
    if d != -1 {
      assert s[d + 1..] == row[off + d + 1..];
      FieldsAreCut(x, row, off + d + 1, r.rest);
    }
  }
}
