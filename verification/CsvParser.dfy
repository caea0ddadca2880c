/** The CSV reader itself: a parser whose position and current record are advanced in place. */
module CsvReader {
  import opened CsvFormat
  import Agreement = CsvAgreement

  /** Half of `n`, cut off toward zero. */
  function TruncatedHalf(n: int): int {
    if n < 0 then -(-n / 2) else n / 2
  }

  /** What the scanner's locals hold once `read` characters of `s` have been taken: the look-ahead
      character, the flags, the memory of a carriage return, and the re-opening delimiters so far. */
  ghost predicate Scanned(x: Dialect, s: string, read: nat, c: char, st: Scan, lineFeed: bool, cuts: seq<nat>)
    requires read <= |s|
  {
    if read == 0 then c == '\0' && st == START && !lineFeed && cuts == []
    else
      && (if read < |s| then c == s[read] else !(c == LF && lineFeed))
      && lineFeed == (2 <= read && s[read - 1] == CR)
      && RowEnd(x, s) == ScanEnd(x, s, read, st)
      && cuts + Agreement.ScanCuts(x, s[..RowEnd(x, s)], read, st)
         == Agreement.ScanCuts(x, s[..RowEnd(x, s)], 1, Opening(x))
  }

  /** One turn of the scanner's loop. */
  lemma ScannedStep(x: Dialect, s: string, read: nat, c: char, st: Scan, lineFeed: bool, cuts: seq<nat>)
    requires read < |s| && Scanned(x, s, read, c, st, lineFeed, cuts) && (c != LF || st.inField)
    ensures Scanned(x, s, read + 1, if read + 1 < |s| then s[read + 1] else c, Step(x, st, c), c == CR,
                    if 0 < read && Agreement.Reopens(x, st, c) then cuts + [read] else cuts)
  {
    if 0 < read {
      var t := s[..RowEnd(x, s)];
      assert read < |t| && t[read] == c;
      Agreement.ScanCutsStep(x, t, read, st, cuts);
    }
  }

  lemma ScannedStart(x: Dialect, s: string)
    ensures Scanned(x, s, 0, '\0', START, false, [])
  {
  }

  /** When the loop ends, everything the record scanner is specified to do has been done. */
  lemma ScannedEnd(x: Dialect, s: string, read: nat, c: char, st: Scan, lineFeed: bool, cuts: seq<nat>)
    requires read <= |s| && Scanned(x, s, read, c, st, lineFeed, cuts)
    requires (c == LF && !st.inField) || read == |s|
    ensures read == RowEnd(x, s) && cuts == Agreement.ScanCuts(x, s[..read], 1, Opening(x))
    ensures if c == LF && lineFeed then 0 < read && FirstLine(x, s).row == s[..read - 1]
            else FirstLine(x, s).row == s[..read]
  {
    assert s[..|s|] == s;
  }

  class CsvParser {
    var content: string
    var row: string
    var textQualifier: string
    var delimiter: string
    var pos: nat

    constructor ()
      ensures content == "" && row == "" && pos == 0
    {
      content, row, textQualifier, delimiter, pos := "", "", "", "", 0;
    }

    /** Both separators are single characters, as Init leaves them. */
    ghost predicate Initialized()
      reads this
    {
      |textQualifier| == 1 && |delimiter| == 1
    }

    ghost function Dialect(): CsvFormat.Dialect
      requires Initialized()
      reads this
    {
      CsvFormat.Dialect(textQualifier[0], delimiter[0])
    }

    /** The position may only stand behind the last character of an empty content. */
    ghost predicate AtRecord()
      reads this
    {
      pos < |content| || (content == "" && pos == 0)
    }

    method Init(str: string, qualifier: string, delim: string)
      modifies this
      ensures Initialized() && AtRecord()
      ensures content == str && pos == 0 && row == old(row)
      ensures textQualifier == if |qualifier| == 1 then qualifier else "\""
      ensures delimiter == if |delim| == 1 then delim else ","
    {
      content := str;
      textQualifier := if |qualifier| == 1 then qualifier else "\"";
      delimiter := if |delim| == 1 then delim else ",";
      pos := 0;
    }

    method CountQuote(start: int, value: string) returns (count: int)
      requires Initialized()
      ensures (count == -1) == !(0 <= start < |value|)
      ensures 0 <= start < |value| ==> count == QuoteRun(textQualifier[0], value, start)
    {
      if start < 0 || start > |value| - 1 {
        return -1;
      }
      count := 0;
      var i := start;
      while i <= |value| - 1 && value[i] == textQualifier[0]
        invariant start <= i <= |value| && count == i - start
        invariant QuoteRun(textQualifier[0], value, start) == count + QuoteRun(textQualifier[0], value, i)
      {
        i, count := i + 1, count + 1;
      }
    }

    method FindSingleQuote(start: int, value: string) returns (r: int)
      requires Initialized()
      ensures !(0 <= start <= |value|) ==> r == -1
      ensures 0 <= start <= |value| ==> r == OddRunEnd(textQualifier[0], value, start)
    {
      if start < 0 || start > |value| - 1 {
        return -1;
      }
      var i := start;
      while i <= |value| - 1
        invariant start <= i <= |value|
        invariant OddRunEnd(textQualifier[0], value, start) == OddRunEnd(textQualifier[0], value, i)
      {
        if value[i] == textQualifier[0] {
          var n := CountQuote(i, value);
          if TruncatedHalf(n) * 2 != n {
            return i + n - 1;
          } else {
            i := i + n;
          }
        } else {
          i := i + 1;
        }
      }
      return -1;
    }

    /** The first field of the current record ends where the record scanner would first re-open
        its qualifier scope. */
    method FindDelimiter() returns (delimPos: int, isQuote: bool, closing: int)
      requires Initialized()
      ensures Cut(delimPos, isQuote, closing) == FindCut(Dialect(), row)
      ensures textQualifier != delimiter ==> delimPos == Agreement.FirstCut(Dialect(), row, 0, START)
    {
      isQuote, closing, delimPos := false, -1, -1;
      var n := CountQuote(0, row);
      if TruncatedHalf(n) * 2 != n {
        isQuote := true;
        var p := FindSingleQuote(n, row);
        closing := p;
        if p == -1 {
          delimPos := -1;
        } else if p == |row| - 1 {
          delimPos := -1;
        } else {
          delimPos := Find(delimiter[0], row, p + 1);
        }
      } else {
        delimPos := Find(delimiter[0], row, 0);
      }
      if textQualifier != delimiter {
        Agreement.CutAgrees(Dialect(), row);
      }
    }

    method DecodeValue(isQuote: bool, closing: int, value: string) returns (decoded: string)
      requires Initialized()
      requires isQuote ==> closing == -1 || 2 <= closing <= |value| - 1
      ensures decoded == Decode(textQualifier[0], isQuote, closing, value)
    {
      decoded := value;
      if isQuote {
        var first, second := "", "";
        if closing != -1 {
          first := value[1..closing];
          if closing <= |value| - 1 {
            second := value[closing + 1..];
          }
        } else {
          first := if value == "" then "" else value[1..];
        }
        first := Undouble(textQualifier[0], first);
        decoded := first + second;
      }
    }

    method ProcLastField(isQuote: bool, closing: int) returns (value: string)
      requires Initialized()
      requires isQuote ==> closing == -1 || 2 <= closing <= |row| - 1
      modifies this`row
      ensures row == "" && value == Decode(textQualifier[0], isQuote, closing, old(row))
    {
      value := row;
      row := "";
      value := DecodeValue(isQuote, closing, value);
    }

    method ProcLastButOneField(isQuote: bool, closing: int) returns (value: string)
      requires Initialized() && row != ""
      requires isQuote ==> closing == -1 || 2 <= closing < |row| - 1
      modifies this`row
      ensures row == "" && value == Decode(textQualifier[0], isQuote, closing, old(row)[..|old(row)| - 1])
    {
      value := row[..|row| - 1];
      row := "";
      value := DecodeValue(isQuote, closing, value);
    }

    method ProcField(delimPos: nat, isQuote: bool, closing: int) returns (value: string)
      requires Initialized() && delimPos < |row|
      requires isQuote ==> closing == -1 || 2 <= closing < delimPos
      modifies this`row
      ensures row == old(row)[delimPos + 1..]
      ensures value == Decode(textQualifier[0], isQuote, closing, old(row)[..delimPos])
    {
      value := row[..delimPos];
      row := row[delimPos + 1..];
      value := DecodeValue(isQuote, closing, value);
    }

    /** Takes one field off the current record. True means that the record has shrunk and that
        a further field follows. */
    method GetNextField() returns (more: bool, value: string)
      requires Initialized()
      modifies this`row
      ensures FieldRead(value, row, more) == ReadField(Dialect(), old(row))
      ensures more ==> |row| < |old(row)|
      ensures !more ==> row == ""
    {
      hide FindCut, Decode, Agreement.FirstCut;
      var delimPos, isQuote, closing := FindDelimiter();
      if delimPos == -1 {
        value := ProcLastField(isQuote, closing);
        return false, value;
      }
      if delimPos == |row| - 1 {
        value := ProcLastButOneField(isQuote, closing);
        return true, value;
      }
      value := ProcField(delimPos, isQuote, closing);
      return true, value;
    }

    /** Cuts the next record out of the content. `reopened` collects the indices, within the text
        consumed, of the delimiters at which the qualifier scope was opened again. */
    method Sgets() returns (ghost reopened: seq<nat>)
      requires Initialized() && AtRecord()
      modifies this`row, this`pos
      ensures pos == old(pos) + RowEnd(Dialect(), content[old(pos)..])
      ensures row == FirstLine(Dialect(), content[old(pos)..]).row
      ensures reopened == Agreement.ScanCuts(Dialect(), content[old(pos)..pos], 1, Opening(Dialect()))
    {
      hide Scanned, FirstLine, RowEnd, ScanEnd, Agreement.ScanCuts, Opening;
      ghost var from, x, s := pos, Dialect(), content[pos..];
      ghost var read: nat := 0;
      row := "";
      var c := '\0';
      var scope, inField, lineFeed := true, false, false;
      reopened := [];
      ScannedStart(x, s);
      while (c != LF || inField) && pos <= |content| - 1
        invariant read <= |s| && pos == from + read && row == s[..read]
        invariant Scanned(x, s, read, c, Scan(scope, inField), lineFeed, reopened)
        decreases |s| - read
      {
        ghost var st := Scan(scope, inField);
        ScannedStep(x, s, read, c, st, lineFeed, reopened);
        if scope {
          if c == textQualifier[0] {
            inField := !inField;
          } else {
            if !inField {
              scope := false;
            }
          }
        }
        if !scope && c == delimiter[0] {
          scope := true;
          if 0 < read {
            reopened := reopened + [read];
          }
        }
        assert Scan(scope, inField) == Step(x, st, c);
        if c != CR {
          lineFeed := false;
        } else {
          lineFeed := true;
        }
        row := row + [content[pos]];
        pos := pos + 1;
        if pos <= |content| - 1 {
          c := content[pos];
        }
        read := read + 1;
      }
      ScannedEnd(x, s, read, c, Scan(scope, inField), lineFeed, reopened);
      assert content[from..pos] == s[..read];
      if c == LF && lineFeed {
        row := row[..|row| - 1];
      }
    }

    /** Reads the next record; true means that another one follows. */
    method ParseNextRecord() returns (more: bool)
      requires Initialized() && AtRecord()
      modifies this`row, this`pos
      ensures row == FirstLine(Dialect(), content[old(pos)..]).row
      ensures more == (old(pos) + RowEnd(Dialect(), content[old(pos)..]) + 1 < |content|)
      ensures pos == old(pos) + RowEnd(Dialect(), content[old(pos)..]) + if more then 1 else 0
      ensures more ==> AtRecord() && old(pos) + 2 <= pos
    {
      var _ := Sgets();
      if pos < |content| - 1 {
        pos := pos + 1;
        return true;
      }
      return false;
    }

    /** All fields of the current record. */
    method ReadFields() returns (fs: seq<string>)
      requires Initialized()
      modifies this`row
      ensures fs == Fields(Dialect(), old(row)) && row == ""
    {
      hide ReadField;
      fs := [];
      var more, value := GetNextField();
      while more
        invariant fs + (if more then [value] + Fields(Dialect(), row) else [value]) == Fields(Dialect(), old(row))
        invariant !more ==> row == ""
        decreases more, |row|
      {
        fs := fs + [value];
        more, value := GetNextField();
      }
      fs := fs + [value];
    }

    /** The next record with all its fields. */
    method ReadRecord() returns (more: bool, fs: seq<string>)
      requires Initialized() && AtRecord()
      modifies this`row, this`pos
      ensures fs == Fields(Dialect(), FirstLine(Dialect(), content[old(pos)..]).row)
      ensures more == (old(pos) + RowEnd(Dialect(), content[old(pos)..]) + 1 < |content|)
      ensures pos == old(pos) + RowEnd(Dialect(), content[old(pos)..]) + if more then 1 else 0
    {
      more := ParseNextRecord();
      fs := ReadFields();
    }

    /** The driver: records until there are no more, and each record's fields until there are no more. */
    method ReadDocument() returns (doc: seq<seq<string>>)
      requires Initialized() && AtRecord()
      modifies this`row, this`pos
      ensures doc == Document(Dialect(), content[old(pos)..])
    {
      ghost var x, whole := Dialect(), Document(Dialect(), content[pos..]);
      doc := [];
      var more := true;
      while more
        invariant pos <= |content| && (more ==> AtRecord())
        invariant doc + Rest(x, content, pos, more) == whole
        decreases more, |content| - pos
      {
        ghost var before, from := doc, pos;
        var fs;
        more, fs := ReadRecord();
        doc := doc + [fs];
        RestUnfolds(x, content, from, pos, more, before);
      }
    }
  }

  /** What is still to be read of a content. */
  ghost function Rest(x: Dialect, content: string, pos: nat, more: bool): seq<seq<string>>
    requires pos <= |content|
  {
    if more then Document(x, content[pos..]) else []
  }

  lemma RestUnfolds(x: Dialect, content: string, from: nat, pos: nat, more: bool, doc: seq<seq<string>>)
    requires from <= |content| && pos <= |content|
    requires more == (from + RowEnd(x, content[from..]) + 1 < |content|)
    requires more ==> pos == from + RowEnd(x, content[from..]) + 1
    ensures doc + Rest(x, content, from, true)
         == doc + [Fields(x, FirstLine(x, content[from..]).row)] + Rest(x, content, pos, more)
  {
    hide Document, Fields, FirstLine, RowEnd;
    DocumentUnfolds(x, content[from..], if more then content[pos..] else []);
    var first := [Fields(x, FirstLine(x, content[from..]).row)];
    assert doc + (first + Rest(x, content, pos, more)) == doc + first + Rest(x, content, pos, more);
  }

  lemma DocumentUnfolds(x: Dialect, s: string, rest: string)
    requires RowEnd(x, s) + 1 < |s| ==> rest == s[RowEnd(x, s) + 1..]
    ensures Document(x, s)
         == [Fields(x, FirstLine(x, s).row)] + if RowEnd(x, s) + 1 < |s| then Document(x, rest) else []
  {
    hide Fields, FirstLine, RowEnd;
  }
}
