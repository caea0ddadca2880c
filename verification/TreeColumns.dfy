/** A tree control whose item text holds all its columns, joined by tabs. */
module TreeColumns {

  const TAB: char := '\t'

  /** What stands in front of the first tab. */
  function Head(s: string): (h: string)
    ensures |h| <= |s| && s[..|h|] == h && TAB !in h && (|h| < |s| ==> s[|h|] == TAB)
  {
    if s == "" || s[0] == TAB then "" else [s[0]] + Head(s[1..])
  }

  /** The `i`-th part of a text between tabs; empty if there are fewer. */
  function Column(s: string, i: nat): string
    decreases i
  {
    if i == 0 then Head(s)
    else if |Head(s)| == |s| then ""
    else Column(s[|Head(s)| + 1..], i - 1)
  }

  /** Columns `i` to `n` of a text, with column `col` replaced, each followed by a tab. */
  function Rewritten(s: string, i: nat, n: nat, col: nat, item: string): string
    decreases n - i
  {
    if i >= n then "" else (if i == col then item else Column(s, i)) + [TAB] + Rewritten(s, i + 1, n, col, item)
  }

  lemma {:induction false} HeadIs(a: string, b: string)
    requires TAB !in a
    ensures Head(a + [TAB] + b) == a
    decreases |a|
  {
    var s := a + [TAB] + b;
    if a != "" {
      assert a == [a[0]] + a[1..];
      assert s[1..] == a[1..] + [TAB] + b;
      HeadIs(a[1..], b);
    }
  }

  lemma {:induction false} ColumnTabFree(s: string, i: nat)
    ensures TAB !in Column(s, i)
    decreases i
  {
    if i > 0 && |Head(s)| < |s| {
      ColumnTabFree(s[|Head(s)| + 1..], i - 1);
    }
  }

  lemma ColumnOfJoin(a: string, b: string, k: nat)
    requires TAB !in a
    ensures Column(a + [TAB] + b, k) == if k == 0 then a else Column(b, k - 1)
  {
    HeadIs(a, b);
    assert (a + [TAB] + b)[|a| + 1..] == b;
  }

  lemma {:induction false} RewrittenColumns(s: string, i: nat, n: nat, col: nat, item: string, k: nat)
    requires TAB !in item
    ensures Column(Rewritten(s, i, n, col, item), k) ==
            if i + k < n then (if i + k == col then item else Column(s, i + k)) else ""
    decreases n - i
  {
    hide Column;
    if i < n {
      var first, rest := if i == col then item else Column(s, i), Rewritten(s, i + 1, n, col, item);
      ColumnTabFree(s, i);
      ColumnOfJoin(first, rest, k);
      if k > 0 {
        RewrittenColumns(s, i + 1, n, col, item, k - 1);
      }
    } else {
      EmptyColumn(k);
    }
  }

  lemma EmptyColumn(k: nat)
    ensures Column("", k) == ""
  {
  }

  /** Parts joined by tabs. */
  function Joined(parts: seq<string>): string
    requires parts != []
  {
    if |parts| == 1 then parts[0] else parts[0] + [TAB] + Joined(parts[1..])
  }

  /** A column of joined tab-free parts is the part of that number, and empty if there is none. */
  lemma {:induction false} ColumnOfParts(parts: seq<string>, k: nat)
    requires parts != [] && forall j :: 0 <= j < |parts| ==> TAB !in parts[j]
    ensures Column(Joined(parts), k) == if k < |parts| then parts[k] else ""
    decreases |parts|
  {
    hide Column;
    if |parts| == 1 {
      ColumnWhole(parts[0], k);
    } else {
      ColumnOfJoin(parts[0], Joined(parts[1..]), k);
      if k > 0 {
        ColumnOfParts(parts[1..], k - 1);
      }
    }
  }

  lemma ColumnWhole(s: string, k: nat)
    requires TAB !in s
    ensures Column(s, k) == if k == 0 then s else ""
  {
    HeadWhole(s);
  }

  lemma {:induction false} HeadWhole(s: string)
    requires TAB !in s
    ensures Head(s) == s
    decreases |s|
  {
    if s != "" {
      assert s == [s[0]] + s[1..];
      HeadWhole(s[1..]);
    }
  }

  /** Every text is some tab-free parts joined. */
  lemma {:induction false} EveryText(s: string) returns (parts: seq<string>)
    ensures parts != [] && (forall j :: 0 <= j < |parts| ==> TAB !in parts[j]) && Joined(parts) == s
    decreases |s|
  {
    var h := Head(s);
    if |h| == |s| {
      parts := [s];
    } else {
      var rest := EveryText(s[|h| + 1..]);
      parts := [h] + rest;
      assert parts[1..] == rest;
      assert s == h + [TAB] + s[|h| + 1..];
    }
  }

  /** The columns of a text, for a header of `n` columns. */
  function Columns(s: string, n: nat): (cs: seq<string>)
    ensures |cs| == n && forall k :: 0 <= k < n ==> cs[k] == Column(s, k)
  {
    seq(n, k requires 0 <= k => Column(s, k))
  }

  /** Setting a tab-free text is an array update: that column changes, no other one does. */
  lemma SetIsUpdate(s: string, n: nat, col: nat, item: string)
    requires TAB !in item
    ensures Columns(Rewritten(s, 0, n, col, item), n) == if col < n then Columns(s, n)[col := item] else Columns(s, n)
  {
    forall k | 0 <= k < n
      ensures Column(Rewritten(s, 0, n, col, item), k) == if k == col then item else Column(s, k)
    {
      RewrittenColumns(s, 0, n, col, item, k);
    }
  }

  /** A text comes back from the column it was set in exactly if it has no tab. */
  lemma SetThenGet(s: string, n: nat, col: nat, item: string)
    requires col < n
    ensures Column(Rewritten(s, 0, n, col, item), col) == item <==> TAB !in item
  {
    if TAB in item {
      ColumnTabFree(Rewritten(s, 0, n, col, item), col);
    } else {
      RewrittenColumns(s, 0, n, col, item, col);
    }
  }

  datatype Setting = Setting(col: nat, item: string)

  /** An item's text after some settings, and the array it stands for. */
  function Session(s: string, n: nat, es: seq<Setting>): string
    decreases |es|
  {
    if es == [] then s else Session(Rewritten(s, 0, n, es[0].col, es[0].item), n, es[1..])
  }

  function Updated(cs: seq<string>, es: seq<Setting>): seq<string>
    decreases |es|
  {
    if es == [] then cs
    else Updated(if es[0].col < |cs| then cs[es[0].col := es[0].item] else cs, es[1..])
  }

  /** Over any run of tab-free settings the text behaves as an array of columns. */
  lemma {:induction false} SessionIsArray(s: string, n: nat, es: seq<Setting>)
    requires forall k :: 0 <= k < |es| ==> TAB !in es[k].item
    ensures Columns(Session(s, n, es), n) == Updated(Columns(s, n), es)
    decreases |es|
  {
    if es != [] {
      SetIsUpdate(s, n, es[0].col, es[0].item);
      SessionIsArray(Rewritten(s, 0, n, es[0].col, es[0].item), n, es[1..]);
    }
  }

  lemma RewrittenStep(made: string, s: string, i: nat, n: nat, col: nat, item: string, piece: string)
    requires i < n && piece == if i == col then item else Column(s, i)
    ensures made + Rewritten(s, i, n, col, item) == made + piece + [TAB] + Rewritten(s, i + 1, n, col, item)
  {
    var rest := Rewritten(s, i + 1, n, col, item);
    assert made + (piece + [TAB] + rest) == made + piece + [TAB] + rest;
  }

  class ColumnTree {
    const headerCount: nat
    var text: string

    constructor (headerCount: nat, text: string)
      ensures this.headerCount == headerCount && this.text == text
    {
      this.headerCount, this.text := headerCount, text;
    }

    method GetItemText(col: nat) returns (sub: string)
      ensures sub == Column(text, col)
    {
      sub := ExtractSubString(text, col);
    }

    /** The part of a text behind `i` tabs, up to the next one. */
    method ExtractSubString(full: string, i: nat) returns (sub: string)
      ensures sub == Column(full, i)
    {
      var rest, k := full, i;
      while k > 0
        invariant Column(rest, k) == Column(full, i)
      {
        var end := |Head(rest)|;
        if end == |rest| {
          return "";
        }
        rest := rest[end + 1..];
        k := k - 1;
      }
      return Head(rest);
    }

    method SetItemText(col: nat, item: string)
      modifies this`text
      ensures text == Rewritten(old(text), 0, headerCount, col, item)
      ensures TAB !in item ==>
        Columns(text, headerCount)
          == (if col < headerCount then Columns(old(text), headerCount)[col := item] else Columns(old(text), headerCount))
    {
      hide Column, Columns;
      var newText := "";
      ghost var was, whole := text, Rewritten(text, 0, headerCount, col, item);
      for i := 0 to headerCount
        invariant text == was && newText + Rewritten(was, i, headerCount, col, item) == whole
      {
        var sub := ExtractSubString(text, i);
        RewrittenStep(newText, was, i, headerCount, col, item, if i == col then item else sub);
        if i != col {
          newText := newText + sub + [TAB];
        } else {
          newText := newText + item + [TAB];
        }
      }
      text := newText;
      assert text == whole;
      SetColumns(was, text, headerCount, col, item);
    }
  }

  /** What a setting, tab-free or not, makes of the columns. */
  lemma SetColumns(s: string, t: string, n: nat, col: nat, item: string)
    requires t == Rewritten(s, 0, n, col, item)
    ensures TAB !in item ==> Columns(t, n) == (if col < n then Columns(s, n)[col := item] else Columns(s, n))
  {
    if TAB !in item {
      SetIsUpdate(s, n, col, item);
    }
  }
}
