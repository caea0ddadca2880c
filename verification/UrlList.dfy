/** The list of URLs to download: rows deleted in place from the back, each row carrying the place of
    its URL, cookies and referer in three parallel lists. */
module UrlList {
  import opened Options

  datatype Row = Row(text: string, data: nat)

  /** A download made of a row. */
  datatype Task = Task(url: string, cookies: string, referer: string)

  /** What the check for an existing download says about a row. */
  datatype Existing = NoneSuch | Skip | Abort

  /** The rows whose positions, counted from `base`, are not to be dropped. */
  function Without(rows: seq<Row>, base: nat, drop: set<nat>): seq<Row> {
    if rows == [] then []
    else (if base in drop then [] else [rows[0]]) + Without(rows[1..], base + 1, drop)
  }

  /** The rows whose URL a predicate accepts. */
  function Filter(rows: seq<Row>, keep: string -> bool): seq<Row> {
    if rows == [] then []
    else (if keep(rows[0].text) then [rows[0]] else []) + Filter(rows[1..], keep)
  }

  /** Places increase strictly, and each row shows the URL at its place. */
  ghost predicate Matched(urls: seq<string>, rows: seq<Row>) {
    && (forall k :: 0 <= k < |rows| ==> rows[k].data < |urls| && rows[k].text == urls[rows[k].data])
    && (forall j, k :: 0 <= j < k < |rows| ==> rows[j].data < rows[k].data)
  }

  ghost predicate Ascending(v: seq<nat>, bound: nat) {
    && (forall k :: 0 <= k < |v| ==> v[k] < bound)
    && (forall j, k :: 0 <= j < k < |v| ==> v[j] < v[k])
  }

  function SetOf(v: seq<nat>): set<nat> {
    set k | k in v
  }

  /** The selected ones among the first `n` positions. */
  function Selected(selected: nat -> bool, n: nat): (s: set<nat>)
    ensures forall k: nat :: k in s <==> k < n && selected(k)
  {
    if n == 0 then {} else Selected(selected, n - 1) + if selected(n - 1) then {n - 1} else {}
  }

  lemma {:induction false} WithoutNothing(rows: seq<Row>, base: nat, drop: set<nat>)
    requires forall d :: d in drop ==> d < base || base + |rows| <= d
    ensures Without(rows, base, drop) == rows
    decreases |rows|
  {
    if rows != [] {
      WithoutNothing(rows[1..], base + 1, drop);
    }
  }

  /** Dropping one more position, below all those dropped already, removes just that row. */
  lemma {:induction false} DropBelow(rows: seq<Row>, base: nat, drop: set<nat>, d: nat)
    requires base <= d < base + |rows| && forall e :: e in drop ==> d < e
    ensures d - base < |Without(rows, base, drop)|
    ensures Without(rows, base, drop + {d}) == Removed(Without(rows, base, drop), d - base)
    decreases |rows|
  {
    var s := Without(rows[1..], base + 1, drop);
    if d == base {
      SameDrops(rows[1..], base + 1, drop, drop + {d});
      RemovedFirst(rows[0], s);
    } else {
      DropBelow(rows[1..], base + 1, drop, d);
      RemovedLater(rows[0], s, d - base - 1);
    }
  }

  /** A list without the row at one position. */
  function Removed(rows: seq<Row>, k: nat): seq<Row>
    requires k < |rows|
  {
    rows[..k] + rows[k + 1..]
  }

  lemma RemovedFirst(r: Row, rows: seq<Row>)
    ensures Removed([r] + rows, 0) == rows
  {
  }

  lemma RemovedLater(r: Row, rows: seq<Row>, k: nat)
    requires k < |rows|
    ensures Removed([r] + rows, k + 1) == [r] + Removed(rows, k)
  {
    assert ([r] + rows)[..k + 1] == [r] + rows[..k];
    assert ([r] + rows)[k + 2..] == rows[k + 1..];
  }

  lemma {:induction false} SameDrops(rows: seq<Row>, base: nat, a: set<nat>, b: set<nat>)
    requires forall k :: base <= k ==> (k in a <==> k in b)
    ensures Without(rows, base, a) == Without(rows, base, b)
    decreases |rows|
  {
    if rows != [] {
      SameDrops(rows[1..], base + 1, a, b);
    }
  }

  /** Dropping the rows a predicate refuses is filtering. */
  lemma {:induction false} DropIsFilter(rows: seq<Row>, base: nat, drop: set<nat>, keep: string -> bool)
    requires forall k :: 0 <= k < |rows| ==> (base + k in drop <==> !keep(rows[k].text))
    ensures Without(rows, base, drop) == Filter(rows, keep)
    decreases |rows|
  {
    if rows != [] {
      assert base + 0 in drop <==> !keep(rows[0].text);
      forall k | 0 <= k < |rows[1..]|
        ensures base + 1 + k in drop <==> !keep(rows[1..][k].text)
      {
        assert base + (k + 1) in drop <==> !keep(rows[k + 1].text);
      }
      DropIsFilter(rows[1..], base + 1, drop, keep);
    }
  }

  lemma {:induction false} WithoutAbove(rows: seq<Row>, base: nat, drop: set<nat>, low: nat)
    requires forall k :: 0 <= k < |rows| ==> low < rows[k].data
    ensures forall k :: 0 <= k < |Without(rows, base, drop)| ==> low < Without(rows, base, drop)[k].data
    decreases |rows|
  {
    if rows != [] {
      WithoutAbove(rows[1..], base + 1, drop, low);
    }
  }

  /** Rows stay matched when some are dropped. */
  lemma {:induction false} WithoutMatched(urls: seq<string>, rows: seq<Row>, base: nat, drop: set<nat>)
    requires Matched(urls, rows)
    ensures Matched(urls, Without(rows, base, drop))
    decreases |rows|
  {
    if rows != [] {
      WithoutMatched(urls, rows[1..], base + 1, drop);
      WithoutAbove(rows[1..], base + 1, drop, rows[0].data);
      MatchedCons(urls, rows[0], Without(rows[1..], base + 1, drop));
    }
  }

  lemma MatchedCons(urls: seq<string>, r: Row, rows: seq<Row>)
    requires Matched(urls, rows) && r.data < |urls| && r.text == urls[r.data]
    requires forall k :: 0 <= k < |rows| ==> r.data < rows[k].data
    ensures Matched(urls, [r] + rows)
  {
  }

  /** The rows left after any number of deletions. */
  function Session(rows: seq<Row>, drops: seq<set<nat>>): seq<Row>
    decreases |drops|
  {
    if drops == [] then rows else Session(Without(rows, 0, drops[0]), drops[1..])
  }

  /** However often rows are deleted or filtered, URL, cookies and referer stay matched. */
  lemma {:induction false} SessionMatched(urls: seq<string>, rows: seq<Row>, drops: seq<set<nat>>)
    requires Matched(urls, rows)
    ensures Matched(urls, Session(rows, drops))
    decreases |drops|
  {
    if drops != [] {
      WithoutMatched(urls, rows, 0, drops[0]);
      SessionMatched(urls, Without(rows, 0, drops[0]), drops[1..]);
    }
  }

  /** The rows of all URLs from place `i` on that can be cracked. */
  function Rows(urls: seq<string>, i: nat, cracks: string -> bool): seq<Row>
    requires i <= |urls|
    decreases |urls| - i
  {
    if i == |urls| then []
    else (if cracks(urls[i]) then [Row(urls[i], i)] else []) + Rows(urls, i + 1, cracks)
  }

  /** Each row shows the URL at its place, and exactly the places of URLs that can be cracked have one. */
  lemma {:induction false} RowsMatched(urls: seq<string>, i: nat, cracks: string -> bool)
    requires i <= |urls|
    ensures var rs := Rows(urls, i, cracks);
      && Matched(urls, rs)
      && (forall k :: 0 <= k < |rs| ==> i <= rs[k].data && cracks(rs[k].text))
      && forall d :: i <= d < |urls| ==> (cracks(urls[d]) <==> Row(urls[d], d) in rs)
    decreases |urls| - i
  {
    if i < |urls| {
      RowsMatched(urls, i + 1, cracks);
    }
  }

  /** The downloads of some rows, the first of them at position `base`; None if the user aborts. */
  function Tasks(rows: seq<Row>, base: nat, cookies: seq<string>, referers: seq<string>, ownReferer: string,
      creates: string -> bool, existing: nat -> Existing): Option<seq<Task>>
    requires forall k :: 0 <= k < |rows| ==> rows[k].data < |cookies| && rows[k].data < |referers|
    decreases |rows|
  {
    if rows == [] then Some([])
    else
      var r := rows[0];
      var rest := Tasks(rows[1..], base + 1, cookies, referers, ownReferer, creates, existing);
      if !creates(r.text) || existing(base) == Skip then rest
      else if existing(base) == Abort || rest.None? then None
      else
        var referer := if ownReferer == "" then referers[r.data] else ownReferer;
        Some([Task(r.text, cookies[r.data], referer)] + rest.value)
  }

  /** The download of the place `d` in the three lists. */
  function TaskAt(urls: seq<string>, cookies: seq<string>, referers: seq<string>, ownReferer: string, d: nat): Task
    requires d < |urls| == |cookies| == |referers|
  {
    Task(urls[d], cookies[d], if ownReferer == "" then referers[d] else ownReferer)
  }

  /** From position `i` on, the positions whose URL gives a download that does not exist yet. */
  function Picks(rows: seq<Row>, i: nat, creates: string -> bool, existing: nat -> Existing): (ks: seq<nat>)
    requires i <= |rows|
    ensures forall k :: 0 <= k < |ks| ==> ks[k] < |rows|
    decreases |rows| - i
  {
    if i == |rows| then []
    else (if creates(rows[i].text) && existing(i) == NoneSuch then [i] else []) + Picks(rows, i + 1, creates, existing)
  }

  lemma {:induction false} PicksAre(rows: seq<Row>, i: nat, creates: string -> bool, existing: nat -> Existing)
    requires i <= |rows|
    ensures var ks := Picks(rows, i, creates, existing);
      && Ascending(ks, |rows|)
      && (forall k :: 0 <= k < |ks| ==> i <= ks[k])
      && forall k :: i <= k < |rows| ==> (k in ks <==> creates(rows[k].text) && existing(k) == NoneSuch)
    decreases |rows| - i
  {
    if i < |rows| {
      var ks, rest := Picks(rows, i, creates, existing), Picks(rows, i + 1, creates, existing);
      var first := creates(rows[i].text) && existing(i) == NoneSuch;
      assert ks == (if first then [i] else []) + rest;
      hide Picks, Ascending;
      PicksAre(rows, i + 1, creates, existing);
      PickFirst(i, first, rest, |rows|);
      forall k | i <= k < |rows|
        ensures k in ks <==> creates(rows[k].text) && existing(k) == NoneSuch
      {
        assert k != i ==> (k in ks <==> k in rest);
      }
    }
  }

  lemma PickFirst(i: nat, first: bool, rest: seq<nat>, n: nat)
    requires i < n && Ascending(rest, n) && forall k :: 0 <= k < |rest| ==> i < rest[k]
    ensures var ks := (if first then [i] else []) + rest;
      && Ascending(ks, n)
      && (forall k :: 0 <= k < |ks| ==> i <= ks[k])
      && (i in ks <==> first)
      && forall k :: k != i ==> (k in ks <==> k in rest)
  {
    if first {
      assert forall k :: k in [i] + rest <==> k == i || k in rest;
    } else {
      assert [] + rest == rest;
    }
  }

  lemma {:induction false} PicksAll(rows: seq<Row>, i: nat, creates: string -> bool, existing: nat -> Existing)
    requires i <= |rows| && forall k :: i <= k < |rows| ==> creates(rows[k].text) && existing(k) == NoneSuch
    ensures Picks(rows, i, creates, existing) == seq(|rows| - i, k => i + k)
    decreases |rows| - i
  {
    if i < |rows| {
      assert Picks(rows, i, creates, existing) == [i] + Picks(rows, i + 1, creates, existing);
      hide Picks;
      PicksAll(rows, i + 1, creates, existing);
    }
  }

  /** The downloads of the rows at some positions. */
  function TasksAt(urls: seq<string>, rows: seq<Row>, cookies: seq<string>, referers: seq<string>,
      ownReferer: string, ks: seq<nat>): (ts: seq<Task>)
    requires |cookies| == |referers| == |urls| && forall k :: 0 <= k < |rows| ==> rows[k].data < |urls|
    requires forall k :: 0 <= k < |ks| ==> ks[k] < |rows|
    ensures |ts| == |ks|
    ensures forall k :: 0 <= k < |ks| ==> ts[k] == TaskAt(urls, cookies, referers, ownReferer, rows[ks[k]].data)
  {
    if ks == [] then []
    else [TaskAt(urls, cookies, referers, ownReferer, rows[ks[0]].data)]
         + TasksAt(urls, rows, cookies, referers, ownReferer, ks[1..])
  }

  /** The tasks are the downloads of the picked rows' places, in order, one for each. */
  lemma {:induction false} TasksArePlaces(urls: seq<string>, rows: seq<Row>, i: nat, cookies: seq<string>,
      referers: seq<string>, ownReferer: string, creates: string -> bool, existing: nat -> Existing)
    requires Matched(urls, rows) && |cookies| == |referers| == |urls| && i <= |rows|
    ensures var r := Tasks(rows[i..], i, cookies, referers, ownReferer, creates, existing);
      r.Some? ==> r.value == TasksAt(urls, rows, cookies, referers, ownReferer, Picks(rows, i, creates, existing))
    decreases |rows| - i
  {
    hide Matched;
    MatchedAt(urls, rows);
    if i < |rows| {
      var ks, rest := Picks(rows, i, creates, existing), Picks(rows, i + 1, creates, existing);
      assert ks == (if creates(rows[i].text) && existing(i) == NoneSuch then [i] else []) + rest;
      hide Picks, Tasks;
      TasksArePlaces(urls, rows, i + 1, cookies, referers, ownReferer, creates, existing);
      TasksStep(rows, i, cookies, referers, ownReferer, creates, existing);
      if creates(rows[i].text) && existing(i) == NoneSuch {
        assert ks[0] == i && ks[1..] == rest;
      } else {
        assert ks == rest;
      }
    }
  }

  lemma MatchedAt(urls: seq<string>, rows: seq<Row>)
    requires Matched(urls, rows)
    ensures forall i :: 0 <= i < |rows| ==> rows[i].data < |urls| && rows[i].text == urls[rows[i].data]
  {
  }

  lemma TasksStep(rows: seq<Row>, i: nat, cookies: seq<string>, referers: seq<string>, ownReferer: string,
      creates: string -> bool, existing: nat -> Existing)
    requires forall k :: 0 <= k < |rows| ==> rows[k].data < |cookies| && rows[k].data < |referers|
    requires i < |rows|
    ensures var r := Tasks(rows[i..], i, cookies, referers, ownReferer, creates, existing);
      var rest := Tasks(rows[i + 1..], i + 1, cookies, referers, ownReferer, creates, existing);
      r == if !creates(rows[i].text) || existing(i) == Skip then rest
           else if existing(i) == Abort || rest == None then None
           else Some([Task(rows[i].text, cookies[rows[i].data],
                           if ownReferer == "" then referers[rows[i].data] else ownReferer)] + rest.value)
  {
    assert rows[i..][0] == rows[i] && rows[i..][1..] == rows[i + 1..];
  }

  /** There are none exactly if the user aborts at some row that gives a download. */
  lemma {:induction false} TasksUnlessAborted(rows: seq<Row>, i: nat, cookies: seq<string>, referers: seq<string>,
      ownReferer: string, creates: string -> bool, existing: nat -> Existing)
    requires forall k :: 0 <= k < |rows| ==> rows[k].data < |cookies| && rows[k].data < |referers|
    requires i <= |rows|
    ensures Tasks(rows[i..], i, cookies, referers, ownReferer, creates, existing) == None
       <==> exists k :: i <= k < |rows| && creates(rows[k].text) && existing(k) == Abort
    decreases |rows| - i
  {
    if i < |rows| {
      TasksUnlessAborted(rows, i + 1, cookies, referers, ownReferer, creates, existing);
      TasksStep(rows, i, cookies, referers, ownReferer, creates, existing);
    }
  }

  /** When every row gives a new download there is one for each row. */
  lemma TasksOfAll(urls: seq<string>, rows: seq<Row>, cookies: seq<string>, referers: seq<string>,
      ownReferer: string, creates: string -> bool, existing: nat -> Existing)
    requires Matched(urls, rows) && |cookies| == |referers| == |urls|
    requires forall k :: 0 <= k < |rows| ==> creates(rows[k].text) && existing(k) == NoneSuch
    ensures var r := Tasks(rows, 0, cookies, referers, ownReferer, creates, existing);
      r.Some? && |r.value| == |rows|
      && forall k :: 0 <= k < |rows| ==>
           && r.value[k].url == urls[rows[k].data] == rows[k].text
           && r.value[k].cookies == cookies[rows[k].data]
           && (ownReferer == "" ==> r.value[k].referer == referers[rows[k].data])
           && (ownReferer != "" ==> r.value[k].referer == ownReferer)
  {
    hide Tasks, Picks;
    TasksArePlaces(urls, rows, 0, cookies, referers, ownReferer, creates, existing);
    TasksUnlessAborted(rows, 0, cookies, referers, ownReferer, creates, existing);
    PicksAll(rows, 0, creates, existing);
    assert rows[0..] == rows;
  }

  class UrlListDlg {
    const urls: seq<string>
    const cookies: seq<string>
    const referers: seq<string>
    var rows: seq<Row>

    constructor (urls: seq<string>, cookies: seq<string>, referers: seq<string>)
      ensures this.urls == urls && this.cookies == cookies && this.referers == referers && rows == []
    {
      this.urls, this.cookies, this.referers, rows := urls, cookies, referers, [];
    }

    ghost predicate Valid()
      reads this
    {
      |cookies| == |referers| == |urls| && Matched(urls, rows)
    }

    method WriteUrlsToDialog(cracks: string -> bool)
      requires |cookies| == |referers| == |urls| && rows == []
      modifies this`rows
      ensures Valid() && rows == Rows(urls, 0, cracks)
    {
      var cItems := 0;
      for i := 0 to |urls|
        invariant cItems == |rows| && rows + Rows(urls, i, cracks) == Rows(urls, 0, cracks)
      {
        if !cracks(urls[i]) {
          continue;
        }
        rows := rows[..cItems] + [Row(urls[i], i)] + rows[cItems..];
        cItems := cItems + 1;
      }
      assert rows + [] == rows;
      RowsMatched(urls, 0, cracks);
    }

    /** Deletes the rows at some ascending positions, the last one first. */
    method DeleteFromBack(v: seq<nat>)
      requires Valid() && Ascending(v, |rows|)
      modifies this`rows
      ensures Valid() && rows == Without(old(rows), 0, SetOf(v))
    {
      var i := |v| - 1;
      WithoutNothing(rows, 0, {});
      assert SetOf(v[|v|..]) == {};
      while i >= 0
        invariant -1 <= i < |v| && rows == Without(old(rows), 0, SetOf(v[i + 1..]))
      {
        DropBelow(old(rows), 0, SetOf(v[i + 1..]), v[i]);
        assert v[i..] == [v[i]] + v[i + 1..];
        assert SetOf(v[i..]) == SetOf(v[i + 1..]) + {v[i]};
        rows := rows[..v[i]] + rows[v[i] + 1..];
        i := i - 1;
      }
      assert v[0..] == v;
      WithoutMatched(urls, old(rows), 0, SetOf(v));
    }

    /** `selected` tells which positions are selected. */
    method DeleteSelectedUrls(selected: nat -> bool, confirmed: bool)
      requires Valid()
      modifies this`rows
      ensures Valid()
      ensures rows == if confirmed then Without(old(rows), 0, Selected(selected, |old(rows)|)) else old(rows)
    {
      WithoutNothing(rows, 0, {});
      var v: seq<nat> := [];
      for pos := 0 to |rows|
        invariant Ascending(v, pos) && SetOf(v) == Selected(selected, pos)
      {
        assert SetOf(v + [pos]) == SetOf(v) + {pos};
        if selected(pos) {
          v := v + [pos];
        }
      }
      if |v| == 0 {
        assert SetOf(v) == {};
        return;
      }
      if !confirmed {
        return;
      }
      DeleteFromBack(v);
    }

    /** Removes the rows whose URL can be cracked and whose extension is to go: it is among the given
        ones and those are removed, or it is not and only those are kept. */
    method OnFilter(cracks: string -> bool, hasExt: string -> bool, remove: bool)
      requires Valid()
      modifies this`rows
      ensures Valid()
      ensures rows == Filter(old(rows), u => !cracks(u) || hasExt(u) != remove)
    {
      var keep := u => !cracks(u) || hasExt(u) != remove;
      var v: seq<nat> := [];
      for i := 0 to |rows|
        invariant Ascending(v, i) && forall k :: 0 <= k < i ==> (k in v <==> !keep(rows[k].text))
      {
        var url := urls[rows[i].data];
        if cracks(url) {
          var present := hasExt(url);
          if (present && remove) || (!present && !remove) {
            v := v + [i];
          }
        }
      }
      DropIsFilter(rows, 0, SetOf(v), keep);
      DeleteFromBack(v);
    }

    /** Each download gets the URL its row shows and the cookies and referer at the same place. */
    method GenerateDownloads(ownReferer: string, creates: string -> bool, existing: nat -> Existing)
      returns (tasks: Option<seq<Task>>)
      requires Valid()
      ensures tasks == Tasks(rows, 0, cookies, referers, ownReferer, creates, existing)
    {
      var made: seq<Task> := [];
      assert rows[0..] == rows && forall s: seq<Task> :: made + s == s;
      for i := 0 to |rows|
        invariant Prefixed(made, Tasks(rows[i..], i, cookies, referers, ownReferer, creates, existing))
               == Tasks(rows, 0, cookies, referers, ownReferer, creates, existing)
      {
        assert rows[i..][0] == rows[i] && rows[i..][1..] == rows[i + 1..];
        var url := urls[rows[i].data];
        var cookie := cookies[rows[i].data];
        if !creates(url) {
          continue;
        }
        if existing(i) == Skip {
          continue;
        }
        if existing(i) == Abort {
          return None;
        }
        var referer := ownReferer;
        if ownReferer == "" {
          referer := referers[rows[i].data];
        }
        PrefixedStep(made, Task(url, cookie, referer),
                     Tasks(rows[i + 1..], i + 1, cookies, referers, ownReferer, creates, existing));
        made := made + [Task(url, cookie, referer)];
      }
      assert made + [] == made;
      return Some(made);
    }
  }

  function Prefixed(made: seq<Task>, rest: Option<seq<Task>>): Option<seq<Task>> {
    if rest.None? then None else Some(made + rest.value)
  }

  lemma PrefixedStep(made: seq<Task>, t: Task, rest: Option<seq<Task>>)
    ensures Prefixed(made, if rest.None? then None else Some([t] + rest.value)) == Prefixed(made + [t], rest)
  {
    if rest.Some? {
      assert made + ([t] + rest.value) == (made + [t]) + rest.value;
    }
  }
}
