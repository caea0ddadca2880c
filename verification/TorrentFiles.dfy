/** The files page of a torrent: the tree of files becomes a tree control, and its boxes are written
    back, file by file, into an array of priorities. */
module TorrentFiles {
  import opened Options

  const FOLDER: int := -1

  /** A file's place among the torrent's files, FOLDER for a folder, and its priority. */
  datatype File = File(index: int, priority: int)

  datatype FolderTree = FolderTree(file: File, leafs: seq<FolderTree>)

  datatype Item = Item(checked: bool, data: Option<File>, children: seq<Item>)

  /** One write into the array of priorities. */
  datatype Write = Write(index: int, priority: int)

  /** The files of a tree, in order; what hangs below a file is not looked at. */
  function Files(ts: seq<FolderTree>): seq<File>
    decreases ts
  {
    if ts == [] then [] else FilesOf(ts[0]) + Files(ts[1..])
  }

  function FilesOf(t: FolderTree): seq<File>
    decreases t
  {
    if t.file.index == FOLDER then Files(t.leafs) else [t.file]
  }

  function Items(ts: seq<FolderTree>): (items: seq<Item>)
    ensures |items| == |ts|
    decreases ts
  {
    if ts == [] then [] else [ItemOf(ts[0])] + Items(ts[1..])
  }

  function ItemOf(t: FolderTree): Item
    decreases t
  {
    if t.file.index == FOLDER then Item(AnyChecked(Items(t.leafs)), None, Items(t.leafs))
    else Item(t.file.priority != 0, Some(t.file), [])
  }

  function AnyChecked(items: seq<Item>): bool
    decreases items
  {
    items != [] && (items[0].checked || AnyChecked(items[0].children) || AnyChecked(items[1..]))
  }

  /** The priority a file's box stands for. */
  function BoxPriority(checked: bool, priority: int): int {
    if !checked then 0 else if priority == 0 then 1 else priority
  }

  /** The writes the boxes amount to, in order. */
  function Writes(items: seq<Item>): seq<Write>
    decreases items
  {
    if items == [] then [] else WritesOf(items[0]) + Writes(items[1..])
  }

  function WritesOf(i: Item): seq<Write>
    decreases i
  {
    ItemWrite(i) + Writes(i.children)
  }

  function ItemWrite(i: Item): seq<Write> {
    if i.data.None? then [] else [Write(i.data.value.index, BoxPriority(i.checked, i.data.value.priority))]
  }

  function Apply(a: seq<int>, ws: seq<Write>): (r: seq<int>)
    requires forall k :: 0 <= k < |ws| ==> 0 <= ws[k].index < |a|
    ensures |r| == |a|
    decreases |ws|
  {
    if ws == [] then a else Apply(a[ws[0].index := ws[0].priority], ws[1..])
  }

  ghost predicate InRange(ws: seq<Write>, n: nat) {
    forall k :: 0 <= k < |ws| ==> 0 <= ws[k].index < n
  }

  lemma InRangeAppend(ws: seq<Write>, vs: seq<Write>, n: nat)
    requires InRange(ws + vs, n)
    ensures InRange(ws, n) && InRange(vs, n)
  {
    forall k | 0 <= k < |ws|
      ensures 0 <= ws[k].index < n
    {
      assert (ws + vs)[k] == ws[k];
    }
    forall k | 0 <= k < |vs|
      ensures 0 <= vs[k].index < n
    {
      assert (ws + vs)[|ws| + k] == vs[k];
    }
  }

  lemma {:induction false} ApplyAppend(a: seq<int>, ws: seq<Write>, vs: seq<Write>)
    requires InRange(ws, |a|) && InRange(vs, |a|)
    ensures InRange(ws + vs, |a|) && Apply(a, ws + vs) == Apply(Apply(a, ws), vs)
    decreases |ws|
  {
    if ws == [] {
      assert ws + vs == vs;
    } else {
      assert (ws + vs)[1..] == ws[1..] + vs;
      ApplyAppend(a[ws[0].index := ws[0].priority], ws[1..], vs);
    }
  }

  /** A slot written by the `k`-th write and by no other holds its value. */
  lemma {:induction false} WrittenOnce(a: seq<int>, ws: seq<Write>, k: nat)
    requires InRange(ws, |a|) && k < |ws|
    requires forall j :: 0 <= j < |ws| && j != k ==> ws[j].index != ws[k].index
    ensures Apply(a, ws)[ws[k].index] == ws[k].priority
    decreases |ws|
  {
    var b := a[ws[0].index := ws[0].priority];
    if k > 0 {
      forall j | 0 <= j < |ws[1..]| && j != k - 1
        ensures ws[1..][j].index != ws[1..][k - 1].index
      {
        assert ws[1..][j] == ws[j + 1];
      }
      WrittenOnce(b, ws[1..], k - 1);
    } else {
      forall j | 0 <= j < |ws[1..]|
        ensures ws[1..][j].index != ws[0].index
      {
        assert ws[1..][j] == ws[j + 1];
      }
      NotWritten(b, ws[1..], ws[0].index);
    }
  }

  lemma {:induction false} NotWritten(a: seq<int>, ws: seq<Write>, i: int)
    requires InRange(ws, |a|) && 0 <= i < |a| && forall j :: 0 <= j < |ws| ==> ws[j].index != i
    ensures Apply(a, ws)[i] == a[i]
    decreases |ws|
  {
    if ws != [] {
      NotWritten(a[ws[0].index := ws[0].priority], ws[1..], i);
    }
  }

  /** The same control with other boxes checked. */
  predicate SameFiles(a: seq<Item>, b: seq<Item>)
    decreases a
  {
    |a| == |b|
    && (a != [] ==> a[0].data == b[0].data && SameFiles(a[0].children, b[0].children) && SameFiles(a[1..], b[1..]))
  }

  /** The boxes of a control's files, in order. */
  function Boxes(items: seq<Item>): seq<bool>
    decreases items
  {
    if items == [] then [] else BoxesOf(items[0]) + Boxes(items[1..])
  }

  function BoxesOf(i: Item): seq<bool>
    decreases i
  {
    (if i.data.None? then [] else [i.checked]) + Boxes(i.children)
  }

  /** One write for each file, of what its box stands for. */
  function BoxWrites(fs: seq<File>, boxes: seq<bool>): (ws: seq<Write>)
    requires |fs| == |boxes|
    ensures |ws| == |fs|
    ensures forall k :: 0 <= k < |fs| ==> ws[k] == Write(fs[k].index, BoxPriority(boxes[k], fs[k].priority))
  {
    seq(|fs|, k requires 0 <= k < |fs| => Write(fs[k].index, BoxPriority(boxes[k], fs[k].priority)))
  }

  lemma BoxWritesAppend(fs: seq<File>, gs: seq<File>, a: seq<bool>, b: seq<bool>)
    requires |fs| == |a| && |gs| == |b|
    ensures BoxWrites(fs + gs, a + b) == BoxWrites(fs, a) + BoxWrites(gs, b)
  {
    hide BoxPriority;
  }

  /** Whatever is checked, there is one write for each file, in order, of what its box stands for. */
  lemma {:induction false} WritesPerFile(ts: seq<FolderTree>, items: seq<Item>)
    requires SameFiles(items, Items(ts))
    ensures |Files(ts)| == |Boxes(items)| && Writes(items) == BoxWrites(Files(ts), Boxes(items))
    decreases ts
  {
    hide BoxWrites, WritesOf, BoxesOf, FilesOf, ItemOf;
    if ts == [] {
      assert BoxWrites([], []) == [];
    } else {
      assert Items(ts)[1..] == Items(ts[1..]);
      WritesPerFile(ts[1..], items[1..]);
      WritesPerItem(ts[0], items[0]);
      BoxWritesAppend(FilesOf(ts[0]), Files(ts[1..]), BoxesOf(items[0]), Boxes(items[1..]));
    }
  }

  lemma {:induction false} WritesPerItem(t: FolderTree, i: Item)
    requires i.data == ItemOf(t).data && SameFiles(i.children, ItemOf(t).children)
    ensures |FilesOf(t)| == |BoxesOf(i)| && WritesOf(i) == BoxWrites(FilesOf(t), BoxesOf(i))
    decreases t
  {
    hide AnyChecked, BoxPriority, Files, Items;
    if t.file.index == FOLDER {
      hide Writes, Boxes, BoxWrites;
      WritesPerFile(t.leafs, i.children);
      assert [] + Writes(i.children) == Writes(i.children);
      assert [] + Boxes(i.children) == Boxes(i.children);
    } else {
      assert i.children == [];
      assert Writes([]) == [] && Boxes([]) == [];
      assert BoxesOf(i) == [i.checked] && FilesOf(t) == [t.file];
      assert WritesOf(i) == [Write(t.file.index, BoxPriority(i.checked, t.file.priority))];
    }
  }

  /** The boxes of files that are checked if they have a priority. */
  function Prioritised(fs: seq<File>): (bs: seq<bool>)
    ensures |bs| == |fs| && forall k :: 0 <= k < |fs| ==> bs[k] == (fs[k].priority != 0)
  {
    seq(|fs|, k requires 0 <= k < |fs| => fs[k].priority != 0)
  }

  lemma PrioritisedAppend(fs: seq<File>, gs: seq<File>)
    ensures Prioritised(fs + gs) == Prioritised(fs) + Prioritised(gs)
  {
  }

  /** As it is filled, the control has a file's box checked exactly if its priority is not zero. */
  lemma {:induction false} FilledBoxes(ts: seq<FolderTree>)
    ensures Boxes(Items(ts)) == Prioritised(Files(ts))
    decreases ts
  {
    hide Prioritised, BoxesOf, FilesOf, ItemOf;
    if ts == [] {
      assert Prioritised([]) == [];
    } else {
      assert Items(ts)[1..] == Items(ts[1..]);
      FilledBoxes(ts[1..]);
      FilledBox(ts[0]);
      PrioritisedAppend(FilesOf(ts[0]), Files(ts[1..]));
    }
  }

  lemma {:induction false} FilledBox(t: FolderTree)
    ensures BoxesOf(ItemOf(t)) == Prioritised(FilesOf(t))
    decreases t
  {
    hide AnyChecked;
    if t.file.index == FOLDER {
      FilledBoxes(t.leafs);
      assert [] + Boxes(Items(t.leafs)) == Boxes(Items(t.leafs));
    }
  }

  predicate AnyPriority(fs: seq<File>) {
    exists k :: 0 <= k < |fs| && fs[k].priority != 0
  }

  lemma AnyPriorityAppend(a: seq<File>, b: seq<File>)
    ensures AnyPriority(a + b) <==> AnyPriority(a) || AnyPriority(b)
  {
    assert forall k :: 0 <= k < |a| ==> (a + b)[k] == a[k];
    assert forall k :: 0 <= k < |b| ==> (a + b)[|a| + k] == b[k];
  }

  /** Some box, at any depth, is checked exactly if some file has a priority. */
  lemma {:induction false} FolderBox(ts: seq<FolderTree>)
    ensures AnyChecked(Items(ts)) <==> AnyPriority(Files(ts))
    decreases ts
  {
    if ts != [] {
      assert Items(ts)[1..] == Items(ts[1..]);
      FolderBox(ts[1..]);
      AnyPriorityAppend(FilesOf(ts[0]), Files(ts[1..]));
      if ts[0].file.index == FOLDER {
        FolderBox(ts[0].leafs);
      } else {
        assert AnyPriority(FilesOf(ts[0])) <==> FilesOf(ts[0])[0].priority != 0;
      }
    }
  }

  /** The item of a folder: its own box is checked exactly if some file below it has a priority, it stands
      for no file, and has an item for each leaf. */
  lemma FolderItem(t: FolderTree)
    requires t.file.index == FOLDER
    ensures ItemOf(t).checked <==> AnyPriority(Files(t.leafs))
    ensures ItemOf(t).data == None && |ItemOf(t).children| == |t.leafs|
  {
    FolderBox(t.leafs);
  }

  ghost predicate Takes(fs: seq<File>, i: int) {
    exists k :: 0 <= k < |fs| && fs[k].index == i
  }

  /** The places of a tree's files are 0 to n - 1, each taken once. */
  ghost predicate Numbered(fs: seq<File>, n: nat) {
    && (forall k :: 0 <= k < |fs| ==> 0 <= fs[k].index < n)
    && (forall j, k :: 0 <= j < k < |fs| ==> fs[j].index != fs[k].index)
    && (forall i :: 0 <= i < n ==> Takes(fs, i))
  }

  /** A slot is 0 exactly if its file is unchecked; else it is the file's priority, or 1 if it had none. */
  ghost predicate Shows(slots: seq<int>, fs: seq<File>, boxes: seq<bool>)
    requires Numbered(fs, |slots|) && |boxes| == |fs|
  {
    forall k :: 0 <= k < |fs| ==>
      (slots[fs[k].index] == 0 <==> !boxes[k])
      && (boxes[k] ==> slots[fs[k].index] == if fs[k].priority == 0 then 1 else fs[k].priority)
  }

  /** After any checking and unchecking there is one write for each slot, and the slots show the boxes. */
  lemma SlotsAfterChecking(ts: seq<FolderTree>, items: seq<Item>, a: seq<int>)
    requires Numbered(Files(ts), |a|) && SameFiles(items, Items(ts))
    ensures InRange(Writes(items), |a|) && |Writes(items)| == |Files(ts)| == |Boxes(items)|
    ensures Shows(Apply(a, Writes(items)), Files(ts), Boxes(items))
  {
    var fs, ws := Files(ts), Writes(items);
    WritesPerFile(ts, items);
    forall k | 0 <= k < |fs|
      ensures Apply(a, ws)[fs[k].index] == BoxPriority(Boxes(items)[k], fs[k].priority)
    {
      WrittenOnce(a, ws, k);
    }
  }

  lemma ShownOnce(x: seq<int>, y: seq<int>, fs: seq<File>, boxes: seq<bool>)
    requires |x| == |y| && Numbered(fs, |x|) && |boxes| == |fs| && Shows(x, fs, boxes) && Shows(y, fs, boxes)
    ensures x == y
  {
    forall i | 0 <= i < |x|
      ensures x[i] == y[i]
    {
      assert Takes(fs, i);
      var k :| 0 <= k < |fs| && fs[k].index == i;
    }
  }

  lemma {:induction false} SameFilesSelf(items: seq<Item>)
    ensures SameFiles(items, items)
    decreases items
  {
    if items != [] {
      SameFilesSelf(items[0].children);
      SameFilesSelf(items[1..]);
    }
  }

  /** Filling the control and writing it back changes no priority. */
  lemma PrioritiesSurvive(ts: seq<FolderTree>, a: seq<int>)
    requires Numbered(Files(ts), |a|)
    ensures InRange(Writes(Items(ts)), |a|)
    ensures forall k :: 0 <= k < |Files(ts)| ==> Apply(a, Writes(Items(ts)))[Files(ts)[k].index] == Files(ts)[k].priority
  {
    SameFilesSelf(Items(ts));
    FilledBoxes(ts);
    SlotsAfterChecking(ts, Items(ts), a);
  }

  /** Nothing of what the array held before is left. */
  lemma ArrayDetermined(ts: seq<FolderTree>, items: seq<Item>, a: seq<int>, b: seq<int>)
    requires Numbered(Files(ts), |a|) && |a| == |b| && SameFiles(items, Items(ts))
    ensures InRange(Writes(items), |a|) && Apply(a, Writes(items)) == Apply(b, Writes(items))
  {
    SlotsAfterChecking(ts, items, a);
    SlotsAfterChecking(ts, items, b);
    ShownOnce(Apply(a, Writes(items)), Apply(b, Writes(items)), Files(ts), Boxes(items));
  }

  lemma ItemsStep(made: seq<Item>, ts: seq<FolderTree>, i: nat)
    requires i < |ts|
    ensures made + Items(ts[i..]) == made + [ItemOf(ts[i])] + Items(ts[i + 1..])
  {
    hide AnyChecked;
    assert ts[i..][0] == ts[i] && ts[i..][1..] == ts[i + 1..];
    assert made + ([ItemOf(ts[i])] + Items(ts[i + 1..])) == made + [ItemOf(ts[i])] + Items(ts[i + 1..]);
  }

  class FilesPage {
    var items: seq<Item>

    constructor ()
      ensures items == []
    {
      items := [];
    }

    /** The items for the leafs of a tree; a folder's box follows those below it. */
    method AddFiles(ts: seq<FolderTree>) returns (inserted: seq<Item>)
      ensures inserted == Items(ts)
      decreases ts
    {
      hide Items, AnyChecked;
      inserted := [];
      assert ts[0..] == ts && inserted + Items(ts) == Items(ts);
      for i := 0 to |ts|
        invariant inserted + Items(ts[i..]) == Items(ts)
      {
        ItemsStep(inserted, ts, i);
        var item;
        if ts[i].file.index == FOLDER {
          var below := AddFiles(ts[i].leafs);
          var any := IsAtLeast1ChildChecked(below);
          item := Item(any, None, below);
        } else {
          item := Item(ts[i].file.priority != 0, Some(ts[i].file), []);
        }
        assert item == ItemOf(ts[i]);
        inserted := inserted + [item];
      }
      assert Items(ts[|ts|..]) == [] && inserted + [] == inserted;
    }

    method IsAtLeast1ChildChecked(below: seq<Item>) returns (any: bool)
      ensures any == AnyChecked(below)
      decreases below
    {
      var k := 0;
      while k < |below|
        invariant k <= |below| && AnyChecked(below) == AnyChecked(below[k..])
      {
        assert below[k..][0] == below[k] && below[k..][1..] == below[k + 1..];
        if below[k].checked {
          return true;
        }
        if below[k].children != [] {
          var inner := IsAtLeast1ChildChecked(below[k].children);
          if inner {
            return true;
          }
        }
        k := k + 1;
      }
      return false;
    }

    method OnInitDialog(ts: seq<FolderTree>)
      modifies this
      ensures items == Items(ts)
    {
      items := AddFiles(ts);
    }

    /** Writes into the array what the boxes stand for. */
    method GetFilesPriorities(priorities: array<int>, below: seq<Item>)
      requires InRange(Writes(below), priorities.Length)
      modifies priorities
      ensures priorities[..] == Apply(old(priorities[..]), Writes(below))
      decreases below
    {
      hide Apply, Writes;
      var k := 0;
      ghost var n, ws, was := priorities.Length, Writes(below), priorities[..];
      while k < |below|
        invariant k <= |below| && InRange(Writes(below[k..]), n)
        invariant Apply(priorities[..], Writes(below[k..])) == Apply(was, ws)
      {
        assert below[k..][0] == below[k] && below[k..][1..] == below[k + 1..];
        ghost var a := priorities[..];
        WritesSplit(below[k..], a);
        if below[k].data.Some? {
          var file := below[k].data.value;
          var priority := 0;
          if below[k].checked {
            priority := file.priority;
            if priority == 0 {
              priority := 1;
            }
          }
          priorities[file.index] := priority;
          assert priorities[..] == a[file.index := priority];
        }
        if below[k].children != [] {
          GetFilesPriorities(priorities, below[k].children);
        }
        k := k + 1;
      }
      NoWrites(priorities[..], below[k..]);
    }
  }

  lemma NoWrites(a: seq<int>, items: seq<Item>)
    requires items == []
    ensures Apply(a, Writes(items)) == a
  {
  }

  /** The write of the first item, those below it, and the rest, one after the other. */
  lemma WritesSplit(items: seq<Item>, a: seq<int>)
    requires items != [] && InRange(Writes(items), |a|)
    ensures InRange(Writes(items[0].children), |a|) && InRange(Writes(items[1..]), |a|)
    ensures items[0].data.Some? ==> 0 <= items[0].data.value.index < |a|
    ensures
      var f := items[0].data;
      var b := if f.None? then a else a[f.value.index := BoxPriority(items[0].checked, f.value.priority)];
      var c := if items[0].children == [] then b else Apply(b, Writes(items[0].children));
      Apply(a, Writes(items)) == Apply(c, Writes(items[1..]))
  {
    hide Apply, Writes, ItemWrite;
    var x, y, z := ItemWrite(items[0]), Writes(items[0].children), Writes(items[1..]);
    WritesUnfold(items);
    InRangeAppend(x + y, z, |a|);
    InRangeAppend(x, y, |a|);
    ApplyAppend(a, x, y);
    ApplyAppend(a, x + y, z);
    ApplyItem(a, items[0]);
    if items[0].children == [] {
      NoWrites(Apply(a, x), items[0].children);
    }
  }

  lemma WritesUnfold(items: seq<Item>)
    requires items != []
    ensures Writes(items) == ItemWrite(items[0]) + Writes(items[0].children) + Writes(items[1..])
  {
  }

  lemma ApplyItem(a: seq<int>, i: Item)
    requires InRange(ItemWrite(i), |a|)
    ensures i.data.Some? ==> 0 <= i.data.value.index < |a|
    ensures Apply(a, ItemWrite(i)) ==
      if i.data.None? then a else a[i.data.value.index := BoxPriority(i.checked, i.data.value.priority)]
  {
    if i.data.Some? {
      var w := ItemWrite(i);
      assert w[0].index == i.data.value.index && w[1..] == [];
      assert Apply(a, w) == Apply(a[w[0].index := w[0].priority], []);
    }
  }
}
