/** Creating downloads from a tree of files: one traversal makes the downloads, a later one over the
    tree control starts the checked ones, and only a running counter ties the two together. */
module FileTree {

  datatype FileInfo = FileInfo(name: string, folder: bool)

  /** A file tree: `right` is the first child, `left` the next sibling. */
  datatype Tree = Nil | Node(file: FileInfo, right: Tree, left: Tree)

  /** An item of the tree control. */
  datatype Item = Item(file: FileInfo, checked: bool, children: seq<Item>)

  /** A download taken to be started: its place in the list of downloads, its URL, its folder. */
  datatype Started = Started(index: nat, url: string, dir: string)

  /** A file of the control: the URL and the folder its path gives it, and whether it and all the
      folders above it are checked. */
  datatype Leaf = Leaf(url: string, dir: string, on: bool)

  /** How a name is appended to a URL. */
  type Resolver = (string, string) -> string

  /** The URL itself if it ends in a slash, else with one behind it. */
  function WithSlash(url: string): (r: string)
    ensures r != "" && r[|r| - 1] == '/' && url <= r
    ensures |r| == |url| <==> url != "" && url[|url| - 1] == '/'
    ensures |r| <= |url| + 1
  {
    if url != "" && url[|url| - 1] == '/' then url else url + "/"
  }

  /** The control's items for a tree, all checked. */
  function Items(t: Tree): seq<Item> {
    match t
    case Nil => []
    case Node(file, right, left) => [Item(file, true, Items(right))] + Items(left)
  }

  /** The same items, all checked. */
  function Reset(items: seq<Item>): (r: seq<Item>)
    ensures |r| == |items|
  {
    if items == [] then []
    else [Item(items[0].file, true, Reset(items[0].children))] + Reset(items[1..])
  }

  /** The URLs of the downloads made for a tree. */
  function Urls(full: Resolver, root: string, t: Tree): seq<string>
    decreases t, 0
  {
    match t
    case Nil => []
    case Node(file, right, left) => NodeUrls(full, root, file, right) + Urls(full, root, left)
  }

  function NodeUrls(full: Resolver, root: string, file: FileInfo, right: Tree): seq<string>
    decreases right, 1
  {
    var url := full(root, file.name);
    if right.Node? then Urls(full, WithSlash(url), right) else if file.folder then [] else [url]
  }

  /** All files of the control, each with the URL and the folder of its own path. */
  function Leaves(full: Resolver, items: seq<Item>, root: string, dir: string, on: bool): seq<Leaf>
    decreases items
  {
    if items == [] then []
    else ItemLeaves(full, items[0], root, dir, on) + Leaves(full, items[1..], root, dir, on)
  }

  function ItemLeaves(full: Resolver, i: Item, root: string, dir: string, on: bool): seq<Leaf>
    decreases i
  {
    var url := full(root, i.file.name);
    if i.children != [] then Leaves(full, i.children, WithSlash(url), dir + i.file.name + "\\", i.checked && on)
    else if i.file.folder then [] else [Leaf(url, dir, i.checked && on)]
  }

  function LeafCount(items: seq<Item>): nat
    decreases items
  {
    if items == [] then 0 else ItemCount(items[0]) + LeafCount(items[1..])
  }

  function ItemCount(i: Item): nat
    decreases i
  {
    if i.children != [] then LeafCount(i.children) else if i.file.folder then 0 else 1
  }

  /** What the second traversal starts, with the counter at `n`. A folder's name is always followed by a
      backslash: the source's test for one succeeds whatever the name ends in. */
  function Picks(dlds: seq<string>, n: nat, items: seq<Item>, dir: string, on: bool): seq<Started>
    requires n + LeafCount(items) <= |dlds|
    decreases items
  {
    if items == [] then []
    else ItemPicks(dlds, n, items[0], dir, on) + Picks(dlds, n + ItemCount(items[0]), items[1..], dir, on)
  }

  function ItemPicks(dlds: seq<string>, n: nat, i: Item, dir: string, on: bool): seq<Started>
    requires n + ItemCount(i) <= |dlds|
    decreases i
  {
    if i.children != [] then Picks(dlds, n, i.children, dir + i.file.name + "\\", i.checked && on)
    else if !i.file.folder && i.checked && on then [Started(n, dlds[n], dir)] else []
  }

  /** The leaves that are on, as downloads, `n` being the place of the first leaf. */
  function Chosen(leaves: seq<Leaf>, n: nat): seq<Started> {
    if leaves == [] then [] else ChosenFirst(leaves[0], n) + Chosen(leaves[1..], n + 1)
  }

  function ChosenFirst(l: Leaf, n: nat): seq<Started> {
    if l.on then [Started(n, l.url, l.dir)] else []
  }

  function LeafUrls(leaves: seq<Leaf>): (us: seq<string>)
    ensures |us| == |leaves| && forall k :: 0 <= k < |us| ==> us[k] == leaves[k].url
  {
    seq(|leaves|, k requires 0 <= k < |leaves| => leaves[k].url)
  }

  lemma Regroup<T>(a: seq<T>, b: seq<T>, c: seq<T>)
    ensures a + (b + c) == (a + b) + c
  {
  }

  lemma {:induction false} ChosenAppend(a: seq<Leaf>, b: seq<Leaf>, n: nat)
    ensures Chosen(a + b, n) == Chosen(a, n) + Chosen(b, n + |a|)
    decreases |a|
  {
    hide ChosenFirst;
    if a == [] {
      assert a + b == b;
    } else {
      assert (a + b)[1..] == a[1..] + b;
      ChosenAppend(a[1..], b, n + 1);
      Regroup(ChosenFirst(a[0], n), Chosen(a[1..], n + 1), Chosen(b, n + |a|));
    }
  }

  lemma {:induction false} LeavesCounted(full: Resolver, items: seq<Item>, root: string, dir: string, on: bool)
    ensures |Leaves(full, items, root, dir, on)| == LeafCount(items)
    decreases items
  {
    if items != [] {
      ItemLeavesCounted(full, items[0], root, dir, on);
      LeavesCounted(full, items[1..], root, dir, on);
    }
  }

  lemma {:induction false} ItemLeavesCounted(full: Resolver, i: Item, root: string, dir: string, on: bool)
    ensures |ItemLeaves(full, i, root, dir, on)| == ItemCount(i)
    decreases i
  {
    var url := full(root, i.file.name);
    LeavesCounted(full, i.children, WithSlash(url), dir + i.file.name + "\\", i.checked && on);
  }

  /** The first traversal makes the downloads of the control's leaves, in their order. */
  lemma {:induction false} BuiltForLeaves(full: Resolver, t: Tree, items: seq<Item>, root: string, dir: string, on: bool)
    requires Reset(items) == Items(t)
    ensures Urls(full, root, t) == LeafUrls(Leaves(full, items, root, dir, on))
    decreases t, 0
  {
    hide NodeUrls, ItemLeaves, LeafUrls;
    if t.Node? {
      assert Reset(items)[0] == Items(t)[0] && Reset(items)[1..] == Items(t)[1..];
      assert Items(t)[1..] == Items(t.left) && Reset(items)[1..] == Reset(items[1..]);
      BuiltForLeaves(full, t.left, items[1..], root, dir, on);
      BuiltForNode(full, t.file, t.right, items[0], root, dir, on);
      UrlsAppend(ItemLeaves(full, items[0], root, dir, on), Leaves(full, items[1..], root, dir, on));
    }
  }

  lemma {:induction false} BuiltForNode(full: Resolver, file: FileInfo, right: Tree, i: Item,
      root: string, dir: string, on: bool)
    requires i.file == file && Reset(i.children) == Items(right)
    ensures NodeUrls(full, root, file, right) == LeafUrls(ItemLeaves(full, i, root, dir, on))
    decreases right, 1
  {
    hide Urls, Leaves;
    BuiltForLeaves(full, right, i.children, WithSlash(full(root, file.name)), dir + file.name + "\\", i.checked && on);
  }

  /** The list holds the leaves' URLs from place `n` on. */
  ghost predicate HoldsAt(dlds: seq<string>, n: nat, leaves: seq<Leaf>) {
    n + |leaves| <= |dlds| && forall k :: 0 <= k < |leaves| ==> dlds[n + k] == leaves[k].url
  }

  lemma HoldsSplit(dlds: seq<string>, n: nat, a: seq<Leaf>, b: seq<Leaf>)
    requires HoldsAt(dlds, n, a + b)
    ensures HoldsAt(dlds, n, a) && HoldsAt(dlds, n + |a|, b)
  {
    assert forall k :: 0 <= k < |a| ==> (a + b)[k] == a[k];
    forall k | 0 <= k < |b|
      ensures dlds[n + |a| + k] == b[k].url
    {
      assert dlds[n + (|a| + k)] == (a + b)[|a| + k].url;
    }
  }

  /** If the list holds the leaves' URLs from the counter on, the second traversal starts just the leaves
      that are on, each with its own URL and folder. */
  lemma {:induction false} PicksAreChosen(full: Resolver, dlds: seq<string>, n: nat, items: seq<Item>,
      root: string, dir: string, on: bool)
    requires HoldsAt(dlds, n, Leaves(full, items, root, dir, on))
    ensures n + LeafCount(items) <= |dlds|
    ensures Picks(dlds, n, items, dir, on) == Chosen(Leaves(full, items, root, dir, on), n)
    decreases items
  {
    hide ItemLeaves, ItemPicks, ItemCount, ChosenFirst;
    LeavesCounted(full, items, root, dir, on);
    if items != [] {
      var inner, rest := ItemLeaves(full, items[0], root, dir, on), Leaves(full, items[1..], root, dir, on);
      HoldsSplit(dlds, n, inner, rest);
      ItemLeavesCounted(full, items[0], root, dir, on);
      ItemPicksAreChosen(full, dlds, n, items[0], root, dir, on);
      PicksAreChosen(full, dlds, n + |inner|, items[1..], root, dir, on);
      ChosenAppend(inner, rest, n);
    }
  }

  lemma {:induction false} ItemPicksAreChosen(full: Resolver, dlds: seq<string>, n: nat, i: Item,
      root: string, dir: string, on: bool)
    requires HoldsAt(dlds, n, ItemLeaves(full, i, root, dir, on))
    ensures n + ItemCount(i) <= |dlds|
    ensures ItemPicks(dlds, n, i, dir, on) == Chosen(ItemLeaves(full, i, root, dir, on), n)
    decreases i
  {
    var url := full(root, i.file.name);
    if i.children != [] {
      PicksAreChosen(full, dlds, n, i.children, WithSlash(url), dir + i.file.name + "\\", i.checked && on);
    } else if !i.file.folder {
      assert ItemLeaves(full, i, root, dir, on)[0].url == url;
    }
  }

  /** The two traversals stay aligned: whatever is checked, what is started of a tree's downloads are
      the leaves that are on, in order, each with the URL and the folder of its own path. */
  lemma TraversalsAligned(full: Resolver, t: Tree, items: seq<Item>, root: string, dir: string)
    requires Reset(items) == Items(t)
    ensures LeafCount(items) == |Urls(full, root, t)|
    ensures Picks(Urls(full, root, t), 0, items, dir, true) == Chosen(Leaves(full, items, root, dir, true), 0)
  {
    BuiltForLeaves(full, t, items, root, dir, true);
    LeavesCounted(full, items, root, dir, true);
    PicksAreChosen(full, Urls(full, root, t), 0, items, root, dir, true);
  }

  // ------------------------------------------------ a reordered control

  /** The root items of `p` are those of `items`, in any order. */
  ghost predicate Reordered(p: seq<Item>, items: seq<Item>) {
    multiset(Reset(p)) == multiset(Reset(items))
  }

  lemma {:induction false} ResetCount(items: seq<Item>)
    ensures LeafCount(Reset(items)) == LeafCount(items)
    decreases items
  {
    if items != [] {
      ResetCount(items[0].children);
      ResetCount(items[1..]);
    }
  }

  lemma {:induction false} CountAppend(a: seq<Item>, b: seq<Item>)
    ensures LeafCount(a + b) == LeafCount(a) + LeafCount(b)
    decreases |a|
  {
    if a == [] {
      assert a + b == b;
    } else {
      assert (a + b)[1..] == a[1..] + b;
      CountAppend(a[1..], b);
    }
  }

  lemma {:induction false} CountReordered(a: seq<Item>, b: seq<Item>)
    requires multiset(a) == multiset(b)
    ensures LeafCount(a) == LeafCount(b)
    decreases |a|
  {
    hide LeafCount, ItemCount;
    if a == [] {
      assert b == [] by {
        assert |multiset(b)| == 0;
      }
    } else {
      assert a[0] in multiset(b);
      var k :| 0 <= k < |b| && b[k] == a[0];
      OthersSame(a, b, k);
      CountReordered(a[1..], b[..k] + b[k + 1..]);
      CountAppend([a[0]], a[1..]);
      assert a == [a[0]] + a[1..];
      CountAppend(b[..k], [b[k]] + b[k + 1..]);
      assert b == b[..k] + ([b[k]] + b[k + 1..]);
      CountAppend(b[..k], b[k + 1..]);
      CountAppend([b[k]], b[k + 1..]);
    }
  }

  lemma OthersSame(a: seq<Item>, b: seq<Item>, k: nat)
    requires multiset(a) == multiset(b) && a != [] && k < |b| && b[k] == a[0]
    ensures multiset(a[1..]) == multiset(b[..k] + b[k + 1..])
  {
    var others := b[..k] + b[k + 1..];
    assert b == b[..k] + ([b[k]] + b[k + 1..]);
    assert a == [a[0]] + a[1..];
    assert multiset(a[1..]) == multiset(a) - multiset{a[0]};
    assert multiset(others) == multiset(b) - multiset{b[k]};
  }

  /** Sorting the root items leaves the counter in range: it ends at the length of the list. */
  lemma ReorderedInRange(full: Resolver, t: Tree, p: seq<Item>, root: string)
    requires Reordered(p, Items(t))
    ensures LeafCount(p) == |Urls(full, root, t)|
  {
    ResetItems(t);
    BuiltForLeaves(full, t, Items(t), root, "", true);
    LeavesCounted(full, Items(t), root, "", true);
    CountReordered(Reset(p), Reset(Items(t)));
    ResetCount(p);
    ResetCount(Items(t));
  }

  lemma {:induction false} ResetItems(t: Tree)
    ensures Reset(Items(t)) == Items(t)
  {
    if t.Node? {
      ResetItems(t.right);
      ResetItems(t.left);
      assert Items(t)[1..] == Items(t.left);
    }
  }

  /** Whatever is checked in a control with these items, each started download gets the URL and the
      folder of one and the same leaf. */
  ghost predicate AlwaysAligned(full: Resolver, dlds: seq<string>, p: seq<Item>, root: string, dir: string)
    requires LeafCount(p) <= |dlds|
  {
    forall items :: Reset(items) == Reset(p) ==>
      LeafCount(items) <= |dlds|
      && Picks(dlds, 0, items, dir, true) == Chosen(Leaves(full, items, root, dir, true), 0)
  }

  lemma {:induction false} LeafUrlsReset(full: Resolver, items: seq<Item>, root: string, dir: string, on: bool)
    ensures LeafUrls(Leaves(full, items, root, dir, on)) == LeafUrls(Leaves(full, Reset(items), root, dir, true))
    decreases items
  {
    if items != [] {
      var i := items[0];
      LeafUrlsReset(full, i.children, WithSlash(full(root, i.file.name)), dir + i.file.name + "\\", i.checked && on);
      LeafUrlsReset(full, items[1..], root, dir, on);
      var r := Reset(items);
      assert r[1..] == Reset(items[1..]);
      var a, b := ItemLeaves(full, i, root, dir, on), ItemLeaves(full, r[0], root, dir, true);
      assert LeafUrls(a) == LeafUrls(b);
      UrlsAppend(a, Leaves(full, items[1..], root, dir, on));
      UrlsAppend(b, Leaves(full, r[1..], root, dir, true));
    }
  }

  lemma UrlsAppend(a: seq<Leaf>, b: seq<Leaf>)
    ensures LeafUrls(a + b) == LeafUrls(a) + LeafUrls(b)
  {
  }

  lemma {:induction false} AllOn(full: Resolver, items: seq<Item>, root: string, dir: string)
    ensures forall l :: l in Leaves(full, Reset(items), root, dir, true) ==> l.on
    decreases items
  {
    if items != [] {
      var i := items[0];
      AllOn(full, i.children, WithSlash(full(root, i.file.name)), dir + i.file.name + "\\");
      AllOn(full, items[1..], root, dir);
      assert Reset(items)[1..] == Reset(items[1..]);
    }
  }

  lemma {:induction false} ChosenAll(leaves: seq<Leaf>, n: nat)
    requires forall l :: l in leaves ==> l.on
    ensures |Chosen(leaves, n)| == |leaves|
    ensures forall k :: 0 <= k < |leaves| ==> Chosen(leaves, n)[k] == Started(n + k, leaves[k].url, leaves[k].dir)
    decreases |leaves|
  {
    if leaves != [] {
      assert leaves == [leaves[0]] + leaves[1..];
      ChosenAll(leaves[1..], n + 1);
    }
  }

  lemma {:induction false} PickedUrls(dlds: seq<string>, n: nat, items: seq<Item>, dir: string, on: bool)
    requires n + LeafCount(items) <= |dlds|
    ensures forall p :: p in Picks(dlds, n, items, dir, on) ==> p.index < |dlds| && p.url == dlds[p.index]
    decreases items
  {
    if items != [] {
      if items[0].children != [] {
        PickedUrls(dlds, n, items[0].children, dir + items[0].file.name + "\\", items[0].checked && on);
      }
      PickedUrls(dlds, n + ItemCount(items[0]), items[1..], dir, on);
    }
  }

  /** After sorting, downloads and leaves stay matched in every state of the boxes exactly if the sorted
      control lists the same URLs in the same order as the downloads were made. */
  lemma SortedAlignment(full: Resolver, t: Tree, p: seq<Item>, root: string, dir: string)
    requires Reordered(p, Items(t))
    ensures LeafCount(p) <= |Urls(full, root, t)|
    ensures AlwaysAligned(full, Urls(full, root, t), p, root, dir)
       <==> LeafUrls(Leaves(full, p, root, dir, true)) == Urls(full, root, t)
  {
    var us := Urls(full, root, t);
    ReorderedInRange(full, t, p, root);
    LeavesCounted(full, p, root, dir, true);
    LeafUrlsReset(full, p, root, dir, true);
    if LeafUrls(Leaves(full, p, root, dir, true)) == us {
      forall items | Reset(items) == Reset(p)
        ensures LeafCount(items) <= |us|
        ensures Picks(us, 0, items, dir, true) == Chosen(Leaves(full, items, root, dir, true), 0)
      {
        ResetCount(items);
        ResetCount(p);
        LeafUrlsReset(full, items, root, dir, true);
        PicksAreChosen(full, us, 0, items, root, dir, true);
      }
    }
    if AlwaysAligned(full, us, p, root, dir) {
      AllCheckedMatches(full, us, p, root, dir);
    }
  }

  lemma {:induction false} ResetTwice(items: seq<Item>)
    ensures Reset(Reset(items)) == Reset(items)
    decreases items
  {
    if items != [] {
      ResetTwice(items[0].children);
      ResetTwice(items[1..]);
      assert Reset(items)[1..] == Reset(items[1..]);
    }
  }

  lemma AllCheckedMatches(full: Resolver, us: seq<string>, p: seq<Item>, root: string, dir: string)
    requires LeafCount(p) == |us| && AlwaysAligned(full, us, p, root, dir)
    ensures LeafUrls(Leaves(full, p, root, dir, true)) == us
  {
    var items := Reset(p);
    ResetTwice(p);
    ResetCount(p);
    var leaves := Leaves(full, items, root, dir, true);
    LeavesCounted(full, items, root, dir, true);
    AllOn(full, p, root, dir);
    ChosenAll(leaves, 0);
    var picks := Picks(us, 0, items, dir, true);
    PickedUrls(us, 0, items, dir, true);
    forall k | 0 <= k < |us|
      ensures leaves[k].url == us[k]
    {
      assert picks[k] == Started(k, leaves[k].url, leaves[k].dir);
      assert picks[k] in picks;
    }
    LeafUrlsReset(full, p, root, dir, true);
  }

  /** Two files in the other order are enough: each would be started under the other's URL. */
  lemma SortingCanMismatch(dir: string)
    ensures
      var full: Resolver := (root, name) => root + name;
      var t := Node(FileInfo("b", false), Nil, Node(FileInfo("a", false), Nil, Nil));
      var p := [Item(FileInfo("a", false), true, []), Item(FileInfo("b", false), true, [])];
      Reordered(p, Items(t)) && LeafCount(p) <= |Urls(full, "", t)|
      && !AlwaysAligned(full, Urls(full, "", t), p, "", dir)
  {
    var full: Resolver := (root, name) => root + name;
    var t := Node(FileInfo("b", false), Nil, Node(FileInfo("a", false), Nil, Nil));
    var p := [Item(FileInfo("a", false), true, []), Item(FileInfo("b", false), true, [])];
    SwappedPair(p[0], p[1]);
    ResetItems(t);
    assert Items(t) == [p[1], p[0]];
    SortedAlignment(full, t, p, "", dir);
    assert "" + "a" == "a" && "" + "b" == "b";
    FirstUrl(full, p, "", dir);
    assert Urls(full, "", t)[0] == "b";
  }

  lemma {:induction false} ResetLeaves(items: seq<Item>)
    requires forall k :: 0 <= k < |items| ==> items[k].checked && items[k].children == []
    ensures Reset(items) == items
  {
    if items != [] {
      ResetLeaves(items[1..]);
      assert Item(items[0].file, true, Reset([])) == items[0];
    }
  }

  lemma SwappedPair(a: Item, b: Item)
    requires a.checked && b.checked && a.children == b.children == []
    ensures Reordered([a, b], [b, a])
  {
    hide Reset;
    ResetLeaves([a, b]);
    ResetLeaves([b, a]);
  }

  lemma FirstUrl(full: Resolver, items: seq<Item>, root: string, dir: string)
    requires items != [] && items[0].children == [] && !items[0].file.folder
    ensures var us := LeafUrls(Leaves(full, items, root, dir, true));
      us != [] && us[0] == full(root, items[0].file.name)
  {
  }

  /** What is started is taken from the list at its own place. */
  lemma StartedFromList(dlds: seq<string>, items: seq<Item>, dir: string, before: seq<Started>, after: seq<Started>)
    requires LeafCount(items) <= |dlds| && after == before + Picks(dlds, 0, items, dir, true)
    ensures forall k :: |before| <= k < |after| ==> after[k].index < |dlds| && after[k].url == dlds[after[k].index]
  {
    var picks := Picks(dlds, 0, items, dir, true);
    PickedUrls(dlds, 0, items, dir, true);
    forall k | |before| <= k < |after|
      ensures after[k] in picks
    {
      assert after[k] == picks[k - |before|];
    }
  }
}
