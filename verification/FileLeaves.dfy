/** What the leaves of the tree control are, seen from above: one for each path from a root item down
    to a file. */
module FileLeaves {
  import opened FileTree

  /** A path of positions that leads through the control, a folder at each step but the last. */
  predicate Leads(items: seq<Item>, path: seq<nat>)
    decreases |path|
  {
    && path != [] && path[0] < |items|
    && (|path| > 1 ==> Leads(items[path[0]].children, path[1..]))
  }

  /** The items on a path, from the root item down. */
  function Along(items: seq<Item>, path: seq<nat>): (chain: seq<Item>)
    requires Leads(items, path)
    ensures |chain| == |path|
    decreases |path|
  {
    var i := items[path[0]];
    [i] + if |path| == 1 then [] else Along(i.children, path[1..])
  }

  ghost predicate LeadsToFile(items: seq<Item>, path: seq<nat>) {
    Leads(items, path) && var last := Along(items, path)[|path| - 1]; last.children == [] && !last.file.folder
  }

  /** The names, each followed by a separator. */
  function Folders(chain: seq<Item>, separator: string): string {
    if chain == [] then "" else chain[0].file.name + separator + Folders(chain[1..], separator)
  }

  /** Each name resolved against the URL of what is above it, with a slash behind. */
  function UrlAlong(full: Resolver, root: string, chain: seq<Item>): string
    requires chain != []
    decreases |chain|
  {
    var url := full(root, chain[0].file.name);
    if |chain| == 1 then url else UrlAlong(full, WithSlash(url), chain[1..])
  }

  /** The leaf of a path: its URL, the folders above it, and whether all items on the path are checked. */
  ghost predicate LeafOf(full: Resolver, root: string, dir: string, on: bool, chain: seq<Item>, l: Leaf)
    requires chain != []
  {
    && l.url == UrlAlong(full, root, chain)
    && l.dir == dir + Folders(chain[..|chain| - 1], "\\")
    && (l.on <==> on && forall k :: 0 <= k < |chain| ==> chain[k].checked)
  }

  /** A plain name, and how it is appended. */
  predicate Plain(i: Item) {
    i.file.name != "" && i.file.name[|i.file.name| - 1] != '/'
  }

  function Append(): Resolver {
    (above, name) => above + name
  }

  /** With plain names simply appended, URL and folder of a leaf spell the same path. */
  lemma {:induction false} UrlSpellsPath(root: string, chain: seq<Item>)
    requires chain != [] && forall k :: 0 <= k < |chain| ==> Plain(chain[k])
    ensures UrlAlong(Append(), root, chain)
         == root + Folders(chain[..|chain| - 1], "/") + chain[|chain| - 1].file.name
    decreases |chain|
  {
    hide Folders, UrlAlong, WithSlash, Append;
    var first, rest := chain[0].file.name, chain[1..];
    var last := chain[|chain| - 1].file.name;
    UrlStep(root, chain);
    if |chain| == 1 {
      assert root + "" + last == root + last;
    } else {
      UrlSpellsPath(root + first + "/", rest);
      FoldersStep(chain, "/");
      Reassociate(root, first, Folders(rest[..|rest| - 1], "/"));
    }
  }

  lemma UrlStep(root: string, chain: seq<Item>)
    requires chain != [] && Plain(chain[0])
    ensures Folders([], "/") == ""
    ensures UrlAlong(Append(), root, chain) == if |chain| == 1 then root + chain[0].file.name
            else UrlAlong(Append(), root + chain[0].file.name + "/", chain[1..])
  {
    var url := root + chain[0].file.name;
    assert url[|url| - 1] != '/';
    assert Append()(root, chain[0].file.name) == url;
  }

  lemma Reassociate(root: string, first: string, below: string)
    ensures root + (first + "/" + below) == root + first + "/" + below
  {
  }

  lemma FoldersStep(chain: seq<Item>, separator: string)
    requires |chain| > 1
    ensures var rest := chain[1..];
      Folders(chain[..|chain| - 1], separator)
      == chain[0].file.name + separator + Folders(rest[..|rest| - 1], separator)
  {
    assert chain[..|chain| - 1][1..] == chain[1..][..|chain| - 2];
  }

  /** The tree of some items: the items inside an item to the right, those behind it to the left. */
  function TreeOf(items: seq<Item>): Tree
    decreases items
  {
    if items == [] then Nil
    else Node(items[0].file, TreeOf(items[0].children), TreeOf(items[1..]))
  }

  /** The control shows a tree's items where they are in the tree, all checked. */
  lemma {:induction false} ItemsOfTree(items: seq<Item>)
    ensures Items(TreeOf(items)) == Reset(items)
    decreases items
  {
    if items != [] {
      ItemsOfTree(items[0].children);
      ItemsOfTree(items[1..]);
    }
  }

  lemma {:induction false} LeavesOfItems(full: Resolver, items: seq<Item>, root: string, dir: string, on: bool, l: Leaf)
    ensures l in Leaves(full, items, root, dir, on)
       <==> exists j :: 0 <= j < |items| && l in ItemLeaves(full, items[j], root, dir, on)
    decreases |items|
  {
    hide ItemLeaves;
    if items != [] {
      LeavesOfItems(full, items[1..], root, dir, on, l);
      forall j | 0 <= j < |items[1..]|
        ensures items[1..][j] == items[j + 1]
      {
      }
      if l in Leaves(full, items[1..], root, dir, on) {
        var j :| 0 <= j < |items[1..]| && l in ItemLeaves(full, items[1..][j], root, dir, on);
        assert l in ItemLeaves(full, items[j + 1], root, dir, on);
      }
      if j :| 0 < j < |items| && l in ItemLeaves(full, items[j], root, dir, on) {
        assert items[1..][j - 1] == items[j];
      }
    }
  }

  lemma LeafStep(full: Resolver, root: string, dir: string, on: bool, i: Item, below: seq<Item>, l: Leaf)
    requires below != []
    ensures LeafOf(full, root, dir, on, [i] + below, l)
       <==> LeafOf(full, WithSlash(full(root, i.file.name)), dir + i.file.name + "\\", i.checked && on, below, l)
  {
    var chain, n := [i] + below, |below|;
    assert chain[1..] == below;
    FoldersStep(chain, "\\");
    var rest := Folders(below[..n - 1], "\\");
    assert dir + (i.file.name + "\\" + rest) == dir + i.file.name + "\\" + rest;
    assert forall k :: 0 <= k < n ==> chain[k + 1] == below[k];
  }

  /** The leaf of a root item that is a file. */
  lemma FileLeaf(full: Resolver, items: seq<Item>, root: string, dir: string, on: bool, j: nat)
    requires j < |items| && items[j].children == [] && !items[j].file.folder
    ensures var i := items[j];
      var l := Leaf(full(root, i.file.name), dir, i.checked && on);
      && ItemLeaves(full, i, root, dir, on) == [l]
      && LeadsToFile(items, [j]) && LeafOf(full, root, dir, on, Along(items, [j]), l)
  {
    assert dir + "" == dir && Along(items, [j]) == [items[j]];
  }

  /** A path below an item, continued upwards. */
  lemma PathStep(full: Resolver, items: seq<Item>, root: string, dir: string, on: bool, j: nat, below: seq<nat>, l: Leaf)
    requires j < |items| && Leads(items[j].children, below)
    ensures var i, path := items[j], [j] + below;
      && (LeadsToFile(items, path) <==> LeadsToFile(i.children, below))
      && Leads(items, path)
      && (LeafOf(full, root, dir, on, Along(items, path), l)
          <==> LeafOf(full, WithSlash(full(root, i.file.name)), dir + i.file.name + "\\", i.checked && on,
                      Along(i.children, below), l))
  {
    hide LeafOf, WithSlash;
    var i, path := items[j], [j] + below;
    assert path[1..] == below;
    assert Along(items, path) == [i] + Along(i.children, below);
    LeafStep(full, root, dir, on, i, Along(i.children, below), l);
  }

  /** Every leaf lies at the end of a path to a file. */
  lemma {:induction false} LeafHasPath(full: Resolver, items: seq<Item>, root: string, dir: string, on: bool, l: Leaf)
      returns (path: seq<nat>)
    requires l in Leaves(full, items, root, dir, on)
    ensures LeadsToFile(items, path) && LeafOf(full, root, dir, on, Along(items, path), l)
    decreases items
  {
    hide Leaves, LeafOf, WithSlash;
    LeavesOfItems(full, items, root, dir, on, l);
    var j :| 0 <= j < |items| && l in ItemLeaves(full, items[j], root, dir, on);
    var i := items[j];
    if i.children == [] {
      FileLeaf(full, items, root, dir, on, j);
      path := [j];
    } else {
      var url := WithSlash(full(root, i.file.name));
      var p := LeafHasPath(full, i.children, url, dir + i.file.name + "\\", i.checked && on, l);
      PathStep(full, items, root, dir, on, j, p, l);
      path := [j] + p;
    }
  }

  /** And every path to a file has its leaf. */
  lemma {:induction false} PathHasLeaf(full: Resolver, items: seq<Item>, root: string, dir: string, on: bool, path: seq<nat>)
      returns (l: Leaf)
    requires LeadsToFile(items, path)
    ensures l in Leaves(full, items, root, dir, on) && LeafOf(full, root, dir, on, Along(items, path), l)
    decreases |path|
  {
    hide Leaves, LeafOf, WithSlash;
    var j := path[0];
    var i := items[j];
    assert path == [j] + path[1..];
    if |path| == 1 {
      FileLeaf(full, items, root, dir, on, j);
      l := Leaf(full(root, i.file.name), dir, i.checked && on);
    } else {
      var url := WithSlash(full(root, i.file.name));
      PathStep(full, items, root, dir, on, j, path[1..], Leaf("", "", false));
      l := PathHasLeaf(full, i.children, url, dir + i.file.name + "\\", i.checked && on, path[1..]);
      PathStep(full, items, root, dir, on, j, path[1..], l);
    }
    assert l in ItemLeaves(full, i, root, dir, on);
    LeavesOfItems(full, items, root, dir, on, l);
  }

  /** What is chosen are the leaves that are on, each with its own place. */
  lemma {:induction false} ChosenAre(leaves: seq<Leaf>, n: nat, s: Started)
    ensures s in Chosen(leaves, n)
       <==> exists k :: 0 <= k < |leaves| && leaves[k].on && s == Started(n + k, leaves[k].url, leaves[k].dir)
    decreases |leaves|
  {
    if leaves != [] {
      var rest := leaves[1..];
      ChosenAre(rest, n + 1, s);
      if s in Chosen(rest, n + 1) {
        var k :| 0 <= k < |rest| && rest[k].on && s == Started(n + 1 + k, rest[k].url, rest[k].dir);
        assert leaves[k + 1] == rest[k];
      }
      if k :| 0 < k < |leaves| && leaves[k].on && s == Started(n + k, leaves[k].url, leaves[k].dir) {
        assert leaves[k] == rest[k - 1];
      }
    }
  }
}
