/** The dialog over the file tree: the recursive loops that fill the control and the two lists of
    downloads, and the counter they share. */
module CreateDownloads {
  import opened FileTree

  class CreateDownloadsDlg {
    const full: Resolver
    const fileList: Tree
    const rootUrl: string

    var items: seq<Item>
    var dlds: seq<string>
    var toStart: seq<Started>
    var nDld: nat

    constructor (full: Resolver, fileList: Tree, rootUrl: string)
      ensures this.full == full && this.fileList == fileList && this.rootUrl == rootUrl
      ensures items == [] && dlds == [] && toStart == [] && nDld == 0
    {
      this.full, this.fileList, this.rootUrl := full, fileList, rootUrl;
      items, dlds, toStart, nDld := [], [], [], 0;
    }

    /** The control holds the tree's items, its root items perhaps sorted, and a download was made for
        every file of the tree. */
    ghost predicate Valid()
      reads this
    {
      Reordered(items, Items(fileList)) && dlds == Urls(full, rootUrl, fileList)
    }

    /** The items inserted below one item, for a list of siblings and all that is below them. */
    method AddToList(tree: Tree) returns (inserted: seq<Item>)
      ensures inserted == Items(tree)
      decreases tree
    {
      inserted := [];
      var cur := tree;
      while cur.Node?
        invariant inserted + Items(cur) == Items(tree)
        invariant cur == tree || cur < tree
        decreases cur
      {
        var children := [];
        if cur.right.Node? {
          children := AddToList(cur.right);
        }
        inserted := inserted + [Item(cur.file, true, children)];
        cur := cur.left;
      }
    }

    method BuildDownloads(tree: Tree, root: string)
      modifies this`dlds
      ensures dlds == old(dlds) + Urls(full, root, tree)
      decreases tree
    {
      var cur := tree;
      while cur.Node?
        invariant dlds + Urls(full, root, cur) == old(dlds) + Urls(full, root, tree)
        invariant cur == tree || cur < tree
        decreases cur
      {
        Regroup(dlds, NodeUrls(full, root, cur.file, cur.right), Urls(full, root, cur.left));
        var url := full(root, cur.file.name);
        if cur.right.Node? {
          if url == "" || url[|url| - 1] != '/' {
            url := url + "/";
          }
          BuildDownloads(cur.right, url);
        } else if !cur.file.folder {
          dlds := dlds + [url];
        }
        cur := cur.left;
      }
    }

    /** `sorted` is the order the control's sorting gives the root items. */
    method OnInitDialog(sort: bool, sorted: seq<Item>)
      requires items == [] && dlds == [] && Reordered(sorted, Items(fileList))
      modifies this`items, this`dlds
      ensures Valid() && items == if sort then sorted else Items(fileList)
    {
      items := AddToList(fileList);
      BuildDownloads(fileList, rootUrl);
      if sort {
        items := sorted;
      }
    }

    /** The user checks and unchecks boxes. */
    method SetChecks(checked: seq<Item>)
      requires Valid() && Reset(checked) == Reset(items)
      modifies this`items
      ensures Valid() && items == checked
    {
      items := checked;
    }

    method StartChecked(below: seq<Item>, atRoot: bool, rootDir: string, create: bool)
      requires (if atRoot then 0 else nDld) + LeafCount(below) <= |dlds|
      modifies this`toStart, this`nDld
      ensures nDld == (if atRoot then 0 else old(nDld)) + LeafCount(below)
      ensures toStart == old(toStart) + Picks(dlds, if atRoot then 0 else old(nDld), below, rootDir, create)
      decreases below
    {
      if atRoot {
        nDld := 0;
      }
      ghost var n := nDld;
      var k := 0;
      while k < |below|
        invariant k <= |below|
        invariant nDld + LeafCount(below[k..]) == n + LeafCount(below)
        invariant toStart + Picks(dlds, nDld, below[k..], rootDir, create)
               == old(toStart) + Picks(dlds, n, below, rootDir, create)
      {
        var cur := below[k];
        assert below[k..][0] == cur && below[k..][1..] == below[k + 1..];
        Regroup(toStart, ItemPicks(dlds, nDld, cur, rootDir, create),
                Picks(dlds, nDld + ItemCount(cur), below[k + 1..], rootDir, create));
        StartItem(cur, rootDir, create);
        k := k + 1;
      }
    }

    method StartItem(cur: Item, rootDir: string, create: bool)
      requires nDld + ItemCount(cur) <= |dlds|
      modifies this`toStart, this`nDld
      ensures nDld == old(nDld) + ItemCount(cur)
      ensures toStart == old(toStart) + ItemPicks(dlds, old(nDld), cur, rootDir, create)
      decreases cur
    {
      if cur.children != [] {
        var b := cur.checked;
        StartChecked(cur.children, false, rootDir + cur.file.name + "\\", b && create);
      } else if !cur.file.folder {
        if cur.checked && create {
          toStart := toStart + [Started(nDld, dlds[nDld], rootDir)];
        }
        nDld := nDld + 1;
      }
    }

    /** Accepting the dialog. With the root items in the tree's order, what is started are the files
        checked together with all folders above them, each under its own URL and in its own folder. */
    method OnOK(folder: string)
      requires Valid()
      modifies this`toStart, this`nDld
      ensures nDld == |dlds|
      ensures Reset(items) == Items(fileList) ==>
        toStart == old(toStart) + Chosen(Leaves(full, items, rootUrl, folder, true), 0)
      ensures forall k :: |old(toStart)| <= k < |toStart| ==>
        toStart[k].index < |dlds| && toStart[k].url == dlds[toStart[k].index]
    {
      ReorderedInRange(full, fileList, items, rootUrl);
      StartChecked(items, true, folder, true);
      StartedFromList(dlds, items, folder, old(toStart), toStart);
      if Reset(items) == Items(fileList) {
        TraversalsAligned(full, fileList, items, rootUrl, folder);
      }
    }
  }
}
