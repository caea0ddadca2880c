/** Selecting videos whose audio track is a separate download: the meaning of one click, as a
    function of the download list and the choice made so far. */
module LinkedAudio {

  datatype Download = Download(url: string, linkedAudio: string)

  /** What is selected, and what of it the user selected himself. */
  datatype Choice = Choice(selected: seq<bool>, byUser: seq<bool>)

  /** The last position of a URL; the first position of the list for an unknown one. */
  function LastIndex(dlds: seq<Download>, url: string): (i: nat)
    ensures |dlds| > 0 ==> i < |dlds|
  {
    if dlds == [] then 0
    else if dlds[|dlds| - 1].url == url then |dlds| - 1
    else LastIndex(dlds[..|dlds| - 1], url)
  }

  /** The audio URL of the last download of that URL that has one, or the empty string. */
  function AudioOf(dlds: seq<Download>, url: string): string {
    if dlds == [] then ""
    else
      var d := dlds[|dlds| - 1];
      if d.url == url && d.linkedAudio != "" then d.linkedAudio else AudioOf(dlds[..|dlds| - 1], url)
  }

  /** The URLs of the downloads that have `audio` as their audio track. */
  function Linkers(dlds: seq<Download>, audio: string): seq<string> {
    if dlds == [] then []
    else
      var d := dlds[|dlds| - 1];
      Linkers(dlds[..|dlds| - 1], audio) + if d.linkedAudio == audio != "" then [d.url] else []
  }

  /** How many of some videos are selected. */
  function CountSelected(dlds: seq<Download>, selected: seq<bool>, videos: seq<string>): nat
    requires |dlds| == |selected| > 0
  {
    if videos == [] then 0
    else
      CountSelected(dlds, selected, videos[..|videos| - 1])
      + if selected[LastIndex(dlds, videos[|videos| - 1])] then 1 else 0
  }

  predicate Fits(dlds: seq<Download>, c: Choice) {
    |c.selected| == |c.byUser| == |dlds|
  }

  function VideosSelected(dlds: seq<Download>, selected: seq<bool>, i: nat): nat
    requires |dlds| == |selected| && i < |dlds|
  {
    CountSelected(dlds, selected, Linkers(dlds, dlds[i].url))
  }

  /** The audio track of download `i` after `i` has been selected or unselected. */
  function FollowAudio(dlds: seq<Download>, c: Choice, i: nat, select: bool): (r: Choice)
    requires Fits(dlds, c) && i < |dlds|
    ensures Fits(dlds, r)
  {
    var url := AudioOf(dlds, dlds[i].url);
    var a := LastIndex(dlds, url);
    if url == "" || (!select && (c.byUser[a] || VideosSelected(dlds, c.selected, a) > 0)) then c
    else c.(selected := c.selected[a := select])
  }

  /** One click on the box of download `i`; `warn` tells whether unselecting a track in use is
      questioned, `confirmed` how the user answers then. */
  function Click(dlds: seq<Download>, warn: bool, c: Choice, i: nat, confirmed: bool): (r: Choice)
    requires Fits(dlds, c) && i < |dlds|
    ensures Fits(dlds, r)
  {
    var now := !c.selected[i];
    var f := FollowAudio(dlds, Choice(c.selected[i := now], c.byUser[i := now]), i, now);
    if !now && warn && VideosSelected(dlds, f.selected, i) > 0 && !confirmed
    then f.(selected := f.selected[i := true]) else f
  }

  datatype Event = Event(item: nat, confirmed: bool)

  predicate Events(dlds: seq<Download>, es: seq<Event>) {
    forall k :: 0 <= k < |es| ==> es[k].item < |dlds|
  }

  predicate Unconfirmed(es: seq<Event>) {
    forall k :: 0 <= k < |es| ==> !es[k].confirmed
  }

  /** A whole session of clicks. */
  function Session(dlds: seq<Download>, warn: bool, c: Choice, es: seq<Event>): (r: Choice)
    requires Fits(dlds, c) && Events(dlds, es)
    ensures Fits(dlds, r)
    decreases |es|
  {
    if es == [] then c
    else Session(dlds, warn, Click(dlds, warn, c, es[0].item, es[0].confirmed), es[1..])
  }

  // ------------------------------------------------- every download list

  predicate PinnedSelected(c: Choice) {
    forall i :: 0 <= i < |c.selected| && i < |c.byUser| && c.byUser[i] ==> c.selected[i]
  }

  /** Whatever the list and the answers, what the user selected himself is selected. */
  lemma {:induction false} PinnedStaysSelected(dlds: seq<Download>, warn: bool, c: Choice, es: seq<Event>)
    requires Fits(dlds, c) && Events(dlds, es) && PinnedSelected(c)
    ensures PinnedSelected(Session(dlds, warn, c, es))
    decreases |es|
  {
    if es != [] {
      PinnedStaysSelected(dlds, warn, Click(dlds, warn, c, es[0].item, es[0].confirmed), es[1..]);
    }
  }

  // ------------------------------------------ lists without chained tracks

  predicate Linked(dlds: seq<Download>, v: nat, a: nat) {
    v < |dlds| && a < |dlds| && dlds[v].linkedAudio == dlds[a].url && dlds[v].linkedAudio != ""
  }

  predicate DistinctUrls(dlds: seq<Download>) {
    forall i, j :: 0 <= i < j < |dlds| ==> dlds[i].url != dlds[j].url
  }

  /** URLs are distinct and no track has a track of its own. A track may be missing from the list. */
  predicate Unchained(dlds: seq<Download>) {
    && DistinctUrls(dlds)
    && forall v, a :: 0 <= v < |dlds| && 0 <= a < |dlds| && Linked(dlds, v, a) ==> dlds[a].linkedAudio == ""
  }

  /** The track of download `i`, if it has one, is in the list. */
  predicate Present(dlds: seq<Download>, i: nat)
    requires i < |dlds|
  {
    dlds[i].linkedAudio != "" ==> exists a :: 0 <= a < |dlds| && Linked(dlds, i, a)
  }

  /** Every track is in the list, or the first item, which stands for a missing one, is neither a
      track nor a video with its track in the list. */
  predicate Safe(dlds: seq<Download>) {
    || (forall v :: 0 <= v < |dlds| ==> Present(dlds, v))
    || forall k :: 0 <= k < |dlds| ==> !Linked(dlds, k, 0) && !Linked(dlds, 0, k)
  }

  ghost predicate IsAudio(dlds: seq<Download>, a: nat) {
    exists v: nat :: Linked(dlds, v, a)
  }

  /** Some selected video uses track `a`. */
  ghost predicate InUse(dlds: seq<Download>, selected: seq<bool>, a: nat)
    requires |selected| == |dlds|
  {
    exists v: nat :: Linked(dlds, v, a) && selected[v]
  }

  /** The closed form: an audio track is selected exactly if the user wants it or a selected video
      uses it. */
  ghost predicate Settled(dlds: seq<Download>, c: Choice)
    requires Fits(dlds, c)
  {
    forall a: nat :: a < |dlds| && IsAudio(dlds, a) ==>
      (c.selected[a] <==> c.byUser[a] || InUse(dlds, c.selected, a))
  }

  /** No audio track stays selected on its own account. */
  ghost predicate NoOrphan(dlds: seq<Download>, c: Choice)
    requires Fits(dlds, c)
  {
    forall a: nat :: a < |dlds| && IsAudio(dlds, a) && c.selected[a] && !c.byUser[a] ==> InUse(dlds, c.selected, a)
  }

  lemma {:induction false} LastIndexDistinct(dlds: seq<Download>, i: nat)
    requires i < |dlds| && DistinctUrls(dlds)
    ensures LastIndex(dlds, dlds[i].url) == i
  {
    if i < |dlds| - 1 {
      LastIndexDistinct(dlds[..|dlds| - 1], i);
    }
  }

  lemma {:induction false} LastIndexNone(dlds: seq<Download>, url: string)
    requires forall i :: 0 <= i < |dlds| ==> dlds[i].url != url
    ensures LastIndex(dlds, url) == 0
  {
    if dlds != [] {
      LastIndexNone(dlds[..|dlds| - 1], url);
    }
  }

  /** A repeated URL stands for its last download. */
  lemma {:induction false} LastIndexIsLast(dlds: seq<Download>, i: nat)
    requires i < |dlds|
    ensures var r := LastIndex(dlds, dlds[i].url);
      i <= r < |dlds| && dlds[r].url == dlds[i].url && forall k :: r < k < |dlds| ==> dlds[k].url != dlds[i].url
  {
    if dlds[|dlds| - 1].url != dlds[i].url {
      LastIndexIsLast(dlds[..|dlds| - 1], i);
    }
  }

  /** And its track is that of its last download with a track. */
  lemma {:induction false} AudioOfIsLast(dlds: seq<Download>, url: string)
    ensures var audio := AudioOf(dlds, url);
      if audio == "" then forall k :: 0 <= k < |dlds| && dlds[k].url == url ==> dlds[k].linkedAudio == ""
      else exists i :: 0 <= i < |dlds| && dlds[i] == Download(url, audio)
                       && forall k :: i < k < |dlds| && dlds[k].url == url ==> dlds[k].linkedAudio == ""
  {
    if dlds != [] {
      var n := |dlds| - 1;
      AudioOfIsLast(dlds[..n], url);
      assert forall k :: 0 <= k < n ==> dlds[..n][k] == dlds[k];
      if dlds[n].url == url && dlds[n].linkedAudio != "" {
        assert dlds[n] == Download(url, AudioOf(dlds, url));
      }
    }
  }

  lemma {:induction false} AudioOfDistinct(dlds: seq<Download>, i: nat)
    requires i < |dlds| && DistinctUrls(dlds)
    ensures AudioOf(dlds, dlds[i].url) == dlds[i].linkedAudio
  {
    if i < |dlds| - 1 {
      AudioOfDistinct(dlds[..|dlds| - 1], i);
    } else {
      AudioOfNone(dlds[..i], dlds[i].url);
    }
  }

  lemma {:induction false} AudioOfNone(dlds: seq<Download>, url: string)
    requires forall i :: 0 <= i < |dlds| ==> dlds[i].url != url
    ensures AudioOf(dlds, url) == ""
  {
    if dlds != [] {
      AudioOfNone(dlds[..|dlds| - 1], url);
    }
  }

  lemma {:induction false} LinkersAre(dlds: seq<Download>, audio: string, u: string)
    ensures u in Linkers(dlds, audio) <==>
            exists v :: 0 <= v < |dlds| && dlds[v].url == u && dlds[v].linkedAudio == audio != ""
  {
    if dlds != [] {
      var n := |dlds| - 1;
      LinkersAre(dlds[..n], audio, u);
      assert forall v :: 0 <= v < n ==> dlds[..n][v] == dlds[v];
    }
  }

  lemma {:induction false} CountPositive(dlds: seq<Download>, selected: seq<bool>, videos: seq<string>)
    requires |dlds| == |selected| > 0
    ensures CountSelected(dlds, selected, videos) > 0 <==> exists u :: u in videos && selected[LastIndex(dlds, u)]
  {
    if videos != [] {
      var n := |videos| - 1;
      CountPositive(dlds, selected, videos[..n]);
      assert videos == videos[..n] + [videos[n]];
      assert forall u :: u in videos ==> u in videos[..n] || u == videos[n];
      assert videos[n] in videos && forall u :: u in videos[..n] ==> u in videos;
    }
  }

  /** The counter is positive exactly if the track is in use. */
  lemma CountIsUse(dlds: seq<Download>, selected: seq<bool>, a: nat)
    requires DistinctUrls(dlds) && |selected| == |dlds| && a < |dlds|
    ensures VideosSelected(dlds, selected, a) > 0 <==> InUse(dlds, selected, a)
  {
    var us := Linkers(dlds, dlds[a].url);
    CountPositive(dlds, selected, us);
    forall v: nat | Linked(dlds, v, a) && selected[v]
      ensures dlds[v].url in us && selected[LastIndex(dlds, dlds[v].url)]
    {
      LinkersAre(dlds, dlds[a].url, dlds[v].url);
      LastIndexDistinct(dlds, v);
    }
    forall u | u in us && selected[LastIndex(dlds, u)]
      ensures InUse(dlds, selected, a)
    {
      LinkersAre(dlds, dlds[a].url, u);
      var v :| 0 <= v < |dlds| && dlds[v].url == u && dlds[v].linkedAudio == dlds[a].url != "";
      LastIndexDistinct(dlds, v);
      assert Linked(dlds, v, a);
    }
  }

  /** A click, without the maps: the clicked item and at most its audio track change. */
  lemma ClickIs(dlds: seq<Download>, warn: bool, c: Choice, i: nat, confirmed: bool)
    requires Unchained(dlds) && Fits(dlds, c) && i < |dlds| && Present(dlds, i)
    ensures var r, on := Click(dlds, warn, c, i, confirmed), c.selected[i := !c.selected[i]];
      && r.byUser == c.byUser[i := !c.selected[i]]
      && (forall k: nat :: k < |dlds| && k != i && !Linked(dlds, i, k) ==> r.selected[k] == c.selected[k])
      && (r.selected[i] == (!c.selected[i] || (warn && !confirmed && InUse(dlds, on, i))))
      && (forall a: nat :: Linked(dlds, i, a) ==>
            r.selected[a] == (r.selected[i] || (c.selected[a] && (c.byUser[a] || InUse(dlds, on, a)))))
  {
    hide LastIndex, AudioOf, VideosSelected;
    var on := c.selected[i := !c.selected[i]];
    AudioOfDistinct(dlds, i);
    CountIsUse(dlds, on, i);
    if dlds[i].linkedAudio != "" {
      var a: nat :| a < |dlds| && Linked(dlds, i, a);
      LastIndexDistinct(dlds, a);
      CountIsUse(dlds, on, a);
      assert !InUse(dlds, on, i) && !IsAudio(dlds, i);
      assert forall k: nat :: Linked(dlds, i, k) ==> k == a;
      CountIsUse(dlds, on[a := !c.selected[i]], i);
    }
  }

  /** A click on an item whose track is missing: the first item takes the track's place. */
  lemma ClickMissing(dlds: seq<Download>, warn: bool, c: Choice, i: nat, confirmed: bool)
    requires Unchained(dlds) && Fits(dlds, c) && i < |dlds| && !Present(dlds, i)
    ensures var r, now := Click(dlds, warn, c, i, confirmed), !c.selected[i];
      && r.byUser == c.byUser[i := now]
      && (forall k: nat :: 0 < k < |dlds| && k != i ==> r.selected[k] == c.selected[k])
      && r.selected[i] == now
      && (i != 0 ==>
            r.selected[0] == (now || (c.selected[0] && (c.byUser[0] || InUse(dlds, c.selected[i := now], 0)))))
  {
    hide LastIndex, AudioOf, VideosSelected;
    var now := !c.selected[i];
    var on := c.selected[i := now];
    AudioOfDistinct(dlds, i);
    forall a | 0 <= a < |dlds|
      ensures dlds[a].url != dlds[i].linkedAudio
    {
      assert !Linked(dlds, i, a);
    }
    LastIndexNone(dlds, dlds[i].linkedAudio);
    CountIsUse(dlds, on, i);
    CountIsUse(dlds, on, 0);
    assert forall v :: 0 <= v < |dlds| ==> !Linked(dlds, v, i);
    CountIsUse(dlds, on[0 := now], i);
  }

  /** A click that takes away a selected track in use, unquestioned or confirmed. */
  ghost predicate Dismissal(dlds: seq<Download>, warn: bool, c: Choice, e: Event)
    requires Fits(dlds, c) && e.item < |dlds|
  {
    c.selected[e.item] && InUse(dlds, c.selected, e.item) && (!warn || e.confirmed)
  }

  lemma UseAfterClick(dlds: seq<Download>, selected: seq<bool>, after: seq<bool>, i: nat, a: nat)
    requires Unchained(dlds) && |selected| == |after| == |dlds| && i < |dlds| && a < |dlds|
    requires forall v: nat :: v < |dlds| && v != i && dlds[v].linkedAudio != "" ==> selected[v] == after[v]
    ensures !Linked(dlds, i, a) ==> InUse(dlds, after, a) == InUse(dlds, selected, a)
    ensures Linked(dlds, i, a) && after[i] ==> InUse(dlds, after, a)
    ensures Linked(dlds, i, a) && !after[i] ==> InUse(dlds, after, a) == InUse(dlds, selected[i := false], a)
  {
    if InUse(dlds, selected, a) && !Linked(dlds, i, a) {
      var v: nat :| Linked(dlds, v, a) && selected[v];
      assert after[v];
    }
    if InUse(dlds, selected[i := false], a) && Linked(dlds, i, a) {
      var v: nat :| Linked(dlds, v, a) && selected[i := false][v];
      assert after[v];
    }
  }

  /** One click keeps the closed form exactly if it is no dismissal. */
  lemma ClickKeepsSettled(dlds: seq<Download>, warn: bool, c: Choice, e: Event)
    requires Unchained(dlds) && Fits(dlds, c) && e.item < |dlds| && Settled(dlds, c)
    requires Present(dlds, e.item) || Safe(dlds)
    ensures Settled(dlds, Click(dlds, warn, c, e.item, e.confirmed)) <==> !Dismissal(dlds, warn, c, e)
  {
    hide Click;
    var i, r := e.item, Click(dlds, warn, c, e.item, e.confirmed);
    if !Present(dlds, i) {
      MissingIsHarmless(dlds, warn, c, e);
      return;
    }
    ClickIs(dlds, warn, c, i, e.confirmed);
    var on := c.selected[i := !c.selected[i]];
    assert forall v: nat :: v < |dlds| && v != i && dlds[v].linkedAudio != "" ==> !Linked(dlds, i, v);
    forall a: nat | a < |dlds| && IsAudio(dlds, a)
      ensures a != i ==> (r.selected[a] <==> r.byUser[a] || InUse(dlds, r.selected, a))
    {
      UseAfterClick(dlds, c.selected, r.selected, i, a);
      UseAfterClick(dlds, c.selected, on, i, a);
    }
    UseAfterClick(dlds, c.selected, r.selected, i, i);
    UseAfterClick(dlds, c.selected, on, i, i);
    if Dismissal(dlds, warn, c, e) {
      assert IsAudio(dlds, i);
    }
  }

  /** In a safe list a click on an item whose track is missing touches no track and no use of one. */
  lemma MissingIsHarmless(dlds: seq<Download>, warn: bool, c: Choice, e: Event)
    requires Unchained(dlds) && Fits(dlds, c) && e.item < |dlds| && !Present(dlds, e.item) && Safe(dlds)
    ensures var r := Click(dlds, warn, c, e.item, e.confirmed);
      forall a: nat :: a < |dlds| && IsAudio(dlds, a) ==>
        && r.selected[a] == c.selected[a] && r.byUser[a] == c.byUser[a]
        && (InUse(dlds, r.selected, a) <==> InUse(dlds, c.selected, a))
    ensures !IsAudio(dlds, e.item)
  {
    hide Click;
    var i, r := e.item, Click(dlds, warn, c, e.item, e.confirmed);
    ClickMissing(dlds, warn, c, i, e.confirmed);
    assert forall v: nat, a: nat :: Linked(dlds, v, a) ==> v != i && v != 0 && a != i && a != 0;
  }

  lemma ClickKeepsNoOrphan(dlds: seq<Download>, warn: bool, c: Choice, e: Event)
    requires Unchained(dlds) && Fits(dlds, c) && e.item < |dlds| && NoOrphan(dlds, c)
    requires Present(dlds, e.item) || Safe(dlds)
    ensures NoOrphan(dlds, Click(dlds, warn, c, e.item, e.confirmed))
  {
    hide Click;
    var i, r := e.item, Click(dlds, warn, c, e.item, e.confirmed);
    if !Present(dlds, i) {
      MissingIsHarmless(dlds, warn, c, e);
      return;
    }
    ClickIs(dlds, warn, c, i, e.confirmed);
    var on := c.selected[i := !c.selected[i]];
    assert forall v: nat :: v < |dlds| && v != i && dlds[v].linkedAudio != "" ==> !Linked(dlds, i, v);
    forall a: nat | a < |dlds| && IsAudio(dlds, a) && r.selected[a] && !r.byUser[a]
      ensures InUse(dlds, r.selected, a)
    {
      UseAfterClick(dlds, c.selected, r.selected, i, a);
      UseAfterClick(dlds, c.selected, on, i, a);
    }
  }

  // ------------------------------------------------ lists that are not safe

  ghost predicate ClicksKeepNoOrphan(dlds: seq<Download>, warn: bool) {
    forall c, e: Event :: Fits(dlds, c) && e.item < |dlds| && NoOrphan(dlds, c)
      ==> NoOrphan(dlds, Click(dlds, warn, c, e.item, e.confirmed))
  }

  ghost predicate ClicksKeepSettled(dlds: seq<Download>, warn: bool) {
    forall c, e: Event :: Fits(dlds, c) && e.item < |dlds| && Settled(dlds, c) && !Dismissal(dlds, warn, c, e)
      ==> Settled(dlds, Click(dlds, warn, c, e.item, e.confirmed))
  }

  /** Clicks keep the tracks in order, from every choice that has them in order, exactly in the safe
      lists. */
  lemma SafeIsExact(dlds: seq<Download>, warn: bool)
    requires Unchained(dlds)
    ensures ClicksKeepNoOrphan(dlds, warn) <==> Safe(dlds)
    ensures ClicksKeepSettled(dlds, warn) <==> Safe(dlds)
  {
    hide Click, NoOrphan, Settled, Dismissal, Unchained;
    if Safe(dlds) {
      hide Safe;
      forall c, e: Event | Fits(dlds, c) && e.item < |dlds| && NoOrphan(dlds, c)
        ensures NoOrphan(dlds, Click(dlds, warn, c, e.item, e.confirmed))
      {
        ClickKeepsNoOrphan(dlds, warn, c, e);
      }
      forall c, e: Event | Fits(dlds, c) && e.item < |dlds| && Settled(dlds, c) && !Dismissal(dlds, warn, c, e)
        ensures Settled(dlds, Click(dlds, warn, c, e.item, e.confirmed))
      {
        ClickKeepsSettled(dlds, warn, c, e);
      }
    } else {
      var v :| 0 <= v < |dlds| && !Present(dlds, v);
      var k :| 0 <= k < |dlds| && (Linked(dlds, k, 0) || Linked(dlds, 0, k));
      var c := if Linked(dlds, k, 0) then UnsafeSelect(dlds) else UnsafeUnselect(dlds, v, k);
      if Linked(dlds, k, 0) {
        SelectingOrphans(dlds, warn, v, k);
      } else {
        UnselectingOrphans(dlds, warn, v, k);
      }
      assert Fits(dlds, c) && Event(v, false).item < |dlds|;
      assert !NoOrphan(dlds, Click(dlds, warn, c, Event(v, false).item, Event(v, false).confirmed));
      assert !Settled(dlds, Click(dlds, warn, c, Event(v, false).item, Event(v, false).confirmed));
    }
  }

  /** Nothing selected. */
  function UnsafeSelect(dlds: seq<Download>): Choice {
    Choice(seq(|dlds|, _ => false), seq(|dlds|, _ => false))
  }

  /** The first item, its track and a video selected, none by the user himself. */
  function UnsafeUnselect(dlds: seq<Download>, v: nat, a: nat): Choice {
    Choice(seq(|dlds|, k => k == 0 || k == a || k == v), seq(|dlds|, _ => false))
  }

  /** The first item a track: selecting a video whose track is missing selects it for no video. */
  lemma SelectingOrphans(dlds: seq<Download>, warn: bool, v: nat, w: nat)
    requires Unchained(dlds) && v < |dlds| && !Present(dlds, v) && Linked(dlds, w, 0)
    ensures var c := UnsafeSelect(dlds);
      var r := Click(dlds, warn, c, v, false);
      && NoOrphan(dlds, c) && Settled(dlds, c) && !Dismissal(dlds, warn, c, Event(v, false))
      && !NoOrphan(dlds, r) && !Settled(dlds, r)
  {
    hide Click;
    var c := UnsafeSelect(dlds);
    ClickMissing(dlds, warn, c, v, false);
    var r := Click(dlds, warn, c, v, false);
    assert v != 0 && r.selected[0] && !r.byUser[0];
    assert IsAudio(dlds, 0) && !InUse(dlds, r.selected, 0);
  }

  /** The first item a video: unselecting a video whose track is missing unselects the first item too,
      and leaves the first item's track behind. */
  lemma UnselectingOrphans(dlds: seq<Download>, warn: bool, v: nat, a: nat)
    requires Unchained(dlds) && v < |dlds| && !Present(dlds, v) && Linked(dlds, 0, a)
    ensures var c := UnsafeUnselect(dlds, v, a);
      var r := Click(dlds, warn, c, v, false);
      && NoOrphan(dlds, c) && Settled(dlds, c) && !Dismissal(dlds, warn, c, Event(v, false))
      && !NoOrphan(dlds, r) && !Settled(dlds, r)
  {
    hide Click;
    var c := UnsafeUnselect(dlds, v, a);
    ClickMissing(dlds, warn, c, v, false);
    var r := Click(dlds, warn, c, v, false);
    assert v != 0 && a != 0 && a != v;
    assert InUse(dlds, c.selected, a);
    forall b: nat | b < |dlds| && IsAudio(dlds, b) && b != a
      ensures !c.selected[b] && !InUse(dlds, c.selected, b)
    {
    }
    assert r.selected[a] && !r.byUser[a] && IsAudio(dlds, a);
    assert !InUse(dlds, r.selected, a);
  }

  /** A choice and a list that is not safe, as a session may meet them. */
  lemma MissingAudio(warn: bool, confirmed: bool)
    ensures
      var dlds := [Download("a", ""), Download("w", "a"), Download("v", "m")];
      var c := Choice([false, false, false], [false, false, false]);
      Settled(dlds, c) && NoOrphan(dlds, c) && !NoOrphan(dlds, Click(dlds, warn, c, 2, confirmed))
  {
    hide Click;
    var dlds := [Download("a", ""), Download("w", "a"), Download("v", "m")];
    var c := Choice([false, false, false], [false, false, false]);
    assert Linked(dlds, 1, 0);
    ClickMissing(dlds, warn, c, 2, confirmed);
    assert !InUse(dlds, Click(dlds, warn, c, 2, confirmed).selected, 0);
  }

  // ----------------------------------------------------------- whole runs

  /** On every run no track is left selected on its own account. */
  lemma {:induction false} SessionKeepsNoOrphan(dlds: seq<Download>, warn: bool, c: Choice, es: seq<Event>)
    requires Unchained(dlds) && Safe(dlds) && Fits(dlds, c) && Events(dlds, es) && NoOrphan(dlds, c)
    ensures NoOrphan(dlds, Session(dlds, warn, c, es))
    decreases |es|
  {
    if es != [] {
      ClickKeepsNoOrphan(dlds, warn, c, es[0]);
      SessionKeepsNoOrphan(dlds, warn, Click(dlds, warn, c, es[0].item, es[0].confirmed), es[1..]);
    }
  }

  /** While the user is warned and never insists, the closed form holds. */
  lemma {:induction false} SessionKeepsSettled(dlds: seq<Download>, c: Choice, es: seq<Event>)
    requires Unchained(dlds) && Safe(dlds) && Fits(dlds, c) && Events(dlds, es) && Settled(dlds, c)
    requires Unconfirmed(es)
    ensures Settled(dlds, Session(dlds, true, c, es))
    decreases |es|
  {
    if es != [] {
      ClickKeepsSettled(dlds, true, c, es[0]);
      SessionKeepsSettled(dlds, Click(dlds, true, c, es[0].item, es[0].confirmed), es[1..]);
    }
  }

  /** Everything selected and nothing marked. */
  function Opening(dlds: seq<Download>): Choice {
    Choice(seq(|dlds|, _ => true), seq(|dlds|, _ => false))
  }

  /** The dialog opens with everything selected and nothing marked: that is settled. */
  lemma OpeningChoice(dlds: seq<Download>)
    ensures Settled(dlds, Opening(dlds)) && NoOrphan(dlds, Opening(dlds)) && PinnedSelected(Opening(dlds))
  {
    forall a: nat | a < |dlds| && IsAudio(dlds, a)
      ensures InUse(dlds, Opening(dlds).selected, a)
    {
      var v: nat :| Linked(dlds, v, a);
      assert Opening(dlds).selected[v];
    }
  }

  /** Right from the opening, a click on any track, confirmed or unquestioned, takes it away from the
      selected videos that use it. */
  lemma OpeningDismissal(dlds: seq<Download>, warn: bool, a: nat, confirmed: bool)
    requires Unchained(dlds) && a < |dlds| && IsAudio(dlds, a)
    ensures Settled(dlds, Session(dlds, warn, Opening(dlds), [Event(a, confirmed)])) <==> warn && !confirmed
  {
    hide Click;
    var es, r := [Event(a, confirmed)], Click(dlds, warn, Opening(dlds), a, confirmed);
    OpeningChoice(dlds);
    var v: nat :| Linked(dlds, v, a);
    assert Opening(dlds).selected[v];
    ClickKeepsSettled(dlds, warn, Opening(dlds), es[0]);
    assert Session(dlds, warn, Opening(dlds), es) == Session(dlds, warn, r, es[1..]) == r;
  }

  // ------------------------------ runs from the opening that go wrong

  lemma {:induction false} SessionAppend(dlds: seq<Download>, warn: bool, c: Choice, es: seq<Event>, e: Event)
    requires Fits(dlds, c) && Events(dlds, es) && e.item < |dlds|
    ensures Session(dlds, warn, c, es + [e])
         == Click(dlds, warn, Session(dlds, warn, c, es), e.item, e.confirmed)
    decreases |es|
  {
    hide Click;
    if es == [] {
      assert es + [e] == [e];
    } else {
      assert (es + [e])[1..] == es[1..] + [e];
      SessionAppend(dlds, warn, Click(dlds, warn, c, es[0].item, es[0].confirmed), es[1..], e);
    }
  }

  /** Unconfirmed clicks on the first `n` items that use track `a`, one of them left out. */
  function Unselecting(dlds: seq<Download>, a: nat, kept: nat, n: nat): (es: seq<Event>)
    requires n <= |dlds|
    ensures Events(dlds, es) && Unconfirmed(es)
  {
    if n == 0 then []
    else Unselecting(dlds, a, kept, n - 1) + if Linked(dlds, n - 1, a) && n - 1 != kept then [Event(n - 1, false)] else []
  }

  /** All items with a track are selected except the first `n` that use track `a`, one of them left out;
      the user selected nothing himself. */
  predicate Unselected(dlds: seq<Download>, c: Choice, a: nat, kept: nat, n: nat)
    requires Fits(dlds, c)
  {
    && (forall k :: 0 <= k < |dlds| ==> !c.byUser[k])
    && forall v :: 0 <= v < |dlds| && dlds[v].linkedAudio != "" ==>
         (c.selected[v] <==> !(v < n && Linked(dlds, v, a) && v != kept))
  }

  lemma {:induction false} RunUnselecting(dlds: seq<Download>, warn: bool, a: nat, kept: nat, n: nat)
    requires Unchained(dlds) && n <= |dlds| && a < |dlds|
    ensures var c := Session(dlds, warn, Opening(dlds), Unselecting(dlds, a, kept, n));
      Unselected(dlds, c, a, kept, n) && (Linked(dlds, kept, a) ==> c.selected[a])
  {
    hide Click, Unchained;
    if n > 0 {
      hide Session, Opening, Unselected, Unselecting, Linked;
      UnselectingNext(dlds, a, kept, n);
      RunUnselecting(dlds, warn, a, kept, n - 1);
      var es := Unselecting(dlds, a, kept, n - 1);
      var c, w := Session(dlds, warn, Opening(dlds), es), n - 1;
      if Linked(dlds, w, a) && w != kept {
        SessionAppend(dlds, warn, Opening(dlds), es, Event(w, false));
        UnselectStep(dlds, warn, c, a, kept, w);
      } else {
        NothingUnselected(dlds, c, a, kept, w);
      }
    }
  }

  lemma UnselectingNext(dlds: seq<Download>, a: nat, kept: nat, n: nat)
    requires 0 < n <= |dlds|
    ensures var es := Unselecting(dlds, a, kept, n - 1);
      Unselecting(dlds, a, kept, n) == if Linked(dlds, n - 1, a) && n - 1 != kept then es + [Event(n - 1, false)] else es
  {
  }

  lemma NothingUnselected(dlds: seq<Download>, c: Choice, a: nat, kept: nat, w: nat)
    requires w < |dlds| && (!Linked(dlds, w, a) || w == kept) && Fits(dlds, c) && Unselected(dlds, c, a, kept, w)
    ensures Unselected(dlds, c, a, kept, w + 1)
  {
  }

  lemma UnselectStep(dlds: seq<Download>, warn: bool, c: Choice, a: nat, kept: nat, w: nat)
    requires Unchained(dlds) && Fits(dlds, c) && Linked(dlds, w, a) && w != kept
    requires Unselected(dlds, c, a, kept, w) && (Linked(dlds, kept, a) ==> c.selected[a])
    ensures var r := Click(dlds, warn, c, w, false);
      Unselected(dlds, r, a, kept, w + 1) && (Linked(dlds, kept, a) ==> r.selected[a])
  {
    hide Click;
    ClickIs(dlds, warn, c, w, false);
    var on := c.selected[w := false];
    assert !IsAudio(dlds, w) && !InUse(dlds, on, w);
    if Linked(dlds, kept, a) {
      assert on[kept];
      assert InUse(dlds, on, a);
    }
  }

  /** From the opening, a run of unconfirmed clicks that ends with an orphan. */
  function OrphaningRun(dlds: seq<Download>, v: nat, k: nat): (es: seq<Event>)
    requires v < |dlds|
    ensures Events(dlds, es) && Unconfirmed(es)
  {
    if Linked(dlds, k, 0) then Unselecting(dlds, 0, |dlds|, |dlds|) + [Event(v, false)] + [Event(v, false)]
    else Unselecting(dlds, k, 0, |dlds|) + [Event(v, false)]
  }

  lemma RunOrphans(dlds: seq<Download>, warn: bool, v: nat, k: nat)
    requires Unchained(dlds) && v < |dlds| && !Present(dlds, v) && (Linked(dlds, k, 0) || Linked(dlds, 0, k))
    ensures var r := Session(dlds, warn, Opening(dlds), OrphaningRun(dlds, v, k));
      !NoOrphan(dlds, r) && !Settled(dlds, r)
  {
    hide Click, Session, Unselecting;
    if Linked(dlds, k, 0) {
      var es := Unselecting(dlds, 0, |dlds|, |dlds|);
      var c := Session(dlds, warn, Opening(dlds), es);
      RunUnselecting(dlds, warn, 0, |dlds|, |dlds|);
      SessionAppend(dlds, warn, Opening(dlds), es, Event(v, false));
      SessionAppend(dlds, warn, Opening(dlds), es + [Event(v, false)], Event(v, false));
      SelectAgain(dlds, warn, c, v, k);
    } else {
      var es := Unselecting(dlds, k, 0, |dlds|);
      var c := Session(dlds, warn, Opening(dlds), es);
      RunUnselecting(dlds, warn, k, 0, |dlds|);
      SessionAppend(dlds, warn, Opening(dlds), es, Event(v, false));
      UnselectFirst(dlds, warn, c, v, k);
    }
  }

  lemma SelectAgain(dlds: seq<Download>, warn: bool, c: Choice, v: nat, w: nat)
    requires Unchained(dlds) && Fits(dlds, c) && v < |dlds| && !Present(dlds, v) && Linked(dlds, w, 0)
    requires Unselected(dlds, c, 0, |dlds|, |dlds|)
    ensures var r := Click(dlds, warn, Click(dlds, warn, c, v, false), v, false);
      !NoOrphan(dlds, r) && !Settled(dlds, r)
  {
    hide Click;
    var m := Click(dlds, warn, c, v, false);
    ClickMissing(dlds, warn, c, v, false);
    ClickMissing(dlds, warn, m, v, false);
    var r := Click(dlds, warn, m, v, false);
    assert v != 0 && r.selected[0] && !r.byUser[0] && IsAudio(dlds, 0);
    assert !InUse(dlds, r.selected, 0);
  }

  lemma UnselectFirst(dlds: seq<Download>, warn: bool, c: Choice, v: nat, a: nat)
    requires Unchained(dlds) && Fits(dlds, c) && v < |dlds| && !Present(dlds, v) && Linked(dlds, 0, a)
    requires Unselected(dlds, c, a, 0, |dlds|) && c.selected[a]
    ensures var r := Click(dlds, warn, c, v, false);
      !NoOrphan(dlds, r) && !Settled(dlds, r)
  {
    hide Click;
    ClickMissing(dlds, warn, c, v, false);
    var r := Click(dlds, warn, c, v, false);
    assert v != 0 && a != 0 && a != v;
    assert !InUse(dlds, c.selected[v := false], 0);
    assert r.selected[a] && !r.byUser[a] && IsAudio(dlds, a);
    assert !InUse(dlds, r.selected, a);
  }

  ghost predicate RunsKeepNoOrphan(dlds: seq<Download>, warn: bool) {
    forall es :: Events(dlds, es) ==> NoOrphan(dlds, Session(dlds, warn, Opening(dlds), es))
  }

  ghost predicate RunsKeepSettled(dlds: seq<Download>) {
    forall es :: Events(dlds, es) && Unconfirmed(es)
      ==> Settled(dlds, Session(dlds, true, Opening(dlds), es))
  }

  /** From the opening, every run keeps the tracks in order exactly if the list is safe. */
  lemma SafeRuns(dlds: seq<Download>, warn: bool)
    requires Unchained(dlds)
    ensures RunsKeepNoOrphan(dlds, warn) <==> Safe(dlds)
    ensures RunsKeepSettled(dlds) <==> Safe(dlds)
  {
    hide Session, NoOrphan, Settled, Unchained, OrphaningRun;
    OpeningChoice(dlds);
    if Safe(dlds) {
      hide Safe;
      forall es | Events(dlds, es)
        ensures NoOrphan(dlds, Session(dlds, warn, Opening(dlds), es))
      {
        SessionKeepsNoOrphan(dlds, warn, Opening(dlds), es);
      }
      forall es | Events(dlds, es) && Unconfirmed(es)
        ensures Settled(dlds, Session(dlds, true, Opening(dlds), es))
      {
        SessionKeepsSettled(dlds, Opening(dlds), es);
      }
    } else {
      var v :| 0 <= v < |dlds| && !Present(dlds, v);
      var k :| 0 <= k < |dlds| && (Linked(dlds, k, 0) || Linked(dlds, 0, k));
      RunOrphans(dlds, warn, v, k);
      RunOrphans(dlds, true, v, k);
    }
  }

  /** Selecting an item whose track is not missing and unselecting it again restores the whole choice,
      audio track included. */
  lemma ClickTwice(dlds: seq<Download>, warn: bool, c: Choice, i: nat, x: bool, y: bool)
    requires Unchained(dlds) && Fits(dlds, c) && i < |dlds| && Settled(dlds, c) && PinnedSelected(c)
    requires Present(dlds, i)
    requires !c.selected[i]
    ensures Click(dlds, warn, Click(dlds, warn, c, i, x), i, y) == c
  {
    hide Click;
    var m := Click(dlds, warn, c, i, x);
    var r := Click(dlds, warn, m, i, y);
    ClickIs(dlds, warn, c, i, x);
    ClickIs(dlds, warn, m, i, y);
    var off := m.selected[i := false];
    assert forall v: nat :: v < |dlds| && v != i && dlds[v].linkedAudio != "" ==> !Linked(dlds, i, v);
    UseAfterClick(dlds, c.selected, off, i, i);
    assert !Linked(dlds, i, i);
    assert InUse(dlds, c.selected, i) ==> IsAudio(dlds, i);
    forall k: nat | k < |dlds|
      ensures r.selected[k] == c.selected[k]
    {
      if Linked(dlds, i, k) {
        assert IsAudio(dlds, k);
        UseAfterClick(dlds, c.selected, off, i, k);
        assert c.selected[i := false] == c.selected;
      }
    }
    assert r.selected == c.selected && r.byUser == c.byUser;
  }
  /** If the item's track is missing, exactly if the first item need not be unselected with it. */
  lemma ClickTwiceMissing(dlds: seq<Download>, warn: bool, c: Choice, i: nat, x: bool, y: bool)
    requires Unchained(dlds) && Fits(dlds, c) && i < |dlds| && Settled(dlds, c) && PinnedSelected(c)
    requires !Present(dlds, i) && !c.selected[i]
    ensures Click(dlds, warn, Click(dlds, warn, c, i, x), i, y) == c
       <==> (c.selected[0] ==> c.byUser[0] || InUse(dlds, c.selected, 0))
  {
    hide Click;
    var m := Click(dlds, warn, c, i, x);
    var r := Click(dlds, warn, m, i, y);
    ClickMissing(dlds, warn, c, i, x);
    ClickMissing(dlds, warn, m, i, y);
    var off := m.selected[i := false];
    assert forall v :: 0 <= v < |dlds| && Linked(dlds, v, 0) ==> v != i && v != 0;
    assert InUse(dlds, off, 0) == InUse(dlds, c.selected, 0);
    assert InUse(dlds, c.selected, 0) ==> IsAudio(dlds, 0);
    assert r.byUser == c.byUser;
    if c.selected[0] ==> c.byUser[0] || InUse(dlds, c.selected, 0) {
      assert forall k :: 0 <= k < |dlds| ==> r.selected[k] == c.selected[k];
      assert r.selected == c.selected;
    }
  }
}
