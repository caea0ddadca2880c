/** The dialog that lists a page's videos and audio tracks: URL maps, check boxes, and the change
    notification that re-enters itself while the dialog changes a box. */
module FlvSelection {
  import opened LinkedAudio

  /** The three URL maps of the dialog. */
  datatype Maps = Maps(index: map<string, nat>, audio: map<string, string>, videos: map<string, seq<string>>) {

    function IndexOf(url: string): nat {
      if url in index then index[url] else 0
    }

    function VideosOf(audioUrl: string): seq<string> {
      if audioUrl in videos then videos[audioUrl] else []
    }

    /** The maps say what a download list says. */
    ghost predicate For(ds: seq<Download>) {
      forall u :: Says(ds, u)
    }

    ghost predicate Says(ds: seq<Download>, u: string) {
      && IndexOf(u) == LastIndex(ds, u)
      && (u in audio <==> AudioOf(ds, u) != "")
      && (u in audio ==> audio[u] == AudioOf(ds, u))
      && VideosOf(u) == Linkers(ds, u)
    }

    function Add(i: nat, d: Download): Maps {
      if d.linkedAudio == "" then this.(index := index[d.url := i])
      else Maps(index[d.url := i], audio[d.url := d.linkedAudio],
                videos[d.linkedAudio := VideosOf(d.linkedAudio) + [d.url]])
    }

    lemma AddSays(ds: seq<Download>, d: Download)
      requires For(ds)
      ensures Add(|ds|, d).For(ds + [d])
    {
      assert (ds + [d])[..|ds|] == ds;
      forall u
        ensures Add(|ds|, d).Says(ds + [d], u)
      {
        assert Says(ds, u);
      }
    }
  }

  class FlvSelectionDlg {
    const dlds: seq<Download>
    var selected: seq<bool>
    var selectedByUser: seq<bool>
    var checks: seq<bool>
    var urlToIndex: map<string, nat>
    var videoToAudio: map<string, string>
    var audioToVideo: map<string, seq<string>>
    var changing: bool
    var initialized: bool
    var showSelectedNote: bool
    var showUnselectedWarning: bool

    constructor (dlds: seq<Download>, preset: seq<bool>, showSelectedNote: bool, showUnselectedWarning: bool)
      ensures this.dlds == dlds && selected == preset && !initialized && !changing
      ensures this.showSelectedNote == showSelectedNote && this.showUnselectedWarning == showUnselectedWarning
      ensures urlToIndex == map[] && videoToAudio == map[] && audioToVideo == map[]
      ensures |checks| == |dlds|
    {
      this.dlds, selected, selectedByUser := dlds, preset, [];
      checks := seq(|dlds|, _ => false);
      urlToIndex, videoToAudio, audioToVideo := map[], map[], map[];
      changing, initialized := false, false;
      this.showSelectedNote, this.showUnselectedWarning := showSelectedNote, showUnselectedWarning;
    }

    ghost function UrlMaps(): Maps
      reads this
    {
      Maps(urlToIndex, videoToAudio, audioToVideo)
    }

    /** The boxes shown are the selection kept. */
    ghost predicate Valid()
      reads this
    {
      && initialized && Fits(dlds, State()) && checks == selected
      && UrlMaps().For(dlds)
    }

    ghost function State(): Choice
      reads this
    {
      Choice(selected, selectedByUser)
    }

    method OnInitDialog()
      requires !initialized && urlToIndex == map[] && videoToAudio == map[] && audioToVideo == map[]
      requires |checks| == |dlds|
      modifies this
      ensures Valid() && !changing
      ensures selectedByUser == seq(|dlds|, _ => false)
      ensures selected == if |old(selected)| >= |dlds| then old(selected)[..|dlds|]
                          else old(selected) + seq(|dlds| - |old(selected)|, _ => true)
      ensures showUnselectedWarning == old(showUnselectedWarning)
    {
      changing := true;
      if |selected| != |dlds| {
        selected := if |selected| >= |dlds| then selected[..|dlds|]
                    else selected + seq(|dlds| - |selected|, _ => true);
      }
      selectedByUser := seq(|selected|, _ => false);
      assert old(|selected|) == |dlds| ==> old(selected)[..|dlds|] == old(selected);
      BuildMaps();
      ghost var sel, marks, warn := selected, selectedByUser, showUnselectedWarning;
      for i := 0 to |dlds|
        invariant !initialized && changing && UrlMaps().For(dlds)
        invariant selected == sel && selectedByUser == marks && showUnselectedWarning == warn
        invariant |checks| == |dlds| && forall k :: 0 <= k < i ==> checks[k] == sel[k]
      {
        SetItemState(i, selected[i]);
      }
      assert checks == selected;
      changing := false;
      initialized := true;
    }

    method BuildMaps()
      requires urlToIndex == map[] && videoToAudio == map[] && audioToVideo == map[]
      modifies this`urlToIndex, this`videoToAudio, this`audioToVideo
      ensures UrlMaps().For(dlds)
    {
      for i := 0 to |dlds|
        invariant UrlMaps().For(dlds[..i])
      {
        var dl := dlds[i];
        UrlMaps().AddSays(dlds[..i], dl);
        assert dlds[..i + 1] == dlds[..i] + [dl];
        ghost var next := UrlMaps().Add(i, dl);
        urlToIndex := urlToIndex[dl.url := i];
        if dl.linkedAudio != "" {
          videoToAudio := videoToAudio[dl.url := dl.linkedAudio];
          var known := if dl.linkedAudio in audioToVideo then audioToVideo[dl.linkedAudio] else [];
          audioToVideo := audioToVideo[dl.linkedAudio := known + [dl.url]];
        }
        assert UrlMaps() == next;
      }
      assert dlds[..|dlds|] == dlds;
    }

    /** The list control changes a box and notifies the dialog if it was different. */
    method SetItemState(i: nat, check: bool)
      requires changing || !initialized
      requires i < |dlds| == |checks| == |selected|
      modifies this`checks, this`selected, this`selectedByUser, this`urlToIndex,
        this`changing, this`showSelectedNote
      ensures checks == old(checks)[i := check]
      ensures selected == if old(initialized && checks[i] != check) then old(selected)[i := check] else old(selected)
      ensures selectedByUser == old(selectedByUser) && changing == old(changing)
      ensures urlToIndex == old(urlToIndex) && showSelectedNote == old(showSelectedNote)
      decreases 1
    {
      var was := checks[i];
      checks := checks[i := check];
      if was != check {
        OnItemChanged(i, was, check, false);
      }
    }

    /** The notification of a changed box. Under `changing` it only notes the new state. */
    method OnItemChanged(i: nat, was: bool, now: bool, confirmed: bool)
      requires i < |dlds| == |checks| == |selected|
      requires !initialized || changing ||
        (Fits(dlds, State()) && UrlMaps().For(dlds)
         && selected[i] == was && checks == selected[i := now])
      modifies this`checks, this`selected, this`selectedByUser, this`urlToIndex,
        this`changing, this`showSelectedNote
      ensures old(!initialized) ==> unchanged(this)
      ensures old(initialized && changing) ==>
        selected == (if was != now then old(selected)[i := now] else old(selected))
        && unchanged(`checks, `selectedByUser, `urlToIndex, `changing, `showSelectedNote)
      ensures old(initialized && !changing) ==>
        && Valid() && !changing
        && State() == if was != now then Click(dlds, showUnselectedWarning, old(State()), i, confirmed) else old(State())
      decreases if changing || !initialized then 0 else 4
    {
      if !initialized {
        return;
      }
      if now != was {
        selected := selected[i := now];
      }
      if changing {
        return;
      }
      assert was == now ==> selected[i := now] == selected;
      if was != now {
        selectedByUser := selectedByUser[i := now];
        if now {
          SelectLinkedAudioDownload(i, true);
        } else {
          SelectLinkedAudioDownload(i, false);
          ShowLinkedAudioUnselectedWarningIfRequired(i, confirmed);
        }
      }
    }

    /** The index stored for a URL; like the map it comes from, it makes up a zero for an unknown one. */
    method LookUp(url: string) returns (index: nat)
      requires UrlMaps().For(dlds)
      modifies this`urlToIndex
      ensures UrlMaps().For(dlds) && index == LastIndex(dlds, url)
    {
      ghost var before := UrlMaps();
      assert before.Says(dlds, url);
      if url !in urlToIndex {
        urlToIndex := urlToIndex[url := 0];
      }
      forall u
        ensures UrlMaps().Says(dlds, u)
      {
        assert before.Says(dlds, u);
      }
      index := urlToIndex[url];
    }

    method SelectLinkedAudioDownload(i: nat, select: bool)
      requires Valid() && !changing && i < |dlds|
      modifies this`checks, this`selected, this`selectedByUser, this`urlToIndex,
        this`changing, this`showSelectedNote
      ensures Valid() && !changing && State() == FollowAudio(dlds, old(State()), i, select)
      decreases 3
    {
      hide LastIndex, AudioOf, Linkers, CountSelected;
      assert UrlMaps().Says(dlds, dlds[i].url);
      if dlds[i].url !in videoToAudio {
        return;
      }
      var index := LookUp(videoToAudio[dlds[i].url]);
      if select == selected[index] {
        assert selected[index := select] == selected;
        return;
      }
      if !select {
        var inUse := 0;
        if !selectedByUser[index] {
          inUse := GetLinkedAudioVideoDownloadCountSelected(index);
        }
        if selectedByUser[index] || inUse != 0 {
          return;
        }
      }
      changing := true;
      SetItemState(index, select);
      changing := false;
      if select && showSelectedNote {
        showSelectedNote := false;
      }
    }

    method ShowLinkedAudioUnselectedWarningIfRequired(i: nat, confirmed: bool)
      requires Valid() && !changing && i < |dlds|
      modifies this`checks, this`selected, this`selectedByUser, this`urlToIndex,
        this`changing, this`showSelectedNote
      ensures Valid() && !changing && selectedByUser == old(selectedByUser)
      ensures selected ==
        if showUnselectedWarning && VideosSelected(dlds, old(selected), i) > 0 && !confirmed
        then old(selected)[i := true] else old(selected)
      decreases 3
    {
      hide LastIndex, AudioOf, Linkers, CountSelected;
      if !showUnselectedWarning {
        return;
      }
      var inUse := GetLinkedAudioVideoDownloadCountSelected(i);
      if inUse == 0 {
        return;
      }
      if !confirmed {
        assert selected[i] ==> selected[i := true] == selected;
        changing := true;
        SetItemState(i, true);
        changing := false;
      }
    }

    method GetLinkedAudioVideoDownloadCountSelected(a: nat) returns (count: nat)
      requires Valid() && a < |dlds|
      modifies this`urlToIndex
      ensures Valid() && count == VideosSelected(dlds, selected, a)
    {
      assert UrlMaps().Says(dlds, dlds[a].url);
      var videos := if dlds[a].url in audioToVideo then audioToVideo[dlds[a].url] else [];
      count := 0;
      for k := 0 to |videos|
        invariant Valid() && count == CountSelected(dlds, selected, videos[..k])
      {
        var index := LookUp(videos[k]);
        assert videos[..k + 1][..k] == videos[..k];
        if selected[index] {
          count := count + 1;
        }
      }
      assert videos[..|videos|] == videos;
    }

    /** The user clicks a box. */
    method UserClick(i: nat, confirmed: bool)
      requires Valid() && !changing && i < |dlds|
      modifies this`checks, this`selected, this`selectedByUser, this`urlToIndex,
        this`changing, this`showSelectedNote
      ensures Valid() && !changing
      ensures State() == Click(dlds, showUnselectedWarning, old(State()), i, confirmed)
    {
      var was := checks[i];
      checks := checks[i := !was];
      OnItemChanged(i, was, !was, confirmed);
    }

    /** A whole session of clicks. */
    method UserClicks(es: seq<Event>)
      requires Valid() && !changing && Events(dlds, es)
      modifies this`checks, this`selected, this`selectedByUser, this`urlToIndex,
        this`changing, this`showSelectedNote
      ensures Valid() && !changing
      ensures State() == Session(dlds, showUnselectedWarning, old(State()), es)
    {
      hide Click;
      ghost var c := State();
      assert es[0..] == es;
      for i := 0 to |es|
        invariant Valid() && !changing && Events(dlds, es[i..])
        invariant Session(dlds, showUnselectedWarning, State(), es[i..]) == Session(dlds, showUnselectedWarning, c, es)
      {
        assert es[i..][0] == es[i] && es[i..][1..] == es[i + 1..];
        UserClick(es[i].item, es[i].confirmed);
      }
    }
  }
}
