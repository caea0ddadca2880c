/** The batch download dialog. What it answers is specified without any cache, from the values its
    controls show; the dialog itself keeps two lists and a flag and must agree with that. */
module BatchDialog {

  import opened Options

  /** What a template, a set of numbers and a range of letters expand to. */
  datatype Expansion = Expansion(ok: bool, list: seq<string>)

  /** The services the dialog relies on: expanding a template, accepting a URL, refusing a file name. */
  datatype World = World(
    create: (string, string, char, char) -> Expansion,
    accepts: string -> bool,
    badName: string -> bool)

  const LAST_LETTER: nat := 25

  /** The values shown: `from` and `to` are the letters chosen, counted from 'A'. Without a first letter
      `from` is -1, without a second one `to` is `from`. */
  datatype Controls = Controls(url: string, numbers: string, from: int, to: int, saveAs: string, auto: bool)

  predicate InRange(c: Controls) {
    -1 <= c.from < LAST_LETTER && c.from <= c.to <= LAST_LETTER
  }

  datatype Event =
    | EditUrl(text: string)
    | EditNumbers(text: string)
    | AssignNumbers(ok: bool, text: string)
    | SelectFrom(letter: nat)
    | SelectTo(position: nat)
    | EditSaveAs(text: string)
    | SetAuto(on: bool)
    | Results
    | QuerySize(authOk: bool)
    | Accept(authOk: bool, folderOk: bool)

  /** A download to create: its URL, and the file name if the dialog gives one. */
  datatype Task = Task(url: string, name: Option<string>)

  datatype Reply =
    | Silent
    | Rejected
    | Shown(list: seq<string>)
    | Queried(urls: Option<seq<string>>)
    | Handed(record: string, tasks: seq<Task>)

  /** Events the controls can produce: a letter that is offered, a position that is listed. */
  predicate Possible(c: Controls, e: Event) {
    match e
    case SelectFrom(letter) => letter < LAST_LETTER
    case SelectTo(position) => c.from + 1 + position <= LAST_LETTER
    case _ => true
  }

  function Letter(n: int): char
    requires -1 <= n <= LAST_LETTER
  {
    ('A' as int + n) as char
  }

  // ------------------------------------------------ the letters kept in the settings

  datatype Letters = Letters(from: int, to: int)

  /** The letters selected for the two positions found in the settings. A second position that no list
      can have resets both; one that this list does not have, or a first one, selects nothing. */
  function Restored(az1: nat, az2: nat): (l: Letters)
    ensures az2 >= LAST_LETTER ==> l == Letters(0, LAST_LETTER)
    ensures -1 <= l.from < LAST_LETTER && l.from <= l.to <= LAST_LETTER
  {
    var a, z := if az2 >= LAST_LETTER then 0 else az1, if az2 >= LAST_LETTER then LAST_LETTER - 1 else az2;
    var from := if a < LAST_LETTER then a else -1;
    Letters(from, if z < LAST_LETTER - from then from + 1 + z else from)
  }

  /** A position, -1 for none, as one half of the double word in the settings. */
  function Word(position: int): (w: nat)
    ensures 0 <= position < 0x1_0000 ==> w == position
    ensures position == -1 ==> w == 0xffff
  {
    position % 0x1_0000
  }

  /** The letters chosen come back the next time exactly if there is a second one, and it is not the
      twenty-sixth of the list that is shown without a first letter. */
  lemma LettersRestored(c: Controls)
    requires InRange(c)
    ensures Restored(Word(c.from), Word(c.to - c.from - 1)) == Letters(c.from, c.to)
       <==> c.from < c.to <= c.from + LAST_LETTER
  {
  }

  // ------------------------------------------------ the cacheless dialog

  function Update(c: Controls, e: Event): (r: Controls)
    requires InRange(c) && Possible(c, e)
    ensures InRange(r)
  {
    match e
    case EditUrl(text) => c.(url := text)
    case EditNumbers(text) => c.(numbers := text)
    case AssignNumbers(ok, text) => if ok then c.(numbers := text) else c
    case SelectFrom(letter) =>
      c.(from := letter, to := if c.from < c.to && letter < c.to then c.to else LAST_LETTER)
    case SelectTo(position) => c.(to := c.from + 1 + position)
    case EditSaveAs(text) => c.(saveAs := text)
    case SetAuto(on) => c.(auto := on)
    case _ => c
  }

  function Expand(w: World, c: Controls, template: string): Expansion
    requires InRange(c)
  {
    w.create(template, c.numbers, Letter(c.from), Letter(c.to))
  }

  /** Are the current values good enough to expand the URL? */
  predicate Expandable(w: World, c: Controls)
    requires InRange(c)
  {
    w.accepts(c.url) && Expand(w, c, c.url).ok
  }

  function Named(urls: seq<string>, names: seq<string>): (ts: seq<Task>)
    requires names == [] || |names| == |urls|
    ensures |ts| == |urls|
    ensures forall i :: 0 <= i < |ts| ==> ts[i] == Task(urls[i], if names == [] then None else Some(names[i]))
  {
    seq(|urls|, i requires 0 <= i < |urls| => Task(urls[i], if names == [] then None else Some(names[i])))
  }

  /** The names the save-as template expands to, none for an empty template. */
  function Names(w: World, c: Controls): seq<string>
    requires InRange(c)
  {
    if c.auto || c.saveAs == "" then [] else Expand(w, c, c.saveAs).list
  }

  /** There is no template, or it gives one name for each URL, and the first name is no bad one. */
  predicate NamesFit(w: World, c: Controls)
    requires InRange(c)
    ensures NamesFit(w, c) ==> Names(w, c) == [] || |Names(w, c)| == |Expand(w, c, c.url).list|
  {
    c.auto || c.saveAs == "" ||
    (|Names(w, c)| == |Expand(w, c, c.url).list| && (Names(w, c) == [] || !w.badName(Names(w, c)[0])))
  }

  /** What has been asked since the values to expand were last changed: nothing that succeeded, first
      something other than the size, or first the size. */
  datatype History = Fresh | Expanded | Listed

  function Remember(w: World, c: Controls, h: History, e: Event): History
    requires InRange(c)
  {
    match e
    case EditUrl(_) => Fresh
    case EditNumbers(_) => Fresh
    case AssignNumbers(ok, _) => if ok then Fresh else h
    case SelectFrom(_) => Fresh
    case SelectTo(_) => Fresh
    case Results => if h == Fresh && Expandable(w, c) then Expanded else h
    case QuerySize(authOk) => if h == Fresh && authOk && Expandable(w, c) then Listed else h
    case Accept(authOk, _) =>
      if Answer(w, c, h, e).Handed? || (h == Fresh && authOk && Expandable(w, c)) then Expanded else h
    case _ => h
  }

  /** The reply to an event, worked out afresh from the values shown. Only the size query looks back: after
      something else has been asked it has no downloads to ask. */
  function Answer(w: World, c: Controls, h: History, e: Event): Reply
    requires InRange(c)
  {
    match e
    case Results => if Expandable(w, c) then Shown(Expand(w, c, c.url).list) else Rejected
    case QuerySize(authOk) =>
      if !authOk || !Expandable(w, c) then Rejected
      else Queried(if h == Expanded then None else Some(Expand(w, c, c.url).list))
    case Accept(authOk, folderOk) =>
      if !authOk || !Expandable(w, c) || !NamesFit(w, c) || !folderOk then Rejected
      else Handed(c.url, Named(Expand(w, c, c.url).list, Names(w, c)))
    case _ => Silent
  }

  function RunControls(c: Controls, es: seq<Event>): (r: Controls)
    requires InRange(c) && PossibleRun(c, es)
    ensures InRange(r)
    decreases |es|
  {
    if es == [] then c else RunControls(Update(c, es[0]), es[1..])
  }

  predicate PossibleRun(c: Controls, es: seq<Event>)
    requires InRange(c)
    decreases |es|
  {
    es == [] || (Possible(c, es[0]) && PossibleRun(Update(c, es[0]), es[1..]))
  }

  /** The replies of a whole run. */
  function Replies(w: World, c: Controls, h: History, es: seq<Event>): seq<Reply>
    requires InRange(c) && PossibleRun(c, es)
    decreases |es|
  {
    if es == [] then []
    else [Answer(w, c, h, es[0])] + Replies(w, Update(c, es[0]), Remember(w, c, h, es[0]), es[1..])
  }

  // ------------------------------------- what the user gets for his values

  const ALPHABET: string := "ABCDEFGHIJKLMNOPQRSTUVWXYZ"

  /** The user types a URL and numbers and chooses the letters of two positions. */
  function Enter(url: string, numbers: string, a: nat, p: nat): seq<Event> {
    [EditUrl(url), EditNumbers(numbers), SelectFrom(a), SelectTo(p)]
  }

  function Entered(c: Controls, url: string, numbers: string, a: nat, p: nat): Controls {
    Controls(url, numbers, a, a + 1 + p, c.saveAs, c.auto)
  }

  /** Whatever happened before, what is entered is what is shown, and the memory of it is gone. */
  lemma EnterThen(w: World, c: Controls, h: History, url: string, numbers: string, a: nat, p: nat, rest: seq<Event>)
    requires InRange(c) && a + 1 + p <= LAST_LETTER && PossibleRun(Entered(c, url, numbers, a, p), rest)
    ensures PossibleRun(c, Enter(url, numbers, a, p) + rest)
    ensures Replies(w, c, h, Enter(url, numbers, a, p) + rest)
         == [Silent, Silent, Silent, Silent] + Replies(w, Entered(c, url, numbers, a, p), Fresh, rest)
  {
    hide Replies, PossibleRun, Answer;
    var letters := [SelectFrom(a), SelectTo(p)] + rest;
    var c1 := Update(c, EditUrl(url));
    LettersThen(w, c1.(numbers := numbers), a, p, rest);
    QuietStep(w, c1, Fresh, EditNumbers(numbers), letters);
    QuietStep(w, c, h, EditUrl(url), [EditNumbers(numbers)] + letters);
    assert [EditUrl(url)] + ([EditNumbers(numbers)] + letters) == Enter(url, numbers, a, p) + rest;
  }

  lemma LettersThen(w: World, c: Controls, a: nat, p: nat, rest: seq<Event>)
    requires InRange(c) && a + 1 + p <= LAST_LETTER && PossibleRun(c.(from := a, to := a + 1 + p), rest)
    ensures PossibleRun(c, [SelectFrom(a), SelectTo(p)] + rest)
    ensures Replies(w, c, Fresh, [SelectFrom(a), SelectTo(p)] + rest)
         == [Silent, Silent] + Replies(w, c.(from := a, to := a + 1 + p), Fresh, rest)
  {
    hide Replies, PossibleRun, Answer;
    QuietStep(w, Update(c, SelectFrom(a)), Fresh, SelectTo(p), rest);
    QuietStep(w, c, Fresh, SelectFrom(a), [SelectTo(p)] + rest);
    assert [SelectFrom(a)] + ([SelectTo(p)] + rest) == [SelectFrom(a), SelectTo(p)] + rest;
  }

  lemma QuietStep(w: World, c: Controls, h: History, e: Event, rest: seq<Event>)
    requires InRange(c) && Possible(c, e) && PossibleRun(Update(c, e), rest)
    requires !e.AssignNumbers? && !e.EditSaveAs? && !e.SetAuto? && !e.Results? && !e.QuerySize? && !e.Accept?
    ensures PossibleRun(c, [e] + rest)
    ensures Replies(w, c, h, [e] + rest) == [Silent] + Replies(w, Update(c, e), Fresh, rest)
  {
    assert ([e] + rest)[1..] == rest;
  }

  /** The letters entered are those of the alphabet. */
  lemma LettersOfAlphabet(n: int)
    requires 0 <= n <= LAST_LETTER
    ensures |ALPHABET| == LAST_LETTER + 1 && Letter(n) == ALPHABET[n]
  {
    assert forall k :: 0 <= k < 26 ==> ALPHABET[k] == ('A' as int + k) as char;
  }

  /** The results are the expansion of just what was entered. */
  lemma ResultsOfEntered(w: World, c: Controls, h: History, url: string, numbers: string, a: nat, p: nat)
    requires InRange(c) && a + 1 + p <= LAST_LETTER
    ensures |ALPHABET| == 26
    ensures var es := Enter(url, numbers, a, p) + [Results];
      var made := w.create(url, numbers, ALPHABET[a], ALPHABET[a + 1 + p]);
      PossibleRun(c, es) && Replies(w, c, h, es) == [Silent, Silent, Silent, Silent]
        + [if w.accepts(url) && made.ok then Shown(made.list) else Rejected]
  {
    hide Letter;
    LettersOfAlphabet(a);
    LettersOfAlphabet(a + 1 + p);
    EnterThen(w, c, h, url, numbers, a, p, [Results]);
    OneReply(w, Entered(c, url, numbers, a, p), Fresh, Results);
  }

  lemma OneReply(w: World, c: Controls, h: History, e: Event)
    requires InRange(c) && Possible(c, e)
    ensures PossibleRun(c, [e]) && Replies(w, c, h, [e]) == [Answer(w, c, h, e)]
  {
    assert [e][1..] == [];
    assert PossibleRun(Update(c, e), []);
  }

  /** An accepted OK hands over the expansion of just what was entered, with the name that the save-as
      template gives in the same place, unless the names are to be found automatically. */
  lemma DownloadsOfEntered(w: World, c: Controls, h: History, url: string, numbers: string, a: nat, p: nat)
    requires InRange(c) && a + 1 + p <= LAST_LETTER
    ensures |ALPHABET| == 26
    ensures var es := Enter(url, numbers, a, p) + [Accept(true, true)];
      PossibleRun(c, es) && |Replies(w, c, h, es)| == 5 &&
      var r := Replies(w, c, h, es)[4];
      var made := w.create(url, numbers, ALPHABET[a], ALPHABET[a + 1 + p]);
      var names := w.create(c.saveAs, numbers, ALPHABET[a], ALPHABET[a + 1 + p]).list;
      var named := !c.auto && c.saveAs != "";
      if !w.accepts(url) || !made.ok || (named && (|names| != |made.list| || (names != [] && w.badName(names[0]))))
      then r == Rejected
      else r.Handed? && r.record == url && |r.tasks| == |made.list|
           && forall k :: 0 <= k < |r.tasks| ==>
                r.tasks[k].url == made.list[k] && (r.tasks[k].name.Some? <==> named)
                && (named ==> r.tasks[k].name.value == names[k])
  {
    hide Letter;
    LettersOfAlphabet(a);
    LettersOfAlphabet(a + 1 + p);
    var e := Accept(true, true);
    EnterThen(w, c, h, url, numbers, a, p, [e]);
    OneReply(w, Entered(c, url, numbers, a, p), Fresh, e);
  }

  /** When the size is asked first, and whatever is asked in between, it is that of the expansion of what
      was entered; when the results are asked first there are no downloads to ask. */
  lemma SizeOfEntered(w: World, c: Controls, h: History, url: string, numbers: string, a: nat, p: nat)
    requires InRange(c) && a + 1 + p <= LAST_LETTER
    requires w.accepts(url) && w.create(url, numbers, Letter(a), Letter(a + 1 + p)).ok
    ensures var list := w.create(url, numbers, Letter(a), Letter(a + 1 + p)).list;
      var first, later := [QuerySize(true), Results, QuerySize(true)], [Results, QuerySize(true)];
      var enter := Enter(url, numbers, a, p);
      && PossibleRun(c, enter + first) && PossibleRun(c, enter + later)
      && Replies(w, c, h, enter + first)
         == [Silent, Silent, Silent, Silent] + [Queried(Some(list)), Shown(list), Queried(Some(list))]
      && Replies(w, c, h, enter + later) == [Silent, Silent, Silent, Silent] + [Shown(list), Queried(None)]
  {
    hide Letter;
    var d, q := Entered(c, url, numbers, a, p), QuerySize(true);
    assert Expandable(w, d);
    AskThen(w, d, Listed, Results, [q]);
    AskThen(w, d, Fresh, q, [Results, q]);
    AskThen(w, d, Fresh, Results, [q]);
    OneReply(w, d, Listed, q);
    OneReply(w, d, Expanded, q);
    assert [q] + [Results, q] == [q, Results, q] && [Results] + [q] == [Results, q];
    EnterThen(w, c, h, url, numbers, a, p, [q, Results, q]);
    EnterThen(w, c, h, url, numbers, a, p, [Results, q]);
  }

  lemma AskThen(w: World, c: Controls, h: History, e: Event, rest: seq<Event>)
    requires InRange(c) && (e.Results? || e.QuerySize?) && PossibleRun(c, rest)
    ensures PossibleRun(c, [e] + rest)
    ensures Replies(w, c, h, [e] + rest) == [Answer(w, c, h, e)] + Replies(w, c, Remember(w, c, h, e), rest)
  {
    assert ([e] + rest)[1..] == rest;
  }

  lemma RunHead(w: World, c: Controls, h: History, es: seq<Event>)
    requires InRange(c) && PossibleRun(c, es) && es != []
    ensures Possible(c, es[0]) && PossibleRun(Update(c, es[0]), es[1..])
    ensures RunControls(c, es) == RunControls(Update(c, es[0]), es[1..])
    ensures Replies(w, c, h, es)
         == [Answer(w, c, h, es[0])] + Replies(w, Update(c, es[0]), Remember(w, c, h, es[0]), es[1..])
  {
  }

  lemma RunNothing(w: World, c: Controls, h: History, es: seq<Event>)
    requires InRange(c) && PossibleRun(c, es) && es == []
    ensures RunControls(c, es) == c && Replies(w, c, h, es) == []
  {
  }

  // ------------------------------------------------------ the dialog

  class BatchDlg {
    const world: World

    // the controls
    var urlText: string
    var numbersText: string
    var aSel: int
    var zItems: seq<nat>
    var zSel: int
    var saveAsText: string
    var fileAuto: bool

    // the dialog's own fields
    var strUrl: string
    var alphaFrom: int
    var alphaTo: int
    var bl: seq<string>
    var blSaveAs: seq<string>
    var parametersChanged: bool
    var downloads: Option<seq<string>>

    /** The list of second letters runs from the one after the first letter to the last. */
    ghost predicate Lists()
      reads this
    {
      && -1 <= aSel < LAST_LETTER && -1 <= zSel < |zItems| == LAST_LETTER - aSel
      && forall k :: 0 <= k < |zItems| ==> zItems[k] == aSel + 1 + k
    }

    ghost function Shown(): (c: Controls)
      requires Lists()
      reads this
      ensures InRange(c)
    {
      var to := if SecondLetter().Some? then SecondLetter().value else aSel;
      Controls(urlText, numbersText, aSel, to, saveAsText, fileAuto)
    }

    function SecondLetter(): Option<nat>
      requires -1 <= zSel < |zItems|
      reads this
    {
      if zSel == -1 then None else Some(zItems[zSel])
    }

    ghost function Memory(): History
      reads this
    {
      if parametersChanged then Fresh else if downloads == None then Expanded else Listed
    }

    /** A clean flag means that the cached list is the expansion of the values shown. */
    ghost predicate Valid()
      reads this
    {
      && Lists()
      && (!parametersChanged ==>
          && Expandable(world, Shown()) && bl == Expand(world, Shown(), urlText).list
          && strUrl == urlText && alphaFrom == aSel && alphaTo == Shown().to)
      && (!parametersChanged && downloads.Some? ==> downloads.value == bl)
    }

    constructor (world: World, url: string, numbers: string, az1: nat, az2: nat, saveAs: string)
      ensures Valid() && this.world == world && Memory() == Fresh
      ensures Shown() == Controls(url, numbers, Restored(az1, az2).from, Restored(az1, az2).to, saveAs, saveAs == "")
    {
      this.world := world;
      urlText, strUrl, numbersText, saveAsText, fileAuto := url, url, numbers, saveAs, saveAs == "";
      alphaFrom, alphaTo, bl, blSaveAs := 0, LAST_LETTER, [], [];
      parametersChanged, downloads := true, None;
      var a, z := az1, az2;
      if az2 >= LAST_LETTER {
        a, z := 0, LAST_LETTER - 1;
      }
      aSel, zItems, zSel := if a < LAST_LETTER then a else -1, [], -1;
      new;
      FillZ();
      zSel := if z < |zItems| then z else -1;
    }

    method FreeDownloads()
      modifies this`downloads
      ensures downloads == None
    {
      if downloads.Some? {
        downloads := None;
      }
    }

    method GenerateDownloads() returns (vpDlds: seq<string>)
      ensures vpDlds == bl
    {
      vpDlds := [];
      for i := 0 to |bl|
        invariant vpDlds == bl[..i]
      {
        vpDlds := vpDlds + [bl[i]];
      }
    }

    method CheckUrl() returns (ok: bool)
      modifies this`strUrl
      ensures ok == world.accepts(urlText) && strUrl == urlText
    {
      strUrl := urlText;
      ok := world.accepts(strUrl);
    }

    method BuildBatchList() returns (ok: bool)
      requires Valid()
      modifies this`strUrl, this`alphaFrom, this`alphaTo, this`bl, this`parametersChanged, this`downloads
      ensures Valid() && ok == Expandable(world, Shown()) && (ok ==> !parametersChanged)
      ensures old(!parametersChanged) ==> unchanged(this)
      ensures old(parametersChanged) ==> Memory() == if ok then Expanded else Fresh
    {
      if !parametersChanged {
        return true;
      }
      strUrl := urlText;
      var accepted := CheckUrl();
      if !accepted {
        return false;
      }
      alphaFrom := aSel;
      alphaTo := alphaFrom + zSel + 1;
      var created := world.create(strUrl, numbersText, Letter(alphaFrom), Letter(alphaTo));
      bl := created.list;
      if !created.ok {
        return false;
      }
      FreeDownloads();
      parametersChanged := false;
      return true;
    }

    method OnEditchangeUrl(text: string)
      requires Valid()
      modifies this`urlText, this`strUrl, this`parametersChanged
      ensures Valid() && Shown() == Update(old(Shown()), EditUrl(text)) && Memory() == Fresh
    {
      urlText := text;
      strUrl := text;
      parametersChanged := true;
    }

    method OnChangeNumbers(text: string)
      requires Valid()
      modifies this`numbersText, this`parametersChanged
      ensures Valid() && Shown() == Update(old(Shown()), EditNumbers(text)) && Memory() == Fresh
    {
      numbersText := text;
      parametersChanged := true;
    }

    /** Rebuilds the second list and keeps its letter if that is still offered, else takes the last. */
    method FillZ()
      requires -1 <= aSel < LAST_LETTER && -1 <= zSel < |zItems|
      modifies this`zItems, this`zSel
      ensures Lists()
      ensures var kept := old(SecondLetter());
        SecondLetter() == Some(if kept.Some? && aSel < kept.value <= LAST_LETTER then kept.value else LAST_LETTER)
    {
      var kept := SecondLetter();
      zItems := [];
      for i := aSel + 1 to LAST_LETTER + 1
        invariant |zItems| == i - aSel - 1
        invariant forall k :: 0 <= k < |zItems| ==> zItems[k] == aSel + 1 + k
      {
        zItems := zItems + [i];
      }
      var sel := -1;
      if kept.Some? {
        assert aSel < kept.value <= LAST_LETTER ==> zItems[kept.value - aSel - 1] == kept.value;
        for k := 0 to |zItems|
          invariant sel == -1 && forall j :: 0 <= j < k ==> zItems[j] != kept.value
        {
          if zItems[k] == kept.value {
            sel := k;
            break;
          }
        }
      }
      if sel == -1 {
        sel := |zItems| - 1;
      }
      zSel := sel;
    }

    method OnSelchangeA(letter: nat)
      requires Valid() && letter < LAST_LETTER
      modifies this`aSel, this`zItems, this`zSel, this`parametersChanged
      ensures Valid() && Shown() == Update(old(Shown()), SelectFrom(letter)) && Memory() == Fresh
    {
      aSel := letter;
      FillZ();
      parametersChanged := true;
    }

    method OnSelchangeZ(position: nat)
      requires Valid() && position < |zItems|
      modifies this`zSel, this`parametersChanged
      ensures Valid() && Shown() == Update(old(Shown()), SelectTo(position)) && Memory() == Fresh
    {
      zSel := position;
      parametersChanged := true;
    }

    method OnResults() returns (r: Reply)
      requires Valid()
      modifies this`strUrl, this`alphaFrom, this`alphaTo, this`bl, this`parametersChanged, this`downloads
      ensures Valid() && Shown() == old(Shown()) && r == Answer(world, Shown(), old(Memory()), Results)
      ensures Memory() == Remember(world, Shown(), old(Memory()), Results)
    {
      var ok := BuildBatchList();
      if !ok {
        return Rejected;
      }
      return Reply.Shown(bl);
    }

    method OnQuerysize(authOk: bool) returns (r: Reply)
      requires Valid()
      modifies this`strUrl, this`alphaFrom, this`alphaTo, this`bl, this`parametersChanged, this`downloads
      ensures Valid() && Shown() == old(Shown())
      ensures r == Answer(world, Shown(), old(Memory()), QuerySize(authOk))
      ensures Memory() == Remember(world, Shown(), old(Memory()), QuerySize(authOk))
      ensures r == Queried(None) <==> old(!parametersChanged && downloads == None) && authOk
    {
      hide Expand;
      var accepted := CheckUrl();
      if !accepted {
        return Rejected;
      }
      if !authOk {
        return Rejected;
      }
      if parametersChanged {
        var ok := BuildBatchList();
        if !ok {
          return Rejected;
        }
        var generated := GenerateDownloads();
        assert bl == Expand(world, Shown(), urlText).list;
        downloads := Some(generated);
      }
      r := Queried(downloads);
    }

    method ReadSaveAs() returns (ok: bool)
      requires Valid() && !parametersChanged
      modifies this`blSaveAs
      ensures Valid() && blSaveAs == Names(world, Shown()) && ok == NamesFit(world, Shown())
    {
      var strSaveAs := "";
      if !fileAuto {
        strSaveAs := saveAsText;
      }
      if strSaveAs != "" {
        blSaveAs := world.create(strSaveAs, numbersText, Letter(alphaFrom), Letter(alphaTo)).list;
        if |bl| != |blSaveAs| {
          return false;
        }
        if blSaveAs != [] && world.badName(blSaveAs[0]) {
          return false;
        }
      } else {
        blSaveAs := [];
      }
      return true;
    }

    /** An accepted OK hands over the downloads and ends the dialog. */
    method OnOK(authOk: bool, folderOk: bool) returns (r: Reply)
      requires Valid()
      modifies this`strUrl, this`alphaFrom, this`alphaTo, this`bl, this`blSaveAs, this`parametersChanged, this`downloads
      ensures Valid() && Shown() == old(Shown()) && r == Answer(world, Shown(), old(Memory()), Accept(authOk, folderOk))
      ensures Memory() == Remember(world, Shown(), old(Memory()), Accept(authOk, folderOk))
    {
      hide Expand, Names, NamesFit;
      if !authOk {
        return Rejected;
      }
      var ok := BuildBatchList();
      if !ok {
        return Rejected;
      }
      var named := ReadSaveAs();
      if !named {
        return Rejected;
      }
      if !folderOk {
        return Rejected;
      }
      var record := strUrl;
      var tasks := GenerateAndAddDownloads();
      return Handed(record, tasks);
    }

    method GenerateAndAddDownloads() returns (tasks: seq<Task>)
      requires Valid() && !parametersChanged
      requires blSaveAs == [] || |blSaveAs| == |bl|
      modifies this`downloads
      ensures Valid() && downloads == None
      ensures tasks == Named(bl, blSaveAs)
    {
      if downloads == None {
        var generated := GenerateDownloads();
        downloads := Some(generated);
      }
      var urls := downloads.value;
      assert |blSaveAs| == 0 || |blSaveAs| == |urls|;
      tasks := seq(|urls|, i requires 0 <= i < |urls| => Task(urls[i], None));
      for i := 0 to |blSaveAs|
        invariant |tasks| == |urls| == |bl|
        invariant forall k :: 0 <= k < |urls| ==> tasks[k] == Task(bl[k], if k < i then Some(blSaveAs[k]) else None)
      {
        tasks := tasks[i := Task(urls[i], Some(blSaveAs[i]))];
      }
      assert tasks == Named(bl, blSaveAs);
      FreeDownloads();
    }

    /** One event. */
    method Handle(e: Event) returns (r: Reply)
      requires Valid() && Possible(Shown(), e)
      modifies this
      ensures Valid() && Shown() == Update(old(Shown()), e)
      ensures r == Answer(world, old(Shown()), old(Memory()), e)
      ensures Memory() == Remember(world, old(Shown()), old(Memory()), e)
    {
      r := Silent;
      match e
      case EditUrl(text) => OnEditchangeUrl(text);
      case EditNumbers(text) => OnChangeNumbers(text);
      case AssignNumbers(ok, text) =>
        if ok {
          OnChangeNumbers(text);
        }
      case SelectFrom(letter) => OnSelchangeA(letter);
      case SelectTo(position) => OnSelchangeZ(position);
      case EditSaveAs(text) => saveAsText := text;
      case SetAuto(on) => fileAuto := on;
      case Results => r := OnResults();
      case QuerySize(authOk) => r := OnQuerysize(authOk);
      case Accept(authOk, folderOk) => r := OnOK(authOk, folderOk);
    }

    /** Any sequence of events: every reply is the one worked out afresh from the values shown then. */
    method HandleAll(es: seq<Event>) returns (rs: seq<Reply>)
      requires Valid() && PossibleRun(Shown(), es)
      modifies this
      ensures Valid() && Shown() == RunControls(old(Shown()), es)
      ensures rs == Replies(world, old(Shown()), old(Memory()), es)
    {
      hide Answer, Update, Remember, RunControls, PossibleRun, Replies;
      rs := [];
      ghost var c, h := Shown(), Memory();
      assert es[0..] == es;
      for i := 0 to |es|
        invariant Valid() && PossibleRun(Shown(), es[i..])
        invariant RunControls(c, es) == RunControls(Shown(), es[i..])
        invariant Replies(world, c, h, es) == rs + Replies(world, Shown(), Memory(), es[i..])
      {
        assert es[i..][0] == es[i] && es[i..][1..] == es[i + 1..];
        RunHead(world, Shown(), Memory(), es[i..]);
        var r := Handle(es[i]);
        rs := rs + [r];
      }
      RunNothing(world, Shown(), Memory(), es[|es|..]);
    }
  }
}
