/** One session of the dial-up dialog as a state machine over its events. */
module DialSession {
  import opened Options

  type UINT = n: nat | n < 0x1_0000_0000

  /** What a scheduled dialing asks for; an interactive session has none. */
  datatype DialInfo = DialInfo(attempts: UINT, pause: UINT, hangupLess: UINT, agains: UINT)
  datatype Outcome = Connected | Failed
  datatype RasState = OpenPort | ConnectDevice | DeviceConnected | Authenticate | LineUp | OtherState
  datatype RasError = NoError | LineBusy | HardwareFailure | NoDialTone | AuthenticationFailure | OtherError

  /** A callback of the dialing service. `bps` is the line speed it finds, `stopAt` the half second of
      a pause in which the user cancels, `handle` whether a dialing it starts yields a handle. */
  datatype Callback = Callback(state: RasState, error: RasError, bps: UINT, stopAt: nat, handle: bool)

  /** `live` is the dialog still answering callbacks, `posted` the end messages sent to it, `ended`
      the results it was closed with and `dials` the number of dialings started. */
  datatype Session = Session(
    dial: Option<DialInfo>, live: bool, stop: bool, handle: bool, attempts: UINT, agains: UINT,
    connectEnabled: bool, posted: seq<Outcome>, ended: seq<Outcome>, dials: nat)

  /** One more, in 32 bits. */
  function Inc(n: UINT): UINT {
    (n + 1) % 0x1_0000_0000
  }

  /** The half seconds of a pause: its milliseconds are computed in 32 bits and read as signed. */
  function Polls(pause: UINT): nat {
    var ms := pause * 1000 % 0x1_0000_0000;
    if ms < 0x8000_0000 then (ms + 499) / 500 else 0
  }

  /** What a callback amounts to. */
  datatype Verdict = Ignored | Progress | Quit | Abandoned | Exhausted | Interrupted | Retry | Again | TooSlow | Success

  function Judge(s: Session, c: Callback): Verdict {
    if s.stop || !s.live then Ignored
    else if c.error == OtherError then (if s.dial.None? then Quit else Abandoned)
    else if c.error != NoError then
      if s.dial.None? then Retry
      else if s.dial.value.attempts <= Inc(s.attempts) then Exhausted
      else if c.stopAt < Polls(s.dial.value.pause) then Interrupted
      else Retry
    else if c.state != LineUp then Progress
    else if s.dial.None? || c.bps >= s.dial.value.hangupLess then Success
    else if s.agains < s.dial.value.agains then Again
    else TooSlow
  }

  function Post(s: Session, o: Outcome): Session {
    s.(live := false, posted := s.posted + [o])
  }

  function OnCallback(s: Session, c: Callback): Session {
    match Judge(s, c)
    case Ignored => s
    case Progress => s
    case Quit => CancelDialing(s)
    case Abandoned => Post(s, Failed)
    case Exhausted => Post(s.(handle := false, attempts := Inc(s.attempts)), Failed)
    case Interrupted => s.(handle := false, attempts := Inc(s.attempts), stop := true)
    case Retry => s.(handle := c.handle, attempts := Inc(s.attempts), dials := s.dials + 1)
    case Again => s.(handle := c.handle, attempts := 0, agains := Inc(s.agains), dials := s.dials + 1)
    case TooSlow => Post(s.(handle := false), Failed)
    case Success => Post(s.(handle := false), Connected)
  }

  /** What an error that allows another attempt amounts to. */
  lemma RedialIs(s: Session, c: Callback)
    requires s.live && !s.stop && c.error != NoError && c.error != OtherError
    ensures var counted := s.(handle := false, attempts := Inc(s.attempts));
      OnCallback(s, c) ==
        if s.dial.Some? && s.dial.value.attempts <= Inc(s.attempts) then Post(counted, Failed)
        else if s.dial.Some? && c.stopAt < Polls(s.dial.value.pause) then counted.(stop := true)
        else counted.(handle := c.handle, dials := s.dials + 1)
  {
  }

  /** Cancelling hangs up; it closes the dialog unless an interactive dialing was under way. */
  function CancelDialing(s: Session): Session {
    var hungUp := s.(stop := true, handle := false);
    if !s.handle || s.dial.Some? then hungUp.(live := false, ended := s.ended + [Failed])
    else hungUp.(connectEnabled := true)
  }

  function StartDialing(s: Session, handle: bool): Session {
    s.(stop := false, attempts := 0, agains := 0, dials := s.dials + 1, handle := handle, connectEnabled := false)
  }

  /** The dialog opens: a scheduled one dials at once, an interactive one offers to. */
  function Opened(dial: Option<DialInfo>, attempts: UINT, agains: UINT, handle: bool): Session {
    var s := Session(dial, true, false, false, attempts, agains, true, [], [], 0);
    if dial.Some? then StartDialing(s, handle) else s
  }

  datatype Event =
    | Ras(callback: Callback)
    | Cancel
    | Connect(handle: bool)
    | EndMessage(outcome: Outcome)

  /** The button works only while it is enabled, and only posted end messages arrive. */
  function Step(s: Session, e: Event): Session {
    match e
    case Ras(c) => OnCallback(s, c)
    case Cancel => CancelDialing(s)
    case Connect(handle) => if s.connectEnabled then StartDialing(s, handle) else s
    case EndMessage(o) => if o in s.posted then s.(ended := s.ended + [o]) else s
  }

  function Run(s: Session, es: seq<Event>): Session
    decreases |es|
  {
    if es == [] then s else Run(Step(s, es[0]), es[1..])
  }

  lemma {:induction false} RunAppend(s: Session, a: seq<Event>, b: seq<Event>)
    ensures Run(s, a + b) == Run(Run(s, a), b)
    decreases |a|
  {
    if a == [] {
      assert a + b == b;
    } else {
      assert (a + b)[1..] == a[1..] + b;
      RunAppend(Step(s, a[0]), a[1..], b);
    }
  }

  // ---------------------------------------------------------- one outcome

  /** A posted outcome is the only one, and the dialog no longer answers callbacks. */
  predicate Quiet(s: Session) {
    |s.posted| <= 1 && (s.posted != [] ==> !s.live)
  }

  lemma QuietStep(s: Session, e: Event)
    requires Quiet(s)
    ensures Quiet(Step(s, e))
  {
  }

  lemma RunOne(s: Session, e: Event)
    ensures Run(s, [e]) == Step(s, e)
  {
    assert [e][1..] == [];
  }

  /** Over any run at most one outcome is posted; after it, or after the dialog was closed, callbacks
      change nothing, so none of them dials again or posts another outcome. */
  lemma {:induction false} OneOutcome(s: Session, es: seq<Event>, c: Callback)
    requires Quiet(s)
    ensures var r := Run(s, es);
      Quiet(r) && s.posted <= r.posted && (!r.live ==> OnCallback(r, c) == r)
    ensures !s.live ==> !Run(s, es).live && Run(s, es).posted == s.posted
    decreases |es|
  {
    if es != [] {
      OneOutcome(Step(s, es[0]), es[1..], c);
    }
  }

  // ---------------------------------------------------------- which outcome

  /** Some event of the run is such an event in the state in which it arrives. */
  ghost predicate Occurs(such: (Session, Event) -> bool, s: Session, es: seq<Event>) {
    exists k :: 0 <= k < |es| && such(Run(s, es[..k]), es[k])
  }

  lemma OccursFirst(such: (Session, Event) -> bool, s: Session, es: seq<Event>)
    requires es != []
    ensures Occurs(such, s, es) <==> such(s, es[0]) || Occurs(such, Step(s, es[0]), es[1..])
  {
    hide Step;
    var t, rest := Step(s, es[0]), es[1..];
    assert Run(s, es[..0]) == s;
    forall k | 0 <= k < |rest|
      ensures Run(s, es[..k + 1]) == Run(t, rest[..k])
    {
      assert es[..k + 1][0] == es[0] && es[..k + 1][1..] == rest[..k];
    }
    if Occurs(such, t, rest) {
      var k :| 0 <= k < |rest| && such(Run(t, rest[..k]), rest[k]);
      assert such(Run(s, es[..k + 1]), es[k + 1]);
    }
    if Occurs(such, s, es) && !such(s, es[0]) {
      var k :| 0 <= k < |es| && such(Run(s, es[..k]), es[k]);
      assert k > 0 && such(Run(t, rest[..k - 1]), rest[k - 1]);
    }
  }

  /** A callback the dialog answers. */
  predicate Answered(s: Session, e: Event) {
    e.Ras? && s.live && !s.stop
  }

  /** The line is up without error, and at the speed asked for, if any is. */
  predicate GoodLine(dial: Option<DialInfo>, c: Callback) {
    c.error == NoError && c.state == LineUp && (dial == None || dial.value.hangupLess <= c.bps)
  }

  /** An error that allows no other attempt, the last of the attempts, or a slow line once too often. */
  predicate Hopeless(d: DialInfo, s: Session, c: Callback) {
    || c.error == OtherError
    || (c.error != NoError && d.attempts <= Inc(s.attempts))
    || (c.error == NoError && c.state == LineUp && c.bps < d.hangupLess && d.agains <= s.agains)
  }

  function Good(dial: Option<DialInfo>): (Session, Event) -> bool {
    (s, e: Event) => Answered(s, e) && GoodLine(dial, e.callback)
  }

  function Bad(dial: Option<DialInfo>): (Session, Event) -> bool {
    (s, e: Event) => Answered(s, e) && dial.Some? && Hopeless(dial.value, s, e.callback)
  }

  lemma StepPosts(s: Session, e: Event)
    ensures Step(s, e).dial == s.dial
    ensures Step(s, e).posted == if Good(s.dial)(s, e) then s.posted + [Connected]
                                 else if Bad(s.dial)(s, e) then s.posted + [Failed] else s.posted
  {
    assert Good(s.dial)(s, e) <==> Answered(s, e) && GoodLine(s.dial, e.callback);
    assert Bad(s.dial)(s, e) <==> Answered(s, e) && s.dial.Some? && Hopeless(s.dial.value, s, e.callback);
  }

  lemma {:induction false} RunPosts(s: Session, es: seq<Event>)
    ensures Connected in Run(s, es).posted <==> Connected in s.posted || Occurs(Good(s.dial), s, es)
    ensures Failed in Run(s, es).posted <==> Failed in s.posted || Occurs(Bad(s.dial), s, es)
    decreases |es|
  {
    hide Step, Occurs;
    if es == [] {
      assert !Occurs(Good(s.dial), s, es) && !Occurs(Bad(s.dial), s, es) by {
        OccursNever(s);
      }
    } else {
      StepPosts(s, es[0]);
      OccursFirst(Good(s.dial), s, es);
      OccursFirst(Bad(s.dial), s, es);
      RunPosts(Step(s, es[0]), es[1..]);
    }
  }

  lemma OccursNever(s: Session)
    ensures forall such: (Session, Event) -> bool :: !Occurs(such, s, [])
  {
  }

  /** Which outcome is posted over any run: success exactly if an answered callback finds a good line,
      failure exactly if the session is scheduled and an answered callback leaves no hope. */
  lemma OutcomeExactly(dial: Option<DialInfo>, attempts: UINT, agains: UINT, handle: bool, es: seq<Event>)
    ensures var s := Opened(dial, attempts, agains, handle);
      && (Connected in Run(s, es).posted <==> Occurs(Good(dial), s, es))
      && (Failed in Run(s, es).posted <==> Occurs(Bad(dial), s, es))
  {
    RunPosts(Opened(dial, attempts, agains, handle), es);
  }

  /** The user cancels, or an error that cannot be survived arrives, and there is nothing left to do. */
  predicate Closes(s: Session, e: Event) {
    (e == Cancel || (Answered(s, e) && s.dial == None && e.callback.error == OtherError))
    && (s.dial.Some? || !s.handle)
  }

  function Delivered(o: Outcome): (Session, Event) -> bool {
    (s: Session, e) => e == EndMessage(o) && o in s.posted
  }

  lemma StepEnds(s: Session, e: Event, o: Outcome)
    ensures o in Step(s, e).ended <==> o in s.ended || Delivered(o)(s, e) || (o == Failed && Closes(s, e))
  {
  }

  /** The dialog ends with success exactly if a posted success arrives, and with failure exactly if a
      posted failure arrives or it is closed without one. */
  lemma {:induction false} EndedExactly(s: Session, es: seq<Event>, o: Outcome)
    ensures o in Run(s, es).ended
       <==> o in s.ended || Occurs(Delivered(o), s, es) || (o == Failed && Occurs(Closes, s, es))
    decreases |es|
  {
    hide Step, Occurs;
    if es == [] {
      OccursNever(s);
    } else {
      StepEnds(s, es[0], o);
      OccursFirst(Delivered(o), s, es);
      OccursFirst(Closes, s, es);
      EndedExactly(Step(s, es[0]), es[1..], o);
    }
  }

  // ------------------------------------------------- which dialings are started

  /** An error after which another attempt may be made. */
  predicate Passing(e: RasError) {
    e in {LineBusy, HardwareFailure, NoDialTone, AuthenticationFailure}
  }

  /** The button is pressed while it is enabled; or a passing error, with attempts left and no cancelling in
      the pause if there is a limit; or a line that is too slow, with repetitions left. */
  predicate Dials(s: Session, e: Event) {
    || (e.Connect? && s.connectEnabled)
    || (Answered(s, e) && Passing(e.callback.error)
        && (s.dial.Some? ==> Inc(s.attempts) < s.dial.value.attempts && Polls(s.dial.value.pause) <= e.callback.stopAt))
    || (Answered(s, e) && e.callback.error == NoError && e.callback.state == LineUp && s.dial.Some?
        && e.callback.bps < s.dial.value.hangupLess && s.agains < s.dial.value.agains)
  }

  /** How many events of a run are such events in the states in which they arrive. */
  function Occurrences(such: (Session, Event) -> bool, s: Session, es: seq<Event>): nat
    decreases |es|
  {
    if es == [] then 0
    else (if such(s, es[0]) then 1 else 0) + Occurrences(such, Step(s, es[0]), es[1..])
  }

  /** The handle is that of the last dialing, until it is hung up or its line is up. */
  lemma StepDials(s: Session, e: Event)
    ensures Step(s, e).dials == s.dials + if Dials(s, e) then 1 else 0
    ensures Step(s, e).handle ==
      if Dials(s, e) then (if e.Connect? then e.handle else e.callback.handle)
      else if e == Cancel then false
      else if Answered(s, e) && (Passing(e.callback.error) || (e.callback.error == NoError && e.callback.state == LineUp)
                                 || (e.callback.error == OtherError && s.dial == None)) then false
      else s.handle
  {
    if e.Ras? {
      match Judge(s, e.callback)
      case _ =>
    }
  }

  /** A run starts exactly these dialings. */
  lemma {:induction false} DialingsCounted(s: Session, es: seq<Event>)
    ensures Run(s, es).dials == s.dials + Occurrences(Dials, s, es)
    decreases |es|
  {
    if es != [] {
      hide Step, Dials;
      StepDials(s, es[0]);
      DialingsCounted(Step(s, es[0]), es[1..]);
    }
  }

  /** Pressing the button dials only once, however often it is pressed. */
  lemma {:induction false} PressedOnce(s: Session, presses: seq<Event>)
    requires forall k :: 0 <= k < |presses| ==> presses[k].Connect?
    ensures Run(s, presses).dials == s.dials + if s.connectEnabled && presses != [] then 1 else 0
    decreases |presses|
  {
    if presses != [] {
      PressedOnce(Step(s, presses[0]), presses[1..]);
    }
  }

  // ------------------------------------------------------------ cancelling

  /** A pause of less than 2^31 milliseconds is polled twice a second, one of less than 2^32 not at all. */
  lemma PollsTwice(pause: UINT)
    requires pause * 1000 < 0x1_0000_0000
    ensures Polls(pause) == if pause * 1000 < 0x8000_0000 then 2 * pause else 0
  {
    var ms := pause * 1000;
    assert ms % 0x1_0000_0000 == ms;
    assert (ms + 499) / 500 == 2 * pause;
  }

  /** The user cancels, between callbacks or in the pause after an error that allows another attempt. */
  predicate Cancels(s: Session, e: Event) {
    || e == Cancel
    || (Answered(s, e) && Passing(e.callback.error) && s.dial.Some?
        && Inc(s.attempts) < s.dial.value.attempts
        && s.dial.value.pause * 1000 < 0x8000_0000 && e.callback.stopAt < 2 * s.dial.value.pause)
  }

  /** Once the user has cancelled a scheduled session, it starts no dialing and posts nothing. */
  lemma CancelEnds(s: Session, e: Event, es: seq<Event>)
    requires Scheduled(s) && Cancels(s, e)
    ensures Run(Step(s, e), es).dials == s.dials && Run(Step(s, e), es).posted == s.posted
  {
    if e.Ras? {
      PollsTwice(s.dial.value.pause);
    }
    StoppedStays(Step(s, e), es);
  }

  lemma {:induction false} StoppedStays(s: Session, es: seq<Event>)
    requires s.stop && s.dial.Some? && !s.connectEnabled
    ensures Run(s, es).dials == s.dials && Run(s, es).posted == s.posted
    decreases |es|
  {
    if es != [] {
      StoppedStays(Step(s, es[0]), es[1..]);
    }
  }

  /** Cancelling an interactive dialing that has a handle keeps the dialog open, and the button dials
      again; without a handle the dialog closes. */
  lemma CancelThenConnect(s: Session, handle: bool)
    requires s.dial == None && s.live
    ensures var t := Step(s, Cancel);
      if s.handle then
        t.live && t.ended == s.ended && Step(t, Connect(handle)).dials == s.dials + 1
        && Answered(Step(t, Connect(handle)), Ras(Callback(LineUp, NoError, 0, 0, false)))
      else !t.live && t.ended == s.ended + [Failed]
  {
  }

  // -------------------------------------------------------- bounded dialing

  function Max(a: nat, b: nat): nat {
    if a < b then b else a
  }

  /** The rounds of attempts a scheduled dialing may have: a line can only be too slow if there is a
      speed it must reach. */
  function Rounds(d: DialInfo): nat {
    if d.hangupLess == 0 then 1 else d.agains + 1
  }

  /** The most dialings a scheduled session may start. */
  function Allowed(d: DialInfo): nat {
    Rounds(d) * Max(1, d.attempts)
  }

  /** A number of whole rounds. */
  function Whole(rounds: nat, round: nat): nat {
    if rounds == 0 then 0 else round + Whole(rounds - 1, round)
  }

  lemma {:induction false} WholeIsProduct(rounds: nat, round: nat)
    ensures Whole(rounds, round) == rounds * round
  {
    if rounds > 0 {
      WholeIsProduct(rounds - 1, round);
    }
  }

  predicate Scheduled(s: Session) {
    && s.dial.Some? && !s.connectEnabled
    && (s.live && !s.stop ==> s.agains < Rounds(s.dial.value) && s.attempts < Max(1, s.dial.value.attempts))
  }

  /** How many dialings a scheduled session can still start. */
  function Remaining(s: Session): nat
    requires Scheduled(s)
  {
    var round := Max(1, s.dial.value.attempts);
    if !s.live || s.stop then 0
    else Whole(Rounds(s.dial.value) - 1 - s.agains, round) + (round - 1 - s.attempts)
  }

  /** Every event uses up at least the dialings it starts. */
  lemma StepBudget(s: Session, e: Event)
    requires Scheduled(s)
    ensures Scheduled(Step(s, e)) && Step(s, e).dial == s.dial
    ensures Step(s, e).dials + Remaining(Step(s, e)) <= s.dials + Remaining(s)
  {
    if e.Ras? {
      match Judge(s, e.callback)
      case Retry => assert Inc(s.attempts) == s.attempts + 1;
      case Again => assert Inc(s.agains) == s.agains + 1;
      case _ =>
    }
  }

  lemma {:induction false} RunBudget(s: Session, es: seq<Event>)
    requires Scheduled(s)
    ensures Scheduled(Run(s, es)) && Run(s, es).dial == s.dial
    ensures Run(s, es).dials + Remaining(Run(s, es)) <= s.dials + Remaining(s)
    decreases |es|
  {
    if es != [] {
      StepBudget(s, es[0]);
      RunBudget(Step(s, es[0]), es[1..]);
    }
  }

  /** A scheduled session never starts more dialings than it was allowed rounds of attempts. */
  lemma DialingBounded(d: DialInfo, attempts: UINT, agains: UINT, handle: bool, es: seq<Event>)
    ensures Run(Opened(Some(d), attempts, agains, handle), es).dials <= Allowed(d)
  {
    var s := Opened(Some(d), attempts, agains, handle);
    RunBudget(s, es);
    WholeIsProduct(Rounds(d), Max(1, d.attempts));
  }

  /** After its outcome a scheduled session starts no dialing at all. */
  lemma {:induction false} NoDialAfterOutcome(s: Session, es: seq<Event>)
    requires Scheduled(s) && !s.live
    ensures Run(s, es).dials == s.dials
    decreases |es|
  {
    if es != [] {
      StepBudget(s, es[0]);
      NoDialAfterOutcome(Step(s, es[0]), es[1..]);
    }
  }

  /** The callbacks that use up all dialings: busy lines, and a slow line at the end of a round. */
  function Worst(s: Session, fuel: nat): seq<Event>
    decreases fuel
  {
    if fuel == 0 || s.dial.None? then []
    else
      var busy := s.attempts + 1 < s.dial.value.attempts;
      var e := Ras(Callback(LineUp, if busy then LineBusy else NoError, 0, Polls(s.dial.value.pause), true));
      [e] + Worst(Step(s, e), fuel - 1)
  }

  lemma {:induction false} WorstRun(s: Session, fuel: nat)
    requires Scheduled(s) && s.live && !s.stop && fuel == Remaining(s)
    ensures Run(s, Worst(s, fuel)).dials == s.dials + fuel
    decreases fuel
  {
    if fuel > 0 {
      var es := Worst(s, fuel);
      var t := Step(s, es[0]);
      WorstStep(s, es[0].callback);
      assert es[1..] == Worst(t, fuel - 1);
      WorstRun(t, fuel - 1);
    }
  }

  lemma WorstStep(s: Session, c: Callback)
    requires Scheduled(s) && s.live && !s.stop && Remaining(s) > 0
    requires c.state == LineUp && c.bps == 0 && c.stopAt == Polls(s.dial.value.pause)
    requires c.error == if s.attempts + 1 < s.dial.value.attempts then LineBusy else NoError
    ensures var t := OnCallback(s, c);
      Scheduled(t) && t.live && !t.stop && t.dials == s.dials + 1 && Remaining(t) == Remaining(s) - 1
  {
    if s.attempts + 1 < s.dial.value.attempts {
      assert Judge(s, c) == Retry && Inc(s.attempts) == s.attempts + 1;
    } else {
      assert Judge(s, c) == Again && Inc(s.agains) == s.agains + 1;
    }
  }

  /** The bound is met: some run starts exactly that many dialings. */
  lemma BoundIsMet(d: DialInfo, attempts: UINT, agains: UINT, handle: bool)
    ensures exists es :: Run(Opened(Some(d), attempts, agains, handle), es).dials == Allowed(d)
  {
    var s := Opened(Some(d), attempts, agains, handle);
    WholeIsProduct(Rounds(d), Max(1, d.attempts));
    WorstRun(s, Remaining(s));
  }
}
