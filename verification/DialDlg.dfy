/** The dial-up dialog: a counted reference to itself, hang-ups and retry counters, changed by the
    callbacks of the dialing service and by the user. Three tests of a handle that has just been hung
    up can never succeed and are left away. */
module Dialing {
  import opened Options
  import opened DialSession

  class DialDlg {
    const dial: Option<DialInfo>

    // the state shared with the dialing service; the reference to the dialog is null or this dialog
    var refersToThis: bool
    var refs: nat
    var conn: bool
    var needStop: bool
    var inRasFunc: bool

    var attempts: UINT
    var agains: UINT
    var connectEnabled: bool

    // what the dialog asked of the system
    var posted: seq<Outcome>
    var ended: seq<Outcome>
    var dials: nat

    /** Between callbacks there is at most one reference, and it is gone exactly when the count is 0. */
    ghost predicate Valid()
      reads this
    {
      !inRasFunc && refs == (if refersToThis then 1 else 0)
    }

    ghost function View(): Session
      reads this
    {
      Session(dial, refersToThis, needStop, conn, attempts, agains, connectEnabled, posted, ended, dials)
    }

    constructor (dial: Option<DialInfo>, attempts: UINT, agains: UINT, conn: bool)
      ensures this.dial == dial && !refersToThis && refs == 0 && !inRasFunc
      ensures this.attempts == attempts && this.agains == agains && this.conn == conn
      ensures posted == [] && ended == [] && dials == 0 && connectEnabled
    {
      this.dial, refersToThis, refs, this.conn, needStop, inRasFunc := dial, false, 0, conn, false, false;
      this.attempts, this.agains, connectEnabled := attempts, agains, true;
      posted, ended, dials := [], [], 0;
    }

    /** The dialog opens. While a dialog is referred to already, it closes at once. */
    method OnInitDialog(entries: bool, handle: bool)
      requires Valid() && posted == [] && ended == [] && dials == 0 && connectEnabled
      modifies this
      ensures Valid()
      ensures old(refersToThis) ==> View() == old(View()).(ended := [Failed])
      ensures old(!refersToThis) && (dial.Some? || entries) ==>
        View() == Opened(dial, old(attempts), old(agains), handle)
      ensures old(!refersToThis) && (dial.Some? || entries) ==>
        refersToThis && ended == [] && dials == (if dial.Some? then 1 else 0) && connectEnabled == dial.None?
      ensures old(!refersToThis) && dial.None? && !entries ==>
        !refersToThis && ended == [Failed] && dials == 0 && posted == []
    {
      if refersToThis {
        ended := ended + [Failed];
        return;
      }
      if conn {
        conn := false;
      }
      refersToThis, refs, needStop := true, 1, false;
      if dial.Some? {
        StartConnect(handle);
      } else if !entries {
        Release();
        ended := ended + [Failed];
      }
    }

    method StartConnect(handle: bool)
      modifies this
      ensures View() == StartDialing(old(View()), handle)
      ensures refs == old(refs) && inRasFunc == old(inRasFunc)
    {
      needStop, attempts, agains := false, 0, 0;
      dials, conn := dials + 1, handle;
      connectEnabled := false;
    }

    method OnConnect(handle: bool)
      requires Valid()
      modifies this
      ensures Valid() && View() == Step(old(View()), Connect(handle))
    {
      if connectEnabled {
        StartConnect(handle);
      }
    }

    method Release()
      modifies this`refs, this`refersToThis
      ensures refs == if old(refs) > 0 then old(refs) - 1 else 0
      ensures refersToThis == (old(refersToThis) && old(refs) != 1)
    {
      if refs > 0 {
        refs := refs - 1;
        if refs == 0 {
          refersToThis := false;
        }
      }
    }

    method CancelInternal()
      modifies this
      ensures refs == if old(!conn || dial.Some?) && old(refs) > 0 then old(refs) - 1 else old(refs)
      ensures inRasFunc == old(inRasFunc)
      ensures View() ==
        CancelDialing(old(View())).(live := old(refersToThis) && (old(conn && dial.None?) || old(refs) != 1))
    {
      var exit := false;
      needStop := true;
      if conn {
        conn := false;
      } else {
        exit := true;
      }
      if dial.Some? {
        exit := true;
      }
      if exit {
        ended := ended + [Failed];
        Release();
      } else {
        connectEnabled := true;
      }
    }

    /** The user cancels between callbacks. */
    method OnCancel()
      requires Valid()
      modifies this
      ensures Valid() && View() == Step(old(View()), Cancel)
    {
      needStop := true;
      CancelInternal();
    }

    /** A posted end message arrives. */
    method OnNeedEndDialog(o: Outcome)
      requires Valid() && Quiet(View()) && o in posted
      modifies this
      ensures Valid() && View() == Step(old(View()), EndMessage(o))
    {
      Release();
      ended := ended + [o];
    }

    /** Sleeps half a second at a time; the user may cancel in the meantime. */
    method SleepInterval(stopAt: nat)
      requires dial.Some? && !needStop
      modifies this`needStop
      ensures needStop == (stopAt < Polls(dial.value.pause))
    {
      if dial.value.pause == 0 {
        return;
      }
      var raw := dial.value.pause * 1000 % 0x1_0000_0000;
      var u: int := if raw < 0x8000_0000 then raw else raw - 0x1_0000_0000;
      var polls := 0;
      while u > 0
        invariant !needStop && polls <= stopAt
        invariant polls + (if u > 0 then (u + 499) / 500 else 0) == Polls(dial.value.pause)
        decreases u
      {
        if polls == stopAt {
          needStop := true;
        }
        u := u - 500;
        polls := polls + 1;
        if needStop {
          break;
        }
      }
    }

    /** The callback of the dialing service: its guards, then its error part or its state part. */
    method RasDialFunc(c: Callback)
      requires Valid()
      modifies this
      ensures Valid() && View() == Step(old(View()), Ras(c))
    {
      if needStop {
        return;
      }
      if !refersToThis {
        return;
      }
      inRasFunc := true;
      refs := refs + 1;
      if c.error != NoError && !needStop {
        RasError(c);
        return;
      }
      if c.state == LineUp {
        RasConnected(c);
      }
      Release();
      inRasFunc := false;
    }

    /** Inside a callback the dialog is referred to twice. */
    ghost predicate InCallback()
      reads this
    {
      inRasFunc && refersToThis && refs == 2 && !needStop
    }

    method RasError(c: Callback)
      requires InCallback() && c.error != NoError
      modifies this
      ensures Valid() && View() == OnCallback(old(View()), c)
    {
      if c.error == OtherError {
        if dial.None? {
          CancelInternal();
          Release();
          inRasFunc := false;
        } else {
          GiveUp();
        }
        return;
      }
      RasRedial(c);
    }

    /** The failure is posted, and both the callback's and the session's reference are released. */
    method GiveUp()
      requires InCallback()
      modifies this
      ensures Valid() && View() == Post(old(View()), Failed)
    {
      posted := posted + [Failed];
      Release();
      Release();
      inRasFunc := false;
    }

    /** An error that allows another attempt: hang up, and dial again unless the attempts are used up. */
    method RasRedial(c: Callback)
      requires InCallback() && c.error != NoError && c.error != OtherError
      modifies this
      ensures Valid() && View() == OnCallback(old(View()), c)
    {
      hide Polls, Judge, OnCallback;
      RedialIs(View(), c);
      conn := false;
      attempts := Inc(attempts);
      if dial.Some? {
        if dial.value.attempts > attempts {
          SleepInterval(c.stopAt);
        } else {
          GiveUp();
          return;
        }
      }
      if !needStop {
        dials, conn := dials + 1, c.handle;
      }
      Release();
      inRasFunc := false;
    }

    method RasConnected(c: Callback)
      requires InCallback() && c.error == NoError && c.state == LineUp
      modifies this
      ensures View() == OnCallback(old(View()), c).(live := true)
      ensures inRasFunc && refs == if OnCallback(old(View()), c).live then 2 else 1
    {
      if dial.Some? && c.bps < dial.value.hangupLess {
        conn := false;
        if agains < dial.value.agains {
          attempts := 0;
          dials, conn := dials + 1, c.handle;
          agains := Inc(agains);
        } else {
          posted := posted + [Failed];
          Release();
        }
      } else {
        conn := false;
        posted := posted + [Connected];
        Release();
      }
    }

    /** Any sequence of events, in the order in which they arrive. */
    method Handle(es: seq<Event>)
      requires Valid() && Quiet(View())
      modifies this
      ensures Valid() && Quiet(View()) && View() == Run(old(View()), es)
    {
      hide OnCallback, CancelDialing, StartDialing;
      ghost var s := View();
      assert es[..0] == [];
      for i := 0 to |es|
        invariant Valid() && Quiet(View()) && View() == Run(s, es[..i])
      {
        QuietStep(View(), es[i]);
        RunAppend(s, es[..i], [es[i]]);
        assert es[..i + 1] == es[..i] + [es[i]];
        assert Run(View(), [es[i]]) == Step(View(), es[i]) by {
          RunOne(View(), es[i]);
        }
        match es[i]
        case Ras(c) => RasDialFunc(c);
        case Cancel => OnCancel();
        case Connect(handle) => OnConnect(handle);
        case EndMessage(o) =>
          if o in posted {
            OnNeedEndDialog(o);
          }
      }
      assert es[..|es|] == es;
    }
  }
}
