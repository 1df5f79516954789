/**
 * The keypad driver object: four row outputs, the gesture state, the latched position, three
 * one-shot timers, three listener slots, the dispatch thread handle and the event queue, all
 * updated in place by its handlers. Every method is proved to move the object's state exactly
 * as the matching transition of KeypadSpec does, and to keep the invariant KeypadSpec.Inv.
 *
 * Column edges, timer expiries and pin reads are not observed directly: an edge or an expiry is
 * a call of its handler, and the value a pin read would return is a parameter of that call.
 */
module KeypadDriver {
  import opened KeypadConfig
  import opened KeypadSpec

  /** A dispatch thread; only whether the keypad holds one is modelled. */
  class Thread {
    constructor () {}
  }

  class Keypad {
    /** The row output pins; true is driven high. */
    const rowOut: array<bool>

    var threadHandle: Thread?

    var state: ButtonState
    var pressedRow: nat
    var pressedCol: nat

    /** The row-scan timer and the column its handler was armed for. */
    var rowScanArmed: bool
    var rowScanCol: nat
    /** The release-confirm timer. */
    var buttonScanArmed: bool
    /** The long-press timer. */
    var longPressArmed: bool

    var pressCbEnabled: bool
    var onPress: Callback
    var releaseCbEnabled: bool
    var onRelease: Callback
    var longpressCbEnabled: bool
    var onLongpress: Callback

    /** Every call posted on the event queue so far, oldest first. */
    var queue: seq<Event>

    /** The object's state as a KeypadSpec machine. */
    ghost function Model(): Machine
      reads this
    {
      Machine(state, pressedRow, pressedCol,
              Timers(rowScanArmed, rowScanCol, buttonScanArmed, longPressArmed),
              Wiring(Slot(pressCbEnabled, onPress), Slot(releaseCbEnabled, onRelease),
                     Slot(longpressCbEnabled, onLongpress)),
              threadHandle != null, queue)
    }

    /** One output per row, all rows low between sweeps, and the machine invariant. */
    ghost predicate Valid()
      reads this, rowOut
    {
      && rowOut.Length == NumRows
      && (forall i | 0 <= i < NumRows :: !rowOut[i])
      && Inv(Model())
    }

    /** Switches every row off; nothing is latched, armed, registered or posted yet. */
    constructor ()
      ensures Valid() && fresh(rowOut)
      ensures Model() == Initial
    {
      var rows := new bool[NumRows];
      for i := 0 to NumRows
        invariant forall k | 0 <= k < i :: !rows[k]
      {
        rows[i] := false;
      }
      rowOut := rows;
      threadHandle := null;
      state := Released;
      pressedRow, pressedCol := 0, 0;
      rowScanArmed, rowScanCol := false, 0;
      buttonScanArmed, longPressArmed := false, false;
      pressCbEnabled, onPress := false, NoCallback;
      releaseCbEnabled, onRelease := false, NoCallback;
      longpressCbEnabled, onLongpress := false, NoCallback;
      queue := [];
    }

    // -------------------------------------------------------------------------------------------
    // Lifecycle.

    /**
     * initialize(): creates and starts the dispatch thread. allocOk says whether the thread
     * object can be allocated and startOk whether starting it succeeds.
     */
    method Initialize(allocOk: bool, startOk: bool) returns (ok: bool)
      requires Valid()
      modifies this
      ensures Valid()
      ensures (Model(), ok) == StartDispatch(old(Model()), allocOk, startOk)
      ensures ok ==> fresh(threadHandle)
    {
      if threadHandle != null {
        return false;
      }
      if !allocOk {
        threadHandle := null;
        return false;
      }
      threadHandle := new Thread();
      if !startOk {
        threadHandle := null;
        return false;
      }
      return true;
    }

    /** finalize(): stops dispatching and drops the thread, if there is one. */
    method Finalize() returns (ok: bool)
      requires Valid()
      modifies this
      ensures Valid()
      ensures (Model(), ok) == StopDispatch(old(Model()))
    {
      if threadHandle == null {
        return false;
      }
      threadHandle := null;
      return true;
    }

    /** is_initialized(): whether the dispatch thread exists. */
    method IsInitialized() returns (b: bool)
      requires Valid()
      ensures b <==> Model().running
    {
      b := threadHandle != null;
    }

    // -------------------------------------------------------------------------------------------
    // Listener registration.

    method RegisterOnpress(cb: Callback)
      requires Valid()
      modifies this
      ensures Valid() && Model() == Register(old(Model()), PressEvent, cb)
    {
      onPress := cb;
      pressCbEnabled := true;
      ConfigurationKeepsGesture(old(Model()), PressEvent, cb, false, false);
    }

    method RemoveOnpress()
      requires Valid()
      modifies this
      ensures Valid() && Model() == Remove(old(Model()), PressEvent)
    {
      pressCbEnabled := false;
      ConfigurationKeepsGesture(old(Model()), PressEvent, NoCallback, false, false);
    }

    method IsOnpressRegistered() returns (b: bool)
      requires Valid()
      ensures b <==> SlotOf(Model().wiring, PressEvent).enabled
    {
      b := pressCbEnabled;
    }

    method RegisterOnrelease(cb: Callback)
      requires Valid()
      modifies this
      ensures Valid() && Model() == Register(old(Model()), ReleaseEvent, cb)
    {
      onRelease := cb;
      releaseCbEnabled := true;
      ConfigurationKeepsGesture(old(Model()), ReleaseEvent, cb, false, false);
    }

    method RemoveOnrelease()
      requires Valid()
      modifies this
      ensures Valid() && Model() == Remove(old(Model()), ReleaseEvent)
    {
      releaseCbEnabled := false;
      ConfigurationKeepsGesture(old(Model()), ReleaseEvent, NoCallback, false, false);
    }

    method IsOnreleaseRegistered() returns (b: bool)
      requires Valid()
      ensures b <==> SlotOf(Model().wiring, ReleaseEvent).enabled
    {
      b := releaseCbEnabled;
    }

    method RegisterOnlongpress(cb: Callback)
      requires Valid()
      modifies this
      ensures Valid() && Model() == Register(old(Model()), LongPressEvent, cb)
    {
      onLongpress := cb;
      longpressCbEnabled := true;
      ConfigurationKeepsGesture(old(Model()), LongPressEvent, cb, false, false);
    }

    method RemoveOnlongpress()
      requires Valid()
      modifies this
      ensures Valid() && Model() == Remove(old(Model()), LongPressEvent)
    {
      longpressCbEnabled := false;
      ConfigurationKeepsGesture(old(Model()), LongPressEvent, NoCallback, false, false);
    }

    method IsOnlongpressRegistered() returns (b: bool)
      requires Valid()
      ensures b <==> SlotOf(Model().wiring, LongPressEvent).enabled
    {
      b := longpressCbEnabled;
    }

    // -------------------------------------------------------------------------------------------
    // Interrupt and timer handlers.

    /** fall_handler<c>(): a falling edge on column c. */
    method FallHandler(c: nat)
      requires Valid() && c < NumCols
      modifies this
      ensures Valid() && Model() == Fall(old(Model()), c)
    {
      if state != Released {
        return;
      }
      state := PressBouncing;
      rowScanArmed, rowScanCol := true, c;
      StepPreservesInv(old(Model()), FallEdge(c));
    }

    /** rise_handler<c>(): a rising edge on column c. */
    method RiseHandler(c: nat)
      requires Valid() && c < NumCols
      modifies this
      ensures Valid() && Model() == Rise(old(Model()), c)
    {
      if state != Pressed && state != LongPressed {
        return;
      }
      state := ReleaseBouncing;
      buttonScanArmed := true;
      StepPreservesInv(old(Model()), RiseEdge(c));
    }

    /**
     * The row sweep of row_scan_handler(): rows are driven high one at a time, in order, and
     * rowReads[i] is what the remembered column reads while row i alone is high. The sweep
     * stops at the first row that reads high and returns it, or NumRows when none does; every
     * row is low again afterwards.
     */
    method SweepRows(rowReads: seq<bool>) returns (i: nat)
      requires rowOut.Length == NumRows && |rowReads| == NumRows
      requires forall k | 0 <= k < NumRows :: !rowOut[k]
      modifies rowOut
      ensures i == FirstActive(rowReads)
      ensures forall k | 0 <= k < NumRows :: !rowOut[k]
    {
      i := 0;
      while i < NumRows
        invariant i <= NumRows
        invariant forall k | 0 <= k < NumRows :: !rowOut[k]
        invariant forall k | 0 <= k < i :: !rowReads[k]
      {
        rowOut[i] := true;
        assert forall k | 0 <= k < NumRows :: rowOut[k] == (k == i);
        var on := rowReads[i];
        rowOut[i] := false;
        if on {
          return;
        }
        i := i + 1;
      }
    }

    /** row_scan_handler(): expiry of the row-scan timer. */
    method RowScanHandler(rowReads: seq<bool>)
      requires Valid() && |rowReads| == NumRows
      modifies this, rowOut
      ensures Valid() && Model() == RowScan(old(Model()), rowReads)
    {
      ghost var target := RowScan(old(Model()), rowReads);
      rowScanArmed := false;
      if state != PressBouncing {
        return;
      }
      var i := SweepRows(rowReads);
      if i == NumRows {
        state := Released;
        assert Model() == target;
        return;
      }
      state := Pressed;
      pressedRow, pressedCol := i, rowScanCol;
      longPressArmed := true;
      if pressCbEnabled {
        queue := queue + [Event(PressEvent, i, rowScanCol)];
      }
      assert Model() == target;
    }

    /**
     * button_scan_handler(): expiry of the release-confirm timer; colHigh is what the latched
     * column reads. The long-press timer is cancelled only if it is still running.
     */
    method ButtonScanHandler(colHigh: bool)
      requires Valid()
      modifies this
      ensures Valid() && Model() == ButtonScan(old(Model()), colHigh)
    {
      StepPreservesInv(old(Model()), ButtonScanFires(colHigh));
      buttonScanArmed := false;
      if state != ReleaseBouncing {
        return;
      }
      var curRow, curCol := pressedRow, pressedCol;
      if !colHigh {
        state := Pressed;
        return;
      }
      state := Released;
      if longPressArmed {
        longPressArmed := false;
      }
      if releaseCbEnabled {
        queue := queue + [Event(ReleaseEvent, curRow, curCol)];
      }
    }

    /** long_press_handler(): expiry of the long-press timer. */
    method LongPressHandler()
      requires Valid()
      modifies this
      ensures Valid() && Model() == LongPress(old(Model()))
    {
      StepPreservesInv(old(Model()), LongPressFires);
      longPressArmed := false;
      if state != Pressed {
        return;
      }
      var curRow, curCol := pressedRow, pressedCol;
      state := LongPressed;
      if longpressCbEnabled {
        queue := queue + [Event(LongPressEvent, curRow, curCol)];
      }
    }
  }
}
