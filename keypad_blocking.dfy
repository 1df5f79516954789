/**
 * The polling front end: a keypad whose three listeners push the coordinates of every press,
 * release and long-press into three bounded buffers, which the application then inspects and
 * drains at its own pace.
 */
module KeypadPoll {
  import opened KeypadConfig
  import opened KeypadSpec
  import opened EventBuffer
  import opened KeypadDriver

  /** The identities of the three pushing listeners. */
  const PushPressCb: Callback := Handler(0)
  const PushReleaseCb: Callback := Handler(1)
  const PushLongpressCb: Callback := Handler(2)

  /** The wiring a polling keypad installs and never changes. */
  const PollWiring: Wiring :=
    Wiring(Slot(true, PushPressCb), Slot(true, PushReleaseCb), Slot(true, PushLongpressCb))

  /** The contents of the three buffers, oldest entry first. */
  datatype Buffers = Buffers(press: seq<Coord>, release: seq<Coord>, longpress: seq<Coord>)

  const NoEntries: Buffers := Buffers([], [], [])

  predicate Bounded(b: Buffers) {
    |b.press| <= BufferLen && |b.release| <= BufferLen && |b.longpress| <= BufferLen
  }

  /** The buffer that collects events of kind k. */
  function BufferOf(b: Buffers, k: EventKind): (r: seq<Coord>) {
    match k
    case PressEvent => b.press
    case ReleaseEvent => b.release
    case LongPressEvent => b.longpress
  }

  /**
   * Running one posted call: its coordinates are pushed onto the buffer of its kind, and the
   * other two buffers are left alone.
   */
  function Deliver(b: Buffers, e: Event): (r: Buffers)
    requires Bounded(b)
    ensures Bounded(r)
    ensures BufferOf(r, e.kind) == Pushed(BufferOf(b, e.kind), Coord(e.row, e.col))
    ensures forall k | k != e.kind :: BufferOf(r, k) == BufferOf(b, k)
  {
    var x := Coord(e.row, e.col);
    match e.kind
    case PressEvent => b.(press := Pushed(b.press, x))
    case ReleaseEvent => b.(release := Pushed(b.release, x))
    case LongPressEvent => b.(longpress := Pushed(b.longpress, x))
  }

  /** Running the posted calls es in order. */
  function DeliverAll(b: Buffers, es: seq<Event>): (r: Buffers)
    requires Bounded(b)
    ensures Bounded(r)
    decreases |es|
  {
    if es == [] then b else DeliverAll(Deliver(b, es[0]), es[1..])
  }

  /** The coordinates of the events of kind k in es, in order. */
  function CoordsOf(es: seq<Event>, k: EventKind): (r: seq<Coord>)
    ensures |r| <= |es|
    decreases |es|
  {
    if es == [] then []
    else (if es[0].kind == k then [Coord(es[0].row, es[0].col)] else []) + CoordsOf(es[1..], k)
  }

  lemma PushedAllCons(s: seq<Coord>, x: Coord, xs: seq<Coord>)
    requires |s| <= BufferLen
    ensures PushedAll(s, [x] + xs) == PushedAll(Pushed(s, x), xs)
  {
    assert ([x] + xs)[0] == x;
    assert ([x] + xs)[1..] == xs;
  }

  /**
   * The three buffers do not interfere: after a run of posted calls, the buffer of kind k holds
   * what pushing just the coordinates of the calls of kind k would leave in it.
   */
  lemma {:induction false} DeliverAllSplits(b: Buffers, es: seq<Event>, k: EventKind)
    requires Bounded(b)
    ensures BufferOf(DeliverAll(b, es), k) == PushedAll(BufferOf(b, k), CoordsOf(es, k))
    decreases |es|
  {
    if es != [] {
      var b1 := Deliver(b, es[0]);
      DeliverAllSplits(b1, es[1..], k);
      if es[0].kind == k {
        PushedAllCons(BufferOf(b, k), Coord(es[0].row, es[0].col), CoordsOf(es[1..], k));
      } else {
        assert CoordsOf(es, k) == CoordsOf(es[1..], k);
      }
    }
  }

  /**
   * Starting from empty buffers, each buffer holds exactly the newest BufferLen coordinates of
   * its kind, in the order the calls were posted; older ones have been overwritten.
   */
  lemma BuffersKeepNewest(es: seq<Event>, k: EventKind)
    ensures BufferOf(DeliverAll(NoEntries, es), k) == Newest(CoordsOf(es, k))
  {
    DeliverAllSplits(NoEntries, es, k);
    PushedAllKeepsNewest([], CoordsOf(es, k));
    assert [] + CoordsOf(es, k) == CoordsOf(es, k);
  }

  class KeypadBlocking {
    const keypad: Keypad
    const pressBuf: Ring
    const releaseBuf: Ring
    const longpressBuf: Ring

    /** How many of the calls posted by the keypad the dispatch thread has run. */
    var dispatched: nat

    ghost predicate RingsValid()
      reads pressBuf, releaseBuf, longpressBuf
    {
      pressBuf.Valid() && releaseBuf.Valid() && longpressBuf.Valid()
    }

    /** The three buffers' contents. */
    ghost function Contents(): (b: Buffers)
      requires RingsValid()
      reads pressBuf, releaseBuf, longpressBuf, pressBuf.data, releaseBuf.data, longpressBuf.data
      ensures Bounded(b)
    {
      Buffers(pressBuf.Contents(), releaseBuf.Contents(), longpressBuf.Contents())
    }

    /**
     * The keypad and the rings are valid and do not share storage, the pushing listeners are
     * the ones registered and enabled, and no more calls have run than were posted.
     */
    ghost predicate Valid()
      reads this, keypad, keypad.rowOut, pressBuf, releaseBuf, longpressBuf
      reads pressBuf.data, releaseBuf.data, longpressBuf.data
    {
      && keypad.Valid()
      && RingsValid()
      && pressBuf != releaseBuf && pressBuf != longpressBuf && releaseBuf != longpressBuf
      && pressBuf.data != releaseBuf.data && pressBuf.data != longpressBuf.data
      && releaseBuf.data != longpressBuf.data
      && keypad.Model().wiring == PollWiring
      && dispatched <= |keypad.Model().queue|
    }

    /** Builds the keypad and registers the three pushing listeners. */
    constructor ()
      ensures Valid() && fresh(keypad) && fresh(keypad.rowOut)
      ensures fresh(pressBuf) && fresh(releaseBuf) && fresh(longpressBuf)
      ensures fresh(pressBuf.data) && fresh(releaseBuf.data) && fresh(longpressBuf.data)
      ensures Contents() == NoEntries && dispatched == 0
      ensures keypad.Model() == Initial.(wiring := PollWiring)
    {
      var k := new Keypad();
      k.RegisterOnpress(PushPressCb);
      k.RegisterOnrelease(PushReleaseCb);
      k.RegisterOnlongpress(PushLongpressCb);
      keypad := k;
      pressBuf := new Ring();
      releaseBuf := new Ring();
      longpressBuf := new Ring();
      dispatched := 0;
    }

    // -------------------------------------------------------------------------------------------
    // Lifecycle, forwarded to the keypad; the buffers keep their contents.

    method Initialize(allocOk: bool, startOk: bool) returns (ok: bool)
      requires Valid()
      modifies keypad
      ensures Valid() && Contents() == old(Contents())
      ensures (keypad.Model(), ok) == StartDispatch(old(keypad.Model()), allocOk, startOk)
    {
      ok := keypad.Initialize(allocOk, startOk);
    }

    method Finalize() returns (ok: bool)
      requires Valid()
      modifies keypad
      ensures Valid() && Contents() == old(Contents())
      ensures (keypad.Model(), ok) == StopDispatch(old(keypad.Model()))
    {
      ok := keypad.Finalize();
    }

    method IsInitialized() returns (b: bool)
      requires Valid()
      ensures b <==> keypad.Model().running
    {
      b := keypad.IsInitialized();
    }

    // -------------------------------------------------------------------------------------------
    // Inspection.

    method PressAvailable() returns (n: nat)
      requires Valid()
      ensures n == |Contents().press| && n <= BufferLen
    {
      n := pressBuf.Size();
    }

    method ReleaseAvailable() returns (n: nat)
      requires Valid()
      ensures n == |Contents().release| && n <= BufferLen
    {
      n := releaseBuf.Size();
    }

    method LongpressAvailable() returns (n: nat)
      requires Valid()
      ensures n == |Contents().longpress| && n <= BufferLen
    {
      n := longpressBuf.Size();
    }

    /**
     * peek_press(): the oldest press, without removing it. rIn and cIn are what the caller's
     * locations hold beforehand; they are returned unchanged when there is no press.
     */
    method PeekPress(rIn: nat, cIn: nat) returns (found: bool, r: nat, c: nat)
      requires Valid()
      ensures found <==> Contents().press != []
      ensures found ==> Coord(r, c) == Contents().press[0]
      ensures !found ==> r == rIn && c == cIn
    {
      var x;
      found, x := pressBuf.Peek();
      if !found {
        return false, rIn, cIn;
      }
      r, c := x.r, x.c;
    }

    /** peek_release(): as PeekPress, for releases. */
    method PeekRelease(rIn: nat, cIn: nat) returns (found: bool, r: nat, c: nat)
      requires Valid()
      ensures found <==> Contents().release != []
      ensures found ==> Coord(r, c) == Contents().release[0]
      ensures !found ==> r == rIn && c == cIn
    {
      var x;
      found, x := releaseBuf.Peek();
      if !found {
        return false, rIn, cIn;
      }
      r, c := x.r, x.c;
    }

    /** peek_longpress(): as PeekPress, for long-presses. */
    method PeekLongpress(rIn: nat, cIn: nat) returns (found: bool, r: nat, c: nat)
      requires Valid()
      ensures found <==> Contents().longpress != []
      ensures found ==> Coord(r, c) == Contents().longpress[0]
      ensures !found ==> r == rIn && c == cIn
    {
      var x;
      found, x := longpressBuf.Peek();
      if !found {
        return false, rIn, cIn;
      }
      r, c := x.r, x.c;
    }

    // -------------------------------------------------------------------------------------------
    // Removal: the oldest entry is dropped and not returned.

    method PopPress() returns (ok: bool)
      requires Valid()
      modifies pressBuf
      ensures Valid()
      ensures ok <==> old(Contents()).press != []
      ensures ok ==> Contents() == old(Contents()).(press := old(Contents()).press[1..])
      ensures !ok ==> Contents() == old(Contents())
    {
      var x;
      ok, x := pressBuf.Pop();
    }

    method PopRelease() returns (ok: bool)
      requires Valid()
      modifies releaseBuf
      ensures Valid()
      ensures ok <==> old(Contents()).release != []
      ensures ok ==> Contents() == old(Contents()).(release := old(Contents()).release[1..])
      ensures !ok ==> Contents() == old(Contents())
    {
      var x;
      ok, x := releaseBuf.Pop();
    }

    method PopLongpress() returns (ok: bool)
      requires Valid()
      modifies longpressBuf
      ensures Valid()
      ensures ok <==> old(Contents()).longpress != []
      ensures ok ==> Contents() == old(Contents()).(longpress := old(Contents()).longpress[1..])
      ensures !ok ==> Contents() == old(Contents())
    {
      var x;
      ok, x := longpressBuf.Pop();
    }

    // -------------------------------------------------------------------------------------------
    // The pushing listeners and the dispatch of posted calls.

    /** push_press(r, c). */
    method PushPress(r: nat, c: nat)
      requires Valid()
      modifies pressBuf, pressBuf.data
      ensures Valid() && dispatched == old(dispatched)
      ensures Contents() == old(Contents()).(press := Pushed(old(Contents()).press, Coord(r, c)))
    {
      pressBuf.Push(Coord(r, c));
    }

    /** push_release(r, c). */
    method PushRelease(r: nat, c: nat)
      requires Valid()
      modifies releaseBuf, releaseBuf.data
      ensures Valid() && dispatched == old(dispatched)
      ensures Contents() == old(Contents()).(release := Pushed(old(Contents()).release, Coord(r, c)))
    {
      releaseBuf.Push(Coord(r, c));
    }

    /** push_longpress(r, c). */
    method PushLongpress(r: nat, c: nat)
      requires Valid()
      modifies longpressBuf, longpressBuf.data
      ensures Valid() && dispatched == old(dispatched)
      ensures Contents() == old(Contents()).(longpress := Pushed(old(Contents()).longpress, Coord(r, c)))
    {
      longpressBuf.Push(Coord(r, c));
    }

    /**
     * The dispatch thread runs the oldest call the keypad posted that has not run yet, which
     * invokes the listener of its kind with its coordinates. Calls run only while the thread
     * exists; with nothing pending, or no thread, nothing happens.
     */
    method DispatchNext() returns (ran: bool)
      requires Valid()
      modifies this, pressBuf, pressBuf.data, releaseBuf, releaseBuf.data
      modifies longpressBuf, longpressBuf.data
      ensures Valid()
      ensures ran <==> keypad.Model().running && old(dispatched) < |keypad.Model().queue|
      ensures ran ==> dispatched == old(dispatched) + 1
                      && Contents() == Deliver(old(Contents()), keypad.Model().queue[old(dispatched)])
      ensures !ran ==> dispatched == old(dispatched) && Contents() == old(Contents())
    {
      if keypad.threadHandle == null || dispatched == |keypad.queue| {
        return false;
      }
      var e := keypad.queue[dispatched];
      match e.kind {
        case PressEvent => PushPress(e.row, e.col);
        case ReleaseEvent => PushRelease(e.row, e.col);
        case LongPressEvent => PushLongpress(e.row, e.col);
      }
      dispatched := dispatched + 1;
      return true;
    }
  }
}
