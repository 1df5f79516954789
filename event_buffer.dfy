/**
 * The bounded event buffers of the poll model: an abstract first-in first-out sequence of
 * button coordinates with room for BufferLen entries, where a push on a full buffer overwrites
 * the oldest entry, and a ring over a fixed array that is proved to behave as that sequence.
 */
module EventBuffer {
  import opened KeypadConfig

  /** The coordinates of a button. */
  datatype Coord = Coord(r: nat, c: nat)

  function Min(a: nat, b: nat): (r: nat) {
    if a <= b then a else b
  }

  /**
   * The contents after pushing x: the newest BufferLen entries of s followed by x, so
   * everything is kept while there is room and only the oldest entry is lost when full.
   */
  function Pushed(s: seq<Coord>, x: Coord): (r: seq<Coord>)
    requires |s| <= BufferLen
    ensures |r| == Min(|s| + 1, BufferLen) && r[|r| - 1] == x
  {
    if |s| == BufferLen then s[1..] + [x] else s + [x]
  }

  /** The contents after pushing every entry of xs in order. */
  function PushedAll(s: seq<Coord>, xs: seq<Coord>): (r: seq<Coord>)
    requires |s| <= BufferLen
    ensures |r| <= BufferLen
    decreases |xs|
  {
    if xs == [] then s else PushedAll(Pushed(s, xs[0]), xs[1..])
  }

  /** The newest BufferLen entries of all, oldest first. */
  function Newest(all: seq<Coord>): (r: seq<Coord>)
    ensures |r| == Min(|all|, BufferLen)
  {
    all[|all| - Min(|all|, BufferLen)..]
  }

  /**
   * One push keeps every entry and the new one while there is room, and otherwise drops
   * exactly the oldest: the entries still to come see the same history minus what was lost.
   */
  lemma PushedHistory(s: seq<Coord>, xs: seq<Coord>)
    requires |s| <= BufferLen && xs != []
    ensures |s| < BufferLen ==> Pushed(s, xs[0]) + xs[1..] == s + xs
    ensures |s| == BufferLen ==> Pushed(s, xs[0]) + xs[1..] == (s + xs)[1..]
  {
    assert xs == [xs[0]] + xs[1..];
    if |s| == BufferLen {
      assert s + xs == [s[0]] + (s[1..] + [xs[0]] + xs[1..]);
    }
  }

  /** Dropping the oldest of more than BufferLen entries leaves the newest BufferLen as they were. */
  lemma NewestOfTail(all: seq<Coord>)
    requires |all| > BufferLen
    ensures Newest(all[1..]) == Newest(all)
  {
  }

  /** Pushing a run of entries keeps exactly the newest BufferLen of everything pushed. */
  lemma {:induction false} PushedAllKeepsNewest(s: seq<Coord>, xs: seq<Coord>)
    requires |s| <= BufferLen
    ensures PushedAll(s, xs) == Newest(s + xs)
    decreases |xs|
  {
    if xs == [] {
      assert s + xs == s;
    } else {
      var s1 := Pushed(s, xs[0]);
      PushedAllKeepsNewest(s1, xs[1..]);
      PushedHistory(s, xs);
      if |s| == BufferLen {
        NewestOfTail(s + xs);
      }
    }
  }

  /** Up to BufferLen entries pushed onto an empty buffer are all kept, in push order. */
  lemma PushedAllUnderCapacity(xs: seq<Coord>)
    requires |xs| <= BufferLen
    ensures PushedAll([], xs) == xs
  {
    PushedAllKeepsNewest([], xs);
    assert [] + xs == xs;
  }

  /** One entry more than fits loses exactly the first one pushed. */
  lemma PushedAllOverflowByOne(xs: seq<Coord>)
    requires |xs| == BufferLen + 1
    ensures PushedAll([], xs) == xs[1..]
  {
    PushedAllKeepsNewest([], xs);
    assert [] + xs == xs;
  }

  /** The entries seen by k rounds of peek-then-pop, in the order they are seen. */
  function Drained(s: seq<Coord>, k: nat): (r: seq<Coord>)
    decreases k
  {
    if k == 0 || s == [] then [] else [s[0]] + Drained(s[1..], k - 1)
  }

  lemma {:induction false} DrainedIsPrefix(s: seq<Coord>, k: nat)
    ensures Drained(s, k) == s[..Min(k, |s|)]
    decreases k
  {
    if k != 0 && s != [] {
      DrainedIsPrefix(s[1..], k - 1);
      assert s[..Min(k, |s|)] == [s[0]] + s[1..][..Min(k - 1, |s| - 1)];
    }
  }

  /**
   * Round trip: pushing up to BufferLen entries onto an empty buffer and then alternating peek
   * and pop as many times yields them in push order.
   */
  lemma PushThenDrain(xs: seq<Coord>)
    requires |xs| <= BufferLen
    ensures Drained(PushedAll([], xs), |xs|) == xs
  {
    PushedAllUnderCapacity(xs);
    DrainedIsPrefix(xs, |xs|);
    assert xs[..|xs|] == xs;
  }

  /** Pushing BufferLen + 1 entries and draining as many times yields all but the first. */
  lemma PushThenDrainOverflow(xs: seq<Coord>)
    requires |xs| == BufferLen + 1
    ensures Drained(PushedAll([], xs), |xs|) == xs[1..]
  {
    var kept := xs[1..];
    PushedAllOverflowByOne(xs);
    DrainedIsPrefix(kept, |xs|);
    assert Min(|xs|, |kept|) == |kept|;
    assert kept[..|kept|] == kept;
  }

  /** An index into the ring's array, one lap at most past its end. */
  function Wrap(k: nat): (r: nat)
    requires k < 2 * BufferLen
    ensures r < BufferLen
  {
    if k < BufferLen then k else k - BufferLen
  }

  /** The count entries of a ring's array buf that start at index head. */
  function Unroll(buf: seq<Coord>, head: nat, count: nat): (s: seq<Coord>)
    requires |buf| == BufferLen && head < BufferLen && count <= BufferLen
    ensures |s| == count
    ensures forall i | 0 <= i < count :: s[i] == buf[Wrap(head + i)]
  {
    seq(count, i requires 0 <= i < count => buf[Wrap(head + i)])
  }

  /** Writing x just past the last of count < BufferLen entries appends it. */
  lemma UnrollAppend(buf: seq<Coord>, head: nat, count: nat, x: Coord)
    requires |buf| == BufferLen && head < BufferLen && count < BufferLen
    ensures Unroll(buf[Wrap(head + count) := x], head, count + 1) == Unroll(buf, head, count) + [x]
  {
    var after := Unroll(buf[Wrap(head + count) := x], head, count + 1);
    var before := Unroll(buf, head, count);
    forall i | 0 <= i < count
      ensures after[i] == before[i]
    {
      assert Wrap(head + i) != Wrap(head + count);
    }
  }

  /** Overwriting the oldest of BufferLen entries and advancing head drops it and appends x. */
  lemma UnrollOverwrite(buf: seq<Coord>, head: nat, x: Coord)
    requires |buf| == BufferLen && head < BufferLen
    ensures Unroll(buf[head := x], Wrap(head + 1), BufferLen) == Unroll(buf, head, BufferLen)[1..] + [x]
  {
    var after := Unroll(buf[head := x], Wrap(head + 1), BufferLen);
    var before := Unroll(buf, head, BufferLen);
    forall i | 0 <= i < BufferLen - 1
      ensures after[i] == before[i + 1]
    {
      assert Wrap(Wrap(head + 1) + i) == Wrap(head + i + 1) != head;
    }
    assert after[BufferLen - 1] == x by {
      assert Wrap(Wrap(head + 1) + BufferLen - 1) == head;
    }
  }

  /**
   * A ring buffer of BufferLen coordinates: count entries starting at index head, wrapping
   * around the end of the array.
   */
  class Ring {
    const data: array<Coord>
    var head: nat
    var count: nat

    ghost predicate Valid()
      reads this
    {
      data.Length == BufferLen && head < BufferLen && count <= BufferLen
    }

    /** The entries, oldest first. */
    ghost function Contents(): (s: seq<Coord>)
      requires Valid()
      reads this, data
      ensures |s| == count
    {
      Unroll(data[..], head, count)
    }

    constructor ()
      ensures Valid() && fresh(data) && Contents() == []
    {
      data := new Coord[BufferLen](_ => Coord(0, 0));
      head, count := 0, 0;
    }

    /** size(): the number of entries not yet popped. */
    method Size() returns (n: nat)
      requires Valid()
      ensures n == |Contents()|
    {
      n := count;
    }

    /** peek(): the oldest entry, if there is one, without removing it. */
    method Peek() returns (found: bool, x: Coord)
      requires Valid()
      ensures found <==> Contents() != []
      ensures found ==> x == Contents()[0]
    {
      found := count > 0;
      if found {
        x := data[head];
      } else {
        x := Coord(0, 0);
      }
    }

    /** pop(): removes and returns the oldest entry; false and no change when empty. */
    method Pop() returns (found: bool, x: Coord)
      requires Valid()
      modifies this
      ensures Valid()
      ensures found <==> old(Contents()) != []
      ensures found ==> x == old(Contents())[0] && Contents() == old(Contents())[1..]
      ensures !found ==> Contents() == old(Contents())
    {
      found := count > 0;
      if found {
        x := data[head];
        head, count := Wrap(head + 1), count - 1;
      } else {
        x := Coord(0, 0);
      }
    }

    /** push(): appends x, overwriting the oldest entry when the buffer is full. */
    method Push(x: Coord)
      requires Valid()
      modifies this, data
      ensures Valid()
      ensures Contents() == Pushed(old(Contents()), x)
    {
      if count == BufferLen {
        UnrollOverwrite(data[..], head, x);
        data[head] := x;
        head := Wrap(head + 1);
      } else {
        UnrollAppend(data[..], head, count, x);
        data[Wrap(head + count)] := x;
        count := count + 1;
      }
    }
  }
}
