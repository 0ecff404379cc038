/** The completion ring of an AIO context (fs/aio.c:148-221, 630-663 and 701-764). */
module AioRing {
  import opened Common

  /** struct io_event. */
  datatype Event = Event(obj: int, data: int, res: int, res2: int)

  const EFAULT := 14

  const EVENT_SIZE := 32       // sizeof(struct io_event)
  const HEADER_SIZE := 32      // sizeof(struct aio_ring)

  /** Positions of one page: moving `k` along does not leave it. */
  lemma {:induction false} SamePage(pos: nat, k: nat, e: nat)
    requires e >= 1 && pos % e + k < e
    ensures (pos + k) / e == pos / e && (pos + k) % e == pos % e + k
  {
    DivModUnique(pos + k, pos / e, pos % e + k, e);
  }

  lemma {:induction false} PageBound(pos: nat, pages: nat, e: nat)
    requires e >= 1 && pos < e * pages
    ensures pos / e < pages && pos % e < e
  {
    var d := pos / e - pages;
    assert pos == (pos / e) * e + pos % e;
    assert d * e == (pos / e) * e - pages * e;
    assert d >= 0 ==> d * e >= 0;
  }

  /** aio_setup_ring: the smallest number of pages for the header and `maxReqs` + 2 events,
      and the number of events that then fit. */
  function RingPages(maxReqs: nat, perPage: nat): nat
    requires perPage >= 1
  {
    var size := HEADER_SIZE + EVENT_SIZE * (maxReqs + 2);
    (size + EVENT_SIZE * perPage - 1) / (EVENT_SIZE * perPage)
  }

  function RingEvents(pages: nat, perPage: nat): int
  {
    (EVENT_SIZE * perPage * pages - HEADER_SIZE) / EVENT_SIZE
  }

  /** The ring has room for the header and for two more events than were asked for. */
  lemma {:induction false} RingBigEnough(maxReqs: nat, perPage: nat)
    requires perPage >= 1
    ensures var pages := RingPages(maxReqs, perPage);
            && RingEvents(pages, perPage) == perPage * pages - 1
            && RingEvents(pages, perPage) >= maxReqs + 2
  {
    var page, size := EVENT_SIZE * perPage, HEADER_SIZE + EVENT_SIZE * (maxReqs + 2);
    var pages := RingPages(maxReqs, perPage);
    assert size + page - 1 == pages * page + (size + page - 1) % page;
    assert pages * page >= size;
    assert pages * page == EVENT_SIZE * (perPage * pages);
    var n := perPage * pages;
    assert EVENT_SIZE * perPage * pages == EVENT_SIZE * n;
    DivModUnique(EVENT_SIZE * n - HEADER_SIZE, n - 1, 0, EVENT_SIZE);
  }

  /** Pages of `e` positions with room for the header and `n` events. */
  ghost predicate Shape(pages: seq<seq<Event>>, e: nat, n: nat)
  {
    && e >= 1 && n >= 2 && (forall p :: 0 <= p < |pages| ==> |pages[p]| == e)
    && (forall open: bool {:trigger Open(open)} :: Open(open) ==> n + 1 == e * |pages|)
  }

  /** Ring slot `i` lies past the header, AIO_EVENTS_OFFSET positions along: at position `r` of
      page `p`. */
  ghost predicate IsAt(i: nat, e: nat, p: nat, r: nat)
  {
    e >= 1 && r < e && forall open: bool {:trigger Open(open)} :: Open(open) ==> p == (i + 1) / e && r == (i + 1) % e
  }

  lemma {:induction false} Located(pages: seq<seq<Event>>, e: nat, n: nat, i: nat)
    requires Shape(pages, e, n) && i < n
    ensures (i + 1) / e < |pages| && IsAt(i, e, (i + 1) / e, (i + 1) % e)
  {
    assert Open(true);
    PageBound(i + 1, |pages|, e);
  }

  lemma {:induction false} PlaceOf(pages: seq<seq<Event>>, e: nat, n: nat, i: nat) returns (p: nat, r: nat)
    requires Shape(pages, e, n) && i < n
    ensures p < |pages| && IsAt(i, e, p, r)
  {
    Located(pages, e, n, i);
    p, r := (i + 1) / e, (i + 1) % e;
  }

  ghost function Slot(pages: seq<seq<Event>>, e: nat, n: nat, i: nat): Event
    requires Shape(pages, e, n) && i < n
  {
    Located(pages, e, n, i);
    var p: nat, r: nat :| IsAt(i, e, p, r) && p < |pages|;
    pages[p][r]
  }

  lemma {:induction false} SlotAt(pages: seq<seq<Event>>, e: nat, n: nat, i: nat, p: nat, r: nat)
    requires Shape(pages, e, n) && i < n && IsAt(i, e, p, r) && p < |pages|
    ensures Slot(pages, e, n, i) == pages[p][r]
  {
    assert Open(true);
  }

  /** Two slots never share a position, and none is the header's. */
  lemma {:induction false} SlotsDistinct(e: nat, i: nat, j: nat, p: nat, r: nat)
    requires IsAt(i, e, p, r)
    ensures IsAt(j, e, p, r) ==> i == j
    ensures !(p == 0 && r == 0)
  {
    assert Open(true);
    assert i + 1 == ((i + 1) / e) * e + (i + 1) % e;
    assert j + 1 == ((j + 1) / e) * e + (j + 1) % e;
  }

  /** Neighbouring slots of one page. */
  lemma {:induction false} NextAt(i: nat, k: nat, e: nat, p: nat, r: nat)
    requires IsAt(i, e, p, r) && r + k < e
    ensures IsAt(i + k, e, p, r + k)
  {
    assert Open(true);
    SamePage(i + 1, k, e);
  }

  function Wrap(x: nat, n: nat): nat
  {
    if x < n then x else x - n
  }

  /** The `k` events from slot `from` on, going round. */
  ghost function Events(pages: seq<seq<Event>>, e: nat, n: nat, from: nat, k: nat): seq<Event>
    requires Shape(pages, e, n) && from < n && k <= n
  {
    if k == 0 then [] else Events(pages, e, n, from, k - 1) + [Slot(pages, e, n, Wrap(from + k - 1, n))]
  }

  function Unread(head: nat, tail: nat, n: nat): int
  {
    if head <= tail then tail - head else n - head + tail
  }

  /** Storing an event at its position changes its slot only. */
  lemma {:induction false} Stored(pages: seq<seq<Event>>, e: nat, n: nat, t: nat, ev: Event, i: nat, p: nat, r: nat)
    requires Shape(pages, e, n) && t < n && i < n && IsAt(t, e, p, r) && p < |pages|
    ensures var pages' := pages[p := pages[p][r := ev]];
            Shape(pages', e, n) && Slot(pages', e, n, i) == if i == t then ev else Slot(pages, e, n, i)
  {
    var pages' := pages[p := pages[p][r := ev]];
    var q, x := PlaceOf(pages, e, n, i);
    SlotAt(pages, e, n, i, q, x);
    SlotAt(pages', e, n, i, q, x);
    SlotsDistinct(e, i, t, q, x);
    SlotsDistinct(e, t, i, p, r);
    if i == t {
      SlotAt(pages', e, n, t, p, r);
    }
  }

  lemma {:induction false} EventsKept(pages: seq<seq<Event>>, pages': seq<seq<Event>>, e: nat, n: nat, from: nat,
                                      k: nat)
    requires Shape(pages, e, n) && Shape(pages', e, n) && from < n && k <= n
    requires forall j :: from <= j < from + k ==> Slot(pages', e, n, Wrap(j, n)) == Slot(pages, e, n, Wrap(j, n))
    ensures Events(pages', e, n, from, k) == Events(pages, e, n, from, k)
  {
    if k > 0 {
      EventsKept(pages, pages', e, n, from, k - 1);
      assert Slot(pages', e, n, Wrap(from + k - 1, n)) == Slot(pages, e, n, Wrap(from + k - 1, n));
    }
  }

  /** Copying `k` events out of one page, from position (p, r) on, copies the next `k` slots. */
  lemma {:induction false} CopiedSlots(pages: seq<seq<Event>>, e: nat, n: nat, from: nat, done: nat, k: nat,
                                       next: nat, p: nat, r: nat)
    requires Shape(pages, e, n) && from < n && done + k <= n && next == Wrap(from + done, n) && next + k <= n
    requires IsAt(next, e, p, r) && r + k <= e && p < |pages|
    ensures Events(pages, e, n, from, done + k) == Events(pages, e, n, from, done) + pages[p][r..r + k]
  {
    if k == 0 {
      assert pages[p][r..r] == [];
    } else {
      CopiedSlots(pages, e, n, from, done, k - 1, next, p, r);
      CopiedSlot(pages, e, n, next, k - 1, p, r);
      assert pages[p][r..r + k] == pages[p][r..r + k - 1] + [pages[p][r + k - 1]];
      assert Wrap(from + done + k - 1, n) == next + (k - 1);
    }
  }

  lemma {:induction false} CopiedSlot(pages: seq<seq<Event>>, e: nat, n: nat, next: nat, k: nat, p: nat, r: nat)
    requires Shape(pages, e, n) && next + k < n && IsAt(next, e, p, r) && r + k < e && p < |pages|
    ensures |pages[p]| == e && Slot(pages, e, n, next + k) == pages[p][r + k]
  {
    NextAt(next, k, e, p, r);
    SlotAt(pages, e, n, next + k, p, r + k);
  }

  /** Reading `k` events leaves the others. */
  lemma {:induction false} EventsSplit(pages: seq<seq<Event>>, e: nat, n: nat, from: nat, k: nat, m: nat)
    requires Shape(pages, e, n) && from < n && k + m <= n
    ensures Wrap(from + k, n) < n
    ensures Events(pages, e, n, from, k + m) == Events(pages, e, n, from, k) + Events(pages, e, n, Wrap(from + k, n), m)
  {
    if m > 0 {
      EventsSplit(pages, e, n, from, k, m - 1);
      assert Wrap(Wrap(from + k, n) + m - 1, n) == Wrap(from + k + m - 1, n);
    }
  }

  /** How many events can be copied at once: up to the tail or the end of the ring, the
      caller's limit, and the end of the page. */
  function Available(next: nat, tail: nat, n: nat, limit: nat, room: nat): (k: nat)
    requires next < n && tail < n && next != tail && limit >= 1 && room >= 1
    ensures 1 <= k <= limit && k <= room && next + k <= n
  {
    Min(Min((if next <= tail then tail else n) - next, limit), room)
  }

  lemma {:induction false} AvailableUnread(h: nat, done: nat, next: nat, tail: nat, n: nat, limit: nat, room: nat)
    requires h < n && tail < n && done <= Unread(h, tail, n) && next == Wrap(h + done, n) && next != tail
    requires limit >= 1 && room >= 1
    ensures next < n && done + Available(next, tail, n, limit, room) <= Unread(h, tail, n) <= n
  {
  }

  function EmptyPages(n: nat, e: nat): (pages: seq<seq<Event>>)
    ensures |pages| == n && forall p :: 0 <= p < n ==> |pages[p]| == e
  {
    seq(n, p => seq(e, i => Event(0, 0, 0, 0)))
  }

  class Ring {
    const perPage: nat               // AIO_EVENTS_PER_PAGE
    const nrEvents: nat
    var pages: seq<seq<Event>>       // ring_pages, as arrays of events; position 0 is the header
    var head: nat                    // ring->head, which user space may overwrite
    var tail: nat                    // ctx->tail

    ghost predicate Valid()
      reads this
    {
      Shape(pages, perPage, nrEvents) && tail < nrEvents
    }

    /** The events that have not been read, oldest first. */
    ghost function Contents(): seq<Event>
      requires Valid()
      reads this
    {
      var h := head % nrEvents;
      Events(pages, perPage, nrEvents, h, Unread(h, tail, nrEvents))
    }

    constructor (perPage: nat, maxReqs: nat)
      requires perPage >= 1
      ensures Valid() && Contents() == [] && nrEvents >= maxReqs + 2
    {
      var n := RingPages(maxReqs, perPage);
      RingBigEnough(maxReqs, perPage);
      var events := RingEvents(n, perPage);
      DivModUnique(0, 0, 0, events);
      this.perPage, nrEvents := perPage, events;
      pages := EmptyPages(n, perPage);
      head, tail := 0, 0;
    }

    /** The page of a slot and its position there. */
    method Locate(i: nat) returns (p: nat, r: nat)
      requires Valid() && i < nrEvents
      ensures IsAt(i, perPage, p, r) && p < |pages|
    {
      Located(pages, perPage, nrEvents, i);
      p, r := (i + 1) / perPage, (i + 1) % perPage;
    }

    /** The ring part of aio_complete: the event is appended unless the ring holds
        nr_events - 1 unread ones; then the ring reads as empty and all of them are lost. */
    method Complete(ev: Event)
      requires Valid()
      modifies `pages, `tail
      ensures Valid()
      ensures if Unread(head % nrEvents, old(tail), nrEvents) < nrEvents - 1 then Contents() == old(Contents()) + [ev]
              else Contents() == []
    {
      var p, r := Locate(tail);
      ghost var h, u := head % nrEvents, Unread(head % nrEvents, tail, nrEvents);
      Stored(pages, perPage, nrEvents, tail, ev, tail, p, r);
      var pages' := pages[p := pages[p][r := ev]];
      forall j | h <= j < h + u
        ensures Slot(pages', perPage, nrEvents, Wrap(j, nrEvents)) == Slot(pages, perPage, nrEvents, Wrap(j, nrEvents))
      {
        Stored(pages, perPage, nrEvents, tail, ev, Wrap(j, nrEvents), p, r);
      }
      EventsKept(pages, pages', perPage, nrEvents, h, u);
      pages := pages';
      tail := if tail + 1 >= nrEvents then 0 else tail + 1;
    }

    /** One copy_to_user of aio_read_events_ring: what can be taken from one page in one
        stretch. */
    method CopyChunk(h: nat, ghost done: nat, next: nat, limit: nat) returns (chunk: seq<Event>)
      requires Valid() && h < nrEvents && limit >= 1
      requires done <= Unread(h, tail, nrEvents) && next == Wrap(h + done, nrEvents) && next != tail
      ensures 1 <= |chunk| <= limit && done + |chunk| <= Unread(h, tail, nrEvents) && next + |chunk| <= nrEvents
      ensures Events(pages, perPage, nrEvents, h, done + |chunk|) == Events(pages, perPage, nrEvents, h, done) + chunk
    {
      var p, r := Locate(next);
      var avail := Available(next, tail, nrEvents, limit, perPage - r);
      AvailableUnread(h, done, next, tail, nrEvents, limit, perPage - r);
      CopiedSlots(pages, perPage, nrEvents, h, done, avail, next, p, r);
      chunk := pages[p][r..r + avail];
    }

    /** The copying loop of aio_read_events_ring from slot `h`.  The user's buffer takes `room`
        events before copy_to_user faults.  All available events are copied, but no more than
        `nr`, in order, unless they do not fit. */
    method CopyOut(h: nat, nr: int, room: nat) returns (ok: bool, out: seq<Event>, next: nat)
      requires Valid() && h < nrEvents
      ensures ok <==> Wanted(nr, Unread(h, tail, nrEvents)) <= room
      ensures ok ==>
                && |out| == Wanted(nr, Unread(h, tail, nrEvents)) && next == Wrap(h + |out|, nrEvents)
                && out == Events(pages, perPage, nrEvents, h, |out|)
    {
      ok, out, next := true, [], h;
      var n: nat := 0;
      while n < nr
        invariant n == |out| <= Wanted(nr, Unread(h, tail, nrEvents)) && n <= room
        invariant next == Wrap(h + n, nrEvents)
        invariant out == Events(pages, perPage, nrEvents, h, n)
      {
        if next == tail {
          break;
        }
        var chunk := CopyChunk(h, n, next, nr - n);
        if n + |chunk| > room {
          ok := false;
          return;
        }
        out := out + chunk;
        n := n + |chunk|;
        next := Wrap(next + |chunk|, nrEvents);
      }
    }

    /** aio_read_events_ring: returns the number of events read, or -EFAULT with the head where
        it was, exactly when the user's buffer is too small for them.  Events are read oldest
        first and leave the ring as they are read. */
    method ReadEvents(nr: int, room: nat) returns (ret: int, out: seq<Event>)
      requires Valid()
      modifies `head
      ensures Valid()
      ensures ret < 0 <==> Wanted(nr, |old(Contents())|) > room
      ensures ret < 0 ==> ret == -EFAULT && head == old(head)
      ensures ret >= 0 ==>
                var all := old(Contents());
                && ret == |out| == Wanted(nr, |all|)
                && out == all[..ret] && Contents() == all[ret..]
    {
      if head == tail {
        NothingUnread();
        return 0, [];
      }
      var h := head % nrEvents;
      var ok, next;
      ok, out, next := CopyOut(h, nr, room);
      EventsLength(pages, perPage, nrEvents, h, Unread(h, tail, nrEvents));
      if !ok {
        return -EFAULT, out;
      }
      ret := |out|;
      ReadPart(h, ret, next);
      head := next;
    }

    lemma {:induction false} NothingUnread()
      requires Valid() && head == tail
      ensures Contents() == []
    {
      DivModUnique(head, 0, head, nrEvents);
    }

    lemma {:induction false} ReadPart(h: nat, k: nat, next: nat)
      requires Valid() && h < nrEvents && k <= Unread(h, tail, nrEvents) && next == Wrap(h + k, nrEvents)
      ensures next % nrEvents == next
      ensures var u := Unread(h, tail, nrEvents);
              var all := Events(pages, perPage, nrEvents, h, u);
              && |all| == u && Unread(next, tail, nrEvents) == u - k
              && all[..k] == Events(pages, perPage, nrEvents, h, k)
              && all[k..] == Events(pages, perPage, nrEvents, next, u - k)
    {
      DivModUnique(next, 0, next, nrEvents);
      var u := Unread(h, tail, nrEvents);
      EventsSplit(pages, perPage, nrEvents, h, k, u - k);
      EventsLength(pages, perPage, nrEvents, h, k);
      EventsLength(pages, perPage, nrEvents, next, u - k);
    }
  }

  /** How many events a call for `nr` should deliver when `unread` are there. */
  function Wanted(nr: int, unread: int): int
  {
    if nr <= 0 then 0 else Min(nr, unread)
  }

  function Min(a: int, b: int): int
  {
    if a < b then a else b
  }

  lemma {:induction false} EventsLength(pages: seq<seq<Event>>, e: nat, n: nat, from: nat, k: nat)
    requires Shape(pages, e, n) && from < n && k <= n
    ensures |Events(pages, e, n, from, k)| == k
  {
    if k > 0 {
      EventsLength(pages, e, n, from, k - 1);
    }
  }

  /** A ring that nobody reads: with nr_events - 1 unread events it is full, and completing one
      more request leaves nothing to be read. */
  method Overflow(perPage: nat, maxReqs: nat, ev: Event) returns (ring: Ring, ghost full: seq<Event>)
    requires perPage >= 1
    ensures fresh(ring) && ring.Valid() && |full| == ring.nrEvents - 1 > maxReqs && ring.Contents() == []
  {
    ring := new Ring(perPage, maxReqs);
    for k := 0 to ring.nrEvents - 1
      invariant ring.Valid() && fresh(ring) && |ring.Contents()| == k
    {
      EventsLength(ring.pages, ring.perPage, ring.nrEvents, ring.head % ring.nrEvents,
                   Unread(ring.head % ring.nrEvents, ring.tail, ring.nrEvents));
      ring.Complete(ev);
    }
    full := ring.Contents();
    EventsLength(ring.pages, ring.perPage, ring.nrEvents, ring.head % ring.nrEvents,
                 Unread(ring.head % ring.nrEvents, ring.tail, ring.nrEvents));
    ring.Complete(ev);
  }
}
