/** A time-windowed event buffer: events are appended, and reading the
    window first drops every event older than the window. */
module Storage {
  import opened Domain

  /** Is the event no older than `seconds` at time `now`? */
  predicate Young(ev: MaritimeEvent, now: real, seconds: int) {
    now - ev.eventTime <= seconds as real
  }

  /** The events `RemoveAll` leaves, in their original order. */
  function Retain(events: seq<MaritimeEvent>, now: real, seconds: int): (kept: seq<MaritimeEvent>)
    ensures |kept| <= |events|
    ensures forall i :: 0 <= i < |kept| ==> Young(kept[i], now, seconds)
    ensures forall e :: e in kept ==> e in events
    ensures forall e :: e in events && Young(e, now, seconds) ==> e in kept
  {
    if events == [] then []
    else
      var rest := Retain(events[..|events| - 1], now, seconds);
      var last := events[|events| - 1];
      assert forall e :: e in events ==> e in events[..|events| - 1] || e == last;
      if Young(last, now, seconds) then rest + [last] else rest
  }

  /** Retaining over a concatenation retains each part. */
  lemma {:induction false} RetainAppend(a: seq<MaritimeEvent>, b: seq<MaritimeEvent>, now: real, seconds: int)
    ensures Retain(a + b, now, seconds) == Retain(a, now, seconds) + Retain(b, now, seconds)
    decreases |b|
  {
    if b == [] {
      assert a + b == a;
    } else {
      var b' := b[..|b| - 1];
      assert (a + b)[..|a + b| - 1] == a + b';
      RetainAppend(a, b', now, seconds);
    }
  }

  /** Reading the window twice at the same instant drops nothing the second time. */
  lemma {:induction false} RetainIdempotent(events: seq<MaritimeEvent>, now: real, seconds: int)
    ensures Retain(Retain(events, now, seconds), now, seconds) == Retain(events, now, seconds)
    decreases |events|
  {
    if events != [] {
      var prefix := events[..|events| - 1];
      var last := events[|events| - 1];
      RetainIdempotent(prefix, now, seconds);
      if Young(last, now, seconds) {
        RetainAppend(Retain(prefix, now, seconds), [last], now, seconds);
        assert Retain([last], now, seconds) == [last] by {
          assert [last][..0] == [];
        }
      }
    }
  }

  /** When every event is young enough, the window is the whole buffer. */
  lemma {:induction false} RetainAllYoung(events: seq<MaritimeEvent>, now: real, seconds: int)
    requires forall i :: 0 <= i < |events| ==> Young(events[i], now, seconds)
    ensures Retain(events, now, seconds) == events
    decreases |events|
  {
    if events != [] {
      var prefix := events[..|events| - 1];
      RetainAllYoung(prefix, now, seconds);
      assert prefix + [events[|events| - 1]] == events;
    }
  }

  class WindowStore {
    var events: seq<MaritimeEvent>

    constructor()
      ensures events == []
    {
      events := [];
    }

    method Add(ev: MaritimeEvent)
      modifies this
      ensures events == old(events) + [ev]
    {
      events := events + [ev];
    }

    /** Drops the events older than `seconds` at `now` from the buffer and
        returns a copy of what remains. */
    method GetWindow(seconds: int, now: real) returns (window: seq<MaritimeEvent>)
      modifies this
      ensures events == Retain(old(events), now, seconds)
      ensures window == events
      ensures forall i :: 0 <= i < |window| ==> Young(window[i], now, seconds)
    {
      var kept: seq<MaritimeEvent> := [];
      var i := 0;
      while i < |events|
        invariant 0 <= i <= |events|
        invariant kept == Retain(events[..i], now, seconds)
      {
        assert events[..i + 1][..i] == events[..i];
        if now - events[i].eventTime <= seconds as real {
          kept := kept + [events[i]];
        }
        i := i + 1;
      }
      assert events[..i] == events;
      events := kept;
      window := kept;
    }
  }
}
