/** The rate-limit rule that every data source repeats at the top of its
    `update`: while fewer than `interval` seconds have passed since the stamped
    time `last`, the call returns; otherwise it stamps `now` as the new `last`
    before fetching anything. Times are seconds, as plain numbers supplied by
    the caller.

    The rule is stated twice here. `Stamped` is the invariant each source class
    keeps on the ghost list of its stamps, one `update` at a time. `Fired` is
    the same gate applied to a whole run of calls, as a function;
    `FiredStamped` shows that the stamps it produces meet `Stamped`. */
module Cooldown {

  /** Python's `int()` on a number: truncation toward zero. */
  function Trunc(x: real): (r: int)
    ensures 0.0 <= x ==> r as real <= x < r as real + 1.0
    ensures x < 0.0 ==> r as real - 1.0 < x <= r as real
  {
    if 0.0 <= x then x.Floor else -((-x).Floor)
  }

  /** A configured interval raised to a provider's floor. */
  function Clamp(x: real, floor: real): (r: real)
    ensures floor <= r
    ensures r == x || r == floor
    ensures floor <= x ==> r == x
  {
    if x < floor then floor else x
  }

  /** The gate: true when the call may proceed, i.e. it is not the case that
      `now - last < interval`; equivalently, `now` is at least one interval
      after the stamp. */
  function Ready(now: real, last: real, interval: real): (r: bool)
    ensures r <==> last + interval <= now
  {
    !(now - last < interval)
  }

  /** Successive stamps at least `interval` apart. */
  predicate Spaced(stamps: seq<real>, interval: real) {
    forall i :: 0 < i < |stamps| ==> stamps[i] - stamps[i - 1] >= interval
  }

  /** The object invariant of a source: `stamps` lists every value its
      `last_update` has held, the current one last, each successive pair at
      least `interval` apart. */
  ghost predicate Stamped(stamps: seq<real>, last: real, interval: real) {
    stamps != [] && stamps[|stamps| - 1] == last && Spaced(stamps, interval)
  }

  /** A passing call keeps the invariant when it appends its own stamp. */
  lemma StampKeepsSpacing(stamps: seq<real>, last: real, interval: real, now: real)
    requires Stamped(stamps, last, interval)
    requires Ready(now, last, interval)
    ensures Stamped(stamps + [now], now, interval)
  {
  }

  /** With a non-negative interval, consecutive spacing gives spacing between
      any two stamps, however many calls passed in between. */
  lemma {:induction false} SpacedApart(stamps: seq<real>, interval: real, i: nat, j: nat)
    requires 0.0 <= interval && Spaced(stamps, interval)
    requires i < j < |stamps|
    ensures stamps[j] - stamps[i] >= interval
    decreases j - i
  {
    if i + 1 < j {
      SpacedApart(stamps, interval, i, j - 1);
      assert stamps[j] - stamps[j - 1] >= interval;
    }
  }

  /** The times, among a sequence of calls made one after another starting from
      the stamp `last`, at which the gate let the call through. */
  function Fired(last: real, interval: real, calls: seq<real>): (r: seq<real>)
    ensures |r| <= |calls|
    ensures forall t :: t in r ==> t in calls
    decreases |calls|
  {
    if calls == [] then []
    else if Ready(calls[0], last, interval) then [calls[0]] + Fired(calls[0], interval, calls[1..])
    else Fired(last, interval, calls[1..])
  }

  /** Every call that passes is at least `interval` after the starting stamp,
      and the passing calls are spaced by at least `interval`. */
  lemma {:induction false} FiredSpaced(last: real, interval: real, calls: seq<real>)
    ensures Spaced(Fired(last, interval, calls), interval)
    ensures Fired(last, interval, calls) != [] ==> Fired(last, interval, calls)[0] - last >= interval
    decreases |calls|
  {
    if calls != [] {
      FiredSpaced(calls[0], interval, calls[1..]);
      FiredSpaced(last, interval, calls[1..]);
      if Ready(calls[0], last, interval) {
        var rest := Fired(calls[0], interval, calls[1..]);
        var r := [calls[0]] + rest;
        forall i | 0 < i < |r| ensures r[i] - r[i - 1] >= interval {
          if i > 1 {
            assert r[i] == rest[i - 1] && r[i - 1] == rest[i - 2];
          }
        }
      }
    }
  }

  /** Two passing calls are at least `interval` apart, and no passing call
      comes earlier than `interval` after the starting stamp, whenever the
      interval is not negative (which every floor ensures). */
  lemma FiredApart(last: real, interval: real, calls: seq<real>, i: nat, j: nat)
    requires 0.0 <= interval
    requires i < j < |Fired(last, interval, calls)|
    ensures Fired(last, interval, calls)[j] - Fired(last, interval, calls)[i] >= interval
    ensures Fired(last, interval, calls)[i] >= last + interval
  {
    FiredSpaced(last, interval, calls);
    var r := Fired(last, interval, calls);
    SpacedApart(r, interval, i, j);
    if 0 < i {
      SpacedApart(r, interval, 0, i);
    }
  }

  /** Two calls, the first of which passes: the second passes exactly when it
      comes at least `interval` later. */
  lemma TwoCalls(last: real, interval: real, t: real, d: real)
    requires Ready(t, last, interval)
    ensures Fired(last, interval, [t, t + d]) == if d < interval then [t] else [t, t + d]
  {
  }

  /** The stamp in force after a run of calls: the last call that passed, or
      the starting stamp when none did. */
  function LastStamp(last: real, interval: real, calls: seq<real>): real {
    var fired := Fired(last, interval, calls);
    if fired == [] then last else fired[|fired| - 1]
  }

  /** One more call passes exactly when the gate, tested against the stamp in
      force after the earlier calls, lets it through; the earlier calls are
      unaffected. */
  lemma {:induction false} FiredExtend(last: real, interval: real, calls: seq<real>, t: real)
    ensures Fired(last, interval, calls + [t]) ==
      Fired(last, interval, calls) + (if Ready(t, LastStamp(last, interval, calls), interval) then [t] else [])
    decreases |calls|
  {
    if calls == [] {
      assert calls + [t] == [t];
      assert [t][1..] == [];
    } else {
      assert (calls + [t])[0] == calls[0];
      assert (calls + [t])[1..] == calls[1..] + [t];
      if Ready(calls[0], last, interval) {
        FiredExtend(calls[0], interval, calls[1..], t);
        assert LastStamp(last, interval, calls) == LastStamp(calls[0], interval, calls[1..]);
      } else {
        FiredExtend(last, interval, calls[1..], t);
      }
    }
  }

  /** The starting stamp followed by the calls that pass is a stamp list that
      meets the invariant the source classes keep, ending in the stamp in
      force. */
  lemma FiredStamped(last: real, interval: real, calls: seq<real>)
    ensures Stamped([last] + Fired(last, interval, calls), LastStamp(last, interval, calls), interval)
  {
    FiredSpaced(last, interval, calls);
    var fired := Fired(last, interval, calls);
    var s := [last] + fired;
    forall i | 0 < i < |s| ensures s[i] - s[i - 1] >= interval {
      if i > 1 {
        assert s[i] == fired[i - 1] && s[i - 1] == fired[i - 2];
      }
    }
  }
}
