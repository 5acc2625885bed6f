/** The last trades of a time window in a circular array: what nexus/internal/features/vwap.go and
    imbalance.go have in common. */
module RollingWindow {

  /** An entry and its time, in nanoseconds. */
  datatype Stamped<T> = Stamped(ts: int, value: T)

  // ---------------------------------------------------------------------------
  // The window as a sequence
  // ---------------------------------------------------------------------------

  /** Takes entries off the old end while they are older than the cutoff. */
  function DropExpired<T>(w: seq<Stamped<T>>, cutoff: int): seq<Stamped<T>> {
    if w == [] || w[0].ts >= cutoff then w else DropExpired(w[1..], cutoff)
  }

  /** What stays when an entry comes: nothing older than the window, and room for the new one. */
  function Room<T>(w: seq<Stamped<T>>, capacity: nat): seq<Stamped<T>>
    requires capacity > 0
  {
    if |w| < capacity then w else w[1..]
  }

  function Push<T>(w: seq<Stamped<T>>, capacity: nat, window: int, e: Stamped<T>): seq<Stamped<T>>
    requires capacity > 0
  {
    Room(DropExpired(w, e.ts - window), capacity) + [e]
  }

  /** What is live after a history of entries. */
  function Live<T>(h: seq<Stamped<T>>, capacity: nat, window: int): seq<Stamped<T>>
    requires capacity > 0
  {
    if h == [] then [] else Push(Live(h[..|h| - 1], capacity, window), capacity, window, h[|h| - 1])
  }

  ghost predicate InOrder<T(!new)>(h: seq<Stamped<T>>) {
    forall i, j :: 0 <= i <= j < |h| ==> h[i].ts <= h[j].ts
  }

  lemma {:induction false} DropsAPrefix<T(!new)>(w: seq<Stamped<T>>, cutoff: int)
    requires InOrder(w)
    ensures var kept := DropExpired(w, cutoff);
      && |kept| <= |w| && kept == w[|w| - |kept|..]
      && forall i :: 0 <= i < |w| ==> (i >= |w| - |kept| <==> w[i].ts >= cutoff)
  {
    if w == [] || w[0].ts >= cutoff {
    } else {
      DropsAPrefix(w[1..], cutoff);
      var kept := DropExpired(w[1..], cutoff);
      forall i | 0 <= i < |w|
        ensures i >= |w| - |kept| <==> w[i].ts >= cutoff
      {
        if i > 0 {
          assert w[i] == w[1..][i - 1];
        }
      }
    }
  }

  /** Entries from `start` on are the ones among the last `capacity` that are not older than the cutoff. */
  ghost predicate StartsAt<T(!new)>(h: seq<Stamped<T>>, start: int, capacity: nat, cutoff: int) {
    0 <= start <= |h| && forall i :: 0 <= i < |h| ==> (i >= start <==> i >= |h| - capacity && h[i].ts >= cutoff)
  }

  /** The live entries are exactly the entries that are among the last `capacity` and not older than the
      window, in their order. */
  ghost predicate IsWindow<T(!new)>(w: seq<Stamped<T>>, h: seq<Stamped<T>>, capacity: nat, window: int) {
    && |w| <= |h| && w == h[|h| - |w|..]
    && (h != [] ==> StartsAt(h, |h| - |w|, capacity, h[|h| - 1].ts - window))
  }

  /** Dropping expired entries moves the start to the new cutoff. */
  lemma DropMovesStart<T(!new)>(h: seq<Stamped<T>>, start: int, capacity: nat, before: int, cutoff: int)
    requires InOrder(h) && before <= cutoff && StartsAt(h, start, capacity, before)
    ensures var kept := DropExpired(h[start..], cutoff);
      && |kept| <= |h| - start && kept == h[|h| - |kept|..]
      && StartsAt(h, |h| - |kept|, capacity, cutoff)
  {
    var w := h[start..];
    DropsAPrefix(w, cutoff);
    var kept := DropExpired(w, cutoff);
    hide DropExpired, InOrder;
    assert w[|w| - |kept|..] == h[|h| - |kept|..];
    forall i | 0 <= i < |h|
      ensures i >= |h| - |kept| <==> i >= |h| - capacity && h[i].ts >= cutoff
    {
      if i >= start {
        assert w[i - start] == h[i];
      }
    }
  }

  /** Making room for one more entry keeps the start where the capacity wants it. */
  lemma RoomMovesStart<T(!new)>(h: seq<Stamped<T>>, kept: seq<Stamped<T>>, capacity: nat, cutoff: int)
    requires h != [] && capacity > 0 && h[|h| - 1].ts >= cutoff
    requires var init := h[..|h| - 1];
      |kept| <= |init| && kept == init[|init| - |kept|..] && StartsAt(init, |init| - |kept|, capacity, cutoff)
    ensures var w := Room(kept, capacity) + [h[|h| - 1]];
      |w| <= |h| && w == h[|h| - |w|..] && StartsAt(h, |h| - |w|, capacity, cutoff)
  {
    var n := |h| - 1;
    var init := h[..n];
    if kept != [] {
      assert init[n - |kept|].ts >= cutoff;
    }
    assert |kept| <= capacity;
    var w := Room(kept, capacity) + [h[n]];
    forall i | 0 <= i < |h|
      ensures i >= |h| - |w| <==> i >= |h| - capacity && h[i].ts >= cutoff
    {
      if i < n {
        assert init[i] == h[i];
      }
    }
  }

  /** Time order puts the cutoff of the next entry at or after the one before it. */
  lemma CutoffsRise<T(!new)>(h: seq<Stamped<T>>, w: seq<Stamped<T>>, capacity: nat, window: int) returns (before: int)
    requires h != [] && InOrder(h) && IsWindow(w, h[..|h| - 1], capacity, window)
    ensures InOrder(h[..|h| - 1]) && before <= h[|h| - 1].ts - window
    ensures StartsAt(h[..|h| - 1], |h| - 1 - |w|, capacity, before)
  {
    var n := |h| - 1;
    before := if n == 0 then h[0].ts - window else h[..n][n - 1].ts - window;
  }

  lemma PushIsWindow<T(!new)>(h: seq<Stamped<T>>, w: seq<Stamped<T>>, capacity: nat, window: int)
    requires h != [] && capacity > 0 && window >= 0 && InOrder(h)
    requires IsWindow(w, h[..|h| - 1], capacity, window)
    ensures IsWindow(Push(w, capacity, window, h[|h| - 1]), h, capacity, window)
  {
    hide Room, DropExpired, InOrder, StartsAt;
    var n, e := |h| - 1, h[|h| - 1];
    var before := CutoffsRise(h, w, capacity, window);
    DropMovesStart(h[..n], n - |w|, capacity, before, e.ts - window);
    RoomMovesStart(h, DropExpired(w, e.ts - window), capacity, e.ts - window);
  }

  lemma {:induction false} LiveIsWindow<T(!new)>(h: seq<Stamped<T>>, capacity: nat, window: int)
    requires capacity > 0 && window >= 0 && InOrder(h)
    ensures IsWindow(Live(h, capacity, window), h, capacity, window)
  {
    if h != [] {
      LiveIsWindow(h[..|h| - 1], capacity, window);
      hide IsWindow;
      PushIsWindow(h, Live(h[..|h| - 1], capacity, window), capacity, window);
    }
  }

  lemma StartsOnce<S(!new), T(!new)>(g: seq<Stamped<S>>, h: seq<Stamped<T>>, i: int, j: int, capacity: nat, cutoff: int)
    requires |g| == |h| && forall k :: 0 <= k < |h| ==> g[k].ts == h[k].ts
    requires StartsAt(g, i, capacity, cutoff) && StartsAt(h, j, capacity, cutoff)
    ensures i == j
  {
    assert i < |h| ==> g[i].ts == h[i].ts;
    assert j < |h| ==> g[j].ts == h[j].ts;
  }

  /** Histories of the same times have windows of the same length: a history has one window. */
  lemma SameWindow<S(!new), T(!new)>(v: seq<Stamped<S>>, g: seq<Stamped<S>>, w: seq<Stamped<T>>, h: seq<Stamped<T>>,
                                     capacity: nat, window: int)
    requires |g| == |h| && forall k :: 0 <= k < |h| ==> g[k].ts == h[k].ts
    requires IsWindow(v, g, capacity, window) && IsWindow(w, h, capacity, window)
    ensures |v| == |w|
  {
    if h != [] {
      assert g[|g| - 1].ts == h[|h| - 1].ts;
      StartsOnce(g, h, |g| - |v|, |h| - |w|, capacity, h[|h| - 1].ts - window);
    }
  }

  // ---------------------------------------------------------------------------
  // The window in a circular array
  // ---------------------------------------------------------------------------

  /** The place of the `i`-th oldest of `count` entries when the next one goes to `head`. */
  function Place(n: nat, head: nat, count: nat, i: nat): nat
    requires head < n && i < count <= n
  {
    (head - count + i + n) % n
  }

  function Slots<T>(s: seq<T>, head: nat, count: nat): seq<T>
    requires head < |s| && count <= |s|
  {
    seq(count, i requires 0 <= i < count => s[Place(|s|, head, count, i)])
  }

  lemma PlaceIs(n: nat, head: nat, count: nat, i: nat)
    requires head < n && i < count <= n
    ensures Place(n, head, count, i) == if head - count + i < 0 then head - count + i + n else head - count + i
  {
    var x := head - count + i;
    if x >= 0 {
      Wrap(x, n);
    } else {
      Wrap(x + n, n);
    }
  }

  lemma Wrap(x: nat, n: nat)
    requires n > 0 && x < 2 * n
    ensures x % n == (if x < n then x else x - n) && (x < n ==> (x + n) % n == x)
  {
    if x < n {
      assert x % n == x;
      assert (x + n) / n == 1 || (x + n) % n == x;
    } else {
      assert x - n < n;
    }
  }

  function Next(n: nat, head: nat): nat
    requires head < n
  {
    (head + 1) % n
  }

  lemma NextIs(n: nat, head: nat)
    requires head < n
    ensures Next(n, head) == if head + 1 == n then 0 else head + 1
  {
  }

  /** Writing at the head appends, while there is room. */
  lemma WriteAppends<T>(s: seq<T>, head: nat, count: nat, x: T)
    requires head < |s| && count < |s|
    ensures Slots(s[head := x], Next(|s|, head), count + 1) == Slots(s, head, count) + [x]
  {
    var n := |s|;
    NextIs(n, head);
    hide Next, Place;
    forall i | 0 <= i < count + 1
      ensures Slots(s[head := x], Next(n, head), count + 1)[i] == (Slots(s, head, count) + [x])[i]
    {
      PlaceIs(n, Next(n, head), count + 1, i);
      if i < count {
        PlaceIs(n, head, count, i);
      }
    }
  }

  /** Writing at the head of a full array takes the place of the oldest entry. */
  lemma WriteOverwrites<T>(s: seq<T>, head: nat, x: T)
    requires head < |s|
    ensures Slots(s, head, |s|)[0] == s[head]
    ensures Slots(s[head := x], Next(|s|, head), |s|) == Slots(s, head, |s|)[1..] + [x]
  {
    var n := |s|;
    NextIs(n, head);
    PlaceIs(n, head, n, 0);
    hide Next, Place;
    forall i | 0 <= i < n
      ensures Slots(s[head := x], Next(n, head), n)[i] == (Slots(s, head, n)[1..] + [x])[i]
    {
      PlaceIs(n, Next(n, head), n, i);
      if i < n - 1 {
        PlaceIs(n, head, n, i + 1);
      }
    }
  }

  /** Counting one entry less drops the oldest. */
  lemma CountDrops<T>(s: seq<T>, head: nat, count: nat)
    requires head < |s| && 0 < count <= |s|
    ensures Slots(s, head, count)[0] == s[Place(|s|, head, count, 0)]
    ensures Slots(s, head, count - 1) == Slots(s, head, count)[1..]
  {
  }

  // ---------------------------------------------------------------------------
  // Sums
  // ---------------------------------------------------------------------------

  function Total<T>(w: seq<T>, f: T -> real): real {
    if w == [] then 0.0 else f(w[0]) + Total(w[1..], f)
  }

  lemma {:induction false} TotalOfMore<T>(w: seq<T>, x: T, f: T -> real)
    ensures Total(w + [x], f) == Total(w, f) + f(x)
  {
    if w == [] {
      assert (w + [x])[1..] == [];
    } else {
      assert (w + [x])[1..] == w[1..] + [x];
      TotalOfMore(w[1..], x, f);
    }
  }

  lemma {:induction false} TotalNonnegative<T(!new)>(w: seq<T>, f: T -> real)
    requires forall i :: 0 <= i < |w| ==> f(w[i]) >= 0.0
    ensures Total(w, f) >= 0.0
  {
    if w != [] {
      TotalNonnegative(w[1..], f);
    }
  }
}
