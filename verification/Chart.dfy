/** The incremental chart update of frontend/app.js: which refreshes may be drawn point by point, and why the
    drawn series then equals a full redraw of the window. */
module Chart {
  import opened Basics
  import opened Sorting

  /** One drawn point: a time, and everything else about it. */
  datatype Point<D> = Point(time: int, data: D)

  datatype Plan<D> = Reset | Update(points: seq<Point<D>>)

  ghost predicate Ascending<D>(xs: seq<Point<D>>) {
    forall i, j :: 0 <= i < j < |xs| ==> xs[i].time < xs[j].time
  }

  function From<D>(xs: seq<Point<D>>, t: int): seq<Point<D>> {
    if xs == [] then []
    else
      var rest := From(xs[..|xs| - 1], t);
      if xs[|xs| - 1].time >= t then rest + [xs[|xs| - 1]] else rest
  }

  function First<D>(xs: seq<Point<D>>): int
    requires xs != []
  {
    xs[0].time
  }

  function Last<D>(xs: seq<Point<D>>): int
    requires xs != []
  {
    xs[|xs| - 1].time
  }

  /** Some point of xs at p's time, with p's data unless the time is `forming`. */
  ghost predicate Matches<D>(xs: seq<Point<D>>, p: Point<D>, forming: int) {
    exists x <- xs :: x.time == p.time && (p.time == forming || x.data == p.data)
  }

  ghost predicate HasTime<D>(xs: seq<Point<D>>, t: int) {
    exists x <- xs :: x.time == t
  }

  /** Where both windows overlap they hold the same times, and the same data except at the previous window's
      last candle, which may still be forming. */
  ghost predicate Agree<D>(prev: seq<Point<D>>, next: seq<Point<D>>)
    requires prev != [] && next != []
  {
    && (forall p <- prev :: First(next) <= p.time <= Last(next) ==> Matches(next, p, Last(prev)))
    && (forall n <- next :: First(prev) <= n.time <= Last(prev) ==> HasTime(prev, n.time))
  }

  /** The refreshes that need a full redraw. */
  ghost predicate Diverges<D>(prev: seq<Point<D>>, next: seq<Point<D>>) {
    prev == [] || (next != [] && !(Ascending(next) && First(next) <= Last(prev) && Agree(prev, next)))
  }

  // ---- the plan ----

  /** Whether the response is strictly in time order. */
  method IsOrdered<D>(next: seq<Point<D>>) returns (ordered: bool)
    ensures ordered <==> Ascending(next)
  {
    var i := 1;
    while i < |next|
      invariant 1 <= i && (i <= |next| || |next| == 0)
      invariant forall j, k :: 0 <= j < k < i && k < |next| ==> next[j].time < next[k].time
    {
      if next[i].time <= next[i - 1].time {
        return false;
      }
      i := i + 1;
    }
    return true;
  }

  /** The points of an ordered window by time. */
  method IndexWindow<D>(next: seq<Point<D>>) returns (byTime: map<int, Point<D>>)
    requires Ascending(next)
    ensures forall p <- next :: p.time in byTime && byTime[p.time] == p
    ensures forall t <- byTime :: byTime[t].time == t && byTime[t] in next
  {
    byTime := map[];
    for i := 0 to |next|
      invariant forall j :: 0 <= j < i ==> next[j].time in byTime && byTime[next[j].time] == next[j]
      invariant forall t <- byTime :: byTime[t].time == t && byTime[t] in next
    {
      byTime := byTime[next[i].time := next[i]];
    }
  }

  method TimesOf<D>(xs: seq<Point<D>>) returns (times: set<int>)
    ensures forall t :: t in times <==> HasTime(xs, t)
  {
    times := {};
    for i := 0 to |xs|
      invariant forall t :: t in times <==> exists j :: 0 <= j < i && xs[j].time == t
    {
      times := times + {xs[i].time};
    }
  }

  method Filtered<D>(xs: seq<Point<D>>, t: int) returns (ys: seq<Point<D>>)
    ensures ys == From(xs, t)
  {
    ys := [];
    for i := 0 to |xs|
      invariant ys == From(xs[..i], t)
    {
      assert xs[..i + 1][..i] == xs[..i];
      if xs[i].time >= t {
        ys := ys + [xs[i]];
      }
    }
    assert xs[..|xs|] == xs;
  }

  /** classifyCandlesUpdate: a redraw exactly when the windows diverge, otherwise the new window's points from the
      last one already drawn. */
  method Classify<D(==)>(prev: seq<Point<D>>, next: seq<Point<D>>) returns (plan: Plan<D>)
    ensures plan.Reset? <==> Diverges(prev, next)
    ensures plan.Update? ==> plan.points == if next == [] then [] else From(next, Last(prev))
  {
    if prev == [] {
      return Reset;
    }
    if next == [] {
      return Update([]);
    }
    var ordered := IsOrdered(next);
    if !ordered || First(next) > Last(prev) {
      return Reset;
    }
    var byTime := IndexWindow(next);
    for i := 0 to |prev|
      invariant forall j :: 0 <= j < i && First(next) <= prev[j].time <= Last(next) ==>
        Matches(next, prev[j], Last(prev))
    {
      var p := prev[i];
      if First(next) <= p.time <= Last(next) {
        if p.time !in byTime || (p.time != Last(prev) && byTime[p.time].data != p.data) {
          assert !Matches(next, p, Last(prev));
          assert p in prev;
          return Reset;
        }
        assert byTime[p.time] in next;
      }
    }
    var known := TimesOf(prev);
    for i := 0 to |next|
      invariant forall j :: 0 <= j < i && First(prev) <= next[j].time <= Last(prev) ==> HasTime(prev, next[j].time)
    {
      if First(prev) <= next[i].time <= Last(prev) && next[i].time !in known {
        assert next[i] in next;
        return Reset;
      }
    }
    var updates := Filtered(next, Last(prev));
    return Update(updates);
  }

  // ---- the drawn series ----

  /** The chart library's update(): replaces the last point or appends a later one; an older point is an error. */
  function Updated<D>(drawn: seq<Point<D>>, p: Point<D>): Option<seq<Point<D>>> {
    if drawn == [] || p.time > Last(drawn) then Some(drawn + [p])
    else if p.time == Last(drawn) then Some(drawn[..|drawn| - 1] + [p])
    else None
  }

  function UpdatedAll<D>(drawn: seq<Point<D>>, ps: seq<Point<D>>): Option<seq<Point<D>>> {
    if ps == [] then Some(drawn)
    else match UpdatedAll(drawn, ps[..|ps| - 1])
      case None => None
      case Some(before) => Updated(before, ps[|ps| - 1])
  }

  /** The drawn series together with the window it was last given. */
  class Series<D(==)> {
    var drawn: seq<Point<D>>

    constructor ()
      ensures drawn == []
    {
      drawn := [];
    }

    method SetData(points: seq<Point<D>>)
      modifies this
      ensures drawn == points
    {
      drawn := points;
    }

    method UpdatePoint(p: Point<D>) returns (ok: bool)
      modifies this
      ensures ok <==> Updated(old(drawn), p).Some?
      ensures drawn == if ok then Updated(old(drawn), p).value else old(drawn)
    {
      if drawn == [] || p.time > Last(drawn) {
        drawn := drawn + [p];
        return true;
      }
      if p.time == Last(drawn) {
        drawn := drawn[..|drawn| - 1] + [p];
        return true;
      }
      return false;
    }

    /** applyCandlesToSeries: follows the plan of Classify. */
    method Apply(prev: seq<Point<D>>, next: seq<Point<D>>) returns (ok: bool)
      modifies this
      ensures ok <==> Refreshed(old(drawn), prev, next).Some?
      ensures ok ==> drawn == Refreshed(old(drawn), prev, next).value
    {
      var plan := Classify(prev, next);
      match plan
      case Reset =>
        SetData(next);
        return true;
      case Update(points) =>
        ghost var before := drawn;
        for i := 0 to |points|
          invariant UpdatedAll(before, points[..i]) == Some(drawn)
        {
          assert points[..i + 1][..i] == points[..i];
          ok := UpdatePoint(points[i]);
          if !ok {
            FailureStays(before, points, i + 1);
            return false;
          }
        }
        assert points[..|points|] == points;
        return true;
    }
  }

  lemma {:induction false} FailureStays<D>(drawn: seq<Point<D>>, ps: seq<Point<D>>, k: nat)
    requires k <= |ps| && UpdatedAll(drawn, ps[..k]) == None
    ensures UpdatedAll(drawn, ps) == None
    decreases |ps|
  {
    if k < |ps| {
      assert ps[..|ps| - 1][..k] == ps[..k];
      FailureStays(drawn, ps[..|ps| - 1], k);
    } else {
      assert ps[..k] == ps;
    }
  }

  /** The series after one refresh; None when the library refuses a point. */
  ghost function Refreshed<D>(drawn: seq<Point<D>>, prev: seq<Point<D>>, next: seq<Point<D>>): Option<seq<Point<D>>> {
    if Diverges(prev, next) then Some(next)
    else if next == [] then Some(drawn)
    else UpdatedAll(drawn, From(next, Last(prev)))
  }

  // ---- suffixes ----

  lemma {:induction false} FromMember<D>(xs: seq<Point<D>>, t: int, p: Point<D>)
    ensures p in From(xs, t) <==> p in xs && p.time >= t
    decreases |xs|
  {
    if xs == [] {
    } else {
      var n := |xs| - 1;
      FromMember(xs[..n], t, p);
      assert xs == xs[..n] + [xs[n]];
    }
  }

  lemma {:induction false} FromMembers<D>(xs: seq<Point<D>>, t: int)
    ensures forall p: Point<D> :: p in From(xs, t) <==> p in xs && p.time >= t
  {
    forall p: Point<D>
      ensures p in From(xs, t) <==> p in xs && p.time >= t
    {
      FromMember(xs, t, p);
    }
  }

  lemma {:induction false} LaterPointKeepsOrder<D>(xs: seq<Point<D>>, p: Point<D>)
    requires Ascending(xs) && forall x <- xs :: x.time < p.time
    ensures Ascending(xs + [p])
  {
  }

  lemma {:induction false} FromKeepsOrder<D>(xs: seq<Point<D>>, t: int)
    requires Ascending(xs)
    ensures Ascending(From(xs, t))
    decreases |xs|
  {
    if xs == [] {
    } else {
      var n := |xs| - 1;
      var front := xs[..n];
      FromKeepsOrder(front, t);
      forall x: Point<D> | x in From(front, t)
        ensures x.time < xs[n].time
      {
        FromMember(front, t, x);
        assert x in xs[..n];
      }
      LaterPointKeepsOrder(From(front, t), xs[n]);
    }
  }

  lemma {:induction false} JoinKeepsOrder<D>(xs: seq<Point<D>>, ys: seq<Point<D>>, t: int)
    requires Ascending(xs) && Ascending(ys)
    requires (forall x <- xs :: x.time < t) && (forall y <- ys :: y.time >= t)
    ensures Ascending(xs + ys)
  {
  }

  lemma {:induction false} LastIsShared<D>(xs: seq<Point<D>>, ys: seq<Point<D>>)
    requires xs != [] && ys != [] && Ascending(xs) && Ascending(ys) && forall p :: p in xs <==> p in ys
    ensures xs[|xs| - 1] == ys[|ys| - 1]
  {
    var x, y := xs[|xs| - 1], ys[|ys| - 1];
    assert x in ys && y in xs;
    FirstIsLeast(ys, x);
    FirstIsLeast(xs, y);
  }

  lemma {:induction false} FrontMembers<D>(xs: seq<Point<D>>, p: Point<D>)
    requires xs != [] && Ascending(xs)
    ensures p in xs[..|xs| - 1] <==> p in xs && p.time < Last(xs)
  {
    assert xs == xs[..|xs| - 1] + [xs[|xs| - 1]];
  }

  /** An ascending series is determined by its points. */
  lemma {:induction false} SamePointsSameSeries<D>(xs: seq<Point<D>>, ys: seq<Point<D>>)
    requires Ascending(xs) && Ascending(ys)
    requires forall p :: p in xs <==> p in ys
    ensures xs == ys
    decreases |xs|
  {
    assert xs != [] ==> xs[0] in ys;
    assert ys != [] ==> ys[0] in xs;
    if xs == [] {
    } else {
      var m, n := |xs| - 1, |ys| - 1;
      LastIsShared(xs, ys);
      forall p: Point<D>
        ensures p in xs[..m] <==> p in ys[..n]
      {
        FrontMembers(xs, p);
        FrontMembers(ys, p);
      }
      SamePointsSameSeries(xs[..m], ys[..n]);
      assert xs == xs[..m] + [xs[m]] && ys == ys[..n] + [ys[n]];
    }
  }

  /** Updating with points that start at the last drawn one replaces it and appends the rest. */
  lemma {:induction false} LaterUpdatesSucceed<D>(drawn: seq<Point<D>>, ps: seq<Point<D>>)
    requires drawn != [] && ps != [] && Ascending(ps) && First(ps) == Last(drawn)
    ensures UpdatedAll(drawn, ps) == Some(drawn[..|drawn| - 1] + ps)
    decreases |ps|
  {
    var n := |ps| - 1;
    var kept := drawn[..|drawn| - 1];
    if n == 0 {
      assert UpdatedAll(drawn, ps[..0]) == Some(drawn);
      assert ps == [ps[0]];
    } else {
      LaterUpdatesSucceed(drawn, ps[..n]);
      var before := kept + ps[..n];
      assert before[|before| - 1] == ps[n - 1];
      assert Updated(before, ps[n]) == Some(before + [ps[n]]);
      assert before + [ps[n]] == kept + ps;
    }
  }

  // ---- the incremental update refines the full redraw ----

  /** What is drawn shows the window: from the window's first time on, the series is the window. */
  ghost predicate Shows<D>(drawn: seq<Point<D>>, window: seq<Point<D>>) {
    && Ascending(drawn) && Ascending(window)
    && (window != [] ==> From(drawn, First(window)) == window)
  }

  /** The window moved forward, or stayed. */
  predicate Forward<D>(prev: seq<Point<D>>, next: seq<Point<D>>)
    requires prev != [] && next != []
  {
    First(prev) <= First(next) && Last(prev) <= Last(next)
  }

  lemma {:induction false} UniqueTimes<D>(xs: seq<Point<D>>, p: Point<D>, q: Point<D>)
    requires Ascending(xs) && p in xs && q in xs && p.time == q.time
    ensures p == q
  {
  }

  lemma {:induction false} ShownLast<D>(drawn: seq<Point<D>>, prev: seq<Point<D>>)
    requires Shows(drawn, prev) && prev != []
    ensures drawn != [] && drawn[|drawn| - 1] == prev[|prev| - 1]
  {
    FromMembers(drawn, First(prev));
    var last := prev[|prev| - 1];
    assert last in From(drawn, First(prev));
    assert drawn[|drawn| - 1] in From(drawn, First(prev));
  }

  /** A point of the old window that the new one covers is a point of the new one, unless it was forming. */
  lemma {:induction false} OldPointsStay<D>(prev: seq<Point<D>>, next: seq<Point<D>>, p: Point<D>)
    requires prev != [] && next != [] && Ascending(next) && Agree(prev, next)
    requires p in prev && First(next) <= p.time <= Last(next) && p.time != Last(prev)
    ensures p in next
  {
    assert Matches(next, p, Last(prev));
  }

  /** And conversely: a point of the new window before the last drawn time was drawn already. */
  lemma {:induction false} NewPointsWereThere<D>(prev: seq<Point<D>>, next: seq<Point<D>>, n: Point<D>)
    requires prev != [] && next != [] && Ascending(prev) && Ascending(next) && Agree(prev, next)
    requires n in next && First(prev) <= n.time < Last(prev)
    ensures n in prev
  {
    assert HasTime(prev, n.time);
    var p: Point<D> :| p in prev && p.time == n.time;
    assert First(next) <= n.time <= Last(next);
    OldPointsStay(prev, next, p);
    UniqueTimes(next, p, n);
  }

  lemma {:induction false} LastDrawnIsUpdated<D>(prev: seq<Point<D>>, next: seq<Point<D>>)
    requires prev != [] && next != [] && Ascending(prev) && Ascending(next) && First(next) <= Last(prev) && Agree(prev, next)
    requires Last(prev) <= Last(next)
    ensures var updates := From(next, Last(prev)); updates != [] && First(updates) == Last(prev)
  {
    var updates := From(next, Last(prev));
    FromMembers(next, Last(prev));
    FromKeepsOrder(next, Last(prev));
    assert prev[|prev| - 1] in prev;
    assert Matches(next, prev[|prev| - 1], Last(prev));
    var n: Point<D> :| n in next && n.time == Last(prev);
    assert n in updates;
    FirstIsLeast(updates, n);
    var first := updates[0];
    FromMember(next, Last(prev), first);
  }

  lemma {:induction false} AllButLast<D>(xs: seq<Point<D>>)
    requires xs != [] && Ascending(xs)
    ensures var kept := xs[..|xs| - 1];
      Ascending(kept) && forall x :: x in kept <==> x in xs && x.time < Last(xs)
  {
    assert xs == xs[..|xs| - 1] + [xs[|xs| - 1]];
  }

  /** What a refresh draws that ends no earlier than the old window: everything before the last point, then the updates. */
  lemma {:induction false} RefreshedSeries<D>(drawn: seq<Point<D>>, prev: seq<Point<D>>, next: seq<Point<D>>)
    returns (after: seq<Point<D>>)
    requires prev != [] && Shows(drawn, prev) && next != [] && !Diverges(prev, next) && Last(prev) <= Last(next)
    ensures Refreshed(drawn, prev, next) == Some(after) && Ascending(after)
    ensures forall p: Point<D> :: p in after <==>
      (p in drawn && p.time < Last(prev)) || (p in next && p.time >= Last(prev))
  {
    ShownLast(drawn, prev);
    LastDrawnIsUpdated(prev, next);
    var updates := From(next, Last(prev));
    FromMembers(next, Last(prev));
    FromKeepsOrder(next, Last(prev));
    LaterUpdatesSucceed(drawn, updates);
    AllButLast(drawn);
    JoinKeepsOrder(drawn[..|drawn| - 1], updates, Last(prev));
    after := drawn[..|drawn| - 1] + updates;
  }

  /** From the old window's start on, what is drawn is exactly the new window. */
  lemma {:induction false} CoveredPointsAreTheWindow<D>(drawn: seq<Point<D>>, prev: seq<Point<D>>, next: seq<Point<D>>,
                                                        p: Point<D>)
    requires prev != [] && Shows(drawn, prev) && next != [] && !Diverges(prev, next) && Last(prev) <= Last(next)
    requires p.time >= First(prev) && p.time >= First(next)
    ensures (p in drawn && p.time < Last(prev)) || (p in next && p.time >= Last(prev)) <==> p in next
  {
    FromMember(drawn, First(prev), p);
    if p in drawn && p.time < Last(prev) {
      OldPointsStay(prev, next, p);
    }
    if p in next && p.time < Last(prev) {
      NewPointsWereThere(prev, next, p);
    }
  }

  /** What is already drawn between the new window's start and the old one's is just what the new window holds there. */
  ghost predicate OlderAlike<D>(drawn: seq<Point<D>>, prev: seq<Point<D>>, next: seq<Point<D>>)
    requires prev != [] && next != []
  {
    && (forall p <- drawn :: First(next) <= p.time < First(prev) ==> p in next)
    && (forall p <- next :: p.time < First(prev) ==> p in drawn)
  }

  lemma {:induction false} ShowsExactlyWhenAlike<D>(drawn: seq<Point<D>>, prev: seq<Point<D>>, next: seq<Point<D>>,
                                                    after: seq<Point<D>>)
    requires prev != [] && Shows(drawn, prev) && next != [] && !Diverges(prev, next) && Last(prev) <= Last(next)
    requires Ascending(after)
    requires forall p: Point<D> :: p in after <==>
      (p in drawn && p.time < Last(prev)) || (p in next && p.time >= Last(prev))
    ensures Shows(after, next) <==> OlderAlike(drawn, prev, next)
  {
    FirstIsLeast(prev, prev[0]);
    FromMembers(after, First(next));
    FromKeepsOrder(after, First(next));
    if OlderAlike(drawn, prev, next) {
      forall p: Point<D>
        ensures p in From(after, First(next)) <==> p in next
      {
        if p in next {
          FirstIsLeast(next, p);
        }
        if p.time >= First(prev) && p.time >= First(next) {
          CoveredPointsAreTheWindow(drawn, prev, next, p);
        }
      }
      SamePointsSameSeries(From(after, First(next)), next);
    }
    if Shows(after, next) {
      forall p: Point<D> | p in drawn && First(next) <= p.time < First(prev)
        ensures p in next
      {
        assert p in From(after, First(next));
      }
    }
  }

  /** A window that ends before the old one is never shown: the later points stay drawn. */
  lemma {:induction false} EarlierEndIsMissed<D>(drawn: seq<Point<D>>, prev: seq<Point<D>>, next: seq<Point<D>>)
    requires prev != [] && Shows(drawn, prev) && next != [] && !Diverges(prev, next) && Last(next) < Last(prev)
    ensures Refreshed(drawn, prev, next) == Some(drawn) && !Shows(drawn, next)
  {
    forall p: Point<D> | p in next
      ensures p.time < Last(prev)
    {
      FirstIsLeast(next, p);
    }
    NothingLater(next, Last(prev));
    ShownLast(drawn, prev);
    var b := prev[|prev| - 1];
    FromMember(drawn, First(next), b);
    assert b in From(drawn, First(next)) && b !in next by {
      FirstIsLeast(next, next[0]);
    }
  }

  /** Exactly when point-by-point drawing shows the new window: when it does not end before the old one and, where it
      starts before it, just its own points are already drawn there. */
  lemma {:induction false} IncrementalIsExactExactlyWhen<D>(drawn: seq<Point<D>>, prev: seq<Point<D>>, next: seq<Point<D>>)
    requires prev != [] && Shows(drawn, prev) && next != [] && !Diverges(prev, next)
    ensures var after := Refreshed(drawn, prev, next);
      after.Some? && (Shows(after.value, next) <==> Last(prev) <= Last(next) && OlderAlike(drawn, prev, next))
  {
    if Last(prev) <= Last(next) {
      var after := RefreshedSeries(drawn, prev, next);
      ShowsExactlyWhenAlike(drawn, prev, next, after);
    } else {
      EarlierEndIsMissed(drawn, prev, next);
    }
  }

  /** One forward refresh of a series that shows the previous window leaves it showing the new one, with everything
      older than the new window untouched. */
  lemma {:induction false} ForwardRefreshShows<D>(drawn: seq<Point<D>>, prev: seq<Point<D>>, next: seq<Point<D>>)
    requires Shows(drawn, prev) && next != [] && !Diverges(prev, next) && Forward(prev, next)
    ensures var after := Refreshed(drawn, prev, next);
      && after.Some? && Shows(after.value, next)
      && forall p: Point<D> :: p.time < First(next) ==> (p in after.value <==> p in drawn)
  {
    var after := RefreshedSeries(drawn, prev, next);
    ShowsExactlyWhenAlike(drawn, prev, next, after);
  }

  lemma {:induction false} FirstIsLeast<D>(xs: seq<Point<D>>, p: Point<D>)
    requires Ascending(xs) && p in xs
    ensures First(xs) <= p.time <= Last(xs)
  {
  }

  lemma {:induction false} WindowShowsItself<D>(window: seq<Point<D>>)
    requires Ascending(window)
    ensures Shows(window, window)
  {
    if window != [] {
      FromMembers(window, First(window));
      FromKeepsOrder(window, First(window));
      forall p: Point<D> | p in window
        ensures p in From(window, First(window))
      {
        FirstIsLeast(window, p);
      }
      SamePointsSameSeries(From(window, First(window)), window);
    }
  }

  /** When nothing older is drawn, those are exactly the windows that move forward. */
  lemma {:induction false} IncrementalIsExactExactlyForward<D>(prev: seq<Point<D>>, next: seq<Point<D>>)
    requires prev != [] && next != [] && Ascending(prev) && !Diverges(prev, next)
    ensures var after := Refreshed(prev, prev, next);
      after.Some? && (Shows(after.value, next) <==> Forward(prev, next))
  {
    WindowShowsItself(prev);
    IncrementalIsExactExactlyWhen(prev, prev, next);
    var n := next[0];
    assert n in next;
    if n in prev {
      FirstIsLeast(prev, n);
    }
  }

  lemma {:induction false} NothingLater<D>(xs: seq<Point<D>>, t: int)
    requires forall p <- xs :: p.time < t
    ensures From(xs, t) == []
    decreases |xs|
  {
    if xs == [] {
    } else {
      assert xs[|xs| - 1] in xs;
      NothingLater(xs[..|xs| - 1], t);
    }
  }

  /** A genuine slide never redraws: candles may drop off the front, the last one may change, later ones may follow;
      and what is drawn point by point is just that. */
  lemma {:induction false} GenuineSlidesNeverReset<D>(prev: seq<Point<D>>, k: nat, changed: Point<D>,
                                                      more: seq<Point<D>>)
    requires Ascending(prev) && k < |prev| && changed.time == Last(prev)
    requires Ascending([changed] + more)
    ensures var next := prev[k..|prev| - 1] + [changed] + more;
      && !Diverges(prev, next) && Forward(prev, next)
      && From(next, Last(prev)) == [changed] + more
  {
    var tail := [changed] + more;
    var kept := prev[k..|prev| - 1];
    var next := kept + [changed] + more;
    assert next == kept + tail;
    assert tail[0] == changed;
    forall p: Point<D> | p in tail
      ensures p.time >= Last(prev)
    {
      FirstIsLeast(tail, p);
    }
    JoinKeepsOrder(kept, tail, Last(prev));
    SlideAgrees(prev, k, kept, tail);
    FromMembers(next, Last(prev));
    FromKeepsOrder(next, Last(prev));
    SamePointsSameSeries(From(next, Last(prev)), tail);
    assert next[|next| - 1] == tail[|tail| - 1];
    FirstIsLeast(tail, tail[|tail| - 1]);
  }

  lemma {:induction false} SlideAgrees<D>(prev: seq<Point<D>>, k: nat, kept: seq<Point<D>>, tail: seq<Point<D>>)
    requires Ascending(prev) && k < |prev| && kept == prev[k..|prev| - 1]
    requires tail != [] && First(tail) == Last(prev) && forall p <- tail :: p.time >= Last(prev)
    requires Ascending(kept + tail)
    ensures Agree(prev, kept + tail) && First(kept + tail) == prev[k].time
  {
    var next := kept + tail;
    forall p: Point<D> | p in prev && First(next) <= p.time <= Last(next)
      ensures Matches(next, p, Last(prev))
    {
      var i :| 0 <= i < |prev| && prev[i] == p;
      if i < |prev| - 1 {
        assert i >= k;
        assert kept[i - k] == p;
        assert p in next;
      } else {
        assert tail[0] in next;
      }
    }
    forall n: Point<D> | n in next && First(prev) <= n.time <= Last(prev)
      ensures HasTime(prev, n.time)
    {
      if n in kept {
        assert n in prev;
      } else {
        assert prev[|prev| - 1] in prev;
      }
    }
  }

  // ---- any number of refreshes ----

  /** The windows received, from none at all, and what is drawn after each. */
  ghost predicate Refreshes<D>(drawns: seq<seq<Point<D>>>, windows: seq<seq<Point<D>>>) {
    && |drawns| == |windows| > 0
    && var n := |windows| - 1;
       Ascending(windows[n]) &&
       if n == 0 then windows[0] == []
       else Refreshes(drawns[..n], windows[..n]) && Refreshed(drawns[n - 1], windows[n - 1], windows[n]) == Some(drawns[n])
  }

  /** Every window either forces a redraw or has moved forward. */
  ghost predicate AllForward<D>(windows: seq<seq<Point<D>>>) {
    |windows| <= 1 ||
    var n := |windows| - 1;
    && AllForward(windows[..n])
    && (windows[n] != [] && !Diverges(windows[n - 1], windows[n]) ==> Forward(windows[n - 1], windows[n]))
  }

  ghost predicate ShowsIfAny<D>(drawn: seq<Point<D>>, window: seq<Point<D>>) {
    window != [] ==> Shows(drawn, window)
  }

  lemma {:induction false} OneRefreshShows<D>(drawn: seq<Point<D>>, prev: seq<Point<D>>, next: seq<Point<D>>,
                                              after: seq<Point<D>>)
    requires next != [] && Ascending(next) && Refreshed(drawn, prev, next) == Some(after)
    requires ShowsIfAny(drawn, prev) && (!Diverges(prev, next) ==> Forward(prev, next))
    ensures ShowsIfAny(after, next)
  {
    if Diverges(prev, next) {
      WindowShowsItself(next);
    } else {
      ForwardRefreshShows(drawn, prev, next);
    }
  }

  /** The incremental update refines the full redraw over any number of refreshes: after the last of them, and so after
      each of them, the series from the window's first time on is the window. */
  lemma {:induction false} EveryRefreshShowsItsWindow<D>(drawns: seq<seq<Point<D>>>, windows: seq<seq<Point<D>>>)
    requires Refreshes(drawns, windows) && AllForward(windows)
    ensures ShowsIfAny(drawns[|windows| - 1], windows[|windows| - 1])
    decreases |windows|
  {
    var n := |windows| - 1;
    if n > 0 && windows[n] != [] {
      EveryRefreshShowsItsWindow(drawns[..n], windows[..n]);
      OneRefreshShows(drawns[n - 1], windows[n - 1], windows[n], drawns[n]);
    }
  }

  // ---- sanitising a response ----

  /** The last value received for its time. */
  ghost predicate Latest<D>(raw: seq<Point<D>>, p: Point<D>) {
    exists i :: 0 <= i < |raw| && raw[i] == p && forall j :: i < j < |raw| ==> raw[j].time != p.time
  }

  function TimeOf<D>(p: Point<D>): int {
    p.time
  }

  function Placed<D>(p: Point<D>, sorted: seq<Point<D>>): seq<Point<D>> {
    Inserted(p, sorted, (q: Point<D>) => TimeOf(q))
  }

  lemma {:induction false} PlacedMembers<D>(p: Point<D>, sorted: seq<Point<D>>, q: Point<D>)
    ensures q in Placed(p, sorted) <==> q == p || q in sorted
    decreases |sorted|
  {
    if sorted != [] && p.time >= sorted[0].time {
      PlacedMembers(p, sorted[1..], q);
      assert sorted == [sorted[0]] + sorted[1..];
    }
  }

  lemma {:induction false} EarlierPointKeepsOrder<D>(p: Point<D>, xs: seq<Point<D>>)
    requires Ascending(xs) && forall x <- xs :: p.time < x.time
    ensures Ascending([p] + xs)
  {
  }

  lemma {:induction false} PlacedKeepsOrder<D>(p: Point<D>, sorted: seq<Point<D>>)
    requires Ascending(sorted) && forall x <- sorted :: x.time != p.time
    ensures Ascending(Placed(p, sorted))
    decreases |sorted|
  {
    if sorted == [] {
    } else if p.time < sorted[0].time {
      EarlierPointKeepsOrder(p, sorted);
    } else {
      PlacedKeepsOrder(p, sorted[1..]);
      forall x: Point<D> | x in Placed(p, sorted[1..])
        ensures sorted[0].time < x.time
      {
        PlacedMembers(p, sorted[1..], x);
        assert sorted[0] in sorted;
      }
      EarlierPointKeepsOrder(sorted[0], Placed(p, sorted[1..]));
    }
  }

  /** sanitizeCandles: in time order, each time once, with the last value received for it. The order check of Classify
      therefore never rejects a sanitised window. */
  method Sanitize<D>(raw: seq<Point<D>>) returns (window: seq<Point<D>>)
    ensures Ascending(window)
    ensures forall p: Point<D> :: p in window <==> Latest(raw, p)
  {
    var byTime: map<int, Point<D>> := map[];
    var order: seq<int> := [];
    for i := 0 to |raw|
      invariant forall p: Point<D> :: (p.time in byTime && byTime[p.time] == p) <==> Latest(raw[..i], p)
      invariant forall t <- byTime :: byTime[t].time == t
      invariant forall t :: t in byTime <==> t in order
      invariant forall j, k :: 0 <= j < k < |order| ==> order[j] != order[k]
    {
      OneMoreIsLatest(raw, i);
      if raw[i].time !in byTime {
        order := order + [raw[i].time];
      }
      byTime := byTime[raw[i].time := raw[i]];
    }
    assert raw[..|raw|] == raw;
    window := SortedValues(byTime, order);
  }

  /** The values of a map in time order, its keys given in order of first insertion. */
  method SortedValues<D>(byTime: map<int, Point<D>>, order: seq<int>) returns (window: seq<Point<D>>)
    requires forall t :: t in byTime <==> t in order
    requires forall t <- byTime :: byTime[t].time == t
    requires forall j, k :: 0 <= j < k < |order| ==> order[j] != order[k]
    ensures Ascending(window)
    ensures forall p: Point<D> :: p in window <==> p.time in byTime && byTime[p.time] == p
  {
    window := [];
    for k := 0 to |order|
      invariant Ascending(window)
      invariant forall p: Point<D> :: p in window <==> p.time in order[..k] && byTime[p.time] == p
    {
      var t := order[k];
      assert t in order && t !in order[..k];
      var p := byTime[t];
      PlacedKeepsOrder(p, window);
      forall q: Point<D>
        ensures q in Placed(p, window) <==> q == p || q in window
      {
        PlacedMembers(p, window, q);
      }
      assert order[..k + 1] == order[..k] + [order[k]];
      window := Placed(p, window);
    }
    assert order[..|order|] == order;
  }

  lemma {:induction false} OneMoreIsLatest<D>(raw: seq<Point<D>>, i: nat)
    requires i < |raw|
    ensures forall p: Point<D> :: Latest(raw[..i + 1], p) <==>
      p == raw[i] || (p.time != raw[i].time && Latest(raw[..i], p))
  {
    var before, after := raw[..i], raw[..i + 1];
    assert after == before + [raw[i]];
    forall p: Point<D>
      ensures Latest(after, p) <==> p == raw[i] || (p.time != raw[i].time && Latest(before, p))
    {
      if p == raw[i] {
        assert after[i] == p;
      }
      if Latest(before, p) && p.time != raw[i].time {
        var k :| 0 <= k < i && before[k] == p && forall j :: k < j < i ==> before[j].time != p.time;
        assert after[k] == p;
      }
      if Latest(after, p) && p != raw[i] {
        var k :| 0 <= k < i + 1 && after[k] == p && forall j :: k < j < i + 1 ==> after[j].time != p.time;
        assert before[k] == p;
        assert after[i].time != p.time;
      }
    }
  }
}
