/**
 * The limit on added links: 30 for each principal in a sliding minute, kept in memory while the process
 * runs. A request pays before its links are checked, and what it has paid stays paid if it is then refused.
 */
module LinkRate {
  import opened Prelude

  const LINKS_PER_MINUTE: nat := 30
  const MAX_PRINCIPALS: nat := 1000
  const MINUTE: real := 60.0

  type Hits = map<string, seq<real>>

  // One call of `rate_links`; `kept`: the request went through afterwards.
  datatype Call = Call(principal: string, at: real, weight: nat, kept: bool)

  type Calls = seq<Call>

  function HitsOf(hits: Hits, principal: string): seq<real> {
    if principal in hits then hits[principal] else []
  }

  /** The hits less than a minute older than `now`; those in its future stay. */
  function Recent(list: seq<real>, now: real): (r: seq<real>)
    ensures |r| <= |list| && forall t :: t in r <==> t in list && now - t < MINUTE
  {
    if list == [] then []
    else
      var rest, last := Recent(list[..|list| - 1], now), list[|list| - 1];
      assert list == list[..|list| - 1] + [last];
      if now - last < MINUTE then rest + [last] else rest
  }

  predicate Fits(list: seq<real>, c: Call) {
    |Recent(list, c.at)| + c.weight <= LINKS_PER_MINUTE
  }

  function Times(at: real, n: nat): (r: seq<real>)
    ensures |r| == n && forall t :: t in r ==> t == at
  {
    seq(n, _ => at)
  }

  /** One principal's hits after a call, refused or not. */
  function Counted(list: seq<real>, c: Call): seq<real> {
    Recent(list, c.at) + if Fits(list, c) then Times(c.at, c.weight) else []
  }

  predicate Current(list: seq<real>, now: real) {
    list != [] && now - list[|list| - 1] < MINUTE
  }

  function Purged(hits: Hits, now: real): Hits {
    map p | p in hits && Current(hits[p], now) :: hits[p]
  }

  /** `rate_links`: the new table, and whether the links may be added. */
  function Charge(hits: Hits, c: Call): (Hits, bool) {
    var list := HitsOf(hits, c.principal);
    var hits' := hits[c.principal := Counted(list, c)];
    if !Fits(list, c) then (hits', false)
    else (if |hits'| > MAX_PRINCIPALS then Purged(hits', c.at) else hits', true)
  }

  class Limiter {
    var hits: Hits

    constructor ()
      ensures hits == map[]
    {
      hits := map[];
    }

    method RateLinks(c: Call) returns (ok: bool)
      modifies this
      ensures (hits, ok) == Charge(old(hits), c)
    {
      var list := Recent(HitsOf(hits, c.principal), c.at);
      if |list| + c.weight > LINKS_PER_MINUTE {
        hits := hits[c.principal := list];
        assert Counted(HitsOf(old(hits), c.principal), c) == list;
        return false;
      }
      hits := hits[c.principal := list + Times(c.at, c.weight)];
      if |hits| > MAX_PRINCIPALS { hits := Purged(hits, c.at); }
      return true;
    }
  }

  // ---------------------------------------------------------------- runs

  function Run(calls: Calls): Hits {
    if calls == [] then map[] else Charge(Run(calls[..|calls| - 1]), calls[|calls| - 1]).0
  }

  predicate Inside(at: real, start: real) {
    start <= at < start + 60.0
  }

  /** What a principal is charged for by calls whose readings lie in the minute from `start`. */
  function Spent(calls: Calls, principal: string, start: real): nat {
    if calls == [] then 0
    else
      var rest, last := calls[..|calls| - 1], calls[|calls| - 1];
      Spent(rest, principal, start) +
      if last.principal == principal && Inside(last.at, start) && Charge(Run(rest), last).1 then last.weight else 0
  }

  /** The links that were then added. */
  function Added(calls: Calls, principal: string, start: real): nat {
    if calls == [] then 0
    else
      var rest, last := calls[..|calls| - 1], calls[|calls| - 1];
      Added(rest, principal, start) +
      if last.kept && last.principal == principal && Inside(last.at, start) && Charge(Run(rest), last).1 then last.weight
      else 0
  }

  lemma {:induction false} AddedIsPaid(calls: Calls, principal: string, start: real)
    ensures Added(calls, principal, start) <= Spent(calls, principal, start)
  {
    if calls != [] { AddedIsPaid(calls[..|calls| - 1], principal, start); }
  }

  /** A granted call leaves at most 1000 principals in the table, or only such as were charged within the last minute. */
  lemma TableIsTrimmed(hits: Hits, c: Call)
    requires Charge(hits, c).1
    ensures var hits' := Charge(hits, c).0;
            |hits'| <= 1000 || forall p :: p in hits' ==> hits'[p] != [] && c.at - hits'[p][|hits'[p]| - 1] < 60.0
  {
  }

  // ---------------------------------------------------------------- a limiter that never purges

  function Plain(calls: Calls, principal: string): seq<real> {
    if calls == [] then []
    else
      var before, last := Plain(calls[..|calls| - 1], principal), calls[|calls| - 1];
      if last.principal == principal then Counted(before, last) else before
  }

  function PlainSpent(calls: Calls, principal: string, start: real): nat {
    if calls == [] then 0
    else
      var rest, last := calls[..|calls| - 1], calls[|calls| - 1];
      PlainSpent(rest, principal, start) +
      if last.principal == principal && Inside(last.at, start) && Fits(Plain(rest, principal), last) then last.weight else 0
  }

  /** The clock never goes back. */
  ghost predicate Monotone(calls: Calls) {
    forall i, j :: 0 <= i < j < |calls| ==> calls[i].at <= calls[j].at
  }

  ghost function Principals(calls: Calls): set<string> {
    set c | c in calls :: c.principal
  }

  /** Few enough principals that nothing is ever purged. */
  ghost predicate Few(calls: Calls) {
    |Principals(calls)| <= 1000
  }

  ghost predicate Sorted(list: seq<real>, high: real) {
    && (forall i, j :: 0 <= i < j < |list| ==> list[i] <= list[j])
    && (forall i :: 0 <= i < |list| ==> list[i] <= high)
  }

  lemma {:induction false} RecentSorted(list: seq<real>, low: real, now: real)
    requires Sorted(list, low)
    ensures Sorted(Recent(list, now), low)
    decreases |list|
  {
    if list != [] {
      var rest := list[..|list| - 1];
      RecentSorted(rest, low, now);
      forall i | 0 <= i < |Recent(rest, now)| ensures Recent(rest, now)[i] <= list[|list| - 1] {
        assert Recent(rest, now)[i] in rest;
      }
    }
  }

  lemma CountedSorted(list: seq<real>, low: real, c: Call)
    requires Sorted(list, low) && low <= c.at
    ensures Sorted(Counted(list, c), c.at)
  {
    RecentSorted(list, low, c.at);
  }

  // Before the first call any reading will do.
  ghost predicate UpTo(calls: Calls, high: real) {
    forall i :: 0 <= i < |calls| ==> calls[i].at <= high
  }

  lemma {:induction false} PlainSorted(calls: Calls, principal: string, high: real)
    requires Monotone(calls) && UpTo(calls, high)
    ensures Sorted(Plain(calls, principal), high)
    decreases |calls|
  {
    hide Recent, Counted;
    if calls != [] {
      var rest, last := calls[..|calls| - 1], calls[|calls| - 1];
      PlainSorted(rest, principal, last.at);
      CountedSorted(Plain(rest, principal), last.at, last);
    }
  }

  // The real list is the plain one, or it is gone and the plain one holds nothing recent.
  ghost predicate Agree(list: seq<real>, plain: seq<real>, now: real) {
    list == plain || (list == [] && Recent(plain, now) == [])
  }

  lemma {:induction false} NothingRecent(list: seq<real>, now: real)
    requires forall i :: 0 <= i < |list| ==> now - list[i] >= 60.0
    ensures Recent(list, now) == []
  {
    if list != [] { NothingRecent(list[..|list| - 1], now); }
  }

  lemma RecentLater(list: seq<real>, a: real, b: real)
    requires Recent(list, a) == [] && a <= b
    ensures Recent(list, b) == []
  {
    forall i | 0 <= i < |list| ensures b - list[i] >= 60.0 {
      assert list[i] !in Recent(list, a);
    }
    NothingRecent(list, b);
  }

  lemma PurgeAgrees(hits: Hits, principal: string, plain: seq<real>, now: real)
    requires Agree(HitsOf(hits, principal), plain, now) && Sorted(plain, now)
    ensures Agree(HitsOf(Purged(hits, now), principal), plain, now)
  {
    if plain != [] && !Current(plain, now) { NothingRecent(plain, now); }
  }

  lemma ChargeAgrees(hits: Hits, c: Call, principal: string, plain: seq<real>)
    requires Agree(HitsOf(hits, principal), plain, c.at)
    requires Sorted(if c.principal == principal then Counted(plain, c) else plain, c.at)
    ensures Agree(HitsOf(Charge(hits, c).0, principal), if c.principal == principal then Counted(plain, c) else plain, c.at)
    ensures c.principal == principal ==> Charge(hits, c).1 == Fits(plain, c)
  {
    hide Sorted;
    var list := HitsOf(hits, c.principal);
    var hits' := hits[c.principal := Counted(list, c)];
    if c.principal == principal { assert Recent(list, c.at) == Recent(plain, c.at); }
    PurgeAgrees(hits', principal, if c.principal == principal then Counted(plain, c) else plain, c.at);
  }

  lemma {:induction false} MonotoneAgrees(calls: Calls, principal: string, now: real)
    requires Monotone(calls) && UpTo(calls, now)
    ensures Agree(HitsOf(Run(calls), principal), Plain(calls, principal), now)
    decreases |calls|
  {
    hide Recent, Charge, Counted, Sorted;
    if calls != [] {
      var rest, last := calls[..|calls| - 1], calls[|calls| - 1];
      MonotoneAgrees(rest, principal, last.at);
      PlainSorted(calls, principal, last.at);
      ChargeAgrees(Run(rest), last, principal, Plain(rest, principal));
      if HitsOf(Run(calls), principal) != Plain(calls, principal) { RecentLater(Plain(calls, principal), last.at, now); }
    }
  }

  lemma FewBefore(calls: Calls)
    requires calls != [] && Few(calls)
    ensures Few(calls[..|calls| - 1])
  {
    SubsetSize(Principals(calls[..|calls| - 1]), Principals(calls));
  }

  lemma {:induction false} FewAgree(calls: Calls)
    requires Few(calls)
    ensures Run(calls).Keys <= Principals(calls)
    ensures forall p :: HitsOf(Run(calls), p) == Plain(calls, p)
    decreases |calls|
  {
    hide Counted, Few, Purged;
    if calls != [] {
      var rest, last := calls[..|calls| - 1], calls[|calls| - 1];
      FewBefore(calls);
      FewAgree(rest);
      var hits' := Run(rest)[last.principal := Counted(HitsOf(Run(rest), last.principal), last)];
      assert hits'.Keys <= Principals(calls);
      NoPurge(calls, hits');
    }
  }

  lemma NoPurge(calls: Calls, hits: Hits)
    requires Few(calls) && hits.Keys <= Principals(calls)
    ensures |hits| <= 1000
  {
    SubsetSize(hits.Keys, Principals(calls));
    assert |hits| == |hits.Keys|;
  }

  /** Where the purge is not seen: the clock never goes back, or there are few principals. */
  ghost predicate Smooth(calls: Calls) {
    Monotone(calls) || Few(calls)
  }

  lemma LastAgrees(calls: Calls)
    requires calls != [] && Smooth(calls)
    ensures var rest, last := calls[..|calls| - 1], calls[|calls| - 1];
            Smooth(rest) && Charge(Run(rest), last).1 == Fits(Plain(rest, last.principal), last)
  {
    var rest, last := calls[..|calls| - 1], calls[|calls| - 1];
    if Monotone(calls) {
      MonotoneAgrees(rest, last.principal, last.at);
    } else {
      FewBefore(calls);
      FewAgree(rest);
    }
  }

  /** Purging changes no answer. */
  lemma {:induction false} PurgeIsUnseen(calls: Calls, principal: string, start: real)
    requires Smooth(calls)
    ensures Spent(calls, principal, start) == PlainSpent(calls, principal, start)
    decreases |calls|
  {
    hide Charge, Fits, Smooth, Inside;
    if calls != [] {
      LastAgrees(calls);
      PurgeIsUnseen(calls[..|calls| - 1], principal, start);
    }
  }

  // ---------------------------------------------------------------- the window

  function CountIn(list: seq<real>, start: real): nat {
    if list == [] then 0
    else CountIn(list[..|list| - 1], start) + if Inside(list[|list| - 1], start) then 1 else 0
  }

  lemma {:induction false} CountAppend(a: seq<real>, b: seq<real>, start: real)
    ensures CountIn(a + b, start) == CountIn(a, start) + CountIn(b, start)
    decreases |b|
  {
    if b == [] {
      assert a + b == a;
    } else {
      CountAppend(a, b[..|b| - 1], start);
      assert (a + b)[..|a + b| - 1] == a + b[..|b| - 1];
    }
  }

  lemma {:induction false} CountTimes(at: real, n: nat, start: real)
    ensures CountIn(Times(at, n), start) == if Inside(at, start) then n else 0
  {
    if n > 0 {
      CountTimes(at, n - 1, start);
      assert Times(at, n)[..n - 1] == Times(at, n - 1);
    }
  }

  // A call that drops nothing of the window sees all of it.
  lemma {:induction false} CountRecent(list: seq<real>, now: real, start: real)
    requires forall t :: t in list && Inside(t, start) ==> now - t < 60.0
    ensures CountIn(Recent(list, now), start) == CountIn(list, start) <= |Recent(list, now)|
    decreases |list|
  {
    if list != [] {
      var rest, last := list[..|list| - 1], list[|list| - 1];
      assert last in list && forall t :: t in rest ==> t in list;
      CountRecent(rest, now, start);
      CountAppend(Recent(rest, now), [last], start);
      assert CountIn([last], start) == if Inside(last, start) then 1 else 0 by { assert [last][..0] == []; }
    }
  }

  lemma {:induction false} HitsAreReadings(calls: Calls, principal: string, t: real)
    requires t in Plain(calls, principal)
    ensures exists i :: 0 <= i < |calls| && calls[i].principal == principal && calls[i].at == t
    decreases |calls|
  {
    if calls != [] {
      var rest, last := calls[..|calls| - 1], calls[|calls| - 1];
      if t in Plain(rest, principal) {
        HitsAreReadings(rest, principal, t);
        var i :| 0 <= i < |rest| && rest[i].principal == principal && rest[i].at == t;
        assert calls[i] == rest[i];
      } else {
        assert last.principal == principal && last.at == t;
      }
    }
  }

  /** Call `j` drops the hits of call `i`. */
  ghost predicate Drops(calls: Calls, i: int, j: int)
    requires 0 <= i < |calls| && 0 <= j < |calls|
  {
    i < j && calls[i].principal == calls[j].principal && calls[j].at - calls[i].at >= 60.0
  }

  ghost predicate Lost(calls: Calls, principal: string, start: real) {
    exists i, j :: 0 <= i < |calls| && 0 <= j < |calls| && calls[i].principal == principal && Inside(calls[i].at, start) &&
                   Drops(calls, i, j)
  }

  lemma LostStays(calls: Calls, principal: string, start: real)
    requires calls != [] && Lost(calls[..|calls| - 1], principal, start)
    ensures Lost(calls, principal, start)
  {
    var rest := calls[..|calls| - 1];
    var i, j :| 0 <= i < |rest| && 0 <= j < |rest| && rest[i].principal == principal && Inside(rest[i].at, start) &&
                Drops(rest, i, j);
    assert Drops(calls, i, j);
  }

  // The last call drops nothing from a window that is not lost.
  lemma NothingDropped(calls: Calls, principal: string, start: real)
    requires calls != [] && calls[|calls| - 1].principal == principal && !Lost(calls, principal, start)
    ensures forall t :: t in Plain(calls[..|calls| - 1], principal) && Inside(t, start) ==> calls[|calls| - 1].at - t < 60.0
  {
    var rest, last := calls[..|calls| - 1], calls[|calls| - 1];
    hide Plain, Lost;
    forall t | t in Plain(rest, principal) && Inside(t, start) ensures last.at - t < 60.0 {
      HitsAreReadings(rest, principal, t);
      var i :| 0 <= i < |rest| && rest[i].principal == principal && rest[i].at == t;
      if last.at - t >= 60.0 { LostBy(calls, principal, start, i); }
    }
  }

  lemma LostBy(calls: Calls, principal: string, start: real, i: nat)
    requires i < |calls| - 1 && calls[i].principal == principal && Inside(calls[i].at, start)
    requires Drops(calls, i, |calls| - 1)
    ensures Lost(calls, principal, start)
  {
  }

  /** Until something of a window is dropped, the list holds all that was charged in it. */
  lemma {:induction false} PlainCounts(calls: Calls, principal: string, start: real)
    requires !Lost(calls, principal, start)
    ensures CountIn(Plain(calls, principal), start) == PlainSpent(calls, principal, start)
    decreases |calls|
  {
    hide Recent, Times, Lost, Fits;
    if calls != [] {
      var rest, last := calls[..|calls| - 1], calls[|calls| - 1];
      if Lost(rest, principal, start) { LostStays(calls, principal, start); }
      PlainCounts(rest, principal, start);
      if last.principal == principal {
        var list := Plain(rest, principal);
        NothingDropped(calls, principal, start);
        CountRecent(list, last.at, start);
        CountTimes(last.at, last.weight, start);
        CountAppend(Recent(list, last.at), if Fits(list, last) then Times(last.at, last.weight) else [], start);
      }
    }
  }

  /** The clock is set back to within a minute of a hit that has been dropped. */
  ghost predicate Returns(calls: Calls, i: int, j: int, k: int)
    requires 0 <= i < |calls| && 0 <= j < |calls| && 0 <= k < |calls|
  {
    && Drops(calls, i, j) && j < k && calls[k].principal == calls[i].principal
    && -60.0 < calls[k].at - calls[i].at < 60.0
  }

  ghost predicate SetBack(calls: Calls) {
    exists i, j, k :: 0 <= i < |calls| && 0 <= j < |calls| && 0 <= k < |calls| && Returns(calls, i, j, k)
  }

  lemma SetBackStays(calls: Calls)
    requires calls != [] && SetBack(calls[..|calls| - 1])
    ensures SetBack(calls)
  {
    var rest := calls[..|calls| - 1];
    var i, j, k :| 0 <= i < |rest| && 0 <= j < |rest| && 0 <= k < |rest| && Returns(rest, i, j, k);
    assert Returns(calls, i, j, k);
  }

  lemma LostThenBack(calls: Calls, principal: string, start: real)
    requires calls != [] && Lost(calls, principal, start)
    requires calls[|calls| - 1].principal == principal && Inside(calls[|calls| - 1].at, start)
    ensures SetBack(calls)
  {
    var i, j :| 0 <= i < |calls| && 0 <= j < |calls| && calls[i].principal == principal && Inside(calls[i].at, start) &&
                Drops(calls, i, j);
    assert Returns(calls, i, j, |calls| - 1);
  }

  lemma {:induction false} PlainBounded(calls: Calls, principal: string, start: real)
    requires !SetBack(calls)
    ensures PlainSpent(calls, principal, start) <= 30
    decreases |calls|
  {
    hide Recent, Lost, SetBack, Plain;
    if calls != [] {
      var rest, last := calls[..|calls| - 1], calls[|calls| - 1];
      if SetBack(rest) { SetBackStays(calls); }
      PlainBounded(rest, principal, start);
      if last.principal == principal && Inside(last.at, start) {
        if Lost(calls, principal, start) { LostThenBack(calls, principal, start); }
        if Lost(rest, principal, start) { LostStays(calls, principal, start); }
        PlainCounts(rest, principal, start);
        NothingDropped(calls, principal, start);
        CountRecent(Plain(rest, principal), last.at, start);
      }
    }
  }

  /** No principal is charged for more than 30 links in any minute of readings, nor adds more. */
  ghost predicate Bounded(calls: Calls) {
    forall p, start :: Added(calls, p, start) <= Spent(calls, p, start) <= 30
  }

  lemma BoundedUnlessBack(calls: Calls)
    requires Smooth(calls) && !SetBack(calls)
    ensures Bounded(calls)
  {
    forall p, start ensures Added(calls, p, start) <= Spent(calls, p, start) <= 30 {
      AddedIsPaid(calls, p, start);
      PurgeIsUnseen(calls, p, start);
      PlainBounded(calls, p, start);
    }
  }

  /** While the clock does not go back the limit holds, for any number of principals and through every purge. */
  lemma LimitHolds(calls: Calls)
    requires Monotone(calls)
    ensures Bounded(calls)
  {
    BoundedUnlessBack(calls);
  }

  // ---------------------------------------------------------------- and exactly when it does

  /** The same principals at the same readings; the requests may differ. */
  ghost predicate SameTimes(a: Calls, b: Calls) {
    |a| == |b| && forall i :: 0 <= i < |a| ==> a[i].principal == b[i].principal && a[i].at == b[i].at
  }

  function Loaded(calls: Calls, i: nat, k: nat): (r: Calls)
    ensures |r| == |calls|
  {
    seq(|calls|, n requires 0 <= n < |calls| =>
      calls[n].(weight := if n == i || n == k then 30 else 0))
  }

  ghost predicate AllAt(list: seq<real>, t: real) {
    forall x :: 0 <= x < |list| ==> list[x] == t
  }

  lemma AllAtRecent(list: seq<real>, now: real, t: real)
    requires AllAt(list, t)
    ensures AllAt(Recent(list, now), t) && (now - t >= 60.0 ==> Recent(list, now) == [])
  {
    var r := Recent(list, now);
    forall x | 0 <= x < |r| ensures r[x] == t {
      assert r[x] in list;
    }
    if now - t >= 60.0 { NothingRecent(list, now); }
  }

  lemma CountedAllAt(list: seq<real>, c: Call, t: real)
    requires AllAt(list, t) && (c.weight == 0 || (list == [] && c.at == t))
    ensures AllAt(Counted(list, c), t)
    ensures c.weight == 0 && (list == [] || c.at - t >= 60.0) ==> Counted(list, c) == []
  {
    AllAtRecent(list, c.at, t);
  }

  lemma {:induction false} LoadedHits(calls: Calls, i: nat, j: nat, k: nat, n: nat)
    requires i < |calls| && j < k < |calls| && Drops(calls, i, j) && n <= k
    ensures var list := Plain(Loaded(calls, i, k)[..n], calls[i].principal);
            AllAt(list, calls[i].at) && (n <= i || n > j ==> list == [])
    decreases n
  {
    hide AllAt, Counted;
    if n == 0 {
      NoneAt(calls[i].at);
    } else {
      var b, p, m := Loaded(calls, i, k), calls[i].principal, n - 1;
      LoadedHits(calls, i, j, k, m);
      assert b[..n][..m] == b[..m] && b[..n][m] == b[m];
      CountedAllAt(Plain(b[..m], p), b[m], calls[i].at);
    }
  }

  lemma NoneAt(t: real)
    ensures AllAt([], t)
  {
  }

  lemma {:induction false} SpentGrows(calls: Calls, principal: string, start: real, n: nat)
    requires n <= |calls|
    ensures PlainSpent(calls[..n], principal, start) <= PlainSpent(calls, principal, start)
    decreases |calls|
  {
    if n == |calls| {
      assert calls[..n] == calls;
    } else {
      assert calls[..|calls| - 1][..n] == calls[..n];
      SpentGrows(calls[..|calls| - 1], principal, start, n);
    }
  }

  // A call that finds no hits is granted all 30.
  lemma FullGrant(calls: Calls, n: nat, start: real)
    requires n < |calls| && calls[n].weight == 30 && Inside(calls[n].at, start)
    requires Plain(calls[..n], calls[n].principal) == []
    ensures PlainSpent(calls[..n + 1], calls[n].principal, start) ==
            PlainSpent(calls[..n], calls[n].principal, start) + 30
  {
    assert calls[..n + 1][..n] == calls[..n];
  }

  lemma LoadedSpends(calls: Calls, i: nat, j: nat, k: nat) returns (start: real)
    requires i < |calls| && j < |calls| && k < |calls| && Returns(calls, i, j, k)
    ensures PlainSpent(Loaded(calls, i, k), calls[i].principal, start) > 30
  {
    hide Plain, PlainSpent;
    var b := Loaded(calls, i, k);
    start := if calls[i].at < calls[k].at then calls[i].at else calls[k].at;
    LoadedHits(calls, i, j, k, i);
    LoadedHits(calls, i, j, k, k);
    TwoGrants(b, i, k, start);
  }

  lemma TwoGrants(b: Calls, i: nat, k: nat, start: real)
    requires i < k < |b| && b[k].principal == b[i].principal && b[i].weight == b[k].weight == 30
    requires Inside(b[i].at, start) && Inside(b[k].at, start)
    requires Plain(b[..i], b[i].principal) == Plain(b[..k], b[i].principal) == []
    ensures PlainSpent(b, b[i].principal, start) > 30
  {
    hide Plain, PlainSpent, Inside;
    FullGrant(b, i, start);
    FullGrant(b, k, start);
    SpentGrows(b[..k], b[i].principal, start, i + 1);
    assert b[..k][..i + 1] == b[..i + 1];
    SpentGrows(b, b[i].principal, start, k + 1);
  }

  lemma SameTimesAlike(a: Calls, b: Calls)
    requires SameTimes(a, b)
    ensures Principals(a) == Principals(b) && SetBack(a) == SetBack(b)
  {
    SamePrincipals(a, b);
    SamePrincipals(b, a);
    if SetBack(a) { SameBack(a, b); }
    if SetBack(b) { SameBack(b, a); }
  }

  lemma SamePrincipals(a: Calls, b: Calls)
    requires SameTimes(a, b)
    ensures Principals(a) <= Principals(b)
  {
    forall p | p in Principals(a) ensures p in Principals(b) {
      var i :| 0 <= i < |a| && a[i].principal == p;
      assert b[i] in b;
    }
  }

  lemma SameBack(a: Calls, b: Calls)
    requires SameTimes(a, b) && SetBack(a)
    ensures SetBack(b)
  {
    var i, j, k :| 0 <= i < |a| && 0 <= j < |a| && 0 <= k < |a| && Returns(a, i, j, k);
    assert Returns(b, i, j, k);
  }

  /**
   * For up to 1000 principals and any readings: whatever is asked for at these times stays within the limit
   * if and only if the clock is never set back to within a minute of a hit it had left a minute behind.
   */
  lemma LimitHoldsExactly(calls: Calls)
    requires Few(calls)
    ensures (forall b :: SameTimes(calls, b) ==> Bounded(b)) <==> !SetBack(calls)
  {
    hide Bounded, Few, SetBack, Principals;
    if SetBack(calls) {
      var i, j, k := BackTimes(calls);
      var b := Loaded(calls, i, k);
      assert SameTimes(calls, b);
      SameTimesAlike(calls, b);
      FewSame(calls, b);
      var start := LoadedSpends(calls, i, j, k);
      PurgeIsUnseen(b, calls[i].principal, start);
      Exceeds(b, calls[i].principal, start);
    } else {
      forall b | SameTimes(calls, b) ensures Bounded(b) {
        SameTimesAlike(calls, b);
        FewSame(calls, b);
        BoundedUnlessBack(b);
      }
    }
  }

  lemma BackTimes(calls: Calls) returns (i: nat, j: nat, k: nat)
    requires SetBack(calls)
    ensures i < |calls| && j < |calls| && k < |calls| && Returns(calls, i, j, k)
  {
    i, j, k :| 0 <= i < |calls| && 0 <= j < |calls| && 0 <= k < |calls| && Returns(calls, i, j, k);
  }

  lemma FewSame(a: Calls, b: Calls)
    requires Few(a) && Principals(a) == Principals(b)
    ensures Smooth(b)
  {
  }

  lemma Exceeds(calls: Calls, principal: string, start: real)
    requires Spent(calls, principal, start) > 30
    ensures !Bounded(calls)
  {
  }

  // ---------------------------------------------------------------- paying for nothing

  /** A principal whose requests were all refused after paying has added nothing and is still refused. */
  lemma PaidForNothing(principal: string, at: real, later: real, weight: nat, start: real)
    requires at <= later < at + 60.0 && weight > 0
    ensures var paid := [Call(principal, at, 30, false)];
            && Added(paid, principal, start) == 0
            && !Charge(Run(paid), Call(principal, later, weight, true)).1
  {
    var first := Call(principal, at, 30, false);
    assert [first][..0] == [];
    assert Run([first]) == Charge(map[], first).0;
    assert HitsOf(Run([first]), principal) == Times(at, 30);
    AllRecent(Times(at, 30), later);
  }

  lemma {:induction false} AllRecent(list: seq<real>, now: real)
    requires forall i :: 0 <= i < |list| ==> now - list[i] < 60.0
    ensures Recent(list, now) == list
  {
    if list != [] {
      AllRecent(list[..|list| - 1], now);
      assert list == list[..|list| - 1] + [list[|list| - 1]];
    }
  }
}
