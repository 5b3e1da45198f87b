/**
 The lists of a map, as the builder makes them: each raw item is kept or refused, and a list stops at its
 cap. An account of a list says what was kept, which warning each refused item got, and which items were
 never looked at.
 */
module Sections {
  import opened Common

  function Take<T>(s: seq<T>, n: nat): seq<T> {
    if |s| <= n then s else s[..n]
  }

  /** Decides one raw item, given how many items are kept already. */
  type Keeper<!R, !T> = (nat, R) -> Option<T>

  /** What is kept of `raws` when `n` items are kept already and nothing is capped. */
  function Filtered<R, T>(f: Keeper<R, T>, n: nat, raws: seq<R>): seq<T>
    decreases |raws|
  {
    if raws == [] then []
    else
      match f(n, raws[0])
      case Some(t) => [t] + Filtered(f, n + 1, raws[1..])
      case None => Filtered(f, n, raws[1..])
  }

  /** The warnings for the items that are not kept. */
  function Refused<R, T, W>(f: Keeper<R, T>, warn: R -> W, n: nat, raws: seq<R>): seq<W>
    decreases |raws|
  {
    if raws == [] then []
    else
      match f(n, raws[0])
      case Some(_) => Refused(f, warn, n + 1, raws[1..])
      case None => [warn(raws[0])] + Refused(f, warn, n, raws[1..])
  }

  lemma {:induction false} KeptOrRefused<R, T, W>(f: Keeper<R, T>, warn: R -> W, n: nat, raws: seq<R>)
    ensures |Filtered(f, n, raws)| + |Refused(f, warn, n, raws)| == |raws|
    decreases |raws|
  {
    if raws != [] {
      KeptOrRefused(f, warn, n, raws[1..]);
      KeptOrRefused(f, warn, n + 1, raws[1..]);
    }
  }

  /** What holds of every item a keeper makes holds of every kept item, at its number. */
  lemma {:induction false} KeptSatisfy<R(!new), T(!new)>(
      f: Keeper<R, T>, n: nat, raws: seq<R>, good: (nat, T) -> bool)
    requires forall k, raw :: f(k, raw).Some? ==> good(k, f(k, raw).value)
    ensures var kept := Filtered(f, n, raws);
            |kept| <= |raws| && forall i :: 0 <= i < |kept| ==> good(n + i, kept[i])
    decreases |raws|
  {
    if raws != [] {
      match f(n, raws[0])
      case Some(t) =>
        KeptSatisfy(f, n + 1, raws[1..], good);
        OneMoreSatisfies(t, Filtered(f, n + 1, raws[1..]), n, good);
      case None =>
        KeptSatisfy(f, n, raws[1..], good);
    }
  }

  lemma OneMoreSatisfies<T(!new)>(t: T, rest: seq<T>, n: nat, good: (nat, T) -> bool)
    requires good(n, t) && forall i :: 0 <= i < |rest| ==> good(n + 1 + i, rest[i])
    ensures forall i :: 0 <= i < |[t] + rest| ==> good(n + i, ([t] + rest)[i])
  {
    forall i | 0 < i < |[t] + rest| ensures good(n + i, ([t] + rest)[i]) {
      assert good(n + 1 + (i - 1), rest[i - 1]);
    }
  }

  /** `from` says which items the kept ones come from, in order; the others were refused. */
  ghost predicate ComesFrom<R(!new), T(!new)>(f: Keeper<R, T>, n: nat, raws: seq<R>, from: seq<nat>) {
    && |from| == |Filtered(f, n, raws)|
    && (forall i :: 0 <= i < |from| ==>
          from[i] < |raws| && f(n + i, raws[from[i]]) == Some(Filtered(f, n, raws)[i]))
    && (forall i, j :: 0 <= i < j < |from| ==> from[i] < from[j])
    && forall j :: 0 <= j < |raws| && j !in from ==> exists k: nat :: f(k, raws[j]).None?
  }

  function Shifted(from: seq<nat>): seq<nat> {
    seq(|from|, i requires 0 <= i < |from| => from[i] + 1)
  }

  lemma ShiftedHas(from: seq<nat>, j: nat)
    ensures j + 1 in Shifted(from) <==> j in from
  {
    if j in from {
      var i :| 0 <= i < |from| && from[i] == j;
      assert Shifted(from)[i] == j + 1;
    }
  }

  lemma FirstIsKept<R(!new), T(!new)>(f: Keeper<R, T>, n: nat, raws: seq<R>, rest: seq<nat>)
    requires raws != [] && f(n, raws[0]).Some? && ComesFrom(f, n + 1, raws[1..], rest)
    ensures ComesFrom(f, n, raws, [0] + Shifted(rest))
  {
    var from, tail := [0] + Shifted(rest), raws[1..];
    var kept, more := Filtered(f, n, raws), Filtered(f, n + 1, tail);
    assert kept == [f(n, raws[0]).value] + more;
    hide Filtered;
    forall i | 0 <= i < |from| ensures from[i] < |raws| && f(n + i, raws[from[i]]) == Some(kept[i]) {
      if i > 0 {
        assert from[i] == rest[i - 1] + 1 && tail[rest[i - 1]] == raws[from[i]];
        assert f(n + 1 + (i - 1), tail[rest[i - 1]]) == Some(more[i - 1]);
      }
    }
    forall j | 0 <= j < |raws| && j !in from ensures exists k: nat :: f(k, raws[j]).None? {
      assert j != 0 by { assert from[0] == 0; }
      ShiftedHas(rest, j - 1);
      assert tail[j - 1] == raws[j];
    }
  }

  lemma FirstIsRefused<R(!new), T(!new)>(f: Keeper<R, T>, n: nat, raws: seq<R>, rest: seq<nat>)
    requires raws != [] && f(n, raws[0]).None? && ComesFrom(f, n, raws[1..], rest)
    ensures ComesFrom(f, n, raws, Shifted(rest))
  {
    var from, tail := Shifted(rest), raws[1..];
    assert Filtered(f, n, raws) == Filtered(f, n, tail);
    hide Filtered;
    forall i | 0 <= i < |from| ensures from[i] < |raws| && f(n + i, raws[from[i]]) == Some(Filtered(f, n, raws)[i]) {
      assert tail[rest[i]] == raws[from[i]];
    }
    forall j | 0 <= j < |raws| && j !in from ensures exists k: nat :: f(k, raws[j]).None? {
      if j > 0 {
        ShiftedHas(rest, j - 1);
        assert tail[j - 1] == raws[j];
      }
    }
  }

  lemma {:induction false} KeptInOrder<R(!new), T(!new)>(f: Keeper<R, T>, n: nat, raws: seq<R>) returns (from: seq<nat>)
    ensures ComesFrom(f, n, raws, from)
    decreases |raws|
  {
    if raws == [] {
      from := [];
    } else {
      hide ComesFrom;
      if f(n, raws[0]).Some? {
        var rest := KeptInOrder(f, n + 1, raws[1..]);
        FirstIsKept(f, n, raws, rest);
        from := [0] + Shifted(rest);
      } else {
        var rest := KeptInOrder(f, n, raws[1..]);
        FirstIsRefused(f, n, raws, rest);
        from := Shifted(rest);
      }
    }
  }

  /** Nothing is kept that no item gives, and an item that is decided alike at every count is kept. */
  lemma KeptIff<R(!new), T(!new)>(f: Keeper<R, T>, n: nat, raws: seq<R>)
    ensures forall t :: t in Filtered(f, n, raws) ==> exists raw, k: nat :: raw in raws && f(k, raw) == Some(t)
    ensures forall raw :: raw in raws && (forall k: nat :: f(k, raw).Some?) ==>
              exists k: nat :: f(k, raw).Some? && f(k, raw).value in Filtered(f, n, raws)
  {
    var kept := Filtered(f, n, raws);
    var from := KeptInOrder(f, n, raws);
    forall t | t in kept ensures exists raw, k: nat :: raw in raws && f(k, raw) == Some(t) {
      var i :| 0 <= i < |kept| && kept[i] == t;
      assert raws[from[i]] in raws && f(n + i, raws[from[i]]) == Some(t);
    }
    forall raw | raw in raws && (forall k: nat :: f(k, raw).Some?)
      ensures exists k: nat :: f(k, raw).Some? && f(k, raw).value in kept
    {
      var j :| 0 <= j < |raws| && raws[j] == raw;
      assert j in from;
      var i :| 0 <= i < |from| && from[i] == j;
      assert f(n + i, raw).value == kept[i] && kept[i] in kept;
    }
  }

  datatype Account<+T, +W, +R> = Account(kept: seq<T>, warned: seq<W>, silent: seq<R>)

  /** The account of a list that is left as soon as `cap` items are kept. */
  function Limited<R, T, W>(f: Keeper<R, T>, warn: R -> W, n: nat, cap: nat, raws: seq<R>): Account<T, W, R>
    decreases |raws|
  {
    if raws == [] then Account([], [], [])
    else if n >= cap then Account([], [], raws)
    else
      match f(n, raws[0])
      case Some(t) => Keeping(t, Limited(f, warn, n + 1, cap, raws[1..]))
      case None => Warned(warn(raws[0]), Limited(f, warn, n, cap, raws[1..]))
  }

  /** Room is left before every item: the cap is not reached before the last one. */
  predicate Fits<R, T>(f: Keeper<R, T>, n: nat, cap: nat, raws: seq<R>) {
    raws == [] || n + |Filtered(f, n, raws[..|raws| - 1])| < cap
  }

  /**
   Leaving at the cap is filtering and truncating; every item is kept, warned about or passed over in
   silence; and nothing is passed over exactly when the list fits.
   */
  lemma {:induction false} LimitedMeans<R, T, W>(f: Keeper<R, T>, warn: R -> W, n: nat, cap: nat, raws: seq<R>)
    requires n <= cap
    ensures var a := Limited(f, warn, n, cap, raws);
            && a.kept == Take(Filtered(f, n, raws), cap - n)
            && |a.kept| + |a.warned| + |a.silent| == |raws|
            && (a.silent == [] <==> Fits(f, n, cap, raws))
    decreases |raws|
  {
    if raws != [] && n < cap {
      var rest := raws[1..];
      assert rest != [] ==> raws[..|raws| - 1][1..] == rest[..|rest| - 1];
      match f(n, raws[0])
      case Some(t) =>
        LimitedMeans(f, warn, n + 1, cap, rest);
        TakeFirst(t, Filtered(f, n + 1, rest), cap - n);
      case None =>
        LimitedMeans(f, warn, n, cap, rest);
    }
  }

  lemma TakeNothing<T>(s: seq<T>, n: nat)
    requires s == [] || n == 0
    ensures Take(s, n) == []
  {
  }

  lemma TakeFirst<T>(t: T, s: seq<T>, n: nat)
    requires n > 0
    ensures Take([t] + s, n) == [t] + Take(s, n - 1)
  {
  }

  /** The account of one list followed by another. */
  function Joined<T, W, R>(x: Account<T, W, R>, y: Account<T, W, R>): Account<T, W, R> {
    Account(x.kept + y.kept, x.warned + y.warned, x.silent + y.silent)
  }

  function Keeping<T, W, R>(t: T, x: Account<T, W, R>): Account<T, W, R> {
    x.(kept := [t] + x.kept)
  }

  function Warned<T, W, R>(w: W, x: Account<T, W, R>): Account<T, W, R> {
    x.(warned := [w] + x.warned)
  }

  function Passing<T, W, R>(r: R, x: Account<T, W, R>): Account<T, W, R> {
    x.(silent := [r] + x.silent)
  }

  lemma JoinedKeeping<T, W, R>(t: T, x: Account<T, W, R>, y: Account<T, W, R>)
    ensures Joined(Keeping(t, x), y) == Keeping(t, Joined(x, y))
  {
  }

  lemma JoinedWarning<T, W, R>(w: W, x: Account<T, W, R>, y: Account<T, W, R>)
    ensures Joined(Warned(w, x), y) == Warned(w, Joined(x, y))
  {
  }

  lemma JoinedNothing<T, W, R>(y: Account<T, W, R>)
    ensures Joined(Account([], [], []), y) == y
  {
  }

  /** Two lists one after the other are one list. */
  lemma {:induction false} LimitedConcat<R, T, W>(
      f: Keeper<R, T>, warn: R -> W, n: nat, cap: nat, a: seq<R>, b: seq<R>)
    ensures var x := Limited(f, warn, n, cap, a);
            Limited(f, warn, n, cap, a + b) == Joined(x, Limited(f, warn, n + |x.kept|, cap, b))
    decreases |a|
  {
    if a == [] {
      assert a + b == b;
      JoinedNothing(Limited(f, warn, n, cap, b));
    } else if n < cap {
      hide Joined;
      assert (a + b)[1..] == a[1..] + b;
      match f(n, a[0])
      case Some(t) =>
        var x := Limited(f, warn, n + 1, cap, a[1..]);
        LimitedConcat(f, warn, n + 1, cap, a[1..], b);
        JoinedKeeping(t, x, Limited(f, warn, n + 1 + |x.kept|, cap, b));
      case None =>
        var x := Limited(f, warn, n, cap, a[1..]);
        LimitedConcat(f, warn, n, cap, a[1..], b);
        JoinedWarning(warn(a[0]), x, Limited(f, warn, n + |x.kept|, cap, b));
    }
  }

  // One turn of a loop over the items.

  lemma FirstKept<R, T, W>(f: Keeper<R, T>, warn: R -> W, n: nat, raws: seq<R>, k: nat)
    requires k < |raws|
    ensures var raw, rest := raws[k], raws[k + 1..];
            match f(n, raw)
            case Some(t) =>
              && Filtered(f, n, raws[k..]) == [t] + Filtered(f, n + 1, rest)
              && Refused(f, warn, n, raws[k..]) == Refused(f, warn, n + 1, rest)
            case None =>
              && Filtered(f, n, raws[k..]) == Filtered(f, n, rest)
              && Refused(f, warn, n, raws[k..]) == [warn(raw)] + Refused(f, warn, n, rest)
  {
    assert raws[k..][1..] == raws[k + 1..];
  }

  lemma NothingKept<R, T, W>(f: Keeper<R, T>, warn: R -> W, n: nat, raws: seq<R>)
    ensures Filtered(f, n, raws[|raws|..]) == [] && Refused(f, warn, n, raws[|raws|..]) == []
  {
  }

  lemma FirstLimited<R, T, W>(f: Keeper<R, T>, warn: R -> W, n: nat, cap: nat, raws: seq<R>, k: nat)
    requires k < |raws| && n < cap
    ensures var raw, rest, all := raws[k], raws[k + 1..], Limited(f, warn, n, cap, raws[k..]);
            match f(n, raw)
            case Some(t) =>
              && all.kept == [t] + Limited(f, warn, n + 1, cap, rest).kept
              && all.warned == Limited(f, warn, n + 1, cap, rest).warned
            case None =>
              && all.kept == Limited(f, warn, n, cap, rest).kept
              && all.warned == [warn(raw)] + Limited(f, warn, n, cap, rest).warned
  {
    assert raws[k..][1..] == raws[k + 1..];
  }

  lemma LimitReached<R, T, W>(f: Keeper<R, T>, warn: R -> W, n: nat, cap: nat, raws: seq<R>)
    requires raws == [] || n >= cap
    ensures Limited(f, warn, n, cap, raws).kept == [] && Limited(f, warn, n, cap, raws).warned == []
  {
  }

  /** Every warning is about an item that was refused. */
  lemma {:induction false} RefusedAreNamed<R(!new), T(!new), W(!new)>(f: Keeper<R, T>, warn: R -> W, n: nat, raws: seq<R>)
    ensures forall w :: w in Refused(f, warn, n, raws) ==>
              exists raw, k: nat :: raw in raws && f(k, raw).None? && w == warn(raw)
    decreases |raws|
  {
    if raws != [] {
      var rest := raws[1..];
      assert forall raw :: raw in rest ==> raw in raws;
      RefusedAreNamed(f, warn, n, rest);
      RefusedAreNamed(f, warn, n + 1, rest);
    }
  }

  lemma {:induction false} LimitedIsPartly<R(!new), T(!new), W(!new)>(
      f: Keeper<R, T>, warn: R -> W, n: nat, cap: nat, raws: seq<R>)
    ensures forall w :: w in Limited(f, warn, n, cap, raws).warned ==>
              exists raw, k: nat :: raw in raws && f(k, raw).None? && w == warn(raw)
    ensures forall t :: t in Limited(f, warn, n, cap, raws).kept ==>
              exists raw, k: nat :: raw in raws && f(k, raw) == Some(t)
    decreases |raws|
  {
    if raws != [] && n < cap {
      var rest := raws[1..];
      assert forall raw :: raw in rest ==> raw in raws;
      LimitedIsPartly(f, warn, n, cap, rest);
      LimitedIsPartly(f, warn, n + 1, cap, rest);
    }
  }
}
