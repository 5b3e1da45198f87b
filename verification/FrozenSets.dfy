/** Whether a map describes exactly a given set of frozen repositories. */
module FrozenSets {
  import opened Text
  import opened Model

  predicate Before(a: FrozenRepository, b: FrozenRepository) {
    Below(a.repositoryId, b.repositoryId) || (a.repositoryId == b.repositoryId && Below(a.commitSha, b.commitSha))
  }

  predicate AtMost(a: FrozenRepository, b: FrozenRepository) {
    a == b || Before(a, b)
  }

  lemma AtMostTotal(a: FrozenRepository, b: FrozenRepository)
    ensures AtMost(a, b) || AtMost(b, a)
  {
    BelowTotal(a.repositoryId, b.repositoryId);
    BelowTotal(a.commitSha, b.commitSha);
  }

  lemma AtMostTransitive(a: FrozenRepository, b: FrozenRepository, c: FrozenRepository)
    requires AtMost(a, b) && AtMost(b, c)
    ensures AtMost(a, c)
  {
    if Below(a.repositoryId, b.repositoryId) && Below(b.repositoryId, c.repositoryId) {
      BelowTransitive(a.repositoryId, b.repositoryId, c.repositoryId);
    }
    if Below(a.commitSha, b.commitSha) && Below(b.commitSha, c.commitSha) {
      BelowTransitive(a.commitSha, b.commitSha, c.commitSha);
    }
  }

  lemma AtMostAntisymmetric(a: FrozenRepository, b: FrozenRepository)
    requires AtMost(a, b) && AtMost(b, a)
    ensures a == b
  {
    BelowIrreflexive(a.repositoryId);
    BelowIrreflexive(a.commitSha);
    if Below(a.repositoryId, b.repositoryId) && Below(b.repositoryId, a.repositoryId) {
      BelowTransitive(a.repositoryId, b.repositoryId, a.repositoryId);
    }
    if Below(a.commitSha, b.commitSha) && Below(b.commitSha, a.commitSha) {
      BelowTransitive(a.commitSha, b.commitSha, a.commitSha);
    }
  }

  predicate Sorted(s: seq<FrozenRepository>) {
    forall i, j :: 0 <= i < j < |s| ==> AtMost(s[i], s[j])
  }

  function Insert(x: FrozenRepository, s: seq<FrozenRepository>): (r: seq<FrozenRepository>)
    ensures multiset(r) == multiset(s) + multiset{x}
  {
    if s == [] || AtMost(x, s[0]) then
      [x] + s
    else
      assert s == [s[0]] + s[1..];
      [s[0]] + Insert(x, s[1..])
  }

  lemma {:induction false} InsertSorts(x: FrozenRepository, s: seq<FrozenRepository>)
    requires Sorted(s)
    ensures Sorted(Insert(x, s))
  {
    hide AtMost;
    if s == [] {
    } else if AtMost(x, s[0]) {
      forall i | 0 <= i < |s| ensures AtMost(x, s[i]) {
        if i > 0 { AtMostTransitive(x, s[0], s[i]); }
      }
    } else {
      AtMostTotal(x, s[0]);
      InsertSorts(x, s[1..]);
      var rest := Insert(x, s[1..]);
      forall i | 0 <= i < |rest| ensures AtMost(s[0], rest[i]) {
        assert rest[i] in multiset(rest);
        if rest[i] != x {
          assert rest[i] in s[1..];
        }
      }
    }
  }

  function Sort(s: seq<FrozenRepository>): (r: seq<FrozenRepository>)
    ensures multiset(r) == multiset(s)
  {
    if s == [] then []
    else
      assert s == [s[0]] + s[1..];
      Insert(s[0], Sort(s[1..]))
  }

  lemma {:induction false} SortSorts(s: seq<FrozenRepository>)
    ensures Sorted(Sort(s))
  {
    if s != [] {
      SortSorts(s[1..]);
      InsertSorts(s[0], Sort(s[1..]));
    }
  }

  /** A sorted sequence is determined by its elements, counted. */
  lemma {:induction false} SortedIsUnique(a: seq<FrozenRepository>, b: seq<FrozenRepository>)
    requires Sorted(a) && Sorted(b) && multiset(a) == multiset(b)
    ensures a == b
  {
    hide AtMost;
    assert |a| == |multiset(a)| == |multiset(b)| == |b|;
    if a != [] {
      LeastComesFirst(a, b);
      LeastComesFirst(b, a);
      AtMostAntisymmetric(a[0], b[0]);
      assert a == [a[0]] + a[1..] && b == [b[0]] + b[1..];
      assert multiset(a[1..]) == multiset(a) - multiset{a[0]};
      assert multiset(b[1..]) == multiset(b) - multiset{b[0]};
      SortedIsUnique(a[1..], b[1..]);
    }
  }

  lemma LeastComesFirst(a: seq<FrozenRepository>, b: seq<FrozenRepository>)
    requires Sorted(a) && multiset(a) == multiset(b) && a != [] && b != []
    ensures AtMost(a[0], b[0])
  {
    assert b[0] in multiset(b);
    assert b[0] in a;
    var i :| 0 <= i < |a| && a[i] == b[0];
  }

  /** Sorting both sides decides equality as multisets: order does not matter, repetition does. */
  method MatchesRepositories(mine: seq<FrozenRepository>, frozen: seq<FrozenRepository>) returns (r: bool)
    ensures r <==> multiset(mine) == multiset(frozen)
  {
    assert multiset(mine) == multiset(frozen) ==> |multiset(mine)| == |multiset(frozen)|;
    if |mine| != |frozen| { return false; }
    var ours, theirs := Sort(mine), Sort(frozen);
    SortSorts(mine);
    SortSorts(frozen);
    if multiset(mine) == multiset(frozen) {
      SortedIsUnique(ours, theirs);
    }
    r := ours == theirs;
  }
}
