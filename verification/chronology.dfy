/** Newest-first ordering of movements, as produced by the `...OrderByDateDesc`
    queries and by `sorted((m1, m2) -> m2.getDate().compareTo(m1.getDate()))`.
    The sort is stable: movements with the same date keep their relative order. */
module Chronology {
  import opened Common
  import opened Bank

  predicate NewestFirst(s: seq<Movement>) {
    forall i, j :: 0 <= i < j < |s| ==> s[i].date >= s[j].date
  }

  /** Prepending a movement at least as new as every other keeps the order. */
  lemma ConsNewestFirst(x: Movement, t: seq<Movement>)
    requires NewestFirst(t)
    requires forall k :: 0 <= k < |t| ==> t[k].date <= x.date
    ensures NewestFirst([x] + t)
  {
  }

  /** What `Insert` builds behind the head of `s`, from `m` older than that head and
      the rest of `s`, is no newer than the head. */
  lemma TailNotNewer(m: Movement, s: seq<Movement>, rest: seq<Movement>)
    requires NewestFirst(s) && |s| > 0 && m.date < s[0].date
    requires forall k :: 0 <= k < |rest| ==> rest[k] == m || rest[k] in s[1..]
    ensures forall k :: 0 <= k < |rest| ==> rest[k].date <= s[0].date
  {
    forall k | 0 <= k < |rest| ensures rest[k].date <= s[0].date {
      if rest[k] != m {
        var j :| 0 <= j < |s[1..]| && s[1..][j] == rest[k];
        assert s[j + 1] == rest[k];
      }
    }
  }

  /** Puts `m` before the first movement that is not newer than it. */
  function Insert(m: Movement, s: seq<Movement>): (r: seq<Movement>)
    requires NewestFirst(s)
    ensures NewestFirst(r)
    ensures multiset(r) == multiset(s) + multiset{m}
    ensures |r| == |s| + 1
    ensures forall k :: 0 <= k < |r| ==> r[k] == m || r[k] in s
  {
    if |s| == 0 then [m]
    else if m.date >= s[0].date then
      ConsNewestFirst(m, s);
      [m] + s
    else
      var rest := Insert(m, s[1..]);
      assert s == [s[0]] + s[1..];
      TailNotNewer(m, s, rest);
      ConsNewestFirst(s[0], rest);
      [s[0]] + rest
  }

  /** Newest first; equal dates keep their input order. */
  function SortNewestFirst(s: seq<Movement>): (r: seq<Movement>)
    ensures NewestFirst(r)
    ensures multiset(r) == multiset(s)
    ensures |r| == |s|
  {
    if |s| == 0 then []
    else
      assert s == [s[0]] + s[1..];
      Insert(s[0], SortNewestFirst(s[1..]))
  }

  /** A sorted list holds exactly the movements it was sorted from. */
  lemma SortKeepsMembers(s: seq<Movement>, m: Movement)
    ensures m in SortNewestFirst(s) <==> m in s
  {
    assert m in SortNewestFirst(s) <==> m in multiset(SortNewestFirst(s));
    assert m in s <==> m in multiset(s);
  }
}
