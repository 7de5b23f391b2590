/** Python's `sorted(jokes, key=lambda x: x['score'], reverse=descending)`:
    a stable sort by score in either direction. Equal scores keep their
    input order also when `reverse=True`. */
module ScoreSort {
  import opened Jokes

  /** Score `a` may stand before score `b` in the given direction. */
  predicate InOrder(a: int, b: int, descending: bool)
  {
    if descending then a >= b else a <= b
  }

  /** Scores never go against the direction. */
  predicate Ordered(s: seq<Joke>, descending: bool)
  {
    forall i, j :: 0 <= i < j < |s| ==> InOrder(s[i].score, s[j].score, descending)
  }

  /** The records of `s` whose score is `k`, in the order of `s`. A sort is
      stable when it leaves this sequence unchanged for every `k`. */
  function WithScore(s: seq<Joke>, k: int): seq<Joke>
  {
    if s == [] then [] else (if s[0].score == k then [s[0]] else []) + WithScore(s[1..], k)
  }

  /** Places `x` before the first element it may precede; elements it
      skips have a score strictly before its own. */
  function Insert(x: Joke, t: seq<Joke>, descending: bool): (r: seq<Joke>)
    ensures multiset(r) == multiset(t) + multiset{x}
  {
    if t == [] || InOrder(x.score, t[0].score, descending) then [x] + t
    else
      assert t == [t[0]] + t[1..];
      [t[0]] + Insert(x, t[1..], descending)
  }

  /** Insertion sort by score; each element goes in front of the sorted
      rest, ahead of the equal scores that come after it in the input. */
  function SortByScore(s: seq<Joke>, descending: bool): (r: seq<Joke>)
    ensures multiset(r) == multiset(s)
    ensures |r| == |s|
  {
    if s == [] then []
    else
      assert s == [s[0]] + s[1..];
      Insert(s[0], SortByScore(s[1..], descending), descending)
  }

  lemma {:induction false} InsertOrdered(x: Joke, t: seq<Joke>, descending: bool)
    requires Ordered(t, descending)
    ensures Ordered(Insert(x, t, descending), descending)
    decreases |t|
  {
    if t == [] || InOrder(x.score, t[0].score, descending) {
    } else {
      var rest := Insert(x, t[1..], descending);
      InsertOrdered(x, t[1..], descending);
      forall j | 0 <= j < |rest|
        ensures InOrder(t[0].score, rest[j].score, descending)
      {
        assert rest[j] in multiset(rest);
        if rest[j] != x {
          assert rest[j] in multiset(t[1..]);
          var m :| 0 <= m < |t[1..]| && t[1..][m] == rest[j];
          assert t[m + 1] == rest[j];
        }
      }
      var r := [t[0]] + rest;
      forall i, j | 0 <= i < j < |r|
        ensures InOrder(r[i].score, r[j].score, descending)
      {
        if i > 0 {
          assert r[i] == rest[i - 1] && r[j] == rest[j - 1];
        } else {
          assert r[j] == rest[j - 1];
        }
      }
    }
  }

  /** The sort puts the scores in the requested direction. */
  lemma {:induction false} SortOrdered(s: seq<Joke>, descending: bool)
    ensures Ordered(SortByScore(s, descending), descending)
    decreases |s|
  {
    if s != [] {
      SortOrdered(s[1..], descending);
      InsertOrdered(s[0], SortByScore(s[1..], descending), descending);
    }
  }

  lemma WithScoreCons(x: Joke, t: seq<Joke>, k: int)
    ensures WithScore([x] + t, k) == (if x.score == k then [x] else []) + WithScore(t, k)
  {
    assert ([x] + t)[1..] == t;
  }

  lemma {:induction false} WithScoreInsert(x: Joke, t: seq<Joke>, descending: bool, k: int)
    ensures WithScore(Insert(x, t, descending), k)
         == (if x.score == k then [x] else []) + WithScore(t, k)
    decreases |t|
  {
    if t == [] || InOrder(x.score, t[0].score, descending) {
      WithScoreCons(x, t, k);
    } else {
      assert t[0].score != x.score;
      WithScoreInsert(x, t[1..], descending, k);
      WithScoreCons(t[0], Insert(x, t[1..], descending), k);
      WithScoreCons(t[0], t[1..], k);
      assert [t[0]] + t[1..] == t;
    }
  }

  /** Stability: for every score, the records with that score appear in the
      sorted output in exactly their input order. */
  lemma {:induction false} SortStable(s: seq<Joke>, descending: bool, k: int)
    ensures WithScore(SortByScore(s, descending), k) == WithScore(s, k)
    decreases |s|
  {
    if s != [] {
      SortStable(s[1..], descending, k);
      WithScoreInsert(s[0], SortByScore(s[1..], descending), descending, k);
    }
  }

  lemma WithScoreMember(s: seq<Joke>, k: int, x: Joke)
    requires x in WithScore(s, k)
    ensures x in s && x.score == k
    decreases |s|
  {
    if s != [] && x != s[0] {
      WithScoreMember(s[1..], k, x);
    }
  }

  lemma HeadHasItsScore(s: seq<Joke>)
    requires s != []
    ensures WithScore(s, s[0].score) != []
  {
  }

  lemma OrderedTail(s: seq<Joke>, descending: bool)
    requires s != [] && Ordered(s, descending)
    ensures Ordered(s[1..], descending)
  {
    forall i, j | 0 <= i < j < |s[1..]|
      ensures InOrder(s[1..][i].score, s[1..][j].score, descending)
    {
      assert s[1..][i] == s[i + 1] && s[1..][j] == s[j + 1];
    }
  }

  /** The head of an ordered sequence may precede any of its records. */
  lemma OrderedHead(s: seq<Joke>, descending: bool, x: Joke)
    requires Ordered(s, descending) && x in s
    ensures InOrder(s[0].score, x.score, descending)
  {
    var i :| 0 <= i < |s| && s[i] == x;
    if i > 0 {
      assert InOrder(s[0].score, s[i].score, descending);
    }
  }

  /** The stable sort is the only ordered arrangement that keeps every
      score's records in their input order: two ordered sequences with the
      same records per score are equal, so any stable sort (Python's
      Timsort included) returns what `SortByScore` returns. */
  lemma {:induction false} StableOrderUnique(a: seq<Joke>, b: seq<Joke>, descending: bool)
    requires Ordered(a, descending) && Ordered(b, descending)
    requires forall k :: WithScore(a, k) == WithScore(b, k)
    ensures a == b
    decreases |a|
  {
    if a == [] {
      if b != [] {
        HeadHasItsScore(b);
        assert false;
      }
    } else if b == [] {
      HeadHasItsScore(a);
      assert false;
    } else {
      var ka, kb := a[0].score, b[0].score;
      assert b[0] in WithScore(b, kb);
      WithScoreMember(a, kb, b[0]);
      OrderedHead(a, descending, b[0]);
      assert a[0] in WithScore(a, ka);
      WithScoreMember(b, ka, a[0]);
      OrderedHead(b, descending, a[0]);
      assert ka == kb;
      assert WithScore(a, ka) == [a[0]] + WithScore(a[1..], ka);
      assert WithScore(b, ka) == [b[0]] + WithScore(b[1..], ka);
      assert WithScore(a, ka) == WithScore(b, ka);
      assert WithScore(a, ka)[0] == a[0];
      assert a[0] == b[0];
      forall k
        ensures WithScore(a[1..], k) == WithScore(b[1..], k)
      {
        assert WithScore(a, k) == WithScore(b, k);
        if k == ka {
          assert WithScore(a, k) == [a[0]] + WithScore(a[1..], k);
          assert WithScore(b, k) == [a[0]] + WithScore(b[1..], k);
          assert WithScore(a[1..], k) == WithScore(a, k)[1..];
          assert WithScore(b[1..], k) == WithScore(b, k)[1..];
        } else {
          assert WithScore(a, k) == WithScore(a[1..], k);
          assert WithScore(b, k) == WithScore(b[1..], k);
        }
      }
      OrderedTail(a, descending);
      OrderedTail(b, descending);
      StableOrderUnique(a[1..], b[1..], descending);
      assert a == [a[0]] + a[1..] && b == [b[0]] + b[1..];
    }
  }

  /** A prefix keeps, for every score, a prefix of that score's records. */
  lemma {:induction false} WithScorePrefix(s: seq<Joke>, m: nat, k: int)
    requires m <= |s|
    ensures WithScore(s[..m], k) <= WithScore(s, k)
    decreases |s|
  {
    if m > 0 {
      WithScorePrefix(s[1..], m - 1, k);
      assert s[..m] == [s[0]] + s[1..][..m - 1];
      WithScoreCons(s[0], s[1..][..m - 1], k);
      WithScoreCons(s[0], s[1..], k);
      assert [s[0]] + s[1..] == s;
    }
  }
}
