/** The query layer of the `ha` package over an injected, read-only store:
    keyword search, keyword search with a score threshold, a random pick,
    the top records of a dataset, per-dataset counts, and every record
    sorted by score. */
module Ha {
  import opened Jokes
  import opened Text
  import opened ScoreSort

  /** What a keyword search keeps: the keyword, and for the score search
      the inclusive minimum score. */
  datatype Query = Query(keyword: string, minScore: Option<int>)

  /** The list-comprehension condition of the two searches. */
  predicate Admits(q: Query, j: Joke)
  {
    KeywordIn(q.keyword, j.body) && (q.minScore.Some? ==> j.score >= q.minScore.value)
  }

  /** The records of one dataset that a query keeps, in dataset order.
      Every kept record comes from the input and satisfies the query, and
      every record of the input that satisfies it is kept. */
  function Hits(jokes: seq<Joke>, q: Query): (r: seq<Joke>)
    ensures |r| <= |jokes|
    ensures forall j :: j in r ==> j in jokes && Admits(q, j)
    ensures forall j :: j in jokes && Admits(q, j) ==> j in r
  {
    if jokes == [] then []
    else (if Admits(q, jokes[0]) then [jokes[0]] else []) + Hits(jokes[1..], q)
  }

  /** `r` is `s` with some elements dropped and the rest in the same order. */
  ghost predicate IsSubsequence(r: seq<Joke>, s: seq<Joke>)
    decreases |s|
  {
    if r == [] then true
    else if s == [] then false
    else (r[0] == s[0] && IsSubsequence(r[1..], s[1..])) || IsSubsequence(r, s[1..])
  }

  /** The search keeps its hits in dataset order. */
  lemma {:induction false} HitsInOrder(jokes: seq<Joke>, q: Query)
    ensures IsSubsequence(Hits(jokes, q), jokes)
    decreases |jokes|
  {
    if jokes != [] {
      HitsInOrder(jokes[1..], q);
      var r := Hits(jokes, q);
      if Admits(q, jokes[0]) {
        assert r == [jokes[0]] + Hits(jokes[1..], q);
        assert r[0] == jokes[0] && r[1..] == Hits(jokes[1..], q);
      } else {
        assert r == Hits(jokes[1..], q);
      }
    }
  }

  /** A dataset has hits exactly when one of its records satisfies the query. */
  lemma HitsNonEmpty(jokes: seq<Joke>, q: Query)
    ensures Hits(jokes, q) != [] <==> exists j :: j in jokes && Admits(q, j)
  {
    if Hits(jokes, q) != [] {
      assert Hits(jokes, q)[0] in Hits(jokes, q);
    }
  }

  /** The search keeps each matching record as often as the dataset holds
      it and drops every other record. */
  lemma {:induction false} HitsMultiplicity(jokes: seq<Joke>, q: Query, j: Joke)
    ensures multiset(Hits(jokes, q))[j] == if Admits(q, j) then multiset(jokes)[j] else 0
    decreases |jokes|
  {
    if jokes != [] {
      HitsMultiplicity(jokes[1..], q, j);
      assert jokes == [jokes[0]] + jokes[1..];
    }
  }

  /** The score search is the keyword search with `score >= minScore` added:
      filtering the keyword hits by the score query gives the score hits,
      and those are an order-preserving subsequence of the keyword hits. */
  lemma {:induction false} ScoreHitsRefineHits(jokes: seq<Joke>, keyword: string, minScore: int)
    ensures Hits(Hits(jokes, Query(keyword, None)), Query(keyword, Some(minScore)))
         == Hits(jokes, Query(keyword, Some(minScore)))
    ensures IsSubsequence(Hits(jokes, Query(keyword, Some(minScore))), Hits(jokes, Query(keyword, None)))
    decreases |jokes|
  {
    var all, some := Query(keyword, None), Query(keyword, Some(minScore));
    if jokes != [] {
      ScoreHitsRefineHits(jokes[1..], keyword, minScore);
      var x, hsAll, hsSome := jokes[0], Hits(jokes[1..], all), Hits(jokes[1..], some);
      if Admits(all, x) {
        assert Hits(jokes, all) == [x] + hsAll;
        assert ([x] + hsAll)[1..] == hsAll;
        assert Hits([x] + hsAll, some) == (if Admits(some, x) then [x] else []) + Hits(hsAll, some);
        if Admits(some, x) {
          assert Hits(jokes, some) == [x] + hsSome;
          assert Hits(jokes, some)[0] == Hits(jokes, all)[0];
          assert Hits(jokes, some)[1..] == hsSome;
        } else {
          assert Hits(jokes, some) == hsSome;
        }
      } else {
        assert !Admits(some, x);
        assert Hits(jokes, all) == hsAll;
        assert Hits(jokes, some) == hsSome;
      }
    }
  }

  /** The dataset names a search visits: the given list, or every key of
      the store in its iteration order when none is given. */
  function Requested(store: Store, datasets: Option<seq<string>>): seq<string>
  {
    if datasets.Some? then datasets.value else store.names
  }

  /** The loop shared by both searches: for each name, skip it when the
      store lacks it, else keep the dataset's hits when there are any. */
  method SearchIn(store: Store, names: seq<string>, q: Query) returns (result: map<string, seq<Joke>>)
    ensures forall n :: n in result <==> n in names && n in store.data && Hits(store.data[n], q) != []
    ensures forall n :: n in result ==> result[n] == Hits(store.data[n], q)
  {
    result := map[];
    var i := 0;
    while i < |names|
      invariant 0 <= i <= |names|
      invariant forall n :: n in result <==> n in names[..i] && n in store.data && Hits(store.data[n], q) != []
      invariant forall n :: n in result ==> result[n] == Hits(store.data[n], q)
    {
      var name := names[i];
      if name in store.data {
        var filtered := Hits(store.data[name], q);
        if filtered != [] {
          result := result[name := filtered];
        }
      }
      assert names[..i + 1] == names[..i] + [name];
      i := i + 1;
    }
    assert names[..i] == names;
  }

  /** `search_jokes`: for each requested dataset the store knows, the records
      whose lower-cased body contains the lower-cased keyword, in dataset
      order; unknown names and datasets without a hit are left out. */
  method SearchJokes(store: Store, keyword: string, datasets: Option<seq<string>> := None)
    returns (result: map<string, seq<Joke>>)
    ensures forall n :: n in result <==>
      n in Requested(store, datasets) && n in store.data && Hits(store.data[n], Query(keyword, None)) != []
    ensures forall n :: n in result ==> result[n] == Hits(store.data[n], Query(keyword, None))
    ensures forall n, j :: n in result && j in result[n] ==> j in store.data[n] && KeywordIn(keyword, j.body)
    ensures datasets.None? && store.Valid() ==> forall n :: n in store.data ==>
      (n in result <==> exists j :: j in store.data[n] && KeywordIn(keyword, j.body))
  {
    var q := Query(keyword, None);
    result := SearchIn(store, Requested(store, datasets), q);
    forall n | n in store.data
      ensures Hits(store.data[n], q) != [] <==> exists j :: j in store.data[n] && KeywordIn(keyword, j.body)
    {
      HitsNonEmpty(store.data[n], q);
    }
  }

  /** `search_jokes_by_score`: as `SearchJokes`, keeping only records whose
      score is at least `minScore`. */
  method SearchJokesByScore(store: Store, keyword: string, minScore: int, datasets: Option<seq<string>> := None)
    returns (result: map<string, seq<Joke>>)
    ensures forall n :: n in result <==>
      n in Requested(store, datasets) && n in store.data && Hits(store.data[n], Query(keyword, Some(minScore))) != []
    ensures forall n :: n in result ==> result[n] == Hits(store.data[n], Query(keyword, Some(minScore)))
    ensures forall n, j :: n in result && j in result[n] ==>
      j in store.data[n] && KeywordIn(keyword, j.body) && j.score >= minScore
    ensures datasets.None? && store.Valid() ==> forall n :: n in store.data ==>
      (n in result <==> exists j :: j in store.data[n] && KeywordIn(keyword, j.body) && j.score >= minScore)
  {
    var q := Query(keyword, Some(minScore));
    result := SearchIn(store, Requested(store, datasets), q);
    forall n | n in store.data
      ensures Hits(store.data[n], q) != [] <==>
        exists j :: j in store.data[n] && KeywordIn(keyword, j.body) && j.score >= minScore
    {
      HitsNonEmpty(store.data[n], q);
    }
  }

  /** `random_joke_from_dataset`: an unknown name is an error, an empty
      dataset is the error `random.choice` raises, and otherwise the pick is
      some record of that dataset (which one is left open). */
  method RandomJokeFromDataset(store: Store, name: string) returns (r: Result<Joke>)
    ensures name !in store.data ==> r == Err(NoDataset(name))
    ensures name in store.data && store.data[name] == [] ==> r == Err(EmptyDataset(name))
    ensures r.Ok? <==> name in store.data && store.data[name] != []
    ensures r.Ok? ==> r.value in store.data[name]
  {
    if name in store.data {
      var jokes := store.data[name];
      if jokes == [] {
        r := Err(EmptyDataset(name));
      } else {
        var i :| 0 <= i < |jokes|;
        r := Ok(jokes[i]);
      }
    } else {
      r := Err(NoDataset(name));
    }
  }

  function Min(a: int, b: int): int
  {
    if a <= b then a else b
  }

  /** `top_jokes_from_dataset`: an unknown name is an error; otherwise the
      first `topN` records of the dataset sorted by descending score, or
      all of them when there are fewer. */
  function TopJokesFromDataset(store: Store, name: string, topN: nat := 10): (r: Result<seq<Joke>>)
    ensures r.Err? <==> name !in store.data
    ensures r.Err? ==> r.error == NoDataset(name)
    ensures r.Ok? ==> |r.value| == Min(topN, |store.data[name]|)
    ensures r.Ok? ==> r.value <= SortByScore(store.data[name], true)
  {
    if name in store.data then
      var sorted := SortByScore(store.data[name], true);
      Ok(sorted[..Min(topN, |sorted|)])
    else
      Err(NoDataset(name))
  }

  /** The top records come in non-increasing score order. */
  lemma TopJokesDescending(store: Store, name: string, topN: nat)
    requires name in store.data
    ensures Ordered(TopJokesFromDataset(store, name, topN).value, true)
  {
    SortOrdered(store.data[name], true);
  }

  /** Ties among the top records keep the dataset's order: for each score,
      the top records with that score are the first ones of the dataset's
      records with that score. */
  lemma TopJokesStable(store: Store, name: string, topN: nat, k: int)
    requires name in store.data
    ensures WithScore(TopJokesFromDataset(store, name, topN).value, k) <= WithScore(store.data[name], k)
  {
    var sorted := SortByScore(store.data[name], true);
    WithScorePrefix(sorted, Min(topN, |sorted|), k);
    SortStable(store.data[name], true, k);
  }

  /** The top records are the highest ones: they are records of the
      dataset, and no record left out scores higher than any kept one. */
  lemma TopJokesAreHighest(store: Store, name: string, topN: nat)
    requires name in store.data
    ensures multiset(TopJokesFromDataset(store, name, topN).value) <= multiset(store.data[name])
    ensures forall x, y ::
      (x in TopJokesFromDataset(store, name, topN).value &&
       y in multiset(store.data[name]) - multiset(TopJokesFromDataset(store, name, topN).value))
      ==> x.score >= y.score
  {
    var sorted := SortByScore(store.data[name], true);
    var m := Min(topN, |sorted|);
    var top, rest := sorted[..m], sorted[m..];
    assert sorted == top + rest;
    assert multiset(store.data[name]) == multiset(top) + multiset(rest);
    SortOrdered(store.data[name], true);
    forall x, y | x in top && y in multiset(store.data[name]) - multiset(top)
      ensures x.score >= y.score
    {
      assert y in rest;
      var i :| 0 <= i < |top| && top[i] == x;
      var j :| 0 <= j < |rest| && rest[j] == y;
      assert sorted[i] == x && sorted[m + j] == y;
    }
  }

  /** `joke_count_by_dataset`: every dataset of the store, empty ones
      included, with its number of records. */
  function JokeCountByDataset(store: Store): (r: map<string, nat>)
    ensures r.Keys == store.data.Keys
    ensures forall n :: n in r ==> r[n] == |store.data[n]|
    ensures forall n :: n in store.data && store.data[n] == [] ==> n in r && r[n] == 0
  {
    map n | n in store.data :: |store.data[n]|
  }

  /** The datasets named in `names`, concatenated in that order: the
      `extend` loop of `all_jokes_sorted_by_score`. */
  function Concatenation(names: seq<string>, data: map<string, seq<Joke>>): seq<Joke>
    requires forall n :: n in names ==> n in data
  {
    if names == [] then []
    else Concatenation(names[..|names| - 1], data) + data[names[|names| - 1]]
  }

  /** The sum of the counts of the datasets named in `names`. */
  function SumCounts(names: seq<string>, counts: map<string, nat>): nat
    requires forall n :: n in names ==> n in counts
  {
    if names == [] then 0
    else SumCounts(names[..|names| - 1], counts) + counts[names[|names| - 1]]
  }

  /** The concatenation is as long as the counts add up to. */
  lemma {:induction false} ConcatenationLength(store: Store, names: seq<string>)
    requires forall n :: n in names ==> n in store.data
    ensures |Concatenation(names, store.data)| == SumCounts(names, JokeCountByDataset(store))
    decreases |names|
  {
    if names != [] {
      var init := names[..|names| - 1];
      assert forall n :: n in init ==> n in names;
      ConcatenationLength(store, init);
    }
  }

  /** A record is in the concatenation exactly when one of the named
      datasets holds it. */
  lemma {:induction false} ConcatenationMembers(names: seq<string>, data: map<string, seq<Joke>>, j: Joke)
    requires forall n :: n in names ==> n in data
    ensures j in Concatenation(names, data) <==> exists n :: n in names && j in data[n]
    decreases |names|
  {
    if names != [] {
      var init, last := names[..|names| - 1], names[|names| - 1];
      assert forall n :: n in init ==> n in names;
      ConcatenationMembers(init, data, j);
      assert names == init + [last];
      if exists n :: n in names && j in data[n] {
        var n :| n in names && j in data[n];
        if n != last {
          assert n in init;
        }
      }
    }
  }

  /** `all_jokes_sorted_by_score`: every record of every dataset, the
      datasets concatenated in the store's order, stably sorted by score,
      highest first when `descending` holds. */
  method AllJokesSortedByScore(store: Store, descending: bool := true) returns (r: seq<Joke>)
    requires store.Valid()
    ensures r == SortByScore(Concatenation(store.names, store.data), descending)
    ensures multiset(r) == multiset(Concatenation(store.names, store.data))
    ensures |r| == SumCounts(store.names, JokeCountByDataset(store))
    ensures forall j :: j in r <==> exists n :: n in store.data && j in store.data[n]
    ensures Ordered(r, descending)
    ensures forall k :: WithScore(r, k) == WithScore(Concatenation(store.names, store.data), k)
  {
    var all: seq<Joke> := [];
    var i := 0;
    while i < |store.names|
      invariant 0 <= i <= |store.names|
      invariant all == Concatenation(store.names[..i], store.data)
    {
      assert store.names[..i + 1][..i] == store.names[..i];
      all := all + store.data[store.names[i]];
      i := i + 1;
    }
    assert store.names[..i] == store.names;
    r := SortByScore(all, descending);
    ConcatenationLength(store, store.names);
    SortOrdered(all, descending);
    forall k
      ensures WithScore(r, k) == WithScore(all, k)
    {
      SortStable(all, descending, k);
    }
    forall j
      ensures j in r <==> exists n :: n in store.data && j in store.data[n]
    {
      ConcatenationMembers(store.names, store.data, j);
      assert j in r <==> j in multiset(all);
    }
  }

  /** "chicken" occurs, in another case, in the first example body. */
  lemma ExampleMatch()
    ensures KeywordIn("chicken", "Why did the Chicken cross")
  {
    var up, hay := "Why did the Chicken cross", "why did the chicken cross";
    forall i | 0 <= i < |up|
      ensures Lower(up)[i] == hay[i]
    {
      if i == 0 || i == 12 {
        assert LowerChar(up[i]) == hay[i];
      } else {
        assert up[i] == hay[i] && !('A' <= up[i] <= 'Z');
      }
    }
    assert Lower(up) == hay;
    assert Lower("chicken") == "chicken";
    assert hay[12..19] == "chicken";
    assert OccursAt(hay, "chicken", 12);
    ContainsIffOccurs(hay, "chicken");
  }

  /** "chicken" does not occur in the second example body. */
  lemma ExampleMiss()
    ensures !KeywordIn("chicken", "no joke here")
  {
    var miss := "no joke here";
    assert Lower(miss) == miss;
    assert Lower("chicken") == "chicken";
    forall i | 0 <= i && i + 7 <= |miss|
      ensures !OccursAt(miss, "chicken", i)
    {
      assert miss[i..i + 7][0] == miss[i] != 'c';
    }
    ContainsIffOccurs(miss, "chicken");
  }

  /** A two-record store whose first record matches "chicken" with score 1
      and whose second does not match, with score 5 (the bodies of
      `ExampleMatch` and `ExampleMiss` are such records): the keyword finds the first
      record only, the threshold 2 drops it, the top record is the second,
      the default of ten takes both in descending order, the count is 2,
      and an unknown name is an error. */
  lemma TwoRecordExample(a: Joke, b: Joke)
    requires a.score == 1 && KeywordIn("chicken", a.body)
    requires b.score == 5 && !KeywordIn("chicken", b.body)
    ensures var store := Store(["reddit_jokes"], map["reddit_jokes" := [a, b]]);
            && Hits([a, b], Query("chicken", None)) == [a]
            && Hits([a, b], Query("chicken", Some(2))) == []
            && TopJokesFromDataset(store, "reddit_jokes", 1) == Ok([b])
            && TopJokesFromDataset(store, "reddit_jokes") == Ok([b, a])
            && TopJokesFromDataset(store, "missing") == Err(NoDataset("missing"))
            && JokeCountByDataset(store) == map["reddit_jokes" := 2]
  {
    var store := Store(["reddit_jokes"], map["reddit_jokes" := [a, b]]);
    assert [a, b][1..] == [b] && [b][1..] == [] && [b, a][1..] == [a];
    assert Hits([b], Query("chicken", None)) == [];
    assert Hits([a, b], Query("chicken", None)) == [a];
    assert Hits([a, b], Query("chicken", Some(2))) == [];
    assert SortByScore([b], true) == [b];
    assert SortByScore([a, b], true) == [b, a];
    assert [b, a][..Min(10, 2)] == [b, a];
    assert JokeCountByDataset(store) == map["reddit_jokes" := 2];
  }
}
