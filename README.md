# ha: joke query layer

A Dafny model of the query functions of the `ha` package: keyword search
over named joke datasets, the same search with a minimum score, a random
pick from one dataset, the top records of a dataset by score, the number of
records per dataset, and every record of every dataset sorted by score.

The datasets are not a module global here. They come in as a `Store`
value (`jokes.dfy`): a map from dataset name to its ordered list of records,
plus `names`, the dictionary's iteration order. `Store.Valid()` says that
`names` lists each key exactly once. Each record is a `Joke` with `id`,
`title`, `body` and an integer `score`. Errors are values of `Result`:
`NoDataset(name)` is the `ValueError` for an unknown name, and
`EmptyDataset(name)` is the `IndexError` that `random.choice` raises on an
empty list.

Layout:

- `jokes.dfy` (module `Jokes`): records, the store, errors, `Option` and `Result`.
  `Message` gives the text each error carries: the `ValueError` text of
  ha/__init__.py:57 with the dataset name, and the `IndexError` text of
  `random.choice`. It has no contract and is not part of the model table.
- `text.dfy` (module `Text`): `str.lower()` on ASCII letters and Python's
  substring test `needle in hay`. `KeywordIn` is the search condition
  `keyword.lower() in body.lower()`.
- `score_sort.dfy` (module `ScoreSort`): `sorted(..., key=score, reverse=...)`
  as a stable insertion sort. It is proved ordered, a permutation and stable.
  It is also proved to be the only ordered arrangement that keeps every
  score's records in input order, so it returns what Python's Timsort returns.
- `ha.dfy` (module `Ha`): the six operations and their properties.

Flavour follows the source:

- The two searches loop over dataset names and insert into a result
  dictionary. They are methods over the loop `SearchIn`.
- `all_jokes_sorted_by_score` grows a list with `extend` in a loop. It is a
  method with that loop.
- The list comprehension filter (`Hits`), `top_jokes_from_dataset` and
  `joke_count_by_dataset` are functions.
- `random_joke_from_dataset` makes a nondeterministic choice (`:|`).

Default arguments are kept: `datasets := None`, `topN := 10` and
`descending := true` (the source's `reverse=True`).

## Model

| member | source | states |
|---|---|---|
| `Text.ContainsIffOccurs` | ha/__init__.py:33 | the substring test holds exactly when the keyword occurs at some index of the body (both directions) |
| `Text.KeywordInIff` | ha/__init__.py:33 | the search condition holds exactly when the lower-cased keyword occurs at some index of the lower-cased body |
| `Text.KeywordInIgnoresCase` | ha/__init__.py:119 | lower-casing the keyword or the body beforehand does not change whether a record matches |
| `Text.LowerIdempotent` | ha/__init__.py:33 | lower-casing an already lower-cased string changes nothing |
| `Text.EmptyKeywordMatches` | ha/__init__.py:33 | the empty keyword matches every body, as `'' in s` is true |
| `ScoreSort.SortByScore` | ha/__init__.py:75 | the sort result is a permutation of its input with the same length |
| `ScoreSort.SortOrdered` | ha/__init__.py:144 | the sort result never goes against the requested direction: non-increasing scores for `reverse=True`, non-decreasing otherwise |
| `ScoreSort.SortStable` | ha/__init__.py:144 | for every score, the records with that score come out in their input order, in both directions |
| `ScoreSort.StableOrderUnique` | ha/__init__.py:75 | two ordered sequences that hold the same records, in the same order, for every score are equal, so any stable sort by score gives this result |
| `ScoreSort.WithScorePrefix` | ha/__init__.py:76 | cutting a prefix keeps, for each score, a prefix of that score's records |
| `Ha.Hits` | ha/__init__.py:33 | every kept record is in the dataset and matches the query; every matching record of the dataset is kept; no more records than the dataset |
| `Ha.HitsInOrder` | ha/__init__.py:33 | the kept records are a subsequence of the dataset, in its order |
| `Ha.HitsMultiplicity` | ha/__init__.py:33 | each matching record is kept as many times as the dataset holds it; a non-matching record is never kept |
| `Ha.HitsNonEmpty` | ha/__init__.py:34 | a dataset has hits exactly when one of its records matches the query |
| `Ha.ScoreHitsRefineHits` | ha/__init__.py:119 | the score search's hits are the keyword hits filtered again by the score query, and are a subsequence of the keyword hits |
| `Ha.SearchIn` | ha/__init__.py:29-35 | a name is a result key exactly when it was requested, is in the store and has a hit; its value is that dataset's hits |
| `Ha.SearchJokes` | ha/__init__.py:11-37 | keys are requested known names with at least one hit; unknown names are skipped; each value is that dataset's keyword hits; with no list of names every dataset with a match is a key |
| `Ha.SearchJokesByScore` | ha/__init__.py:96-123 | as `SearchJokes` with `score >= minScore` added to the condition, including the no-list case |
| `Ha.RandomJokeFromDataset` | ha/__init__.py:53-57 | an unknown name gives `NoDataset`; an empty dataset gives `EmptyDataset`; otherwise the result is a record of that dataset |
| `Ha.TopJokesFromDataset` | ha/__init__.py:74-78 | an unknown name gives `NoDataset`; otherwise the result has length `min(topN, size)` and is a prefix of the descending stable sort of the dataset |
| `Ha.TopJokesDescending` | ha/__init__.py:75-76 | the top records have non-increasing scores |
| `Ha.TopJokesStable` | ha/__init__.py:75-76 | for each score, the top records with that score are the first of the dataset's records with that score, in dataset order |
| `Ha.TopJokesAreHighest` | ha/__init__.py:59-78 | the top records are drawn from the dataset, and no record left out scores higher than a kept one |
| `Ha.JokeCountByDataset` | ha/__init__.py:94 | the keys are exactly the store's datasets, empty ones included with count 0, and each count is that dataset's length |
| `Ha.ConcatenationLength` | ha/__init__.py:141-143 | the concatenated datasets are as long as the sum of their counts from `JokeCountByDataset` |
| `Ha.ConcatenationMembers` | ha/__init__.py:141-143 | a record is in the concatenation exactly when one of the named datasets holds it |
| `Ha.AllJokesSortedByScore` | ha/__init__.py:125-144 | the result is a permutation of all datasets concatenated in store order; its length is the sum of the counts; it holds exactly the records of the store; it follows the requested direction; records with equal scores keep their concatenation order |
| `Ha.ExampleMatch` | ha/__init__.py:23-24 | "chicken" matches the body "Why did the Chicken cross", whatever the case |
| `Ha.ExampleMiss` | ha/__init__.py:33 | "chicken" does not match the body "no joke here" |
| `Ha.TwoRecordExample` | ha/__init__.py:33-94 | on a two-record store: the keyword filter, the score filter, `top_jokes` with 1 and with the default 10, `top_jokes` on an unknown name, and the count give the expected values |

## Left out

- `from ha.vendors import *`: optional joke-generation tools that depend on what is installed. They are not part of this model.
- Loading `joke_datasets` and `all_jokes_store` from `ha.dataset`: the store is a parameter instead, and it stays unchanged.
- Ha.RandomJokeFromDataset: the choice is nondeterministic. It promises membership only, not a uniform distribution.
- `str.lower()` is ASCII case folding here. Full Unicode lower-casing is not modelled.
- Ha.TopJokesFromDataset: `topN` is a `nat`. Negative `top_n`, which Python slicing counts from the end, is not modelled.
- Python dictionary iteration order is `Store.names`. The concatenation order of `all_jokes_sorted_by_score` follows it.
- The key order of the returned dictionaries is not modelled: Dafny maps have no order. This loses the order in which the two searches first insert each name, and the store order of `joke_count_by_dataset`'s keys.
- Records without a `body` or `score` key (a `KeyError`), non-integer scores and a `None` keyword are not modelled: records are typed values.
- Timsort itself is not modelled. Insertion sort stands in, and `ScoreSort.StableOrderUnique` shows that every stable sort by score gives the same result.
- The two searches share one loop, `SearchIn`. The source writes that loop twice, differing only in the filter condition.
- Returned lists are values. The source's lists share the record objects with the store (aliasing), and that is not modelled.
- No `InvalidArgument` error for a missing keyword or a negative count: the code has no such guards, and the model follows the code. An empty dataset in the random pick is the code's `IndexError`, modelled as `EmptyDataset`.
