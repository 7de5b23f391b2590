/** The data model of the joke collection: records, the store of named
    datasets, and the errors the query layer raises. */
module Jokes {

  datatype Option<T> = None | Some(value: T)

  /** One joke record: the `id`, `title`, `body` and `score` keys of a record. */
  datatype Joke = Joke(id: string, title: string, body: string, score: int)

  /** The exceptions the query layer raises: the `ValueError` for an unknown
      dataset name, and the `IndexError` that `random.choice` raises on an
      empty list. */
  datatype Error = NoDataset(name: string) | EmptyDataset(name: string)

  datatype Result<T> = Ok(value: T) | Err(error: Error)

  /** The text each error carries. */
  function Message(e: Error): string
  {
    match e
    case NoDataset(n) => "No dataset found with the name " + n
    case EmptyDataset(_) => "Cannot choose from an empty sequence"
  }

  /** The collection of datasets: a dictionary from dataset name to its
      ordered list of records, with `names` giving the dictionary's
      iteration order. */
  datatype Store = Store(names: seq<string>, data: map<string, seq<Joke>>)
  {
    /** The names are the dictionary's keys, each listed once. */
    ghost predicate Valid()
    {
      && (forall i, j :: 0 <= i < j < |names| ==> names[i] != names[j])
      && (forall n :: n in data <==> n in names)
    }
  }
}
