// The consolidation step every fetcher ends with: split the visited services into the
// ones that produced a record and the ones that failed, then sort the records by
// service id and write the dataset.
module Consolidation {
  import opened Wrappers
  import opened Lists
  import Text

  /** The consolidated JSON document: `services`, `totalServices`, `failedServices`, `lastUpdated`. */
  datatype Dataset<S> = Dataset(services: seq<S>, totalServices: nat, failedServices: seq<string>, lastUpdated: string)

  /**
   * Every visited service lands in exactly one of the two lists: the ids of the records
   * and the failed ids together are the visited ids, each as often as it was visited.
   */
  lemma {:induction false} PartitionCovers<T, S>(
    outcome: T -> Option<S>, failure: T -> Option<string>, id: T -> string, key: S -> string, visited: seq<T>)
    requires forall x :: outcome(x).Some? ==> key(outcome(x).value) == id(x)
    requires forall x :: failure(x) == if outcome(x).None? then Some(id(x)) else None
    ensures multiset(Map(key, Pick(outcome, visited))) + multiset(Pick(failure, visited))
         == multiset(Map(id, visited))
    decreases |visited|
  {
    if visited != [] {
      var init, x := visited[..|visited| - 1], visited[|visited| - 1];
      PartitionCovers(outcome, failure, id, key, init);
      var done, failed := Pick(outcome, init), Pick(failure, init);
      assert visited == init + [x];
      MapAppend(id, init, [x]);
      if outcome(x).Some? {
        assert Pick(outcome, visited) == done + [outcome(x).value];
        assert Pick(failure, visited) == failed;
        MapAppend(key, done, [outcome(x).value]);
      } else {
        assert Pick(outcome, visited) == done;
        assert Pick(failure, visited) == failed + [id(x)];
      }
    }
  }

  /** `xs` is in ascending order of `key` under Python's string comparison. */
  predicate SortedBy<S>(xs: seq<S>, key: S -> string) {
    forall i, j :: 0 <= i < j < |xs| ==> Text.LessEq(key(xs[i]), key(xs[j]))
  }

  /** Stable insertion: `x` goes after every element whose key is not greater than its own. */
  function Insert<S>(sorted: seq<S>, x: S, key: S -> string): (r: seq<S>)
    requires SortedBy(sorted, key)
    ensures SortedBy(r, key)
    ensures multiset(r) == multiset(sorted) + multiset{x}
  {
    if sorted == [] then [x]
    else if !Text.LessEq(key(sorted[0]), key(x)) then
      InsertFront(sorted, x, key);
      [x] + sorted
    else
      var rest := Insert(sorted[1..], x, key);
      InsertBehind(sorted, x, key, rest);
      assert sorted == [sorted[0]] + sorted[1..];
      [sorted[0]] + rest
  }

  lemma InsertFront<S>(sorted: seq<S>, x: S, key: S -> string)
    requires SortedBy(sorted, key) && sorted != [] && !Text.LessEq(key(sorted[0]), key(x))
    ensures SortedBy([x] + sorted, key)
  {
    Text.LessEqTotal(key(sorted[0]), key(x));
    forall j | 0 < j < |sorted|
      ensures Text.LessEq(key(x), key(sorted[j]))
    {
      Text.LessEqTransitive(key(x), key(sorted[0]), key(sorted[j]));
    }
  }

  lemma InsertBehind<S>(sorted: seq<S>, x: S, key: S -> string, rest: seq<S>)
    requires SortedBy(sorted, key) && sorted != [] && Text.LessEq(key(sorted[0]), key(x))
    requires SortedBy(rest, key) && multiset(rest) == multiset(sorted[1..]) + multiset{x}
    ensures SortedBy([sorted[0]] + rest, key)
  {
    forall j | 0 <= j < |rest|
      ensures Text.LessEq(key(sorted[0]), key(rest[j]))
    {
      assert rest[j] in multiset(rest);
      if rest[j] != x {
        assert rest[j] in multiset(sorted[1..]);
        var m :| 0 <= m < |sorted[1..]| && sorted[1..][m] == rest[j];
        assert sorted[m + 1] == rest[j];
      }
    }
  }

  /** The scripts' in-place sort of the records by their service id: ascending, and a reordering of the input. */
  function SortBy<S>(xs: seq<S>, key: S -> string): (r: seq<S>)
    ensures SortedBy(r, key)
    ensures multiset(r) == multiset(xs)
  {
    if xs == [] then []
    else
      var init := xs[..|xs| - 1];
      assert xs == init + [xs[|xs| - 1]];
      Insert(SortBy(init, key), xs[|xs| - 1], key)
  }

  /** The document `json.dump` writes: `totalServices` is the number of records written. */
  function Consolidate<S>(all: seq<S>, failed: seq<string>, key: S -> string, lastUpdated: string): (d: Dataset<S>)
    ensures SortedBy(d.services, key)
    ensures multiset(d.services) == multiset(all)
    ensures d.totalServices == |d.services| && d.failedServices == failed
    ensures d.lastUpdated == lastUpdated
  {
    var sorted := SortBy(all, key);
    assert |sorted| == |multiset(sorted)| == |multiset(all)| == |all|;
    Dataset(sorted, |all|, failed, lastUpdated)
  }
}
