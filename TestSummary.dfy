/**
 * `OOPTestSummary`: the map from test name to result that a run produced,
 * and the number of results of each kind. The map is a `LinkedHashMap`,
 * modelled as its entries in insertion order.
 */
module TestSummary {
  import opened Wrappers
  import opened TestResults

  type Entry = (string, TestResult)

  function Keys(entries: seq<Entry>): (ks: seq<string>)
    ensures |ks| == |entries|
    ensures forall i :: 0 <= i < |entries| ==> ks[i] == entries[i].0
  {
    if entries == [] then [] else [entries[0].0] + Keys(entries[1..])
  }

  predicate DistinctKeys(entries: seq<Entry>)
  {
    forall i, j :: 0 <= i < j < |entries| ==> entries[i].0 != entries[j].0
  }

  /** `get`: the value stored under `k`, if any. */
  function Lookup(entries: seq<Entry>, k: string): (v: Option<TestResult>)
    ensures v.None? <==> k !in Keys(entries)
    ensures v.Some? ==> (k, v.value) in entries
  {
    if entries == [] then None
    else if entries[0].0 == k then Some(entries[0].1)
    else Lookup(entries[1..], k)
  }

  /**
   * `LinkedHashMap.put`: an existing key keeps its place and gets the new
   * value; a new key goes at the end.
   */
  function Put(entries: seq<Entry>, k: string, v: TestResult): (r: seq<Entry>)
    ensures Keys(r) == if k in Keys(entries) then Keys(entries) else Keys(entries) + [k]
    ensures Lookup(r, k) == Some(v)
    ensures forall k' :: k' != k ==> Lookup(r, k') == Lookup(entries, k')
  {
    if entries == [] then [(k, v)]
    else if entries[0].0 == k then
      Split(entries);
      Split([(k, v)] + entries[1..]);
      [(k, v)] + entries[1..]
    else
      var tail := Put(entries[1..], k, v);
      PutCons(entries, k, v, tail);
      [entries[0]] + tail
  }

  /** `r` is what `put(k, v)` leaves of the map `entries`. */
  ghost predicate PutOf(entries: seq<Entry>, k: string, v: TestResult, r: seq<Entry>)
  {
    && Keys(r) == (if k in Keys(entries) then Keys(entries) else Keys(entries) + [k])
    && Lookup(r, k) == Some(v)
    && forall k' :: k' != k ==> Lookup(r, k') == Lookup(entries, k')
  }

  /** A non-empty map is its first entry followed by the rest. */
  lemma Split(entries: seq<Entry>)
    requires entries != []
    ensures Keys(entries) == [entries[0].0] + Keys(entries[1..])
    ensures forall k :: Lookup(entries, k) == if entries[0].0 == k then Some(entries[0].1) else Lookup(entries[1..], k)
  {
  }

  /** Putting past the first entry keeps that entry in front. */
  lemma PutCons(entries: seq<Entry>, k: string, v: TestResult, tail: seq<Entry>)
    requires entries != [] && entries[0].0 != k
    requires PutOf(entries[1..], k, v, tail)
    ensures PutOf(entries, k, v, [entries[0]] + tail)
  {
    var r := [entries[0]] + tail;
    Split(entries);
    Split(r);
    assert r[1..] == tail;
    assert k in Keys(entries) <==> k in Keys(entries[1..]);
  }

  /** A key not yet present is appended at the end. */
  lemma {:induction false} PutNew(entries: seq<Entry>, k: string, v: TestResult)
    requires k !in Keys(entries)
    ensures Put(entries, k, v) == entries + [(k, v)]
  {
    if entries != [] {
      assert k !in Keys(entries[1..]);
      PutNew(entries[1..], k, v);
      assert entries == [entries[0]] + entries[1..];
    }
  }

  /** The summary keeps the map it was built from. */
  datatype Summary = Summary(results: seq<Entry>)

  /** `getNumOOPTestResult`: how many stored results have kind `k`. */
  function Count(entries: seq<Entry>, k: ResultKind): (n: nat)
    ensures n <= |entries|
  {
    if entries == [] then 0
    else (if entries[0].1.kind == k then 1 else 0) + Count(entries[1..], k)
  }

  function NumSuccesses(s: Summary): nat { Count(s.results, SUCCESS) }
  function NumFailures(s: Summary): nat { Count(s.results, FAILURE) }
  function NumExceptionMismatches(s: Summary): nat { Count(s.results, EXPECTED_EXCEPTION_MISMATCH) }
  function NumErrors(s: Summary): nat { Count(s.results, ERROR) }

  /** Some stored result has kind `k` exactly when the count of `k` is positive. */
  lemma {:induction false} CountPositive(entries: seq<Entry>, k: ResultKind)
    ensures Count(entries, k) > 0 <==> exists i :: 0 <= i < |entries| && entries[i].1.kind == k
  {
    if entries != [] {
      CountPositive(entries[1..], k);
      if Count(entries[1..], k) > 0 {
        var i :| 0 <= i < |entries[1..]| && entries[1..][i].1.kind == k;
        assert entries[i + 1].1.kind == k;
      }
      if exists i :: 0 <= i < |entries| && entries[i].1.kind == k {
        var i :| 0 <= i < |entries| && entries[i].1.kind == k;
        if i > 0 {
          assert entries[1..][i - 1].1.kind == k;
        }
      }
    }
  }

  /** The count of `k` is the whole size exactly when every stored result has kind `k`. */
  lemma {:induction false} CountAll(entries: seq<Entry>, k: ResultKind)
    ensures Count(entries, k) == |entries| <==> forall i :: 0 <= i < |entries| ==> entries[i].1.kind == k
  {
    if entries != [] {
      CountAll(entries[1..], k);
      if forall i :: 0 <= i < |entries| ==> entries[i].1.kind == k {
        forall i | 0 <= i < |entries[1..]| ensures entries[1..][i].1.kind == k {
          assert entries[1..][i] == entries[i + 1];
        }
      }
    }
  }

  /** The four accessors split the summary: every result is counted by exactly one of them. */
  lemma {:induction false} CountsPartition(s: Summary)
    ensures NumSuccesses(s) + NumFailures(s) + NumExceptionMismatches(s) + NumErrors(s) == |s.results|
  {
    PartitionOf(s.results);
  }

  lemma {:induction false} PartitionOf(entries: seq<Entry>)
    ensures Count(entries, SUCCESS) + Count(entries, FAILURE)
          + Count(entries, EXPECTED_EXCEPTION_MISMATCH) + Count(entries, ERROR) == |entries|
  {
    if entries != [] {
      PartitionOf(entries[1..]);
    }
  }

  /** A new key adds one to the count of its kind; re-putting a key moves one unit from the old kind to the new one. */
  lemma {:induction false} CountAfterPut(entries: seq<Entry>, name: string, v: TestResult, k: ResultKind)
    requires DistinctKeys(entries)
    ensures Count(Put(entries, name, v), k)
         == Count(entries, k)
          - (if Lookup(entries, name).Some? && Lookup(entries, name).value.kind == k then 1 else 0)
          + (if v.kind == k then 1 else 0)
  {
    if entries != [] {
      if entries[0].0 != name {
        assert DistinctKeys(entries[1..]);
        CountAfterPut(entries[1..], name, v, k);
      }
    }
  }
}
