/**
 A log of versioned entries: strictly increasing, read a page at a time from a version on.
 */
module VersionedLog {
  import opened Bytes

  datatype Logged<R> = Entry(version: u64, record: R)

  ghost predicate Increasing<R>(log: seq<Logged<R>>) {
    forall i, j | 0 <= i < j < |log| :: log[i].version < log[j].version
  }

  /** Whether `version` may follow what the log holds. */
  predicate Above<R>(log: seq<Logged<R>>, version: u64) {
    log == [] || log[|log| - 1].version < version
  }

  /** The first entry at or above `start`, or the end. */
  function FirstAt<R>(log: seq<Logged<R>>, start: nat): (i: nat)
    ensures i <= |log|
    ensures forall k | 0 <= k < i :: log[k].version < start
    ensures i < |log| ==> log[i].version >= start
  {
    if log == [] || log[0].version >= start then 0 else 1 + FirstAt(log[1..], start)
  }

  function Min(a: nat, b: nat): nat {
    if a < b then a else b
  }

  function PageOf<R>(log: seq<Logged<R>>, start: nat, max: nat): (page: seq<Logged<R>>)
    ensures |page| <= max
  {
    var i := FirstAt(log, start);
    log[i..Min(i + max, |log|)]
  }

  /** Past the last entry of a page, the next page starts where that one ended. */
  lemma PagesMeet<R>(log: seq<Logged<R>>, start: nat, i: nat, n: nat)
    requires Increasing(log) && i == FirstAt(log, start) && 0 < n <= |log| - i
    ensures FirstAt(log, log[i + n - 1].version + 1) == i + n
  {
    var v := log[i + n - 1].version;
    assert forall k | 0 <= k < i + n :: log[k].version <= v;
    assert i + n < |log| ==> log[i + n].version > v;
  }

  lemma IncreasingGrows<R>(log: seq<Logged<R>>, e: Logged<R>)
    requires Increasing(log) && Above(log, e.version)
    ensures Increasing(log + [e])
  {}
}
