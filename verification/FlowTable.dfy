/** The time-expiring first-packet table of pkg/router/processor.go, against a
    specification over the whole history of calls. */
module FlowTable {

  /** The entries that have not expired at `now`. */
  function Live(entries: map<string, int>, now: int, ttl: int): map<string, int> {
    map k | k in entries && now - entries[k] <= ttl :: entries[k]
  }

  datatype Marked = Marked(entries: map<string, int>, ok: bool)

  function MarkStep(entries: map<string, int>, key: string, now: int, ttl: int, limit: int): Marked {
    var live := Live(entries, now, ttl);
    if key in live || |live| >= limit then Marked(live, false)
    else Marked(live[key := now], true)
  }

  class Table {
    const ttl: int
    const limit: int
    var entries: map<string, int>

    constructor (ttl: int, limit: int)
      ensures this.ttl == ttl && this.limit == limit && entries == map[]
    {
      this.ttl, this.limit, entries := ttl, limit, map[];
    }

    method MarkOnce(key: string, now: int) returns (ok: bool)
      modifies this
      ensures Marked(entries, ok) == MarkStep(old(entries), key, now, ttl, limit)
    {
      var todo := entries.Keys;
      while todo != {}
        invariant todo <= old(entries).Keys
        invariant entries == map k | k in old(entries) && (k in todo || now - old(entries)[k] <= ttl) :: old(entries)[k]
        decreases todo
      {
        var flowKey :| flowKey in todo;
        if now - entries[flowKey] > ttl {
          entries := entries - {flowKey};
        }
        todo := todo - {flowKey};
      }
      assert entries == Live(old(entries), now, ttl);
      if key in entries {
        return false;
      }
      if |entries| >= limit {
        return false;
      }
      entries := entries[key := now];
      return true;
    }
  }

  // ----- whole runs on one table -----

  /** A packet either never reaches the table or marks its key once. */
  datatype Call = Idle | Mark(key: string, now: int)

  /** The table after `calls`, from empty. */
  function After(calls: seq<Call>, ttl: int, limit: int): map<string, int> {
    if calls == [] then map[]
    else
      var before, c := After(calls[..|calls| - 1], ttl, limit), calls[|calls| - 1];
      if c.Idle? then before else MarkStep(before, c.key, c.now, ttl, limit).entries
  }

  /** Call `i` returned true. */
  predicate Accepted(calls: seq<Call>, i: nat, ttl: int, limit: int)
    requires i < |calls|
  {
    calls[i].Mark? && MarkStep(After(calls[..i], ttl, limit), calls[i].key, calls[i].now, ttl, limit).ok
  }

  /** The clock readings never step back. */
  predicate Ordered(calls: seq<Call>) {
    forall i, j :: 0 <= i < j < |calls| && calls[i].Mark? && calls[j].Mark? ==> calls[i].now <= calls[j].now
  }

  predicate Before(calls: seq<Call>, now: int) {
    forall c <- calls :: c.Mark? ==> c.now <= now
  }

  /** The accepted marks at most `ttl` old at `now`. */
  function Recent(calls: seq<Call>, now: int, ttl: int, limit: int): set<nat> {
    set i: nat | i < |calls| && Accepted(calls, i, ttl, limit) && now - calls[i].now <= ttl
  }

  function Keys(calls: seq<Call>): (ks: seq<string>)
    ensures |ks| == |calls|
  {
    seq(|calls|, i requires 0 <= i < |calls| => if calls[i].Mark? then calls[i].key else "")
  }

  function Image<T>(at: set<nat>, a: seq<T>): set<T>
    requires forall i <- at :: i < |a|
  {
    set i | i in at :: a[i]
  }

  function RecentKeys(calls: seq<Call>, now: int, ttl: int, limit: int): set<string> {
    Image(Recent(calls, now, ttl, limit), Keys(calls))
  }

  lemma ImageGrows<T>(at: set<nat>, x: nat, a: seq<T>)
    requires x !in at && x < |a| && forall i <- at :: i < |a|
    ensures Image(at + {x}, a) == Image(at, a) + {a[x]}
  {
    var all := at + {x};
    assert x in all;
    forall v | v in Image(at, a) ensures v in Image(all, a) {
      var i :| i in at && v == a[i];
      assert i in all;
    }
  }

  /** Images of one index set under two maps with the same kernel. */
  lemma {:induction false} SameCount<A, B>(at: set<nat>, a: seq<A>, b: seq<B>)
    requires forall i <- at :: i < |a| && i < |b|
    requires forall i <- at, j <- at :: a[i] == a[j] <==> b[i] == b[j]
    ensures |Image(at, a)| == |Image(at, b)|
  {
    if at != {} {
      var x :| x in at;
      var rest := at - {x};
      assert at == rest + {x};
      SameCount(rest, a, b);
      ImageGrows(rest, x, a);
      ImageGrows(rest, x, b);
      SameMembers(rest, a[x], b[x], a, b);
    }
  }

  lemma SameMembers<A, B>(at: set<nat>, x: A, y: B, a: seq<A>, b: seq<B>)
    requires forall i <- at :: i < |a| && i < |b|
    requires forall i <- at :: a[i] == x <==> b[i] == y
    ensures x in Image(at, a) <==> y in Image(at, b)
  {
    if x in Image(at, a) {
      var i :| i in at && a[i] == x;
      assert b[i] in Image(at, b);
    }
    if y in Image(at, b) {
      var i :| i in at && b[i] == y;
      assert a[i] in Image(at, a);
    }
  }

  /** Mark `i` was accepted, and no later mark of the run found it expired. */
  predicate Unpruned(calls: seq<Call>, i: nat, ttl: int, limit: int)
    requires i < |calls|
  {
    && Accepted(calls, i, ttl, limit)
    && forall j :: i < j < |calls| && calls[j].Mark? ==> calls[j].now - calls[i].now <= ttl
  }

  /** The accepted marks no later mark found expired, and `now` does not. */
  function Kept(calls: seq<Call>, now: int, ttl: int, limit: int): set<nat> {
    set i: nat | i < |calls| && Unpruned(calls, i, ttl, limit) && now - calls[i].now <= ttl
  }

  function KeptKeys(calls: seq<Call>, now: int, ttl: int, limit: int): set<string> {
    Image(Kept(calls, now, ttl, limit), Keys(calls))
  }

  lemma UnprunedBefore(calls: seq<Call>, i: nat, ttl: int, limit: int)
    requires i < |calls| - 1
    ensures var n := |calls| - 1;
            Unpruned(calls, i, ttl, limit) <==>
            Unpruned(calls[..n], i, ttl, limit) && (calls[n].Mark? ==> calls[n].now - calls[i].now <= ttl)
  {
    assert calls[..|calls| - 1][..i] == calls[..i];
  }

  /** An unpruned mark has its entry, with its own time. */
  lemma {:induction false} UnprunedHasEntry(calls: seq<Call>, i: nat, ttl: int, limit: int)
    requires i < |calls| && Unpruned(calls, i, ttl, limit)
    ensures calls[i].key in After(calls, ttl, limit) && After(calls, ttl, limit)[calls[i].key] == calls[i].now
  {
    var n := |calls| - 1;
    if i < n {
      UnprunedBefore(calls, i, ttl, limit);
      UnprunedHasEntry(calls[..n], i, ttl, limit);
    }
  }

  /** Every entry is that of an unpruned mark. */
  lemma {:induction false} EntryHasUnpruned(calls: seq<Call>, key: string, ttl: int, limit: int) returns (i: nat)
    requires key in After(calls, ttl, limit)
    ensures i < |calls| && Unpruned(calls, i, ttl, limit) && calls[i].key == key
  {
    var n := |calls| - 1;
    if Accepted(calls, n, ttl, limit) && calls[n].key == key {
      i := n;
    } else {
      i := EntryHasUnpruned(calls[..n], key, ttl, limit);
      UnprunedHasEntry(calls[..n], i, ttl, limit);
      UnprunedBefore(calls, i, ttl, limit);
    }
  }

  /** For every clock, steps back included: the live entries at `now` are the
      keys of the accepted marks that neither `now` nor any later mark of the
      run finds expired. */
  lemma LiveIsKept(calls: seq<Call>, now: int, ttl: int, limit: int)
    ensures Live(After(calls, ttl, limit), now, ttl).Keys == KeptKeys(calls, now, ttl, limit)
  {
    var t, at, keys := After(calls, ttl, limit), Kept(calls, now, ttl, limit), Keys(calls);
    forall key | key in Live(t, now, ttl) ensures key in KeptKeys(calls, now, ttl, limit) {
      var i := EntryHasUnpruned(calls, key, ttl, limit);
      UnprunedHasEntry(calls, i, ttl, limit);
      assert i in at && keys[i] == key;
    }
    forall key | key in KeptKeys(calls, now, ttl, limit) ensures key in Live(t, now, ttl) {
      var i :| i in at && keys[i] == key;
      UnprunedHasEntry(calls, i, ttl, limit);
    }
  }

  /** MarkOnce told by its history, for every clock. */
  lemma AcceptedExactly(calls: seq<Call>, i: nat, ttl: int, limit: int)
    requires i < |calls| && calls[i].Mark?
    ensures var kept := KeptKeys(calls[..i], calls[i].now, ttl, limit);
            Accepted(calls, i, ttl, limit) <==> calls[i].key !in kept && |kept| < limit
  {
    var live := Live(After(calls[..i], ttl, limit), calls[i].now, ttl);
    LiveIsKept(calls[..i], calls[i].now, ttl, limit);
    assert |live.Keys| == |live|;
  }

  /** Under a clock that never steps back pruning early loses nothing: the
      kept marks are the recent ones. */
  lemma KeptIsRecent(calls: seq<Call>, now: int, ttl: int, limit: int)
    requires Ordered(calls) && Before(calls, now)
    ensures Kept(calls, now, ttl, limit) == Recent(calls, now, ttl, limit)
  {
    forall i | i in Recent(calls, now, ttl, limit) ensures i in Kept(calls, now, ttl, limit) {
      forall j | i < j < |calls| && calls[j].Mark? ensures calls[j].now <= now { assert calls[j] in calls; }
    }
  }

  /** So a call returns true exactly when its key has no recent mark and fewer
      than `limit` keys have one. */
  lemma AcceptedByHistory(calls: seq<Call>, i: nat, ttl: int, limit: int)
    requires Ordered(calls) && i < |calls| && calls[i].Mark?
    ensures var recent := RecentKeys(calls[..i], calls[i].now, ttl, limit);
            Accepted(calls, i, ttl, limit) <==> calls[i].key !in recent && |recent| < limit
  {
    AcceptedExactly(calls, i, ttl, limit);
    KeptIsRecent(calls[..i], calls[i].now, ttl, limit);
  }

  lemma AcceptedMarksAreApart(calls: seq<Call>, i: nat, j: nat, ttl: int, limit: int)
    requires Ordered(calls) && i < j < |calls|
    requires Accepted(calls, i, ttl, limit) && Accepted(calls, j, ttl, limit) && calls[i].key == calls[j].key
    ensures calls[j].now - calls[i].now > ttl
  {
    AcceptedByHistory(calls, j, ttl, limit);
    var before, now := calls[..j], calls[j].now;
    assert before[..i] == calls[..i] && before[i] == calls[i];
    assert now - calls[i].now <= ttl ==> i in Recent(before, now, ttl, limit);
  }

  /** The size bound, for any clock whatever. */
  lemma {:induction false} NeverOverLimit(calls: seq<Call>, ttl: int, limit: nat)
    ensures |After(calls, ttl, limit)| <= limit
  {
    if calls != [] {
      var c := calls[|calls| - 1];
      var t := After(calls[..|calls| - 1], ttl, limit);
      NeverOverLimit(calls[..|calls| - 1], ttl, limit);
      if c.Mark? { LiveIsSmaller(t, c.now, ttl); }
    }
  }

  lemma LiveIsSmaller(t: map<string, int>, now: int, ttl: int)
    ensures |Live(t, now, ttl)| <= |t|
  {
    SubsetIsSmaller(Live(t, now, ttl).Keys, t.Keys);
    assert |t.Keys| == |t| && |Live(t, now, ttl).Keys| == |Live(t, now, ttl)|;
  }

  lemma {:induction false} SubsetIsSmaller<T>(a: set<T>, b: set<T>)
    requires a <= b
    ensures |a| <= |b|
  {
    if a != {} {
      var x :| x in a;
      SubsetIsSmaller(a - {x}, b - {x});
    }
  }

  /** A stored time is that of the key's last accepted mark: a refused call
      never refreshes it. */
  lemma {:induction false} StoredTimes(calls: seq<Call>, key: string, ttl: int, limit: int) returns (i: nat)
    requires key in After(calls, ttl, limit)
    ensures i < |calls| && Accepted(calls, i, ttl, limit) && calls[i].key == key
    ensures After(calls, ttl, limit)[key] == calls[i].now
    ensures forall j :: i < j < |calls| && Accepted(calls, j, ttl, limit) ==> calls[j].key != key
  {
    var n := |calls| - 1;
    var before, c := calls[..n], calls[n];
    assert calls == before + [c];
    if Accepted(calls, n, ttl, limit) && c.key == key {
      i := n;
    } else {
      i := StoredTimes(before, key, ttl, limit);
      forall j | 0 <= j < n ensures Accepted(calls, j, ttl, limit) == Accepted(before, j, ttl, limit) {
        assert calls[..j] == before[..j];
      }
    }
  }
}
