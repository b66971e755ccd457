/** A cursor over the keys of an ordered key/value table: big-endian 64-bit keys sort as numbers.
    Deleting under the cursor leaves it in place, so the next step yields the successor. */
module Cursor {
  import opened Domain

  lemma {:induction false} HasLeast(keys: set<u64>) returns (m: u64)
    requires keys != {}
    ensures m in keys && forall k :: k in keys ==> m <= k
  {
    var x :| x in keys;
    if keys == {x} {
      m := x;
    } else {
      var rest := keys - {x};
      assert rest != {} by { assert keys == rest + {x}; }
      var r := HasLeast(rest);
      m := if r < x then r else x;
      assert forall k :: k in keys ==> k == x || k in rest;
    }
  }

  lemma LeastExists(keys: set<u64>)
    requires keys != {}
    ensures exists m :: m in keys && forall k :: k in keys ==> m <= k
  {
    var m := HasLeast(keys);
  }

  function Least(keys: set<u64>): (m: u64)
    requires keys != {}
    ensures m in keys && forall k :: k in keys ==> m <= k
  {
    LeastExists(keys);
    var m :| m in keys && forall k :: k in keys ==> m <= k;
    m
  }

  /** The key the cursor lands on when it is sent to `from`; the first key when `from` is 0. */
  function SetRange(keys: set<u64>, from: nat): (r: Option<u64>)
    ensures r.None? ==> forall k :: k in keys ==> k < from
    ensures r.Some? ==> r.value in keys && from <= r.value && forall k :: k in keys && from <= k ==> r.value <= k
  {
    var above := set k | k in keys && from <= k;
    assert forall k :: k in keys && from <= k ==> k in above;
    if above == {} then None else Some(Least(above))
  }

  function Next(keys: set<u64>, at: u64): Option<u64> {
    SetRange(keys, at as nat + 1)
  }

  // ---- What a cursor loop visits ----

  /** The first `n` keys from `from` on, in key order. */
  function Visit(keys: set<u64>, from: nat, n: nat): (visited: seq<u64>)
    ensures |visited| <= n
    decreases n
  {
    if n == 0 then []
    else
      match SetRange(keys, from)
      case None => []
      case Some(k) => [k] + Visit(keys, k as nat + 1, n - 1)
  }

  /** `visited` lists keys from `from` on in ascending order and skips none, and it stops
      short of `n` only when there are no more. */
  ghost predicate VisitsFrom(keys: set<u64>, from: nat, n: nat, visited: seq<u64>) {
    && |visited| <= n
    && (forall i :: 0 <= i < |visited| ==> visited[i] in keys && from <= visited[i])
    && (forall i, j :: 0 <= i < j < |visited| ==> visited[i] < visited[j])
    && (forall k :: k in keys && from <= k && (|visited| == n ==> n > 0 && k <= visited[n - 1]) ==> k in visited)
  }

  /** One turn of a cursor loop, and its end. */
  lemma VisitTurn(keys: set<u64>, from: nat, n: nat)
    requires n > 0
    ensures var r := SetRange(keys, from);
      Visit(keys, from, n) == if r.None? then [] else [r.value] + Visit(keys, r.value as nat + 1, n - 1)
  {}

  lemma ConsVisits(keys: set<u64>, from: nat, n: nat, k: u64, rest: seq<u64>)
    requires n > 0 && SetRange(keys, from) == Some(k) && VisitsFrom(keys, k as nat + 1, n - 1, rest)
    ensures VisitsFrom(keys, from, n, [k] + rest)
  {
    hide SetRange;
    var visited := [k] + rest;
    forall i, j | 0 <= i < j < |visited| ensures visited[i] < visited[j] {
      assert visited[j] == rest[j - 1];
    }
    forall x | x in keys && from <= x && (|visited| == n ==> x <= visited[n - 1]) ensures x in visited {
      if x != k {
        assert k < x;
        assert |rest| == n - 1 && n - 1 > 0 ==> visited[n - 1] == rest[n - 2];
        assert x in rest;
      }
    }
  }

  lemma {:induction false} VisitVisits(keys: set<u64>, from: nat, n: nat)
    ensures VisitsFrom(keys, from, n, Visit(keys, from, n))
    decreases n
  {
    hide VisitsFrom, Visit;
    if n > 0 {
      VisitTurn(keys, from, n);
      if SetRange(keys, from).Some? {
        var k := SetRange(keys, from).value;
        VisitVisits(keys, k as nat + 1, n - 1);
        ConsVisits(keys, from, n, k, Visit(keys, k as nat + 1, n - 1));
      } else {
        NothingVisited(keys, from, n);
      }
    } else {
      NothingVisited(keys, from, n);
    }
  }

  lemma NothingVisited(keys: set<u64>, from: nat, n: nat)
    requires n == 0 || SetRange(keys, from).None?
    ensures Visit(keys, from, n) == [] && VisitsFrom(keys, from, n, [])
  {}

  function Upwards(start: nat, count: nat): (r: seq<u64>)
    requires start + count <= 0x1_0000_0000_0000_0000
    ensures |r| == count && forall i :: 0 <= i < count ==> r[i] == start + i
  {
    seq(count, i requires 0 <= i < count => start + i)
  }

  /** How many of the numbers below `high` a loop of `n` turns sees from `start` on. */
  function CountFrom(start: nat, high: nat, n: nat): nat {
    if high <= start then 0 else if high - start <= n then high - start else n
  }

  /** The keys of an interval are visited one by one. */
  lemma {:induction false} VisitInterval(keys: set<u64>, low: nat, high: nat, from: nat, n: nat)
    requires forall k :: k in keys <==> low <= k < high
    requires high <= 0x1_0000_0000_0000_0000
    ensures var start := if from < low then low else from;
      start + CountFrom(start, high, n) <= 0x1_0000_0000_0000_0000 || CountFrom(start, high, n) == 0
    ensures var start := if from < low then low else from;
      Visit(keys, from, n) == if CountFrom(start, high, n) == 0 then [] else Upwards(start, CountFrom(start, high, n))
    decreases n
  {
    hide Visit;
    var start := if from < low then low else from;
    if n > 0 {
      VisitTurn(keys, from, n);
      if start < high {
        var first: u64 := start;
        assert first in keys;
        assert SetRange(keys, from) == Some(first);
        VisitInterval(keys, low, high, start + 1, n - 1);
        var count := CountFrom(start, high, n);
        assert Upwards(start, count) == [first] + (if count == 1 then [] else Upwards(start + 1, count - 1));
      } else {
        assert SetRange(keys, from).None?;
      }
    } else {
      NothingVisited(keys, from, n);
    }
  }

  /** Keys below the starting point do not matter. */
  lemma {:induction false} VisitIgnoresBelow(keys: set<u64>, fewer: set<u64>, from: nat, n: nat)
    requires fewer <= keys && forall k :: k in keys && k !in fewer ==> k < from
    ensures Visit(keys, from, n) == Visit(fewer, from, n)
    decreases n
  {
    if n > 0 {
      assert SetRange(keys, from) == SetRange(fewer, from);
      if SetRange(keys, from).Some? {
        VisitIgnoresBelow(keys, fewer, SetRange(keys, from).value as nat + 1, n - 1);
      }
    }
  }
}
