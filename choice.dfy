/**
 * The generator's sources of arbitrary values: Python's `random` module
 * and the Faker provider. Each draw is a nondeterministic pick within the
 * bounds the library guarantees; nothing is said about probabilities.
 */
module Choice {
  import opened Common
  import opened Dates

  /**
   * A Faker instance for one locale, reduced to the word pools it draws
   * from: male and female names, job titles and business phrases.
   */
  datatype Faker = Faker(maleNames: seq<string>, femaleNames: seq<string>, jobs: seq<string>, phrases: seq<string>)

  /** Faker's pools are never empty. */
  predicate ValidFaker(f: Faker)
  {
    |f.maleNames| > 0 && |f.femaleNames| > 0 && |f.jobs| > 0 && |f.phrases| > 0
  }

  /** One draw from a non-empty pool of words. */
  method Pick(pool: seq<string>) returns (s: string)
    requires |pool| > 0
    ensures s in pool
  {
    assert pool[0] in pool;
    s :| s in pool;
  }

  /** `fake.future_date(...)`: some valid calendar date. */
  method AnyDate() returns (d: CalendarDate)
  {
    d :| true;
  }

  /** `random.random()`: a number in [0, 1). */
  method Random01() returns (x: real)
    ensures 0.0 <= x < 1.0
  {
    x :| 0.0 <= x < 1.0;
  }

  /** `random.randint(lo, hi)`: an integer of the closed range; ValueError when the range is empty. */
  method RandInt(lo: int, hi: int) returns (r: Result<int>)
    ensures r.Ok? <==> lo <= hi
    ensures r.Ok? ==> lo <= r.value <= hi
    ensures r.Err? ==> r.error == ValueError
  {
    if lo <= hi {
      var x :| lo <= x <= hi;
      r := Ok(x);
    } else {
      r := Err(ValueError);
    }
  }

  /** `random.randint(lo, hi)` on a range known to be non-empty. */
  method RandRange(lo: int, hi: int) returns (x: int)
    requires lo <= hi
    ensures lo <= x <= hi
  {
    x :| lo <= x <= hi;
  }

  /** `random.choice(xs)` by position: IndexError when there is nothing to choose. */
  method ChoiceIndex(n: nat) returns (r: Result<nat>)
    ensures r.Ok? <==> n > 0
    ensures r.Ok? ==> r.value < n
    ensures r.Err? ==> r.error == IndexError
  {
    if n > 0 {
      var i :| 0 <= i < n;
      r := Ok(i);
    } else {
      r := Err(IndexError);
    }
  }

  /** The positions `random.sample` may return: k distinct positions below n. */
  predicate IsSample(picks: seq<nat>, n: nat)
  {
    Distinct(picks) && forall i :: 0 <= i < |picks| ==> picks[i] < n
  }

  /** `random.sample(range(n), k)`: k distinct positions, drawn without replacement. */
  method Sample(n: nat, k: nat) returns (picks: seq<nat>)
    requires k <= n
    ensures |picks| == k && IsSample(picks, n)
  {
    picks := [];
    while |picks| < k
      invariant |picks| <= k && IsSample(picks, n)
    {
      Unused(picks, n);
      var j :| 0 <= j < n && j !in picks;
      picks := picks + [j];
    }
  }

  /** Pigeonhole: fewer than n picks leave some position below n unpicked. */
  lemma {:induction false} Unused(picks: seq<nat>, n: nat)
    requires |picks| < n
    ensures exists j :: 0 <= j < n && j !in picks
    decreases n
  {
    var last := n - 1;
    if last !in picks {
      assert 0 <= last < n && last !in picks;
    } else {
      var rest := Filter((x: nat) => x != last, picks);
      FilterDrops(picks, last);
      Unused(rest, n - 1);
      var j :| 0 <= j < n - 1 && j !in rest;
      if j in picks {
        FilterKeeps(picks, last, j);
      }
      assert 0 <= j < n && j !in picks;
    }
  }

  /** Dropping an element that occurs makes the sequence strictly shorter. */
  lemma {:induction false} FilterDrops(xs: seq<nat>, v: nat)
    requires v in xs
    ensures |Filter((x: nat) => x != v, xs)| < |xs|
  {
    var n := |xs| - 1;
    if xs[n] != v {
      assert v in xs[..n] by {
        var i :| 0 <= i < |xs| && xs[i] == v;
        assert xs[..n][i] == v;
      }
      FilterDrops(xs[..n], v);
    }
  }

  /** Elements other than the dropped one stay. */
  lemma {:induction false} FilterKeeps(xs: seq<nat>, v: nat, w: nat)
    requires w in xs && w != v
    ensures w in Filter((x: nat) => x != v, xs)
  {
    var n := |xs| - 1;
    if xs[n] != w {
      assert w in xs[..n] by {
        var i :| 0 <= i < |xs| && xs[i] == w;
        assert xs[..n][i] == w;
      }
      FilterKeeps(xs[..n], v, w);
    }
  }
}
