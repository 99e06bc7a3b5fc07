/** Errors, results and the sequence combinators every handler shares. */
module Common {

  /** The kinds of exception the modelled code can raise. */
  datatype Error =
    | ValueError      // malformed number or date text, an empty random range
    | TypeError       // a value of the wrong type, a missing or unexpected keyword
    | KeyError        // a dictionary key or a sheet name that is not there
    | IndexError      // a row shorter than the position read, a choice from nothing
    | StopIteration   // next() on a reader that has no rows left
    | DatabaseError   // the relational engine refused a statement

  /** A computation that either returns a value or raises. */
  datatype Result<+T> = Ok(value: T) | Err(error: Error)
  {
    predicate IsFailure() { Err? }

    function PropagateFailure<U>(): Result<U>
      requires Err?
    {
      Err(error)
    }

    function Extract(): T
      requires Ok?
    {
      value
    }
  }

  datatype Option<+T> = None | Some(value: T)

  /** No element occurs twice. */
  predicate Distinct<T(==)>(s: seq<T>)
  {
    forall i, j :: 0 <= i < j < |s| ==> s[i] != s[j]
  }

  function Map<A, B>(f: A -> B, xs: seq<A>): (ys: seq<B>)
    ensures |ys| == |xs|
    ensures forall i :: 0 <= i < |xs| ==> ys[i] == f(xs[i])
  {
    seq(|xs|, i requires 0 <= i < |xs| => f(xs[i]))
  }

  /** Mapping one more element of a prefix appends its image. */
  lemma MapSnoc<A, B>(f: A -> B, xs: seq<A>, i: nat)
    requires i < |xs|
    ensures Map(f, xs[..i + 1]) == Map(f, xs[..i]) + [f(xs[i])]
  {
  }

  /** The elements of `xs` that satisfy `p`, in order. */
  function Filter<A>(p: A -> bool, xs: seq<A>): (ys: seq<A>)
    ensures |ys| <= |xs|
    ensures forall y :: y in ys ==> y in xs && p(y)
  {
    if xs == [] then []
    else Filter(p, xs[..|xs| - 1]) + (if p(xs[|xs| - 1]) then [xs[|xs| - 1]] else [])
  }

  /** Filter drops nothing that satisfies `p`. */
  lemma {:induction false} FilterComplete<A>(p: A -> bool, xs: seq<A>)
    ensures forall y :: y in Filter(p, xs) <==> y in xs && p(y)
  {
    if xs != [] {
      var n := |xs| - 1;
      FilterComplete(p, xs[..n]);
      assert xs == xs[..n] + [xs[n]];
    }
  }

  /**
   * Applies `f` to every element, front to back, and stops at the first
   * element whose conversion raises: what a list comprehension over a
   * conversion that may raise does.
   */
  function MapAll<A, B>(f: A -> Result<B>, xs: seq<A>): (r: Result<seq<B>>)
    ensures r.Err? ==> exists i :: 0 <= i < |xs| && f(xs[i]) == Err(r.error)
  {
    if xs == [] then Ok([])
    else
      var prefix := MapAll(f, xs[..|xs| - 1]);
      if prefix.Err? then
        ErrFromPrefix(f, xs, xs[..|xs| - 1], prefix.error);
        Err(prefix.error)
      else
        var last :- f(xs[|xs| - 1]);
        Ok(prefix.value + [last])
  }

  /** An exception raised on an element of a prefix was raised on an element of the whole. */
  lemma ErrFromPrefix<A, B>(f: A -> Result<B>, xs: seq<A>, init: seq<A>, e: Error)
    requires init <= xs
    requires exists i :: 0 <= i < |init| && f(init[i]) == Err(e)
    ensures exists i :: 0 <= i < |xs| && f(xs[i]) == Err(e)
  {
    var i :| 0 <= i < |init| && f(init[i]) == Err(e);
    assert xs[i] == init[i];
  }

  /** A successful MapAll converts element by element and keeps the length. */
  lemma {:induction false} MapAllOk<A, B>(f: A -> Result<B>, xs: seq<A>)
    requires MapAll(f, xs).Ok?
    ensures |MapAll(f, xs).value| == |xs|
    ensures forall i :: 0 <= i < |xs| ==> f(xs[i]) == Ok(MapAll(f, xs).value[i])
  {
    if xs != [] {
      var n := |xs| - 1;
      MapAllOk(f, xs[..n]);
      forall i | 0 <= i < |xs|
        ensures f(xs[i]) == Ok(MapAll(f, xs).value[i])
      {
        if i < n {
          assert xs[..n][i] == xs[i];
        }
      }
    }
  }

  /** MapAll fails exactly when some element fails, and then with the first such failure. */
  lemma {:induction false} MapAllErr<A, B>(f: A -> Result<B>, xs: seq<A>, k: nat)
    requires k < |xs| && f(xs[k]).Err?
    requires forall i :: 0 <= i < k ==> f(xs[i]).Ok?
    ensures MapAll(f, xs) == Err(f(xs[k]).error)
  {
    var n := |xs| - 1;
    if k < n {
      assert xs[..n][k] == xs[k];
      forall i | 0 <= i < k ensures f(xs[..n][i]).Ok? { assert xs[..n][i] == xs[i]; }
      MapAllErr(f, xs[..n], k);
    } else {
      MapAllPrefixOk(f, xs, n);
    }
  }

  /** If every element converts, MapAll succeeds. */
  lemma {:induction false} MapAllPrefixOk<A, B>(f: A -> Result<B>, xs: seq<A>, k: nat)
    requires k <= |xs|
    requires forall i :: 0 <= i < k ==> f(xs[i]).Ok?
    ensures MapAll(f, xs[..k]).Ok?
  {
    if k > 0 {
      assert xs[..k][..k - 1] == xs[..k - 1];
      MapAllPrefixOk(f, xs, k - 1);
    }
  }

  /** Decoding what was encoded gives back the originals, in order. */
  lemma {:induction false} MapAllRoundTrip<A, B>(dec: A -> Result<B>, enc: B -> A, xs: seq<B>)
    requires forall i :: 0 <= i < |xs| ==> dec(enc(xs[i])) == Ok(xs[i])
    ensures MapAll(dec, Map(enc, xs)) == Ok(xs)
  {
    if xs != [] {
      var n := |xs| - 1;
      assert Map(enc, xs)[..n] == Map(enc, xs[..n]);
      MapAllRoundTrip(dec, enc, xs[..n]);
      assert xs[..n] + [xs[n]] == xs;
    }
  }

  /** A failure in a prefix is the failure of the whole. */
  lemma {:induction false} MapAllPrefixErr<A, B>(f: A -> Result<B>, xs: seq<A>, k: nat)
    requires k <= |xs| && MapAll(f, xs[..k]).Err?
    ensures MapAll(f, xs) == MapAll(f, xs[..k])
    decreases |xs| - k
  {
    if k < |xs| {
      var n := |xs| - 1;
      assert xs[..k + 1][..k] == xs[..k];
      MapAllPrefixErr(f, xs, k + 1);
    } else {
      assert xs[..k] == xs;
    }
  }

  /** Filtering a longer prefix extends the filtered shorter prefix. */
  lemma {:induction false} FilterStep<A>(p: A -> bool, xs: seq<A>, i: nat)
    requires i < |xs|
    ensures Filter(p, xs[..i + 1]) == Filter(p, xs[..i]) + (if p(xs[i]) then [xs[i]] else [])
  {
    assert xs[..i + 1][..i] == xs[..i];
  }

  /** The filter of a prefix is a prefix of the filter. */
  lemma {:induction false} FilterPrefix<A>(p: A -> bool, xs: seq<A>, k: nat)
    requires k <= |xs|
    ensures Filter(p, xs[..k]) <= Filter(p, xs)
    decreases |xs| - k
  {
    if k < |xs| {
      FilterStep(p, xs, k);
      FilterPrefix(p, xs, k + 1);
    } else {
      assert xs[..k] == xs;
    }
  }

  /** Filtering with a predicate every element satisfies keeps the sequence. */
  lemma {:induction false} FilterAll<A>(p: A -> bool, xs: seq<A>)
    requires forall x :: x in xs ==> p(x)
    ensures Filter(p, xs) == xs
  {
    if xs != [] {
      var n := |xs| - 1;
      var init := xs[..n];
      FilterAll(p, init);
      assert xs == init + [xs[n]];
    }
  }

  /** Filtering distributes over concatenation. */
  lemma {:induction false} FilterAppend<A>(p: A -> bool, xs: seq<A>, ys: seq<A>)
    ensures Filter(p, xs + ys) == Filter(p, xs) + Filter(p, ys)
  {
    if ys != [] {
      var n := |ys| - 1;
      assert (xs + ys)[..|xs| + n] == xs + ys[..n];
      FilterAppend(p, xs, ys[..n]);
    } else {
      assert xs + ys == xs;
    }
  }

  /** Filtering with a predicate no element satisfies leaves nothing. */
  lemma {:induction false} FilterNone<A>(p: A -> bool, xs: seq<A>)
    requires forall i :: 0 <= i < |xs| ==> !p(xs[i])
    ensures Filter(p, xs) == []
  {
    if xs != [] {
      var n := |xs| - 1;
      assert forall i :: 0 <= i < n ==> xs[..n][i] == xs[i];
      FilterNone(p, xs[..n]);
    }
  }

  /** Filtering images is mapping the filtered originals, when the two tests agree. */
  lemma {:induction false} FilterMap<A, B>(p: B -> bool, q: A -> bool, f: A -> B, xs: seq<A>)
    requires forall i :: 0 <= i < |xs| ==> p(f(xs[i])) == q(xs[i])
    ensures Filter(p, Map(f, xs)) == Map(f, Filter(q, xs))
  {
    if xs != [] {
      var n := |xs| - 1;
      assert Map(f, xs)[..n] == Map(f, xs[..n]);
      FilterMap(p, q, f, xs[..n]);
    }
  }

  /** MapAll on a prefix that is a prefix of a longer list which fails. */
  lemma MapAllPrefixOfErr<A, B>(f: A -> Result<B>, ys: seq<A>, zs: seq<A>)
    requires ys <= zs && MapAll(f, ys).Err?
    ensures MapAll(f, zs) == MapAll(f, ys)
  {
    assert zs[..|ys|] == ys;
    MapAllPrefixErr(f, zs, |ys|);
  }

  /**
   * One step of a loop that converts the elements of xs satisfying p and
   * stops at the first failure.
   */
  lemma FilterMapStep<A, B>(p: A -> bool, f: A -> Result<B>, xs: seq<A>, i: nat, vs: seq<B>)
    requires i < |xs| && MapAll(f, Filter(p, xs[..i])) == Ok(vs)
    ensures !p(xs[i]) ==> MapAll(f, Filter(p, xs[..i + 1])) == Ok(vs)
    ensures p(xs[i]) && f(xs[i]).Ok? ==> MapAll(f, Filter(p, xs[..i + 1])) == Ok(vs + [f(xs[i]).value])
    ensures p(xs[i]) && f(xs[i]).Err? ==> MapAll(f, Filter(p, xs)) == Err(f(xs[i]).error)
  {
    FilterStep(p, xs, i);
    if p(xs[i]) {
      MapAllSnoc(f, Filter(p, xs[..i]), xs[i]);
      if f(xs[i]).Err? {
        FilterPrefix(p, xs, i + 1);
        MapAllPrefixOfErr(f, Filter(p, xs[..i + 1]), Filter(p, xs));
      }
    } else {
      assert Filter(p, xs[..i]) + [] == Filter(p, xs[..i]);
    }
  }

  /** One step of a loop that converts the elements of xs in order and stops at the first failure. */
  lemma MapAllStep<A, B>(f: A -> Result<B>, xs: seq<A>, i: nat, vs: seq<B>)
    requires i < |xs| && MapAll(f, xs[..i]) == Ok(vs)
    ensures f(xs[i]).Ok? ==> MapAll(f, xs[..i + 1]) == Ok(vs + [f(xs[i]).value])
    ensures f(xs[i]).Err? ==> MapAll(f, xs) == Err(f(xs[i]).error)
  {
    assert xs[..i + 1] == xs[..i] + [xs[i]];
    MapAllSnoc(f, xs[..i], xs[i]);
    if f(xs[i]).Err? {
      MapAllPrefixErr(f, xs, i + 1);
    }
  }

  /** Converting one more element after a successful prefix. */
  lemma MapAllSnoc<A, B>(f: A -> Result<B>, ys: seq<A>, x: A)
    requires MapAll(f, ys).Ok?
    ensures f(x).Ok? ==> MapAll(f, ys + [x]) == Ok(MapAll(f, ys).value + [f(x).value])
    ensures f(x).Err? ==> MapAll(f, ys + [x]) == Err(f(x).error)
  {
    assert (ys + [x])[..|ys|] == ys;
  }

  /** The converted values of a list whose every element converts. */
  function Values<A, B>(f: A -> Result<B>, xs: seq<A>): (vs: seq<B>)
    requires forall i :: 0 <= i < |xs| ==> f(xs[i]).Ok?
    ensures |vs| == |xs| && forall i :: 0 <= i < |xs| ==> f(xs[i]) == Ok(vs[i])
  {
    seq(|xs|, i requires 0 <= i < |xs| => f(xs[i]).value)
  }

  /** MapAll succeeds exactly when every element converts, and then yields their values. */
  lemma MapAllValues<A, B>(f: A -> Result<B>, xs: seq<A>)
    ensures MapAll(f, xs).Ok? <==> forall i :: 0 <= i < |xs| ==> f(xs[i]).Ok?
    ensures MapAll(f, xs).Ok? ==> MapAll(f, xs).value == Values(f, xs)
  {
    if forall i :: 0 <= i < |xs| ==> f(xs[i]).Ok? {
      MapAllPrefixOk(f, xs, |xs|);
    }
    if MapAll(f, xs).Ok? {
      MapAllOk(f, xs);
    }
  }

  lemma ValuesAppend<A, B>(f: A -> Result<B>, xs: seq<A>, ys: seq<A>)
    requires forall i :: 0 <= i < |xs| ==> f(xs[i]).Ok?
    requires forall i :: 0 <= i < |ys| ==> f(ys[i]).Ok?
    ensures forall i :: 0 <= i < |xs + ys| ==> f((xs + ys)[i]).Ok?
    ensures Values(f, xs + ys) == Values(f, xs) + Values(f, ys)
  {
    assert forall i :: 0 <= i < |xs| ==> (xs + ys)[i] == xs[i];
    assert forall i :: 0 <= i < |ys| ==> (xs + ys)[|xs| + i] == ys[i];
  }

  /** The list without its element at `i`. */
  function RemoveAt<A>(ys: seq<A>, i: nat): (r: seq<A>)
    requires i < |ys|
    ensures |r| == |ys| - 1
  {
    ys[..i] + ys[i + 1..]
  }

  /** Taking the same element out of two equal multisets leaves equal multisets. */
  lemma MultisetRemove<A>(xs: seq<A>, ys: seq<A>, i: nat)
    requires multiset(xs) == multiset(ys) && xs != [] && i < |ys| && ys[i] == xs[|xs| - 1]
    ensures multiset(RemoveAt(ys, i)) == multiset(xs[..|xs| - 1])
  {
    var n := |xs| - 1;
    var x := xs[n];
    assert xs == xs[..n] + [x];
    assert multiset(xs) == multiset(xs[..n]) + multiset{x};
    assert ys == ys[..i] + [x] + ys[i + 1..];
    assert multiset(ys) == multiset(ys[..i]) + multiset{x} + multiset(ys[i + 1..]);
    var rest := multiset(ys[..i] + ys[i + 1..]);
    assert rest == multiset(ys[..i]) + multiset(ys[i + 1..]);
    forall y
      ensures rest[y] == multiset(xs[..n])[y]
    {
      assert multiset(ys)[y] == rest[y] + multiset{x}[y];
      assert multiset(xs)[y] == multiset(xs[..n])[y] + multiset{x}[y];
    }
  }

  /** The values of a list, as a multiset, are those of the list without one element plus that element's. */
  lemma ValuesRemove<A, B>(f: A -> Result<B>, ys: seq<A>, i: nat)
    requires i < |ys| && forall k :: 0 <= k < |ys| ==> f(ys[k]).Ok?
    ensures forall k :: 0 <= k < |RemoveAt(ys, i)| ==> f(RemoveAt(ys, i)[k]).Ok?
    ensures multiset(Values(f, ys)) == multiset(Values(f, RemoveAt(ys, i))) + multiset{f(ys[i]).value}
  {
    var a, b := ys[..i], ys[i + 1..];
    var c := [ys[i]] + b;
    forall k | 0 <= k < |a|
      ensures f(a[k]).Ok?
    {
      assert a[k] == ys[k];
    }
    forall k | 0 <= k < |b|
      ensures f(b[k]).Ok?
    {
      assert b[k] == ys[i + 1 + k];
    }
    ValuesAppend(f, [ys[i]], b);
    var vc := Values(f, c);
    assert Values(f, [ys[i]]) == [f(ys[i]).value];
    assert vc == [f(ys[i]).value] + Values(f, b);
    ValuesAppend(f, a, c);
    assert a + c == ys;
    ValuesAppend(f, a, b);
    assert Values(f, ys) == Values(f, a) + vc;
    assert Values(f, RemoveAt(ys, i)) == Values(f, a) + Values(f, b);
  }

  /** Converting the same elements in another order gives the same values in another order. */
  lemma {:induction false} ValuesPermutation<A, B>(f: A -> Result<B>, xs: seq<A>, ys: seq<A>)
    requires multiset(xs) == multiset(ys)
    requires forall i :: 0 <= i < |xs| ==> f(xs[i]).Ok?
    ensures forall i :: 0 <= i < |ys| ==> f(ys[i]).Ok?
    ensures multiset(Values(f, xs)) == multiset(Values(f, ys))
  {
    forall i | 0 <= i < |ys|
      ensures f(ys[i]).Ok?
    {
      assert ys[i] in multiset(xs);
    }
    if xs == [] {
      assert |ys| == |multiset(ys)| == 0;
    } else {
      var n := |xs| - 1;
      assert xs[n] in multiset(ys);
      var i :| 0 <= i < |ys| && ys[i] == xs[n];
      MultisetRemove(xs, ys, i);
      ValuesRemove(f, ys, i);
      ValuesRemove(f, xs, n);
      assert RemoveAt(xs, n) == xs[..n];
      ValuesPermutation(f, xs[..n], RemoveAt(ys, i));
    }
  }

  /** MapAll over a reordering fails or succeeds alike, with the values reordered. */
  lemma MapAllPermutation<A, B>(f: A -> Result<B>, xs: seq<A>, ys: seq<A>)
    requires multiset(xs) == multiset(ys)
    ensures MapAll(f, xs).Ok? <==> MapAll(f, ys).Ok?
    ensures MapAll(f, xs).Ok? ==> multiset(MapAll(f, xs).value) == multiset(MapAll(f, ys).value)
  {
    MapAllValues(f, xs);
    MapAllValues(f, ys);
    if MapAll(f, xs).Ok? {
      ValuesPermutation(f, xs, ys);
    } else if MapAll(f, ys).Ok? {
      ValuesPermutation(f, ys, xs);
    }
  }
}
