/**
  Choosing what to show: the pool of candidate quotes for a filter value,
  and the random pick `pool[Math.floor(Math.random() * pool.length)]`.
*/
module Selection {
  import opened Wrappers
  import opened JsString
  import opened Quotes

  /** `quotes.filter(q => q.category === c)`. */
  function Filter(qs: seq<Quote>, c: Str): seq<Quote>
  {
    if qs == [] then []
    else (if qs[0].category == c then [qs[0]] else []) + Filter(qs[1..], c)
  }

  /** `a` is `b` with some elements left out, the rest in their order. */
  predicate IsSubsequence(a: seq<Quote>, b: seq<Quote>)
  {
    if a == [] then true
    else if b == [] then false
    else if a[0] == b[0] then IsSubsequence(a[1..], b[1..])
    else IsSubsequence(a, b[1..])
  }

  /**
    `pool` is exactly the quotes of `qs` whose category is `c`, in their
    order in `qs`: a subsequence, of category `c` only, that keeps every
    occurrence of every quote of category `c`.
  */
  ghost predicate SelectsCategory(pool: seq<Quote>, qs: seq<Quote>, c: Str)
  {
    && IsSubsequence(pool, qs)
    && (forall i :: 0 <= i < |pool| ==> pool[i].category == c)
    && (forall q: Quote :: q.category == c ==> multiset(pool)[q] == multiset(qs)[q])
  }

  /**
    The pool of `showRandomQuote`, given the value of the filter drop-down
    (None when the page has no such element): the whole collection unless
    the value is a non-empty label other than "all".
  */
  function RandomPool(qs: seq<Quote>, filter: Option<Str>): seq<Quote>
  {
    if filter.Some? && filter.value != [] && filter.value != All then Filter(qs, filter.value)
    else qs
  }

  /** The pool of `filterQuotes` for the drop-down value `v`. */
  function FilterPool(qs: seq<Quote>, v: Str): seq<Quote>
  {
    if v == All then qs else Filter(qs, v)
  }

  lemma {:induction false} SubsequenceReflexive(qs: seq<Quote>)
    ensures IsSubsequence(qs, qs)
  {
    if qs != [] {
      SubsequenceReflexive(qs[1..]);
    }
  }

  lemma {:induction false} SubsequenceMultiset(a: seq<Quote>, b: seq<Quote>)
    requires IsSubsequence(a, b)
    ensures multiset(a) <= multiset(b)
    decreases |b|
  {
    if a != [] {
      assert b == [b[0]] + b[1..];
      if a[0] == b[0] {
        SubsequenceMultiset(a[1..], b[1..]);
        assert a == [a[0]] + a[1..];
      } else {
        SubsequenceMultiset(a, b[1..]);
      }
    }
  }

  lemma {:induction false} FilterIsSubsequence(qs: seq<Quote>, c: Str)
    ensures IsSubsequence(Filter(qs, c), qs)
    ensures forall i :: 0 <= i < |Filter(qs, c)| ==> Filter(qs, c)[i].category == c
  {
    if qs != [] {
      var t := qs[1..];
      FilterIsSubsequence(t, c);
      if qs[0].category != c {
        assert Filter(qs, c) == Filter(t, c);
        if Filter(t, c) != [] {
          assert Filter(t, c)[0].category == c;
        }
      } else {
        var f := Filter(qs, c);
        assert f == [qs[0]] + Filter(t, c);
        assert f[1..] == Filter(t, c);
      }
    }
  }

  lemma {:induction false} FilterCounts(qs: seq<Quote>, c: Str)
    ensures forall q: Quote :: q.category == c ==> multiset(Filter(qs, c))[q] == multiset(qs)[q]
  {
    if qs != [] {
      var t := qs[1..];
      FilterCounts(t, c);
      assert qs == [qs[0]] + t;
    }
  }

  /** The filter keeps exactly the quotes of category `c`, in order. */
  lemma FilterSpec(qs: seq<Quote>, c: Str)
    ensures SelectsCategory(Filter(qs, c), qs, c)
  {
    FilterIsSubsequence(qs, c);
    FilterCounts(qs, c);
  }

  /**
    An independent reference for the filter: any pool that selects exactly
    the quotes of category `c`, in order, is the filter's result.
  */
  lemma {:induction false} FilterCharacterized(pool: seq<Quote>, qs: seq<Quote>, c: Str)
    requires SelectsCategory(pool, qs, c)
    ensures pool == Filter(qs, c)
    decreases |qs|
  {
    if qs == [] {
    } else {
      var h, t := qs[0], qs[1..];
      assert qs == [h] + t;
      if pool == [] {
        assert h.category != c by {
          assert multiset(qs)[h] >= 1;
        }
        FilterCharacterized(pool, t, c);
      } else if pool[0] == h {
        var rest := pool[1..];
        assert pool == [h] + rest;
        assert SelectsCategory(rest, t, c) by {
          forall i | 0 <= i < |rest| ensures rest[i].category == c {
            assert rest[i] == pool[i + 1];
          }
        }
        FilterCharacterized(rest, t, c);
      } else {
        assert IsSubsequence(pool, t);
        SubsequenceMultiset(pool, t);
        assert h.category != c by {
          assert multiset(qs)[h] == multiset(t)[h] + 1;
        }
        FilterCharacterized(pool, t, c);
      }
    }
  }

  /** Filtering distributes over concatenation. */
  lemma {:induction false} FilterAppend(a: seq<Quote>, b: seq<Quote>, c: Str)
    ensures Filter(a + b, c) == Filter(a, c) + Filter(b, c)
  {
    if a != [] {
      FilterAppend(a[1..], b, c);
      assert (a + b)[0] == a[0] && (a + b)[1..] == a[1..] + b;
      var head := if a[0].category == c then [a[0]] else [];
      calc {
        Filter(a + b, c);
        head + Filter(a[1..] + b, c);
        head + (Filter(a[1..], c) + Filter(b, c));
        (head + Filter(a[1..], c)) + Filter(b, c);
        Filter(a, c) + Filter(b, c);
      }
    } else {
      assert a + b == b;
    }
  }

  /** A quote appended to the collection joins the pool of its own category only, at its end. */
  lemma FilterAfterAppend(qs: seq<Quote>, q: Quote, c: Str)
    ensures Filter(qs + [q], c) == Filter(qs, c) + (if q.category == c then [q] else [])
  {
    FilterAppend(qs, [q], c);
    assert [q][1..] == [];
  }

  /**
    The `showRandomQuote` pool is always a subsequence of the collection;
    with no drop-down, an empty value or "all" it is the whole collection,
    and otherwise it selects exactly the quotes of that category.
  */
  lemma RandomPoolSpec(qs: seq<Quote>, filter: Option<Str>)
    ensures IsSubsequence(RandomPool(qs, filter), qs)
    ensures filter.None? || filter.value == [] || filter.value == All ==> RandomPool(qs, filter) == qs
    ensures filter.Some? && filter.value != [] && filter.value != All ==>
              SelectsCategory(RandomPool(qs, filter), qs, filter.value)
  {
    SubsequenceReflexive(qs);
    if filter.Some? {
      FilterSpec(qs, filter.value);
    }
  }

  /**
    The `filterQuotes` pool agrees with the `showRandomQuote` pool for every
    non-empty value; for the empty value `filterQuotes` selects the quotes
    whose category is empty, where `showRandomQuote` takes them all.
  */
  lemma FilterPoolSpec(qs: seq<Quote>, v: Str)
    ensures v != [] ==> FilterPool(qs, v) == RandomPool(qs, Some(v))
    ensures v == All ==> FilterPool(qs, v) == qs
    ensures v != All ==> SelectsCategory(FilterPool(qs, v), qs, v)
  {
    if v != All {
      FilterSpec(qs, v);
    }
  }

  // ---------------------------------------------------------------------------
  // the random pick

  /** What the quote display shows. */
  datatype Display = NoQuotes | Shown(quote: Quote)

  /** `Math.floor(r * n)` for a draw `r` of `Math.random()`, computed exactly. */
  function DrawIndex(r: real, n: nat): (k: nat)
    requires 0.0 <= r < 1.0 && 0 < n
    ensures k < n
  {
    assert r * n as real < n as real;
    (r * n as real).Floor
  }

  /** Dividing by a positive `m` moves a bound on `r * m` to a bound on `r`. */
  lemma DivideBound(a: real, r: real, m: real)
    requires 0.0 < m
    ensures a <= r * m <==> a / m <= r
    ensures r * m < a <==> r < a / m
  {
    var q := a / m;
    assert q * m == a;
    assert r * m - q * m == (r - q) * m;
  }

  /** Index `k` is drawn exactly for the draws in `[k/n, (k+1)/n)`, an interval of width `1/n`. */
  lemma DrawUniform(r: real, n: nat, k: nat)
    requires 0.0 <= r < 1.0 && 0 < n && k < n
    ensures DrawIndex(r, n) == k <==> k as real / n as real <= r < (k + 1) as real / n as real
  {
    var x := r * n as real;
    assert DrawIndex(r, n) == k <==> k as real <= x < (k + 1) as real;
    DivideBound(k as real, r, n as real);
    DivideBound((k + 1) as real, r, n as real);
  }

  /** The page's choice from a pool: nothing for an empty pool, else the element at the drawn index. */
  function Pick(pool: seq<Quote>, r: real): (d: Display)
    requires 0.0 <= r < 1.0
    ensures d.NoQuotes? <==> pool == []
    ensures d.Shown? ==> d.quote in pool
  {
    if pool == [] then NoQuotes else Shown(pool[DrawIndex(r, |pool|)])
  }

  /** Every position of a non-empty pool is shown for a `1/n` share of the draws. */
  lemma PickReachesEvery(pool: seq<Quote>, k: nat, r: real)
    requires k < |pool| && 0.0 <= r < 1.0
    requires k as real / |pool| as real <= r < (k + 1) as real / |pool| as real
    ensures Pick(pool, r) == Shown(pool[k])
  {
    DrawUniform(r, |pool|, k);
  }
}
