/**
  The category list of the filter drop-down:
  `[...new Set(quotes.map(q => q.category))].sort()`, that is the distinct
  categories of the collection in ascending code-unit order.
*/
module CategoryIndex {
  import opened JsString
  import opened Quotes

  /** Some quote of `qs` has category `c`. */
  predicate Occurs(qs: seq<Quote>, c: Str)
  {
    exists i :: 0 <= i < |qs| && qs[i].category == c
  }

  predicate NoDuplicates(s: seq<Str>)
  {
    forall i, j :: 0 <= i < j < |s| ==> s[i] != s[j]
  }

  /** Strictly ascending in code-unit order. */
  predicate Ascending(s: seq<Str>)
  {
    forall i, j :: 0 <= i < j < |s| ==> Below(s[i], s[j])
  }

  /** `quotes.map(q => q.category)`. */
  function Labels(qs: seq<Quote>): seq<Str>
  {
    seq(|qs|, i requires 0 <= i < |qs| => qs[i].category)
  }

  /** The iteration order of `new Set(s)`: each value at its first occurrence. */
  function Distinct(s: seq<Str>): seq<Str>
  {
    if s == [] then []
    else
      var d := Distinct(s[..|s| - 1]);
      if s[|s| - 1] in d then d else d + [s[|s| - 1]]
  }

  /** Inserts `x` into the ascending `s` before the first element not below it. */
  function Insert(x: Str, s: seq<Str>): seq<Str>
  {
    if s == [] || !Below(s[0], x) then [x] + s
    else [s[0]] + Insert(x, s[1..])
  }

  /** `Array.prototype.sort()` with the default comparison (by insertion). */
  function Sort(s: seq<Str>): seq<Str>
  {
    if s == [] then [] else Insert(s[0], Sort(s[1..]))
  }

  /** The sorted category list of the collection. */
  function Categories(qs: seq<Quote>): seq<Str>
  {
    Sort(Distinct(Labels(qs)))
  }

  /** The Set keeps every value of `s` exactly once. */
  lemma {:induction false} DistinctSpec(s: seq<Str>)
    ensures NoDuplicates(Distinct(s))
    ensures forall x :: x in Distinct(s) <==> x in s
    decreases |s|
  {
    if s != [] {
      var p := s[..|s| - 1];
      DistinctSpec(p);
      assert s == p + [s[|s| - 1]];
    }
  }

  lemma {:induction false} InsertSpec(x: Str, s: seq<Str>)
    requires Ascending(s) && x !in s
    ensures Ascending(Insert(x, s))
    ensures multiset(Insert(x, s)) == multiset(s) + multiset{x}
    decreases |s|
  {
    if s == [] {
    } else if !Below(s[0], x) {
      BelowTotal(x, s[0]);
      var r := [x] + s;
      forall i, j | 0 <= i < j < |r| ensures Below(r[i], r[j]) {
        if i == 0 && j > 1 {
          BelowTransitive(x, s[0], s[j - 1]);
        }
      }
    } else {
      var t := Insert(x, s[1..]);
      InsertSpec(x, s[1..]);
      forall j | 0 <= j < |t| ensures Below(s[0], t[j]) {
        assert t[j] in multiset(t);
        if t[j] != x {
          assert t[j] in multiset(s[1..]);
          var k :| 0 <= k < |s[1..]| && s[1..][k] == t[j];
          assert s[k + 1] == t[j];
        }
      }
      var r := [s[0]] + t;
      forall i, j | 0 <= i < j < |r| ensures Below(r[i], r[j]) {
        if i > 0 {
          assert r[i] == t[i - 1] && r[j] == t[j - 1];
        }
      }
      assert s == [s[0]] + s[1..];
    }
  }

  /** Sorting values without duplicates gives them in strictly ascending order. */
  lemma {:induction false} SortSpec(s: seq<Str>)
    requires NoDuplicates(s)
    ensures Ascending(Sort(s))
    ensures multiset(Sort(s)) == multiset(s)
    decreases |s|
  {
    if s != [] {
      var tail := s[1..];
      assert NoDuplicates(tail) by {
        forall i, j | 0 <= i < j < |tail| ensures tail[i] != tail[j] {
          assert tail[i] == s[i + 1] && tail[j] == s[j + 1];
        }
      }
      SortSpec(tail);
      assert s[0] !in Sort(tail) by {
        assert s[0] !in multiset(tail);
      }
      InsertSpec(s[0], Sort(tail));
      assert s == [s[0]] + tail;
    }
  }

  lemma AscendingNoDuplicates(s: seq<Str>)
    requires Ascending(s)
    ensures NoDuplicates(s)
  {
    forall i, j | 0 <= i < j < |s| ensures s[i] != s[j] {
      BelowIrreflexive(s[i]);
    }
  }

  /**
    The category list is strictly ascending (so it has no duplicates) and
    holds exactly the categories that occur in the collection.
  */
  lemma CategoriesSpec(qs: seq<Quote>)
    ensures Ascending(Categories(qs)) && NoDuplicates(Categories(qs))
    ensures forall c :: c in Categories(qs) <==> Occurs(qs, c)
  {
    var labels := Labels(qs);
    DistinctSpec(labels);
    SortSpec(Distinct(labels));
    AscendingNoDuplicates(Categories(qs));
    forall c ensures c in Categories(qs) <==> Occurs(qs, c) {
      calc {
        c in Categories(qs);
        c in multiset(Sort(Distinct(labels)));
        c in multiset(Distinct(labels));
        c in labels;
      }
      if c in labels {
        var i :| 0 <= i < |labels| && labels[i] == c;
        assert qs[i].category == c;
      }
      if Occurs(qs, c) {
        var i :| 0 <= i < |qs| && qs[i].category == c;
        assert labels[i] == c;
      }
    }
  }

  /** Two strictly ascending sequences with the same members are equal. */
  lemma {:induction false} AscendingUnique(a: seq<Str>, b: seq<Str>)
    requires Ascending(a) && Ascending(b)
    requires forall x :: x in a <==> x in b
    ensures a == b
    decreases |a|
  {
    if b != [] {
      assert b[0] in b;
    }
    if a != [] {
      assert a[0] in b;
      if a[0] != b[0] {
        var i :| 0 <= i < |a| && a[i] == b[0];
        var j :| 0 <= j < |b| && b[j] == a[0];
        assert Below(a[0], a[i]) && Below(b[0], b[j]);
        BelowAsymmetric(a[0], b[0]);
        assert false;
      }
      AscendingNoDuplicates(a);
      AscendingNoDuplicates(b);
      forall x ensures x in a[1..] <==> x in b[1..] {
        if x in a[1..] {
          var i :| 0 <= i < |a[1..]| && a[1..][i] == x;
          assert a[i + 1] == x && x != a[0];
          assert x in b;
          var j :| 0 <= j < |b| && b[j] == x;
          assert j != 0 && b[1..][j - 1] == x;
        }
        if x in b[1..] {
          var j :| 0 <= j < |b[1..]| && b[1..][j] == x;
          assert b[j + 1] == x && x != b[0];
          assert x in a;
          var i :| 0 <= i < |a| && a[i] == x;
          assert i != 0 && a[1..][i - 1] == x;
        }
      }
      AscendingUnique(a[1..], b[1..]);
      assert a == [a[0]] + a[1..] && b == [b[0]] + b[1..];
    }
  }

  /**
    An independent reference for the category list: ANY strictly ascending
    list of exactly the occurring categories is the one the page builds.
  */
  lemma CategoriesCharacterized(qs: seq<Quote>, s: seq<Str>)
    requires Ascending(s)
    requires forall c :: c in s <==> Occurs(qs, c)
    ensures s == Categories(qs)
  {
    CategoriesSpec(qs);
    AscendingUnique(s, Categories(qs));
  }

  /** Appending a quote adds its category to the list and removes nothing. */
  lemma CategoriesAfterAppend(qs: seq<Quote>, q: Quote)
    ensures forall c :: c in Categories(qs + [q]) <==> c in Categories(qs) || c == q.category
  {
    CategoriesSpec(qs);
    CategoriesSpec(qs + [q]);
    var ext := qs + [q];
    forall c ensures Occurs(ext, c) <==> Occurs(qs, c) || c == q.category {
      if Occurs(ext, c) {
        var i :| 0 <= i < |ext| && ext[i].category == c;
        if i < |qs| {
          assert qs[i].category == c;
        }
      }
      if Occurs(qs, c) {
        var i :| 0 <= i < |qs| && qs[i].category == c;
        assert ext[i].category == c;
      }
      if c == q.category {
        assert ext[|qs|].category == c;
      }
    }
  }

  /** Categories "b", "a", "a" give the list "a", "b". */
  lemma IndexExample(t: Str)
    ensures Categories([Quote(t, Lit("b")), Quote(t, Lit("a")), Quote(t, Lit("a"))])
         == [Lit("a"), Lit("b")]
  {
    var a, b := Lit("a"), Lit("b");
    assert a == [97 as CodeUnit] && b == [98 as CodeUnit];
    var qs := [Quote(t, b), Quote(t, a), Quote(t, a)];
    var s := [a, b];
    assert Below(a, b);
    forall c ensures c in s <==> Occurs(qs, c) {
      if c == a {
        assert qs[1].category == c;
      }
      if c == b {
        assert qs[0].category == c;
      }
    }
    CategoriesCharacterized(qs, s);
  }
}
