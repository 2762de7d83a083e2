/**
  JavaScript strings as the page sees them: sequences of UTF-16 code units,
  with `String.prototype.trim` and the code-unit order that
  `Array.prototype.sort` uses when it is given no comparator.
*/
module JsString {

  /** One UTF-16 code unit. */
  newtype CodeUnit = u: int | 0 <= u < 0x1_0000

  /** A JavaScript string value. */
  type Str = seq<CodeUnit>

  /**
    The code units of a string literal of the page. Every character the page
    writes lies in the Basic Multilingual Plane and is one code unit; any
    other character would stand for U+FFFD here.
  */
  function Lit(s: string): Str
  {
    seq(|s|, i requires 0 <= i < |s| => if s[i] as int < 0x1_0000 then s[i] as int as CodeUnit else 0xFFFD)
  }

  // ---------------------------------------------------------------------------
  // trim

  /** The code units `trim` removes: ECMAScript WhiteSpace and LineTerminator. */
  predicate IsWhitespace(u: CodeUnit)
  {
    || u == 0x09 || u == 0x0B || u == 0x0C || u == 0x20 || u == 0xA0 || u == 0xFEFF
    || u == 0x1680 || 0x2000 <= u <= 0x200A || u == 0x202F || u == 0x205F || u == 0x3000
    || u == 0x0A || u == 0x0D || u == 0x2028 || u == 0x2029
  }

  predicate AllWhitespace(s: Str)
  {
    forall i :: 0 <= i < |s| ==> IsWhitespace(s[i])
  }

  /** Neither end of `s` is whitespace. */
  predicate IsTrimmed(s: Str)
  {
    s == [] || (!IsWhitespace(s[0]) && !IsWhitespace(s[|s| - 1]))
  }

  /** `s` without its leading whitespace: a suffix of `s`, and what was cut is whitespace. */
  function TrimStart(s: Str): (t: Str)
    ensures |t| <= |s| && t == s[|s| - |t|..]
    ensures AllWhitespace(s[..|s| - |t|])
    ensures t == [] || !IsWhitespace(t[0])
    decreases |s|
  {
    if s != [] && IsWhitespace(s[0]) then
      var t := TrimStart(s[1..]);
      assert s[..|s| - |t|] == [s[0]] + s[1..][..|s| - 1 - |t|];
      t
    else s
  }

  /** `s` without its trailing whitespace: a prefix of `s`, and what was cut is whitespace. */
  function TrimEnd(s: Str): (t: Str)
    ensures |t| <= |s| && t == s[..|t|]
    ensures AllWhitespace(s[|t|..])
    ensures t == [] || !IsWhitespace(t[|t| - 1])
    decreases |s|
  {
    if s != [] && IsWhitespace(s[|s| - 1]) then
      var t := TrimEnd(s[..|s| - 1]);
      assert s[|t|..] == s[..|s| - 1][|t|..] + [s[|s| - 1]];
      t
    else s
  }

  /** `String.prototype.trim`. */
  function Trim(s: Str): (t: Str)
    ensures IsTrimmed(t)
  {
    var u := TrimStart(s);
    var t := TrimEnd(u);
    assert t != [] ==> t[0] == u[0];
    t
  }

  /** Leading whitespace up to the first other code unit is exactly what TrimStart cuts. */
  lemma {:induction false} TrimStartCuts(s: Str, a: nat)
    requires a <= |s| && AllWhitespace(s[..a])
    requires a == |s| || !IsWhitespace(s[a])
    ensures TrimStart(s) == s[a..]
    decreases a
  {
    if a > 0 {
      assert IsWhitespace(s[..a][0]);
      assert s[1..][..a - 1] == s[..a][1..];
      TrimStartCuts(s[1..], a - 1);
      assert s[1..][a - 1..] == s[a..];
    }
  }

  /** Trailing whitespace after the last other code unit is exactly what TrimEnd cuts. */
  lemma {:induction false} TrimEndCuts(s: Str, b: nat)
    requires b <= |s| && AllWhitespace(s[b..])
    requires b == 0 || !IsWhitespace(s[b - 1])
    ensures TrimEnd(s) == s[..b]
    decreases |s| - b
  {
    if b < |s| {
      assert IsWhitespace(s[b..][|s| - 1 - b]);
      var p := s[..|s| - 1];
      assert p[b..] == s[b..][..|s| - 1 - b];
      TrimEndCuts(p, b);
      assert p[..b] == s[..b];
    }
  }

  /**
    `trim` is characterised without reference to how it is computed: if
    `s[a..b]` is a non-empty slice with no whitespace at either end and only
    whitespace around it, it is what `trim` returns.
  */
  lemma TrimIsCore(s: Str, a: nat, b: nat)
    requires a < b <= |s|
    requires AllWhitespace(s[..a]) && AllWhitespace(s[b..])
    requires !IsWhitespace(s[a]) && !IsWhitespace(s[b - 1])
    ensures Trim(s) == s[a..b]
  {
    TrimStartCuts(s, a);
    TrimEndOfSuffix(s, a, b);
  }

  lemma TrimEndOfSuffix(s: Str, a: nat, b: nat)
    requires a < b <= |s|
    requires AllWhitespace(s[b..]) && !IsWhitespace(s[b - 1])
    ensures TrimEnd(s[a..]) == s[a..b]
  {
    var u := s[a..];
    assert u[b - a..] == s[b..] && u[b - a - 1] == s[b - 1];
    TrimEndCuts(u, b - a);
    assert u[..b - a] == s[a..b];
  }

  /** `trim` gives the empty string exactly when the input is all whitespace. */
  lemma TrimEmptyIff(s: Str)
    ensures Trim(s) == [] <==> AllWhitespace(s)
  {
    if AllWhitespace(s) {
      TrimStartCuts(s, |s|);
    }
  }

  /** Trimming a second time changes nothing. */
  lemma TrimIdempotent(s: Str)
    ensures Trim(Trim(s)) == Trim(s)
  {
    var t := Trim(s);
    if t != [] {
      assert t[..0] == [] && t[|t|..] == [];
      TrimIsCore(t, 0, |t|);
      assert t[0..|t|] == t;
    }
  }

  // ---------------------------------------------------------------------------
  // code-unit order

  /**
    `a` sorts strictly before `b` under the default comparison of
    `Array.prototype.sort`: at the first differing position `a` has the
    smaller code unit, or `a` is a proper prefix of `b`.
  */
  predicate Below(a: Str, b: Str)
  {
    if a == [] then b != []
    else if b == [] then false
    else if a[0] != b[0] then a[0] < b[0]
    else Below(a[1..], b[1..])
  }

  lemma {:induction false} BelowIrreflexive(a: Str)
    ensures !Below(a, a)
  {
    if a != [] {
      BelowIrreflexive(a[1..]);
    }
  }

  lemma {:induction false} BelowAsymmetric(a: Str, b: Str)
    ensures !(Below(a, b) && Below(b, a))
  {
    if a != [] && b != [] && a[0] == b[0] {
      BelowAsymmetric(a[1..], b[1..]);
    }
  }

  lemma {:induction false} BelowTransitive(a: Str, b: Str, c: Str)
    requires Below(a, b) && Below(b, c)
    ensures Below(a, c)
  {
    if a != [] && a[0] == b[0] && b[0] == c[0] {
      BelowTransitive(a[1..], b[1..], c[1..]);
    }
  }

  /** Any two different strings are ordered one way or the other. */
  lemma {:induction false} BelowTotal(a: Str, b: Str)
    ensures a == b || Below(a, b) || Below(b, a)
  {
    if a != [] && b != [] && a[0] == b[0] {
      BelowTotal(a[1..], b[1..]);
      if a[1..] == b[1..] {
        assert a == [a[0]] + a[1..] && b == [b[0]] + b[1..];
      }
    }
  }

  /** A proper prefix sorts first. */
  lemma {:induction false} BelowProperPrefix(a: Str, b: Str)
    requires |a| < |b| && a == b[..|a|]
    ensures Below(a, b)
  {
    if a != [] {
      assert a[0] == b[0];
      assert a[1..] == b[1..][..|a| - 1];
      BelowProperPrefix(a[1..], b[1..]);
    }
  }

  /** At the first differing position, the smaller code unit sorts first. */
  lemma {:induction false} BelowFirstDifference(a: Str, b: Str, k: nat)
    requires k < |a| && k < |b| && a[..k] == b[..k] && a[k] < b[k]
    ensures Below(a, b)
  {
    if k > 0 {
      assert a[0] == a[..k][0] == b[..k][0] == b[0];
      assert a[1..][..k - 1] == a[..k][1..] && b[1..][..k - 1] == b[..k][1..];
      BelowFirstDifference(a[1..], b[1..], k - 1);
    }
  }
}
