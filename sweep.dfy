/**
 * Pieces shared by the two parameter-sweep builders
 * (scripts/01_prepare_input_parameters/generate_param_df.py and
 * scripts/01_prepare_input_parameters.py): itertools.product over two lists,
 * pandas' drop_duplicates (first occurrence kept), and Python's str() of an
 * integer as used in the f-string run names.
 */
module Sweep {

  /** A cell of a parameter table: an int, a float kept as its literal text, or a str. */
  datatype Value = IntV(i: int) | FloatV(text: string) | StrV(s: string)

  /** str() of a cell, as pandas' astype(str) and f-strings render it. */
  function Str(v: Value): string
  {
    match v
    case IntV(i) => IntStr(i)
    case FloatV(text) => text
    case StrV(s) => s
  }

  predicate NoDuplicates<T(==)>(s: seq<T>)
  {
    forall i, j :: 0 <= i < j < |s| ==> s[i] != s[j]
  }

  // ---------------------------------------------------------------------
  // Lists built by appending

  /** A list built by appending s[0], s[1], ... is s[..i] after i appends. */
  lemma PrefixExtend<T>(s: seq<T>, done: seq<T>, i: nat, x: T)
    requires i < |s| && done == s[..i] && x == s[i]
    ensures done + [x] == s[..i + 1]
  {
  }

  // ---------------------------------------------------------------------
  // range() and itertools.product

  /** range(n): 0, 1, ..., n - 1. */
  function Range(n: nat): (r: seq<int>)
    ensures |r| == n && forall j :: 0 <= j < n ==> r[j] == j
  {
    if n == 0 then [] else Range(n - 1) + [n - 1]
  }

  /** All pairs, the first list outermost (the second varies fastest). */
  function Product<X, Y>(xs: seq<X>, ys: seq<Y>): seq<(X, Y)>
  {
    if xs == [] then []
    else seq(|ys|, j requires 0 <= j < |ys| => (xs[0], ys[j])) + Product(xs[1..], ys)
  }

  lemma {:induction false} ProductLength<X, Y>(xs: seq<X>, ys: seq<Y>)
    ensures |Product(xs, ys)| == |xs| * |ys|
  {
    if xs != [] {
      ProductLength(xs[1..], ys);
      assert |xs| * |ys| == |ys| + (|xs| - 1) * |ys|;
    }
  }

  /** The pair (xs[a], ys[b]) sits at position a * |ys| + b. */
  lemma {:induction false} ProductAt<X, Y>(xs: seq<X>, ys: seq<Y>, a: nat, b: nat)
    requires a < |xs| && b < |ys|
    ensures |Product(xs, ys)| == |xs| * |ys|
    ensures a * |ys| + b < |xs| * |ys|
    ensures Product(xs, ys)[a * |ys| + b] == (xs[a], ys[b])
  {
    ProductLength(xs, ys);
    MulMonotone(a, |xs| - 1, |ys|);
    assert (|xs| - 1) * |ys| + |ys| == |xs| * |ys|;
    if a > 0 {
      ProductAt(xs[1..], ys, a - 1, b);
      assert a * |ys| + b == |ys| + ((a - 1) * |ys| + b);
    }
  }

  lemma MulMonotone(a: nat, c: nat, n: nat)
    requires a <= c
    ensures a * n <= c * n
  {
  }

  /** Position k holds the pair (xs[k / |ys|], ys[k % |ys|]). */
  lemma ProductIndex<X, Y>(xs: seq<X>, ys: seq<Y>, k: nat)
    requires k < |xs| * |ys|
    ensures |Product(xs, ys)| == |xs| * |ys|
    ensures 0 < |ys| && k / |ys| < |xs|
    ensures Product(xs, ys)[k] == (xs[k / |ys|], ys[k % |ys|])
  {
    var n := |ys|;
    assert n > 0;
    var a, b := k / n, k % n;
    assert k == a * n + b;
    if a >= |xs| {
      MulMonotone(|xs|, a, n);
      assert false;
    }
    ProductAt(xs, ys, a, b);
  }

  /** Every pair of the product takes its first entry from xs and its second from ys. */
  lemma {:induction false} ProductMembers<X, Y>(xs: seq<X>, ys: seq<Y>, p: (X, Y))
    ensures p in Product(xs, ys) ==> p.0 in xs && p.1 in ys
  {
    if xs != [] && p in Product(xs, ys) {
      var head := seq(|ys|, j requires 0 <= j < |ys| => (xs[0], ys[j]));
      if p in Product(xs[1..], ys) {
        ProductMembers(xs[1..], ys, p);
        assert p.0 in xs by {
          var i :| 0 <= i < |xs[1..]| && xs[1..][i] == p.0;
          assert xs[i + 1] == p.0;
        }
      } else {
        assert p in head;
      }
    }
  }

  /** Distinct entries in both lists give distinct pairs. */
  lemma {:induction false} ProductNoDuplicates<X, Y>(xs: seq<X>, ys: seq<Y>)
    requires NoDuplicates(xs) && NoDuplicates(ys)
    ensures NoDuplicates(Product(xs, ys))
  {
    if xs != [] {
      var head := seq(|ys|, j requires 0 <= j < |ys| => (xs[0], ys[j]));
      var rest := Product(xs[1..], ys);
      assert NoDuplicates(xs[1..]) by {
        forall i, j | 0 <= i < j < |xs[1..]|
          ensures xs[1..][i] != xs[1..][j]
        {
          assert xs[1..][i] == xs[i + 1] && xs[1..][j] == xs[j + 1];
        }
      }
      ProductNoDuplicates(xs[1..], ys);
      assert xs[0] !in xs[1..] by {
        forall i | 0 <= i < |xs[1..]|
          ensures xs[1..][i] != xs[0]
        {
          assert xs[1..][i] == xs[i + 1];
        }
      }
      forall i, j | 0 <= i < j < |head + rest|
        ensures (head + rest)[i] != (head + rest)[j]
      {
        if i < |head| <= j {
          ProductMembers(xs[1..], ys, rest[j - |head|]);
        }
      }
    }
  }

  // ---------------------------------------------------------------------
  // drop_duplicates(): keep the first occurrence of every row, in order

  function Dedup<T(==)>(s: seq<T>): seq<T>
  {
    if s == [] then []
    else
      var init := s[..|s| - 1];
      Dedup(init) + (if s[|s| - 1] in init then [] else [s[|s| - 1]])
  }

  lemma {:induction false} DedupSameElements<T>(s: seq<T>)
    ensures forall x :: x in Dedup(s) <==> x in s
  {
    if s != [] {
      var init := s[..|s| - 1];
      DedupSameElements(init);
      assert s == init + [s[|s| - 1]];
    }
  }

  lemma {:induction false} DedupNoDuplicates<T>(s: seq<T>)
    ensures NoDuplicates(Dedup(s))
  {
    if s != [] {
      var init := s[..|s| - 1];
      DedupNoDuplicates(init);
      DedupSameElements(init);
    }
  }

  /** A row that is the first of its kind is kept; a repeat is dropped. */
  lemma DedupStep<T>(s: seq<T>, m: nat)
    requires m < |s|
    ensures Dedup(s[..m + 1])
         == Dedup(s[..m]) + (if s[m] in s[..m] then [] else [s[m]])
  {
    assert s[..m + 1][..m] == s[..m];
  }

  /** s is made of blocks of k rows, block a repeating vals[a]. */
  predicate Blocked<T(==)>(s: seq<T>, vals: seq<T>, k: nat)
  {
    && k >= 1 && |s| == |vals| * k
    && forall i :: 0 <= i < |s| ==> i / k < |vals| && s[i] == vals[i / k]
  }

  /**
   * A sequence made of blocks of k equal rows, one block per entry of vals,
   * with the entries of vals pairwise distinct, deduplicates to vals.
   */
  lemma DedupBlocks<T>(s: seq<T>, vals: seq<T>, k: nat)
    requires Blocked(s, vals, k) && NoDuplicates(vals)
    ensures Dedup(s) == vals
  {
    if vals != [] {
      var a := |vals| - 1;
      assert a * k + k == |s|;
      DedupBlocksUpTo(s, vals, k, a, k);
      assert s[..|s|] == s && vals[..a + 1] == vals;
    }
  }

  lemma DivOf(m: int, k: int, q: int, r: int)
    requires k > 0 && 0 <= r < k && m == q * k + r
    ensures m / k == q && m % k == r
  {
    var q', r' := m / k, m % k;
    assert m == q' * k + r';
    if q' > q {
      MulMonotoneInt(q + 1, q', k);
      assert false;
    } else if q' < q {
      MulMonotoneInt(q' + 1, q, k);
      assert false;
    }
  }

  lemma MulMonotoneInt(a: int, c: int, n: int)
    requires a <= c && 0 <= n
    ensures a * n <= c * n
  {
    assert c * n - a * n == (c - a) * n;
  }

  /** Row c of block a is vals[a]. */
  lemma BlockAt<T>(s: seq<T>, vals: seq<T>, k: nat, a: nat, c: nat)
    requires Blocked(s, vals, k) && a < |vals| && c < k
    ensures a * k + c < |s| && s[a * k + c] == vals[a]
  {
    MulMonotone(a + 1, |vals|, k);
    assert (a + 1) * k == a * k + k;
    DivOf(a * k + c, k, a, c);
  }

  /** Every row before block a belongs to an earlier block, so differs from vals[a]. */
  lemma BeforeBlock<T>(s: seq<T>, vals: seq<T>, k: nat, a: nat, i: nat)
    requires Blocked(s, vals, k) && NoDuplicates(vals)
    requires a < |vals| && i < a * k
    ensures s[i] != vals[a]
  {
    MulMonotone(a, |vals|, k);
    var b := i / k;
    assert i == b * k + i % k;
    if b >= a {
      MulMonotone(a, b, k);
      assert false;
    }
  }

  /** A row equal to its predecessor is dropped. */
  lemma DedupRepeat<T>(s: seq<T>, m: nat)
    requires 0 < m < |s| && s[m] == s[m - 1]
    ensures Dedup(s[..m + 1]) == Dedup(s[..m])
  {
    DedupStep(s, m);
    assert s[..m][m - 1] == s[m];
  }

  /** A row unlike every earlier one is kept. */
  lemma DedupFresh<T>(s: seq<T>, m: nat)
    requires m < |s| && forall i :: 0 <= i < m ==> s[i] != s[m]
    ensures Dedup(s[..m + 1]) == Dedup(s[..m]) + [s[m]]
  {
    DedupStep(s, m);
  }

  /** The rows up to and including row c - 1 of block a deduplicate to vals[..a + 1]. */
  lemma {:induction false} DedupBlocksUpTo<T>(s: seq<T>, vals: seq<T>, k: nat, a: nat, c: nat)
    requires Blocked(s, vals, k) && NoDuplicates(vals)
    requires a < |vals| && 1 <= c <= k
    ensures a * k + c <= |s|
    ensures Dedup(s[..a * k + c]) == vals[..a + 1]
    decreases a, c
  {
    if c > 1 {
      DedupBlocksUpTo(s, vals, k, a, c - 1);
      RepeatInBlock(s, vals, k, a, c);
    } else {
      if a > 0 {
        DedupBlocksUpTo(s, vals, k, a - 1, k);
        assert (a - 1) * k + k == a * k;
      }
      FirstOfBlock(s, vals, k, a);
    }
  }

  /** Row c - 1 of block a, for c > 1, repeats row c - 2 and is dropped. */
  lemma RepeatInBlock<T>(s: seq<T>, vals: seq<T>, k: nat, a: nat, c: nat)
    requires Blocked(s, vals, k) && a < |vals| && 1 < c <= k
    requires a * k + c - 1 <= |s| && Dedup(s[..a * k + c - 1]) == vals[..a + 1]
    ensures a * k + c <= |s| && Dedup(s[..a * k + c]) == vals[..a + 1]
  {
    BlockAt(s, vals, k, a, c - 1);
    BlockAt(s, vals, k, a, c - 2);
    DedupRepeat(s, a * k + c - 1);
  }

  /** Row 0 of block a is new, and follows the earlier blocks, which deduplicate to vals[..a]. */
  lemma FirstOfBlock<T>(s: seq<T>, vals: seq<T>, k: nat, a: nat)
    requires Blocked(s, vals, k) && NoDuplicates(vals) && a < |vals|
    requires a * k <= |s| && Dedup(s[..a * k]) == vals[..a]
    ensures a * k + 1 <= |s| && Dedup(s[..a * k + 1]) == vals[..a + 1]
  {
    BlockAt(s, vals, k, a, 0);
    var m := a * k;
    forall i | 0 <= i < m
      ensures s[i] != s[m]
    {
      BeforeBlock(s, vals, k, a, i);
    }
    DedupFresh(s, m);
    assert vals[..a + 1] == vals[..a] + [vals[a]];
  }

  // ---------------------------------------------------------------------
  // str() of an integer, and why the run names built from it are distinct

  function Digit(d: nat): char
    requires d < 10
  {
    "0123456789"[d]
  }

  /** Decimal digits of a natural number, most significant first, no leading zeros. */
  function Decimal(n: nat): string
  {
    if n < 10 then [Digit(n)] else Decimal(n / 10) + [Digit(n % 10)]
  }

  /** Python's str() of an int. */
  function IntStr(i: int): string
  {
    if i < 0 then "-" + Decimal(-i) else Decimal(i)
  }

  predicate IsDigit(c: char)
  {
    '0' <= c <= '9'
  }

  predicate AllDigits(s: string)
  {
    forall i :: 0 <= i < |s| ==> IsDigit(s[i])
  }

  /** Value of a non-empty string of decimal digits. */
  function ParseDecimal(s: string): nat
    requires |s| >= 1 && AllDigits(s)
  {
    var last := (s[|s| - 1] - '0') as nat;
    if |s| == 1 then last else 10 * ParseDecimal(s[..|s| - 1]) + last
  }

  /** Cells holding a name and that name followed by "_seed_" and a seed. */
  lemma NameExtends(u: Value, r: Value, name: string, longName: string, sd: int)
    requires u == StrV(name) && r == StrV(longName) && longName == name + "_seed_" + IntStr(sd)
    ensures r == StrV(Str(u) + "_seed_" + IntStr(sd))
  {
  }

  /** A digit character reads back as its value. */
  lemma DigitValue(d: nat)
    requires d < 10
    ensures IsDigit(Digit(d)) && (Digit(d) - '0') as nat == d
  {
  }

  /** Decimal(n) is a non-empty string of digits that reads back as n. */
  lemma {:induction false} DecimalRoundTrip(n: nat)
    ensures |Decimal(n)| >= 1 && AllDigits(Decimal(n))
    ensures ParseDecimal(Decimal(n)) == n
  {
    if n < 10 {
      DigitValue(n);
    } else {
      DecimalRoundTrip(n / 10);
      DigitValue(n % 10);
      var s := Decimal(n);
      assert s == Decimal(n / 10) + [Digit(n % 10)];
      assert s[..|s| - 1] == Decimal(n / 10);
      assert ParseDecimal(s) == 10 * (n / 10) + n % 10;
    }
  }

  /** str(i): a leading minus sign exactly for negative i, then the digits of |i|. */
  lemma SignAndDigits(i: int)
    ensures |IntStr(i)| >= 1 && (IntStr(i)[0] == '-' <==> i < 0)
    ensures
      var digits := if i < 0 then IntStr(i)[1..] else IntStr(i);
      && |digits| >= 1 && AllDigits(digits)
      && ParseDecimal(digits) == (if i < 0 then -i else i)
    ensures '_' !in IntStr(i)
  {
    var n := if i < 0 then -i else i;
    DecimalRoundTrip(n);
    assert IsDigit(Decimal(n)[0]);
    if i < 0 {
      assert IntStr(i)[1..] == Decimal(n);
    }
  }

  /** str() is injective on integers, and never produces an underscore. */
  lemma IntStrInjective(i: int, j: int)
    ensures '_' !in IntStr(i)
    ensures IntStr(i) == IntStr(j) ==> i == j
  {
    SignAndDigits(i);
    SignAndDigits(j);
  }

  /**
   * A field free of the separator is recovered from field + separator-led
   * suffix: the first separator marks where the field ends.
   */
  lemma SplitAtSeparator(p: string, q: string, u: string, v: string)
    requires '_' !in p && '_' !in q && |u| >= 1 && |v| >= 1 && u[0] == '_' && v[0] == '_'
    requires p + u == q + v
    ensures p == q && u == v
  {
    SeparatorAt(p, u);
    SeparatorAt(q, v);
    assert |p| == |q|;
    assert p == (p + u)[..|p|] && q == (q + v)[..|q|];
    assert u == (p + u)[|p|..] && v == (q + v)[|q|..];
  }

  /** In field + separator-led suffix, the first separator sits right after the field. */
  lemma SeparatorAt(p: string, u: string)
    requires '_' !in p && |u| >= 1 && u[0] == '_'
    ensures (p + u)[|p|] == '_'
    ensures forall i :: 0 <= i < |p| ==> (p + u)[i] != '_'
  {
  }

  /** A heading, then a separator-free field, then a separator-led rest: the field and the rest are recovered. */
  lemma FieldThenRest(head: string, x: string, t: string, x': string, t': string)
    requires head + x + t == head + x' + t'
    requires '_' !in x && '_' !in x' && |t| >= 1 && |t'| >= 1 && t[0] == '_' && t'[0] == '_'
    ensures x == x' && t == t'
  {
    assert head + x + t == head + (x + t);
    assert head + x' + t' == head + (x' + t');
    DropCommonPrefix(head, x + t, x' + t');
    SplitAtSeparator(x, x', t, t');
  }

  /**
   * head + a + p + b + q + c determines a, b and c when the fields are free of
   * the separator and the labels p and q start with it.
   */
  lemma ThreeFields(head: string, a: string, p: string, b: string, q: string, c: string,
                    a': string, b': string, c': string)
    requires head + a + p + b + q + c == head + a' + p + b' + q + c'
    requires '_' !in a && '_' !in b && '_' !in a' && '_' !in b'
    requires |p| >= 1 && p[0] == '_' && |q| >= 1 && q[0] == '_'
    ensures a == a' && b == b' && c == c'
  {
    assert head + a + p + b + q + c == head + a + (p + b + q + c);
    assert head + a' + p + b' + q + c' == head + a' + (p + b' + q + c');
    FieldThenRest(head, a, p + b + q + c, a', p + b' + q + c');
    assert p + b + q + c == p + b + (q + c);
    assert p + b' + q + c' == p + b' + (q + c');
    FieldThenRest(p, b, q + c, b', q + c');
    DropCommonPrefix(q, c, c');
  }

  lemma DropCommonPrefix(c: string, u: string, v: string)
    requires c + u == c + v
    ensures u == v
  {
    assert u == (c + u)[|c|..];
    assert v == (c + v)[|c|..];
  }
}
