/** Small shared vocabulary: an optional value, string prefixes and suffixes,
    decimal integers as Python's `str` and `int` see them, sequence filters
    and de-duplication, and POSIX path joining. */

module Wrappers {

  datatype Option<+T> = None | Some(value: T)
}

module Strings {
  import opened Wrappers

  predicate StartsWith(s: string, prefix: string) {
    |prefix| <= |s| && s[..|prefix|] == prefix
  }

  predicate EndsWith(s: string, suffix: string) {
    |suffix| <= |s| && s[|s| - |suffix|..] == suffix
  }

  /** The text before the first occurrence of `sep`, i.e. `s.split(sep)[0]`;
      the whole of `s` when `sep` does not occur. */
  function FirstField(s: string, sep: char): (r: string)
    ensures StartsWith(s, r)
    ensures sep !in r
    ensures |r| < |s| ==> s[|r|] == sep
  {
    if s == [] then []
    else if s[0] == sep then []
    else [s[0]] + FirstField(s[1..], sep)
  }

  /** The first field is determined by where the first separator stands. */
  lemma {:induction false} FirstFieldOf(a: string, sep: char, b: string)
    requires sep !in a
    ensures FirstField(a + [sep] + b, sep) == a
  {
    if a != [] {
      assert (a + [sep] + b)[1..] == a[1..] + [sep] + b;
      FirstFieldOf(a[1..], sep, b);
    }
  }

  predicate IsDigit(c: char) {
    '0' <= c <= '9'
  }

  predicate AllDigits(s: string) {
    forall i :: 0 <= i < |s| ==> IsDigit(s[i])
  }

  function DigitChar(d: nat): (c: char)
    requires d < 10
    ensures IsDigit(c)
  {
    ('0' as int + d) as char
  }

  /** Value of a run of decimal digits, most significant digit first. */
  function DigitsValue(s: string): nat
    requires AllDigits(s)
  {
    if s == [] then 0
    else DigitsValue(s[..|s| - 1]) * 10 + (s[|s| - 1] as int - '0' as int)
  }

  /** Decimal digits of a natural number, without leading zeros. */
  function NatDigits(n: nat): (r: string)
    ensures r != [] && AllDigits(r)
  {
    if n < 10 then [DigitChar(n)] else NatDigits(n / 10) + [DigitChar(n % 10)]
  }

  /** Python's `str(n)` for an integer `n`. */
  function Show(n: int): (r: string)
    ensures r != []
    ensures '_' !in r && '/' !in r
  {
    if n < 0 then "-" + NatDigits(-n) else NatDigits(n)
  }

  /** The integer literals accepted here: an optional sign and a non-empty run
      of decimal digits. */
  predicate IsIntLiteral(s: string) {
    if |s| > 0 && (s[0] == '-' || s[0] == '+') then |s| > 1 && AllDigits(s[1..])
    else |s| > 0 && AllDigits(s)
  }

  /** Python's `int(s)` on the literals above; `None` stands for `ValueError`. */
  function ParseInt(s: string): (r: Option<int>)
    ensures r.Some? <==> IsIntLiteral(s)
    ensures r.Some? && AllDigits(s) ==> r.value >= 0
  {
    if |s| > 0 && (s[0] == '-' || s[0] == '+') then
      if |s| > 1 && AllDigits(s[1..]) then
        var magnitude: int := DigitsValue(s[1..]);
        Some(if s[0] == '-' then -magnitude else magnitude)
      else None
    else if |s| > 0 && AllDigits(s) then Some(DigitsValue(s))
    else None
  }

  lemma {:induction false} NatDigitsValue(n: nat)
    ensures DigitsValue(NatDigits(n)) == n
  {
    if n >= 10 {
      var d := NatDigits(n / 10) + [DigitChar(n % 10)];
      assert d[..|d| - 1] == NatDigits(n / 10);
      NatDigitsValue(n / 10);
    }
  }

  /** Parsing what `str` printed gives the number back. */
  lemma ParseShow(n: int)
    ensures ParseInt(Show(n)) == Some(n)
  {
    if n < 0 {
      assert Show(n)[1..] == NatDigits(-n);
      NatDigitsValue(-n);
    } else {
      NatDigitsValue(n);
    }
  }

  /** Distinct integers are printed differently. */
  lemma ShowInjective(a: int, b: int)
    requires Show(a) == Show(b)
    ensures a == b
  {
    ParseShow(a);
    ParseShow(b);
  }
}

module Seqs {
  import opened Wrappers

  /** Position of the first element that satisfies `p`. */
  function FirstIndex<T(!new)>(s: seq<T>, p: T -> bool): (r: Option<nat>)
    ensures r.None? <==> forall j :: 0 <= j < |s| ==> !p(s[j])
    ensures r.Some? ==> r.value < |s| && p(s[r.value]) && forall j :: 0 <= j < r.value ==> !p(s[j])
  {
    if s == [] then None
    else if p(s[0]) then Some(0)
    else
      var rest := FirstIndex(s[1..], p);
      if rest.None? then None else Some(rest.value + 1)
  }

  /** Position of the first occurrence of `x` in `s`. */
  function IndexOf<T(==,!new)>(s: seq<T>, x: T): (r: nat)
    requires x in s
    ensures r < |s| && s[r] == x
    ensures forall j :: 0 <= j < r ==> s[j] != x
  {
    var k :| 0 <= k < |s| && s[k] == x;
    var i := FirstIndex(s, y => y == x);
    assert (y => y == x)(s[k]);
    i.value
  }

  /** Past a different head, the first occurrence moves back by one. */
  lemma IndexOfTail<T(!new)>(s: seq<T>, x: T)
    requires x in s && s[0] != x
    ensures x in s[1..] && IndexOf(s, x) == 1 + IndexOf(s[1..], x)
  {
    var i := IndexOf(s, x);
    assert s[1..][i - 1] == x;
  }

  /** The elements of `s` that satisfy `p`, in their original order
      (a Python list comprehension with an `if`). */
  function Filter<T(!new)>(s: seq<T>, p: T -> bool): (r: seq<T>)
    ensures |r| <= |s|
    ensures forall x :: x in r <==> x in s && p(x)
    ensures forall x :: multiset(r)[x] == if p(x) then multiset(s)[x] else 0
  {
    if s == [] then []
    else
      assert s == [s[0]] + s[1..];
      (if p(s[0]) then [s[0]] else []) + Filter(s[1..], p)
  }

  /** `a` is obtained from `b` by deleting elements. */
  predicate IsSubsequence<T(==)>(a: seq<T>, b: seq<T>)
    decreases |b|
  {
    a == [] ||
    (b != [] && ((a[0] == b[0] && IsSubsequence(a[1..], b[1..])) || IsSubsequence(a, b[1..])))
  }

  lemma {:induction false} FilterIsSubsequence<T(!new)>(s: seq<T>, p: T -> bool)
    ensures IsSubsequence(Filter(s, p), s)
  {
    if s != [] {
      FilterIsSubsequence(s[1..], p);
      if p(s[0]) {
        assert Filter(s, p) == [s[0]] + Filter(s[1..], p);
        assert Filter(s, p)[1..] == Filter(s[1..], p);
      } else {
        assert Filter(s, p) == Filter(s[1..], p);
      }
    }
  }

  /** The head of a filtered sequence is the first element that satisfies the
      filter: "first match wins". */
  lemma {:induction false} FilterHead<T(!new)>(s: seq<T>, p: T -> bool, k: nat)
    requires k < |s| && p(s[k])
    requires forall j :: 0 <= j < k ==> !p(s[j])
    ensures Filter(s, p) != [] && Filter(s, p)[0] == s[k]
  {
    if k > 0 {
      FilterHead(s[1..], p, k - 1);
    }
  }

  /** The filter is empty exactly when nothing satisfies it. */
  lemma FilterEmpty<T(!new)>(s: seq<T>, p: T -> bool)
    ensures Filter(s, p) == [] <==> forall j :: 0 <= j < |s| ==> !p(s[j])
  {
    if Filter(s, p) == [] {
      forall j | 0 <= j < |s| ensures !p(s[j]) {
        assert s[j] in s;
      }
    } else {
      assert Filter(s, p)[0] in Filter(s, p);
    }
  }

  predicate NoDuplicates<T(==)>(s: seq<T>) {
    forall i, j :: 0 <= i < j < |s| ==> s[i] != s[j]
  }

  /** The elements of `s` not in `seen`, each kept at its first occurrence. */
  function DedupFrom<T(==,!new)>(s: seq<T>, seen: set<T>): (r: seq<T>)
    ensures forall x :: x in r <==> x in s && x !in seen
    ensures NoDuplicates(r)
  {
    if s == [] then []
    else if s[0] in seen then DedupFrom(s[1..], seen)
    else [s[0]] + DedupFrom(s[1..], seen + {s[0]})
  }

  /** pandas' `drop_duplicates()` / `unique()`: keep the first occurrence of
      every distinct element. */
  function Dedup<T(==,!new)>(s: seq<T>): (r: seq<T>)
    ensures forall x :: x in r <==> x in s
    ensures NoDuplicates(r)
  {
    DedupFrom(s, {})
  }

  lemma {:induction false} DedupFromIsSubsequence<T(!new)>(s: seq<T>, seen: set<T>)
    ensures IsSubsequence(DedupFrom(s, seen), s)
  {
    if s != [] {
      if s[0] in seen {
        DedupFromIsSubsequence(s[1..], seen);
      } else {
        DedupFromIsSubsequence(s[1..], seen + {s[0]});
        assert DedupFrom(s, seen)[1..] == DedupFrom(s[1..], seen + {s[0]});
      }
    }
  }

  /** De-duplication keeps the original order. */
  lemma DedupIsSubsequence<T(!new)>(s: seq<T>)
    ensures IsSubsequence(Dedup(s), s)
  {
    DedupFromIsSubsequence(s, {});
  }

  /** Every element of `r` occurs in `s`, and `r` lists them in the order of
      their first occurrences in `s`. */
  ghost predicate FirstOrdered<T(!new)>(s: seq<T>, r: seq<T>) {
    && (forall x :: x in r ==> x in s)
    && forall i, j :: 0 <= i < j < |r| ==> IndexOf(s, r[i]) < IndexOf(s, r[j])
  }

  /** Dropping a head that `r` does not contain keeps the order of first
      occurrences. */
  lemma FirstOrderedTail<T(!new)>(s: seq<T>, r: seq<T>)
    requires s != [] && s[0] !in r && FirstOrdered(s[1..], r)
    ensures FirstOrdered(s, r)
  {
    assert s == [s[0]] + s[1..];
    forall i, j | 0 <= i < j < |r|
      ensures IndexOf(s, r[i]) < IndexOf(s, r[j])
    {
      IndexOfTail(s, r[i]);
      IndexOfTail(s, r[j]);
    }
  }

  /** The head of `s`, put in front of an `r` that does not contain it, comes
      first. */
  lemma FirstOrderedCons<T(!new)>(s: seq<T>, r: seq<T>)
    requires s != [] && s[0] !in r && FirstOrdered(s, r)
    ensures FirstOrdered(s, [s[0]] + r)
  {
    var r' := [s[0]] + r;
    forall i, j | 0 <= i < j < |r'|
      ensures IndexOf(s, r'[i]) < IndexOf(s, r'[j])
    {
      assert r'[j] == r[j - 1];
      if i > 0 {
        assert r'[i] == r[i - 1];
      }
    }
  }

  lemma {:induction false} DedupFromFirstOrder<T(!new)>(s: seq<T>, seen: set<T>)
    ensures FirstOrdered(s, DedupFrom(s, seen))
  {
    if s != [] {
      if s[0] in seen {
        DedupFromFirstOrder(s[1..], seen);
        FirstOrderedTail(s, DedupFrom(s[1..], seen));
      } else {
        var rest := DedupFrom(s[1..], seen + {s[0]});
        DedupFromFirstOrder(s[1..], seen + {s[0]});
        FirstOrderedTail(s, rest);
        FirstOrderedCons(s, rest);
      }
    }
  }

  /** De-duplication lists the distinct elements in the order of their first
      occurrences. */
  lemma DedupFirstOrder<T(!new)>(s: seq<T>)
    ensures forall i, j :: 0 <= i < j < |Dedup(s)| ==> IndexOf(s, Dedup(s)[i]) < IndexOf(s, Dedup(s)[j])
  {
    DedupFromFirstOrder(s, {});
    assert Dedup(s) == DedupFrom(s, {});
  }

  /** A sequence without repetitions is left as it is. */
  lemma {:induction false} DedupFromDistinct<T(!new)>(s: seq<T>, seen: set<T>)
    requires NoDuplicates(s)
    requires forall x :: x in s ==> x !in seen
    ensures DedupFrom(s, seen) == s
  {
    if s != [] {
      var rest := s[1..];
      assert s[0] in s;
      forall x | x in rest
        ensures x !in seen + {s[0]}
      {
        var i :| 0 <= i < |rest| && rest[i] == x;
        assert s[i + 1] == x;
      }
      assert NoDuplicates(rest) by {
        assert forall i :: 0 <= i < |rest| ==> rest[i] == s[i + 1];
      }
      DedupFromDistinct(rest, seen + {s[0]});
    }
  }
}

module Paths {
  import opened Strings

  /** POSIX `os.path.join(a, b)`: an absolute `b` replaces `a`; otherwise one
      separator is inserted unless `a` is empty or already ends with one. */
  function Join(a: string, b: string): (r: string)
    ensures EndsWith(r, b)
  {
    if StartsWith(b, "/") then b
    else if a == [] || EndsWith(a, "/") then a + b
    else a + "/" + b
  }

  /** POSIX `os.path.basename(p)`: what follows the last separator. */
  function Basename(p: string): (r: string)
    ensures '/' !in r
    ensures EndsWith(p, r)
    ensures |r| < |p| ==> p[|p| - |r| - 1] == '/'
  {
    if p == [] then []
    else if p[|p| - 1] == '/' then []
    else Basename(p[..|p| - 1]) + [p[|p| - 1]]
  }

  lemma {:induction false} BasenameAfterSeparator(x: string, name: string)
    requires x == [] || x[|x| - 1] == '/'
    requires '/' !in name
    ensures Basename(x + name) == name
  {
    if name != [] {
      var p := x + name;
      assert p[..|p| - 1] == x + name[..|name| - 1];
      BasenameAfterSeparator(x, name[..|name| - 1]);
    } else {
      assert x + name == x;
    }
  }

  /** The last component of a joined path is the component that was joined. */
  lemma BasenameOfJoin(dir: string, name: string)
    requires name != [] && '/' !in name
    ensures Basename(Join(dir, name)) == name
  {
    assert name[0] in name;
    assert !StartsWith(name, "/");
    if dir == [] || EndsWith(dir, "/") {
      assert Join(dir, name) == dir + name;
      BasenameAfterSeparator(dir, name);
    } else {
      assert Join(dir, name) == (dir + "/") + name;
      BasenameAfterSeparator(dir + "/", name);
    }
  }
}
