/** String operations the EV5 validator takes from Python's str type:
    strip(), upper(), split("|"), ", ".join(...) and sorted() on strings. */
module Text {

  /** Python's str.isspace(): the characters strip() removes and the regular
      expression class \s matches in a str pattern. */
  predicate IsSpace(c: char) {
    var n := c as int;
    (0x09 <= n <= 0x0D) || (0x1C <= n <= 0x20) || n == 0x85 || n == 0xA0 || n == 0x1680
    || (0x2000 <= n <= 0x200A) || n == 0x2028 || n == 0x2029 || n == 0x202F
    || n == 0x205F || n == 0x3000
  }

  ghost predicate AllSpace(s: string) {
    forall i :: 0 <= i < |s| ==> IsSpace(s[i])
  }

  /** Every character of s[i..j] is whitespace. */
  ghost predicate SpaceIn(s: string, i: int, j: int) {
    0 <= i <= j <= |s| && forall k :: i <= k < j ==> IsSpace(s[k])
  }

  lemma SpaceInSlice(s: string, i: int, j: int)
    requires SpaceIn(s, i, j)
    ensures AllSpace(s[i..j])
  {
  }

  /** No whitespace at either end. */
  predicate Trimmed(s: string) {
    s == [] || (!IsSpace(s[0]) && !IsSpace(s[|s| - 1]))
  }

  /** `r` sits at offset `i` of `s` with only whitespace around it. */
  ghost predicate Wraps(s: string, r: string, i: int) {
    0 <= i && i + |r| <= |s| && s[i..i + |r|] == r && SpaceIn(s, 0, i) && SpaceIn(s, i + |r|, |s|)
  }

  /** The first index at or after `i` that does not hold whitespace. */
  function SpaceRunFrom(s: string, i: int): (n: int)
    requires 0 <= i <= |s|
    ensures i <= n <= |s| && SpaceIn(s, i, n)
    ensures n < |s| ==> !IsSpace(s[n])
    decreases |s| - i
  {
    if i == |s| || !IsSpace(s[i]) then i else SpaceRunFrom(s, i + 1)
  }

  /** The least index, no lower than `a`, from which s[..j] ends in whitespace. */
  function SpaceRunTo(s: string, a: int, j: int): (n: int)
    requires 0 <= a <= j <= |s|
    ensures a <= n <= j && SpaceIn(s, n, j)
    ensures a < n ==> !IsSpace(s[n - 1])
    decreases j
  {
    if j == a || !IsSpace(s[j - 1]) then j else SpaceRunTo(s, a, j - 1)
  }

  /** Where strip() starts: past the leading whitespace. */
  function StripStart(s: string): (i: nat)
    ensures i <= |s|
  {
    SpaceRunFrom(s, 0)
  }

  /** Where strip() ends: before the trailing whitespace. */
  function StripEnd(s: string): (j: nat)
    ensures StripStart(s) <= j <= |s|
  {
    SpaceRunTo(s, StripStart(s), |s|)
  }

  /** Python's str.strip() without arguments. */
  function Trim(s: string): (r: string)
    ensures |r| <= |s| && Trimmed(r)
  {
    s[StripStart(s)..StripEnd(s)]
  }

  lemma {:induction false} SpaceRunFromAt(s: string, i: int, n: int)
    requires i <= n && SpaceIn(s, i, n) && (n < |s| ==> !IsSpace(s[n]))
    ensures SpaceRunFrom(s, i) == n
    decreases n - i
  {
    if i < n {
      SpaceRunFromAt(s, i + 1, n);
    }
  }

  lemma {:induction false} SpaceRunToAt(s: string, a: int, j: int, n: int)
    requires 0 <= a <= n && SpaceIn(s, n, j) && (a < n ==> !IsSpace(s[n - 1]))
    ensures SpaceRunTo(s, a, j) == n
    decreases j - n
  {
    if n < j {
      SpaceRunToAt(s, a, j - 1, n);
    }
  }

  /** strip() keeps the middle of the string and drops only whitespace. */
  lemma TrimWraps(s: string)
    ensures Wraps(s, Trim(s), StripStart(s))
  {
  }

  /** strip() is characterised by its result: the one trimmed infix of `s`
      that has only whitespace around it. */
  lemma {:induction false} TrimUnique(s: string, r: string, i: int)
    requires Wraps(s, r, i) && Trimmed(r)
    ensures Trim(s) == r
  {
    if r == [] {
      assert SpaceIn(s, 0, |s|) by {
        forall k | 0 <= k < |s| ensures IsSpace(s[k]) {
          if k >= i { assert i + |r| <= k; }
        }
      }
      SpaceRunFromAt(s, 0, |s|);
    } else {
      assert s[i] == r[0] && s[i + |r| - 1] == r[|r| - 1];
      SpaceRunFromAt(s, 0, i);
      SpaceRunToAt(s, i, |s|, i + |r|);
    }
  }

  /** Only an all-whitespace string strips to nothing. */
  lemma TrimEmpty(x: string)
    requires Trim(x) == []
    ensures AllSpace(x)
  {
    TrimWraps(x);
  }

  lemma {:induction false} TrimIdempotent(s: string)
    ensures Trim(Trim(s)) == Trim(s)
  {
    var r := Trim(s);
    assert Wraps(r, r, 0);
    TrimUnique(r, r, 0);
  }

  /** Whitespace added around a string does not change what strip() gives. */
  lemma {:induction false} TrimWrapped(a: string, x: string, b: string)
    requires AllSpace(a) && AllSpace(b)
    ensures Trim(a + x + b) == Trim(x)
  {
    var r := Trim(x);
    var i := StripStart(x);
    TrimWraps(x);
    var s := a + x + b;
    var j := |a| + i;
    assert s[j..j + |r|] == x[i..i + |r|];
    forall k | 0 <= k < j ensures IsSpace(s[k]) {
      if k >= |a| { assert s[k] == x[k - |a|]; }
    }
    forall k | j + |r| <= k < |s| ensures IsSpace(s[k]) {
      if k < |a| + |x| { assert s[k] == x[k - |a|]; } else { assert s[k] == b[k - |a| - |x|]; }
    }
    assert Wraps(s, r, j);
    TrimUnique(s, r, j);
  }

  /** Python's str.upper(), restricted to the ASCII letters. */
  function UpperChar(c: char): char {
    if 'a' <= c <= 'z' then (c as int - 32) as char else c
  }

  function Upper(s: string): (r: string)
    ensures |r| == |s|
  {
    if s == [] then [] else [UpperChar(s[0])] + Upper(s[1..])
  }

  /** upper() maps every character on its own. */
  lemma {:induction false} UpperChars(s: string)
    ensures forall i :: 0 <= i < |s| ==> Upper(s)[i] == UpperChar(s[i])
    decreases |s|
  {
    if s != [] {
      UpperChars(s[1..]);
    }
  }

  predicate NoLower(s: string) {
    forall i :: 0 <= i < |s| ==> !('a' <= s[i] <= 'z')
  }

  lemma {:induction false} UpperResult(s: string)
    ensures NoLower(Upper(s))
    ensures Upper(Upper(s)) == Upper(s)
    ensures NoLower(s) ==> Upper(s) == s
  {
    UpperChars(s);
    UpperChars(Upper(s));
  }

  lemma {:induction false} UpperCharSpace(c: char)
    ensures IsSpace(UpperChar(c)) == IsSpace(c)
  {
  }

  lemma {:induction false} UpperSlice(s: string, i: nat, j: nat)
    requires i <= j <= |s|
    ensures Upper(s)[i..j] == Upper(s[i..j])
  {
    UpperChars(s);
    UpperChars(s[i..j]);
  }

  lemma {:induction false} UpperKeepsSpace(s: string)
    ensures AllSpace(s) ==> AllSpace(Upper(s))
    ensures Trimmed(s) ==> Trimmed(Upper(s))
  {
    UpperChars(s);
    forall k | 0 <= k < |s| ensures IsSpace(Upper(s)[k]) == IsSpace(s[k]) {
      UpperCharSpace(s[k]);
    }
  }

  /** Upper-casing keeps every whitespace character where it is. */
  lemma {:induction false} UpperWraps(s: string, t: string, i: int)
    requires Wraps(s, t, i)
    ensures Wraps(Upper(s), Upper(t), i)
  {
    var u := Upper(s);
    UpperChars(s);
    UpperSlice(s, i, i + |t|);
    forall k | 0 <= k < |s| ensures IsSpace(u[k]) == IsSpace(s[k]) {
      UpperCharSpace(s[k]);
    }
  }

  /** So upper-casing commutes with strip(). */
  lemma {:induction false} UpperTrim(s: string)
    ensures Trim(Upper(s)) == Upper(Trim(s))
  {
    var t := Trim(s);
    TrimWraps(s);
    UpperWraps(s, t, StripStart(s));
    UpperKeepsSpace(t);
    TrimUnique(Upper(s), Upper(t), StripStart(s));
  }

  /** Python's str.strip() followed by upper(), the normalisation applied to
      every code, field type and value. */
  function Normalize(s: string): (r: string)
    ensures |r| <= |s|
  {
    Upper(Trim(s))
  }

  /** A normalised string has no whitespace at either end and no lower-case
      letter. */
  lemma NormalizeShape(s: string)
    ensures Trimmed(Normalize(s)) && NoLower(Normalize(s))
  {
    var t := Trim(s);
    UpperTrim(t);
    TrimIdempotent(s);
    UpperResult(t);
  }

  /** A normalised string is left as it is by a second normalisation. */
  lemma {:induction false} NormalizeIdempotent(s: string)
    ensures Normalize(Normalize(s)) == Normalize(s)
  {
    var r := Normalize(s);
    NormalizeShape(s);
    TrimUnique(r, r, 0) by { assert Wraps(r, r, 0); }
    UpperResult(r);
  }

  /** Index of the first occurrence of `d` in `s`. */
  function FirstIndex(s: string, d: char): (i: nat)
    requires d in s
    ensures i < |s| && s[i] == d && d !in s[..i]
  {
    if s[0] == d then 0
    else
      var k := FirstIndex(s[1..], d);
      assert s[..k + 1] == [s[0]] + s[1..][..k];
      k + 1
  }

  lemma {:induction false} FirstIndexAt(s: string, d: char, i: nat)
    requires i < |s| && s[i] == d && d !in s[..i]
    ensures FirstIndex(s, d) == i
    decreases i
  {
    if i > 0 {
      assert s[0] == s[..i][0];
      assert s[1..][..i - 1] == s[..i][1..];
      FirstIndexAt(s[1..], d, i - 1);
    }
  }

  /** Python's sep.join(parts). */
  function Join(parts: seq<string>, sep: string): string {
    if |parts| == 0 then ""
    else if |parts| == 1 then parts[0]
    else parts[0] + sep + Join(parts[1..], sep)
  }

  /** Python's s.split(d) for a one-character separator: the pieces between
      the separators, one more than there are separators. */
  function Split(s: string, d: char): (parts: seq<string>)
    ensures |parts| == multiset(s)[d] + 1
    ensures forall k :: 0 <= k < |parts| ==> d !in parts[k]
    ensures Join(parts, [d]) == s
    decreases |s|
  {
    if d !in s then [s]
    else
      var i := FirstIndex(s, d);
      var rest := Split(s[i + 1..], d);
      assert s == s[..i] + [d] + s[i + 1..];
      assert multiset(s) == multiset(s[..i]) + multiset([d]) + multiset(s[i + 1..]) by {
        calc {
          multiset(s);
          multiset(s[..i] + [d] + s[i + 1..]);
          multiset(s[..i] + [d]) + multiset(s[i + 1..]);
        }
      }
      assert ([s[..i]] + rest)[1..] == rest;
      [s[..i]] + rest
  }

  /** Splitting what join produced gives back the parts, provided no part
      contains the separator. */
  lemma {:induction false} SplitJoin(parts: seq<string>, d: char)
    requires |parts| >= 1
    requires forall k :: 0 <= k < |parts| ==> d !in parts[k]
    ensures Split(Join(parts, [d]), d) == parts
    decreases |parts|
  {
    if |parts| == 1 {
    } else {
      var s := Join(parts, [d]);
      var tail := Join(parts[1..], [d]);
      assert s == parts[0] + [d] + tail;
      assert s[..|parts[0]|] == parts[0];
      assert s[|parts[0]|] == d;
      assert d in s;
      FirstIndexAt(s, d, |parts[0]|);
      assert s[|parts[0]| + 1..] == tail;
      SplitJoin(parts[1..], d);
    }
  }

  /** Python's `a < b` on str: lexicographic by code point, a proper prefix
      coming first. */
  predicate Below(a: string, b: string)
    decreases |a|
  {
    if a == [] then b != []
    else if b == [] then false
    else if a[0] != b[0] then a[0] < b[0]
    else Below(a[1..], b[1..])
  }

  lemma {:induction false} BelowIrreflexive(a: string)
    ensures !Below(a, a)
    decreases |a|
  {
    if a != [] { BelowIrreflexive(a[1..]); }
  }

  lemma {:induction false} BelowAsymmetric(a: string, b: string)
    ensures !(Below(a, b) && Below(b, a))
    decreases |a|
  {
    if a != [] && b != [] && a[0] == b[0] { BelowAsymmetric(a[1..], b[1..]); }
  }

  lemma {:induction false} BelowTransitive(a: string, b: string, c: string)
    requires Below(a, b) && Below(b, c)
    ensures Below(a, c)
    decreases |a|
  {
    if a != [] && a[0] == b[0] && b[0] == c[0] {
      BelowTransitive(a[1..], b[1..], c[1..]);
    }
  }

  lemma {:induction false} BelowTotal(a: string, b: string)
    ensures a == b || Below(a, b) || Below(b, a)
    decreases |a|
  {
    if a != [] && b != [] && a[0] == b[0] {
      BelowTotal(a[1..], b[1..]);
      if a[1..] == b[1..] {
        assert a == [a[0]] + a[1..] && b == [b[0]] + b[1..];
      }
    }
  }

  predicate IsLeast(m: string, s: set<string>) {
    m in s && forall x :: x in s && x != m ==> Below(m, x)
  }

  lemma {:induction false} LeastExists(s: set<string>)
    requires s != {}
    ensures exists m :: IsLeast(m, s)
    decreases |s|
  {
    var x :| x in s;
    if s == {x} {
      assert IsLeast(x, s);
    } else {
      LeastExists(s - {x});
      var m :| IsLeast(m, s - {x});
      BelowTotal(x, m);
      if Below(x, m) {
        forall y | y in s && y != x ensures Below(x, y) {
          if y != m { BelowTransitive(x, m, y); }
        }
        assert IsLeast(x, s);
      } else {
        assert IsLeast(m, s);
      }
    }
  }

  lemma {:induction false} LeastUnique(s: set<string>)
    ensures forall m, n :: IsLeast(m, s) && IsLeast(n, s) ==> m == n
  {
    forall m, n | IsLeast(m, s) && IsLeast(n, s) ensures m == n {
      if m != n { BelowAsymmetric(m, n); }
    }
  }

  predicate StrictlySorted(xs: seq<string>) {
    forall i, j :: 0 <= i < j < |xs| ==> Below(xs[i], xs[j])
  }

  /** Python's sorted() applied to a set of strings: the least element, then
      the rest sorted. What that means is lemma SortedSetMeaning. */
  function SortedSet(s: set<string>): (r: seq<string>)
    ensures |r| == |s|
    decreases |s|
  {
    if s == {} then []
    else
      LeastExists(s);
      LeastUnique(s);
      var m :| IsLeast(m, s);
      [m] + SortedSet(s - {m})
  }

  /** sorted() on a set lists every element once, in increasing order. */
  lemma {:induction false} SortedSetMeaning(s: set<string>)
    ensures forall x :: x in SortedSet(s) <==> x in s
    ensures StrictlySorted(SortedSet(s))
    decreases |s|
  {
    if s != {} {
      LeastExists(s);
      LeastUnique(s);
      var m :| IsLeast(m, s);
      var rest := SortedSet(s - {m});
      assert SortedSet(s) == [m] + rest;
      SortedSetMeaning(s - {m});
      var r := [m] + rest;
      assert forall x :: x in r <==> x == m || x in rest;
      assert StrictlySorted(r) by {
        forall i, j | 0 <= i < j < |r| ensures Below(r[i], r[j]) {
          assert r[j] == rest[j - 1] && rest[j - 1] in rest;
          if i > 0 {
            assert r[i] == rest[i - 1];
          }
        }
      }
    }
  }
}
