/**
 * Orders and sorted-distinct lists: the classes a fitted label encoder
 * keeps, and the keys a `groupby` visits, are the distinct values of a
 * column in ascending order.
 */
module Order {

  /** `lt` is a strict total order: irreflexive, transitive and total on distinct values. */
  ghost predicate StrictTotalOrder<T(!new)>(lt: (T, T) -> bool)
  {
    && (forall a :: !lt(a, a))
    && (forall a, b, c :: lt(a, b) && lt(b, c) ==> lt(a, c))
    && (forall a, b :: a == b || lt(a, b) || lt(b, a))
  }

  /** `s` is strictly ascending under `lt`, so in particular free of repeats. */
  predicate Ascending<T>(lt: (T, T) -> bool, s: seq<T>)
  {
    forall i, j :: 0 <= i < j < |s| ==> lt(s[i], s[j])
  }

  /** Python's `a < b` on strings: lexicographic by code point, a proper prefix first. */
  predicate StrLess(a: string, b: string)
  {
    if a == [] then b != []
    else if b == [] then false
    else if a[0] != b[0] then a[0] < b[0]
    else StrLess(a[1..], b[1..])
  }

  lemma {:induction false} StrLessIrreflexive(a: string)
    ensures !StrLess(a, a)
  {
    if a != [] {
      StrLessIrreflexive(a[1..]);
    }
  }

  lemma {:induction false} StrLessTransitive(a: string, b: string, c: string)
    requires StrLess(a, b) && StrLess(b, c)
    ensures StrLess(a, c)
  {
    if a != [] && b != [] && c != [] && a[0] == b[0] && b[0] == c[0] {
      StrLessTransitive(a[1..], b[1..], c[1..]);
    }
  }

  lemma {:induction false} StrLessTotal(a: string, b: string)
    ensures a == b || StrLess(a, b) || StrLess(b, a)
  {
    if a != [] && b != [] && a[0] == b[0] {
      StrLessTotal(a[1..], b[1..]);
      if a[1..] == b[1..] {
        assert a == [a[0]] + a[1..] && b == [b[0]] + b[1..];
      }
    }
  }

  /** Python's string comparison is a strict total order. */
  lemma StrLessIsOrder()
    ensures StrictTotalOrder(StrLess)
  {
    forall a ensures !StrLess(a, a) {
      StrLessIrreflexive(a);
    }
    forall a, b, c | StrLess(a, b) && StrLess(b, c) ensures StrLess(a, c) {
      StrLessTransitive(a, b, c);
    }
    forall a, b ensures a == b || StrLess(a, b) || StrLess(b, a) {
      StrLessTotal(a, b);
    }
  }

  /** The numeric order on floating-point cells. */
  predicate RealLess(a: real, b: real)
  {
    a < b
  }

  lemma RealLessIsOrder()
    ensures StrictTotalOrder(RealLess)
  {
  }

  /** Adds `x` to the ascending list `s`, keeping it ascending and free of repeats. */
  function Insert<T(==,!new)>(lt: (T, T) -> bool, s: seq<T>, x: T): (r: seq<T>)
    requires StrictTotalOrder(lt) && Ascending(lt, s)
    ensures Ascending(lt, r)
    ensures forall v :: v in r <==> v in s || v == x
  {
    if s == [] then [x]
    else if x == s[0] then s
    else if lt(x, s[0]) then [x] + s
    else
      var t := Insert(lt, s[1..], x);
      assert forall v :: v in t ==> lt(s[0], v);
      [s[0]] + t
  }

  /** The distinct values of `xs` in ascending order (the fitted classes of a label encoder). */
  function Distinct<T(==,!new)>(lt: (T, T) -> bool, xs: seq<T>): (r: seq<T>)
    requires StrictTotalOrder(lt)
    ensures Ascending(lt, r)
    ensures forall v :: v in r <==> v in xs
  {
    if xs == [] then [] else Insert(lt, Distinct(lt, xs[..|xs| - 1]), xs[|xs| - 1])
  }

  /** An ascending list holds no value twice. */
  lemma AscendingHasNoRepeats<T(!new)>(lt: (T, T) -> bool, s: seq<T>, i: nat, j: nat)
    requires StrictTotalOrder(lt) && Ascending(lt, s)
    requires i < |s| && j < |s| && s[i] == s[j]
    ensures i == j
  {
  }

  /** Position of the first occurrence of `x` in `s`. */
  function IndexOf<T(==)>(s: seq<T>, x: T): (i: nat)
    requires x in s
    ensures i < |s| && s[i] == x && x !in s[..i]
  {
    if s[0] == x then 0 else 1 + IndexOf(s[1..], x)
  }

  /**
   * In an ascending list the position of a value is fixed by the order: it is
   * the number of listed values below it, and smaller values sit earlier.
   */
  lemma IndexOfAscending<T(!new)>(lt: (T, T) -> bool, s: seq<T>, x: T, y: T)
    requires StrictTotalOrder(lt) && Ascending(lt, s)
    requires x in s && y in s
    ensures lt(x, y) <==> IndexOf(s, x) < IndexOf(s, y)
  {
    var i, j := IndexOf(s, x), IndexOf(s, y);
    if i < j {
      assert lt(s[i], s[j]);
    } else if j < i {
      assert lt(s[j], s[i]);
    }
  }
}
