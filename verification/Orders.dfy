/** Lexicographic order on element lists, and lists that a strict order determines. */
module Orders {
  function Elems<T>(s: seq<T>): (r: set<T>) {
    set x | x in s
  }

  ghost predicate Ascending(s: seq<nat>) {
    forall i, j :: 0 <= i < j < |s| ==> s[i] < s[j]
  }

  ghost predicate Distinct<T>(s: seq<T>) {
    forall i, j :: 0 <= i < j < |s| ==> s[i] != s[j]
  }

  /** The order of std::vector's operator<. */
  predicate LexLess(a: seq<nat>, b: seq<nat>) {
    if b == [] then false
    else if a == [] then true
    else if a[0] != b[0] then a[0] < b[0]
    else LexLess(a[1..], b[1..])
  }

  /** Shorter lists first, equal lengths lexicographically. */
  predicate SizeLexLess(a: seq<nat>, b: seq<nat>) {
    |a| < |b| || (|a| == |b| && LexLess(a, b))
  }

  lemma {:induction false} LexIrreflexive(a: seq<nat>)
    ensures !LexLess(a, a)
  {
    if a != [] {
      LexIrreflexive(a[1..]);
    }
  }

  lemma {:induction false} LexTransitive(a: seq<nat>, b: seq<nat>, c: seq<nat>)
    requires LexLess(a, b) && LexLess(b, c)
    ensures LexLess(a, c)
  {
    if a != [] && a[0] == b[0] && b[0] == c[0] {
      LexTransitive(a[1..], b[1..], c[1..]);
    }
  }

  lemma {:induction false} LexTotal(a: seq<nat>, b: seq<nat>)
    ensures a == b || LexLess(a, b) || LexLess(b, a)
  {
    if a != [] && b != [] && a[0] == b[0] {
      LexTotal(a[1..], b[1..]);
      assert a == [a[0]] + a[1..] && b == [b[0]] + b[1..];
    }
  }

  lemma LexPrepend(x: nat, a: seq<nat>, b: seq<nat>)
    ensures LexLess([x] + a, [x] + b) <==> LexLess(a, b)
  {
    assert ([x] + a)[1..] == a && ([x] + b)[1..] == b;
  }

  /** For lists of one length, the first difference decides. */
  lemma {:induction false} LexAtDifference(a: seq<nat>, b: seq<nat>, d: nat)
    requires |a| == |b| && d < |a| && a[..d] == b[..d] && a[d] < b[d]
    ensures LexLess(a, b)
  {
    if d > 0 {
      assert a[0] == a[..d][0] == b[..d][0] == b[0];
      assert a[1..][..d - 1] == a[..d][1..] == b[..d][1..] == b[1..][..d - 1];
      LexAtDifference(a[1..], b[1..], d - 1);
    }
  }

  lemma {:induction false} FirstDifference(a: seq<nat>, b: seq<nat>) returns (d: nat)
    requires |a| == |b| && LexLess(a, b)
    ensures d < |a| && a[..d] == b[..d] && a[d] < b[d]
  {
    if a[0] != b[0] {
      d := 0;
    } else {
      var e := FirstDifference(a[1..], b[1..]);
      d := e + 1;
      assert a[..d] == [a[0]] + a[1..][..e] && b[..d] == [b[0]] + b[1..][..e];
    }
  }

  lemma SizeLexTotal(a: seq<nat>, b: seq<nat>)
    ensures a == b || SizeLexLess(a, b) || SizeLexLess(b, a)
  {
    LexTotal(a, b);
  }

  lemma SizeLexTransitive(a: seq<nat>, b: seq<nat>, c: seq<nat>)
    requires SizeLexLess(a, b) && SizeLexLess(b, c)
    ensures SizeLexLess(a, c)
  {
    if |a| == |b| == |c| {
      LexTransitive(a, b, c);
    }
  }

  lemma SizeLexAsymmetric(a: seq<nat>, b: seq<nat>)
    requires SizeLexLess(a, b)
    ensures !SizeLexLess(b, a)
  {
    if SizeLexLess(b, a) {
      SizeLexTransitive(a, b, a);
      LexIrreflexive(a);
    }
  }

  ghost predicate StrictOrder<T(!new)>(less: (T, T) -> bool) {
    && (forall x :: !less(x, x))
    && (forall x, y, z :: less(x, y) && less(y, z) ==> less(x, z))
  }

  ghost predicate StrictlySorted<T>(less: (T, T) -> bool, s: seq<T>) {
    forall i, j :: 0 <= i < j < |s| ==> less(s[i], s[j])
  }

  lemma LexIsStrict()
    ensures StrictOrder(LexLess)
  {
    forall x {
      LexIrreflexive(x);
    }
    forall x, y, z | LexLess(x, y) && LexLess(y, z)
      ensures LexLess(x, z)
    {
      LexTransitive(x, y, z);
    }
  }

  lemma SizeLexIsStrict()
    ensures StrictOrder(SizeLexLess)
  {
    LexIsStrict();
  }

  lemma HeadMember<T>(s: seq<T>)
    requires s != []
    ensures s[0] in s
  {}

  /** A strictly sorted list is determined by its members. */
  lemma {:induction false} SortedUnique<T(!new)>(less: (T, T) -> bool, a: seq<T>, b: seq<T>)
    requires StrictOrder(less)
    requires StrictlySorted(less, a) && StrictlySorted(less, b)
    requires forall x :: x in a <==> x in b
    ensures a == b
  {
    if a == [] {
      if b != [] {
        HeadMember(b);
      }
    } else {
      assert a[0] in b && b != [];
      assert b[0] in a;
      assert a[0] == b[0];
      forall x
        ensures x in a[1..] <==> x in b[1..]
      {
        TailMember(less, a, x);
        TailMember(less, b, x);
      }
      SortedUnique(less, a[1..], b[1..]);
    }
  }

  lemma TailMember<T(!new)>(less: (T, T) -> bool, a: seq<T>, x: T)
    requires StrictOrder(less) && StrictlySorted(less, a) && a != []
    ensures x in a[1..] <==> x in a && x != a[0]
  {
    if x in a[1..] {
      var i :| 0 <= i < |a[1..]| && a[1..][i] == x;
      assert less(a[0], a[i + 1]);
    }
    if x in a && x != a[0] {
      var i :| 0 <= i < |a| && a[i] == x;
      assert a[1..][i - 1] == x;
    }
  }

  /** The tail of a list without repeats holds everything but the head. */
  lemma {:induction false} DistinctCount<T>(s: seq<T>)
    requires Distinct(s)
    ensures |Elems(s)| == |s|
  {
    if s != [] {
      DistinctCount(s[1..]);
      assert Elems(s) == {s[0]} + Elems(s[1..]);
      assert s[0] !in Elems(s[1..]);
    }
  }

  lemma AscendingCount(s: seq<nat>)
    requires Ascending(s)
    ensures |Elems(s)| == |s|
  {
    DistinctCount(s);
  }

  /** Two ascending lists with the same members are one list. */
  lemma AscendingUnique(a: seq<nat>, b: seq<nat>)
    requires Ascending(a) && Ascending(b) && Elems(a) == Elems(b)
    ensures a == b
  {
    forall x: nat
      ensures x in a <==> x in b
    {
      assert x in a <==> x in Elems(a);
      assert x in b <==> x in Elems(b);
    }
    SortedUnique((x: nat, y: nat) => x < y, a, b);
  }

  lemma ElemsCons<T>(x: T, s: seq<T>)
    ensures Elems([x] + s) == {x} + Elems(s)
  {}

  /** Ascending insertion, dropping a repeat: std::sort then std::unique, one element at a time. */
  function InsertUnique(x: nat, s: seq<nat>): seq<nat> {
    if s == [] then [x]
    else if x < s[0] then [x] + s
    else if x == s[0] then s
    else [s[0]] + InsertUnique(x, s[1..])
  }

  lemma {:induction false} InsertUniqueElems(x: nat, s: seq<nat>)
    ensures Elems(InsertUnique(x, s)) == Elems(s) + {x}
  {
    if s != [] {
      ElemsCons(x, s);
      InsertUniqueElems(x, s[1..]);
      ElemsCons(s[0], s[1..]);
      ElemsCons(s[0], InsertUnique(x, s[1..]));
      assert s == [s[0]] + s[1..];
    }
  }

  lemma AscendingCons(x: nat, s: seq<nat>)
    requires Ascending(s) && forall y :: y in Elems(s) ==> x < y
    ensures Ascending([x] + s)
  {
    var t := [x] + s;
    forall i, j | 0 <= i < j < |t|
      ensures t[i] < t[j]
    {
      assert t[j] == s[j - 1] && s[j - 1] in Elems(s);
    }
  }

  lemma AscendingHead(s: seq<nat>)
    requires Ascending(s) && s != []
    ensures Ascending(s[1..]) && forall y :: y in Elems(s[1..]) ==> s[0] < y
  {}

  lemma {:induction false} InsertUniqueAscending(x: nat, s: seq<nat>)
    requires Ascending(s)
    ensures Ascending(InsertUnique(x, s))
  {
    if s != [] && s[0] < x {
      AscendingHead(s);
      InsertUniqueAscending(x, s[1..]);
      InsertUniqueElems(x, s[1..]);
      AscendingCons(s[0], InsertUnique(x, s[1..]));
    }
  }

  function SortUnique(s: seq<nat>): seq<nat> {
    if s == [] then [] else InsertUnique(s[0], SortUnique(s[1..]))
  }

  lemma {:induction false} SortUniqueSpec(s: seq<nat>)
    ensures Ascending(SortUnique(s)) && Elems(SortUnique(s)) == Elems(s)
  {
    if s != [] {
      SortUniqueSpec(s[1..]);
      InsertUniqueAscending(s[0], SortUnique(s[1..]));
      InsertUniqueElems(s[0], SortUnique(s[1..]));
      assert s == [s[0]] + s[1..];
      ElemsCons(s[0], s[1..]);
    }
  }

  /** A finite set of naturals as an ascending list. */
  lemma {:induction false} ListOf(s: set<nat>) returns (l: seq<nat>)
    ensures Ascending(l) && Elems(l) == s
  {
    if s == {} {
      l := [];
    } else {
      var x :| x in s;
      var m := ListOf(s - {x});
      l := InsertUnique(x, m);
      InsertUniqueElems(x, m);
      InsertUniqueAscending(x, m);
    }
  }

  /** The naturals below n. */
  function Below(n: nat): (s: set<nat>)
    ensures forall e: nat :: e in s <==> e < n
    ensures |s| == n
  {
    if n == 0 then {} else
      var s := Below(n - 1);
      assert |s + {n - 1}| == |s| + 1;
      s + {n - 1}
  }

  lemma SubsetSmaller<T>(a: set<T>, b: set<T>)
    requires a < b
    ensures |a| < |b|
  {
    assert b == a + (b - a);
  }

  lemma SubsetNoLarger<T>(a: set<T>, b: set<T>)
    requires a <= b
    ensures |a| <= |b|
  {
    assert b == a + (b - a);
  }
}
