/** Sorting the displayed products by rating. The rating is compared as
    lower-cased text, so the order is the code-unit order of strings, not
    the numeric order of the ratings. */
module RatingOrder {
  import opened JsText
  import opened Catalog

  /** The sort key: `Stars.toString().toLowerCase()`. */
  function Key(p: Product): (k: string)
    ensures |k| == |p.stars|
  {
    Lower(p.stars)
  }

  /** The key is the rating text with every ASCII letter lower-cased and
      nothing else changed. */
  lemma KeyIsLowerCased(p: Product)
    ensures forall i :: 0 <= i < |Key(p)| ==> Key(p)[i] == LowerChar(p.stars[i])
    ensures forall i :: 0 <= i < |Key(p)| ==> !('A' <= Key(p)[i] <= 'Z')
  {
  }

  /** Ratings that differ only in ASCII letter case have the same key, so
      "NAN" and "nan" tie. */
  lemma {:induction false} KeyCaseInsensitive(p: Product, q: Product)
    requires Upper(p.stars) == Upper(q.stars)
    ensures Key(p) == Key(q)
  {
    var k, l := Key(p), Key(q);
    forall i | 0 <= i < |k| ensures k[i] == l[i] {
      assert Upper(p.stars)[i] == Upper(q.stars)[i];
      SameUpperSameLower(p.stars[i], q.stars[i]);
    }
  }

  /** Two characters with the same upper-case form have the same
      lower-case form. */
  lemma SameUpperSameLower(c: char, d: char)
    requires UpperChar(c) == UpperChar(d)
    ensures LowerChar(c) == LowerChar(d)
  {
  }

  datatype Order = Ascending | Descending

  /** `x` belongs strictly before `y` in the given order. */
  predicate Before(order: Order, x: Product, y: Product)
  {
    match order
    case Ascending => LessThan(Key(x), Key(y))
    case Descending => LessThan(Key(y), Key(x))
  }

  /** `y` does not belong strictly before `x`: the pair is not inverted. */
  predicate InOrder(order: Order, x: Product, y: Product)
  {
    !Before(order, y, x)
  }

  /** The comparators handed to `Array.prototype.sort`: ascending gives 1
      when the key of `x` is greater, descending gives -1 then, and both
      give the other value in every other case, equal keys included. The
      answer is never 0, not even for a product compared with itself, so
      neither is a consistent comparator (section 23.1.3.30 of the
      ECMAScript Language Specification) on any non-empty array. */
  function Compare(order: Order, x: Product, y: Product): (r: int)
    ensures r == 1 || r == -1
    ensures order == Ascending ==> (r == 1 <==> LessThan(Key(y), Key(x)))
    ensures order == Descending ==> (r == -1 <==> LessThan(Key(y), Key(x)))
  {
    match order
    case Ascending => if LessThan(Key(y), Key(x)) then 1 else -1
    case Descending => if LessThan(Key(y), Key(x)) then -1 else 1
  }

  /** A positive answer of the comparator means the pair may be swapped;
      any other answer means it may stay. */
  lemma CompareSound(order: Order, x: Product, y: Product)
    ensures Compare(order, x, y) > 0 ==> InOrder(order, y, x)
    ensures Compare(order, x, y) <= 0 ==> InOrder(order, x, y)
  {
    LessThanAsymmetric(Key(x), Key(y));
    LessThanIrreflexive(Key(x));
    if Key(x) != Key(y) { LessThanTotal(Key(x), Key(y)); }
  }

  /** On equal keys the comparators answer the same for both argument
      orders, and a product compared with itself gets a non-zero answer. */
  lemma CompareInconsistentOnTies(order: Order, x: Product, y: Product)
    requires Key(x) == Key(y)
    ensures Compare(order, x, y) == Compare(order, y, x)
    ensures Compare(order, x, y) == (if order == Ascending then -1 else 1)
  {
    LessThanIrreflexive(Key(x));
  }

  /** On distinct keys the comparators are antisymmetric. */
  lemma CompareAntisymmetricOnDistinct(order: Order, x: Product, y: Product)
    requires Key(x) != Key(y)
    ensures Compare(order, x, y) == -Compare(order, y, x)
  {
    LessThanTotal(Key(x), Key(y));
    LessThanAsymmetric(Key(x), Key(y));
  }

  /** Not being inverted is transitive. */
  lemma InOrderTransitive(order: Order, x: Product, y: Product, z: Product)
    requires InOrder(order, x, y) && InOrder(order, y, z)
    ensures InOrder(order, x, z)
  {
    if Key(x) != Key(y) { LessThanTotal(Key(x), Key(y)); }
    if Key(y) != Key(z) { LessThanTotal(Key(y), Key(z)); }
    if Before(order, z, x) {
      match order
      case Ascending =>
        if Key(x) == Key(y) { } else if Key(y) == Key(z) { }
        else { LessThanTransitive(Key(x), Key(y), Key(z)); LessThanAsymmetric(Key(x), Key(z)); }
      case Descending =>
        if Key(x) == Key(y) { } else if Key(y) == Key(z) { }
        else { LessThanTransitive(Key(z), Key(y), Key(x)); LessThanAsymmetric(Key(x), Key(z)); }
    }
  }

  /** Every earlier element belongs strictly before every later one. */
  predicate StrictlyOrdered(order: Order, s: seq<Product>)
  {
    forall i, j :: 0 <= i < j < |s| ==> Before(order, s[i], s[j])
  }

  /** No two elements have the same sort key. */
  predicate DistinctKeys(s: seq<Product>)
  {
    forall i, j :: 0 <= i < j < |s| ==> Key(s[i]) != Key(s[j])
  }

  /** What the model requires of `Array.prototype.sort` with these
      comparators: the result is a permutation of the input, and when no two
      keys are equal it is sorted. The standard promises only the first
      half, since the comparators are never consistent; the second half
      holds for every comparison sort that never compares an item with
      itself, such as the body of `SortInPlace`. */
  predicate AdmissibleSort(order: Order, input: seq<Product>, output: seq<Product>)
  {
    multiset(output) == multiset(input) &&
    (DistinctKeys(input) ==> StrictlyOrdered(order, output))
  }

  /** No product occurs twice and no two products share a key: the
      multiset form of distinct keys, which a permutation cannot change. */
  ghost predicate KeyInjective(m: multiset<Product>)
  {
    (forall x :: m[x] <= 1) &&
    (forall x, y :: x in m && y in m && Key(x) == Key(y) ==> x == y)
  }

  lemma {:induction false} DistinctKeysInjective(s: seq<Product>)
    requires DistinctKeys(s)
    ensures KeyInjective(multiset(s))
  {
    if s != [] {
      var init, last := s[..|s| - 1], s[|s| - 1];
      assert s == init + [last];
      assert DistinctKeys(init) by {
        forall i, j | 0 <= i < j < |init| ensures Key(init[i]) != Key(init[j]) {
          assert init[i] == s[i] && init[j] == s[j];
        }
      }
      DistinctKeysInjective(init);
      forall x | x in multiset(init) ensures Key(x) != Key(last) {
        var i :| 0 <= i < |init| && init[i] == x;
        assert s[i] == x;
      }
    }
  }

  /** Two equal elements at distinct positions make a multiplicity of two. */
  lemma TwoPositions(s: seq<Product>, i: int, j: int)
    requires 0 <= i < j < |s| && s[i] == s[j]
    ensures multiset(s)[s[i]] >= 2
  {
    assert s == s[..j] + s[j..];
    assert s[i] in s[..j];
    assert s[j] in s[j..];
  }

  lemma InjectiveDistinctKeys(s: seq<Product>)
    requires KeyInjective(multiset(s))
    ensures DistinctKeys(s)
  {
    forall i, j | 0 <= i < j < |s| ensures Key(s[i]) != Key(s[j]) {
      if Key(s[i]) == Key(s[j]) {
        assert s[i] in multiset(s) && s[j] in multiset(s);
        TwoPositions(s, i, j);
      }
    }
  }

  /** A permutation keeps the keys distinct. */
  lemma DistinctKeysPermutation(s: seq<Product>, t: seq<Product>)
    requires multiset(s) == multiset(t) && DistinctKeys(s)
    ensures DistinctKeys(t)
  {
    DistinctKeysInjective(s);
    InjectiveDistinctKeys(t);
  }

  /** A sequence with no inverted pair and distinct keys is strictly ordered. */
  lemma InOrderDistinctStrict(order: Order, s: seq<Product>)
    requires forall i, j :: 0 <= i < j < |s| ==> InOrder(order, s[i], s[j])
    requires DistinctKeys(s)
    ensures StrictlyOrdered(order, s)
  {
    forall i, j | 0 <= i < j < |s| ensures Before(order, s[i], s[j]) {
      LessThanTotal(Key(s[i]), Key(s[j]));
    }
  }

  lemma StrictlyOrderedTail(order: Order, s: seq<Product>)
    requires s != [] && StrictlyOrdered(order, s)
    ensures StrictlyOrdered(order, s[1..])
  {
    forall i, j | 0 <= i < j < |s| - 1 ensures Before(order, s[1..][i], s[1..][j]) {
      assert s[1..][i] == s[i + 1] && s[1..][j] == s[j + 1];
    }
  }

  /** Two strictly ordered permutations of one another start alike. */
  lemma StrictlyOrderedSameHead(order: Order, s: seq<Product>, t: seq<Product>)
    requires s != [] && multiset(s) == multiset(t)
    requires StrictlyOrdered(order, s) && StrictlyOrdered(order, t)
    ensures t != [] && s[0] == t[0]
  {
    assert s[0] in multiset(t);
    var k :| 0 <= k < |t| && t[k] == s[0];
    assert t[0] in multiset(s);
    var m :| 0 <= m < |s| && s[m] == t[0];
    if k > 0 {
      assert Before(order, t[0], t[k]);
      if m > 0 {
        assert Before(order, s[0], s[m]);
        LessThanAsymmetric(Key(s[0]), Key(t[0]));
      } else {
        LessThanIrreflexive(Key(s[0]));
      }
    }
  }

  /** Two strictly ordered permutations of one another are equal: when the
      keys are distinct, the outcome of a sort is fully determined. */
  lemma {:induction false} StrictlyOrderedUnique(order: Order, s: seq<Product>, t: seq<Product>)
    requires multiset(s) == multiset(t)
    requires StrictlyOrdered(order, s) && StrictlyOrdered(order, t)
    ensures s == t
  {
    if s == [] {
      assert |t| == |multiset(t)| == 0;
    } else {
      StrictlyOrderedSameHead(order, s, t);
      assert s == [s[0]] + s[1..] && t == [t[0]] + t[1..];
      assert multiset(s) == multiset([s[0]]) + multiset(s[1..]);
      assert multiset(t) == multiset([s[0]]) + multiset(t[1..]);
      assert multiset(s[1..]) == multiset(s) - multiset([s[0]]);
      assert multiset(t[1..]) == multiset(t) - multiset([s[0]]);
      StrictlyOrderedTail(order, s);
      StrictlyOrderedTail(order, t);
      StrictlyOrderedUnique(order, s[1..], t[1..]);
    }
  }

  function Reverse<T>(s: seq<T>): (r: seq<T>)
    ensures |r| == |s|
    ensures forall i :: 0 <= i < |s| ==> r[i] == s[|s| - 1 - i]
  {
    if s == [] then [] else Reverse(s[1..]) + [s[0]]
  }

  lemma {:induction false} ReverseMultiset<T>(s: seq<T>)
    ensures multiset(Reverse(s)) == multiset(s)
  {
    if s != [] {
      ReverseMultiset(s[1..]);
      assert s == [s[0]] + s[1..];
    }
  }

  /** Reversing an ascending sequence gives a descending one. */
  lemma ReverseAscendingIsDescending(s: seq<Product>)
    requires StrictlyOrdered(Ascending, s)
    ensures StrictlyOrdered(Descending, Reverse(s))
  {
    var r := Reverse(s);
    forall i, j | 0 <= i < j < |r| ensures Before(Descending, r[i], r[j]) {
      assert r[i] == s[|s| - 1 - i] && r[j] == s[|s| - 1 - j];
    }
  }

  /** With distinct keys, sorting descending gives exactly the reverse of
      sorting ascending, whatever algorithm the engine uses. */
  lemma DescendingIsReverseOfAscending(s: seq<Product>, up: seq<Product>, down: seq<Product>)
    requires DistinctKeys(s)
    requires AdmissibleSort(Ascending, s, up) && AdmissibleSort(Descending, s, down)
    ensures down == Reverse(up)
  {
    ReverseAscendingIsDescending(up);
    ReverseMultiset(up);
    StrictlyOrderedUnique(Descending, down, Reverse(up));
  }

  /** With distinct keys, sorting again in the same direction changes
      nothing. */
  lemma SortAgainIsNoOp(order: Order, s: seq<Product>, t: seq<Product>, u: seq<Product>)
    requires DistinctKeys(s)
    requires AdmissibleSort(order, s, t) && AdmissibleSort(order, t, u)
    ensures u == t
  {
    DistinctKeysPermutation(s, t);
    StrictlyOrderedUnique(order, u, t);
  }

  /** Ratings compare as text: "10" sorts before "2", and "2" before the
      sentinel "NAN", whose key is "nan". */
  lemma TextNotNumericOrder()
    ensures LessThan(Lower("10"), Lower("2"))
    ensures LessThan(Lower("2"), Lower("NAN"))
    ensures Lower("NAN") == "nan"
  {
    assert Lower("10") == "10";
    assert Lower("2") == "2";
    assert Lower("NAN") == "nan";
  }

  /** Ascending, the ratings "10", "2", "NAN" can only end up in exactly that
      order. */
  lemma AscendingExample(a: Product, b: Product, c: Product, out: seq<Product>)
    requires a.stars == "10" && b.stars == "2" && c.stars == "NAN"
    requires AdmissibleSort(Ascending, [c, a, b], out)
    ensures out == [a, b, c]
  {
    TextNotNumericOrder();
    assert Key(a) == Lower("10") && Key(b) == Lower("2") && Key(c) == Lower("NAN");
    LessThanTransitive(Key(a), Key(b), Key(c));
    LessThanIrreflexive(Key(a));
    LessThanIrreflexive(Key(b));
    LessThanIrreflexive(Key(c));
    var sorted := [a, b, c];
    assert StrictlyOrdered(Ascending, sorted) by {
      assert Before(Ascending, a, b) && Before(Ascending, b, c) && Before(Ascending, a, c);
    }
    assert DistinctKeys([c, a, b]);
    assert multiset(sorted) == multiset([c, a, b]);
    StrictlyOrderedUnique(Ascending, out, sorted);
  }

  /** A rating that starts with a digit sorts before the unrated sentinel. */
  lemma DigitSortsBeforeNan(stars: string)
    requires stars != [] && '0' <= stars[0] <= '9'
    ensures LessThan(Lower(stars), Lower("NAN"))
  {
    assert Lower("NAN") == "nan";
  }

  /** The prefix `s[..i + 1]` is sorted except that `s[j]` may still have
      to move down, and `s[j]` is in order with everything after it. */
  ghost predicate Inserting(order: Order, s: seq<Product>, i: int, j: int)
  {
    0 <= j <= i < |s| &&
    (forall k, l :: 0 <= k < l <= i && k != j && l != j ==> InOrder(order, s[k], s[l])) &&
    (forall l :: j < l <= i ==> InOrder(order, s[j], s[l]))
  }

  /** One swap the comparator asks for moves the inserted element one place
      down and keeps the rest of the prefix sorted. */
  lemma SwapStep(order: Order, s: seq<Product>, i: int, j: int)
    requires Inserting(order, s, i, j) && j > 0
    requires Compare(order, s[j - 1], s[j]) > 0
    ensures Inserting(order, s[j - 1 := s[j]][j := s[j - 1]], i, j - 1)
  {
    CompareSound(order, s[j - 1], s[j]);
  }

  /** Once the comparator allows the inserted element to stay, the whole
      prefix is sorted. */
  lemma InsertDone(order: Order, s: seq<Product>, i: int, j: int)
    requires Inserting(order, s, i, j)
    requires j > 0 ==> Compare(order, s[j - 1], s[j]) <= 0
    ensures forall k, l :: 0 <= k < l <= i ==> InOrder(order, s[k], s[l])
  {
    if j > 0 {
      CompareSound(order, s[j - 1], s[j]);
      forall k | 0 <= k < j - 1 ensures InOrder(order, s[k], s[j]) {
        InOrderTransitive(order, s[k], s[j - 1], s[j]);
      }
    }
  }

  /** Exchanging two elements permutes a sequence. */
  lemma SwapPermutes(s: seq<Product>, i: int, j: int)
    requires 0 <= i < j < |s|
    ensures multiset(s[i := s[j]][j := s[i]]) == multiset(s)
  {
  }

  /** Moves `a[i]` down into the sorted prefix `a[..i]`, by the swaps the
      comparator asks for, so that `a[..i + 1]` is sorted. */
  method Insert(a: array<Product>, i: nat, order: Order)
    requires i < a.Length
    requires forall k, l :: 0 <= k < l < i ==> InOrder(order, a[k], a[l])
    modifies a
    ensures forall k, l :: 0 <= k < l <= i ==> InOrder(order, a[k], a[l])
    ensures multiset(a[..]) == old(multiset(a[..]))
  {
    var j := i;
    while j > 0 && Compare(order, a[j - 1], a[j]) > 0
      invariant Inserting(order, a[..], i, j)
      invariant multiset(a[..]) == old(multiset(a[..]))
    {
      ghost var s := a[..];
      SwapStep(order, s, i, j);
      a[j - 1], a[j] := a[j], a[j - 1];
      assert a[..] == s[j - 1 := s[j]][j := s[j - 1]];
      SwapPermutes(s, j - 1, j);
      j := j - 1;
    }
    InsertDone(order, a[..], i, j);
  }

  /** `Array.prototype.sort` with one of the comparators, run on `a` in
      place. The engine's algorithm is not specified; this body is one
      admissible algorithm, an insertion sort driven by the comparator
      that never compares an item with itself. */
  method SortInPlace(a: array<Product>, order: Order)
    modifies a
    ensures AdmissibleSort(order, old(a[..]), a[..])
  {
    var i := 0;
    while i < a.Length
      invariant 0 <= i <= a.Length
      invariant forall k, l :: 0 <= k < l < i ==> InOrder(order, a[k], a[l])
      invariant multiset(a[..]) == old(multiset(a[..]))
    {
      Insert(a, i, order);
      i := i + 1;
    }
    if DistinctKeys(old(a[..])) {
      DistinctKeysPermutation(old(a[..]), a[..]);
      InOrderDistinctStrict(order, a[..]);
    }
  }
}
