/**
 The order findings are posted in, and the stable sort that puts them in it.
 */
module FindingOrder {
  import opened Models

  datatype SortKey = SortKey(rank: nat, path: string, line: int)

  function KeyOf(f: Finding): SortKey {
    SortKey(SeverityRank(f.severity), f.filePath, f.lineStart)
  }

  /** Lexicographic order by character code. */
  predicate StringLe(a: string, b: string) {
    a == "" || (b != "" && (a[0] < b[0] || (a[0] == b[0] && StringLe(a[1..], b[1..]))))
  }

  predicate KeyLe(a: SortKey, b: SortKey) {
    a.rank < b.rank || (a.rank == b.rank && (if a.path == b.path then a.line <= b.line else StringLe(a.path, b.path)))
  }

  /** `a` is a prefix of `b`, or has the smaller character where they first differ. */
  ghost predicate Lexicographic(a: string, b: string) {
    a <= b || exists k :: DiffersFirst(a, b, k)
  }

  predicate DiffersFirst(a: string, b: string, k: int) {
    0 <= k < |a| && k < |b| && a[..k] == b[..k] && a[k] < b[k]
  }

  lemma {:induction false} StringLeIsLexicographic(a: string, b: string)
    ensures StringLe(a, b) <==> Lexicographic(a, b)
  {
    if a != "" && b != "" {
      if a[0] == b[0] {
        StringLeIsLexicographic(a[1..], b[1..]);
        assert a == [a[0]] + a[1..] && b == [b[0]] + b[1..];
        assert a <= b <==> a[1..] <= b[1..];
        forall k ensures DiffersFirst(a, b, k + 1) <==> DiffersFirst(a[1..], b[1..], k) {
          LaterDifference(a, b, k);
        }
        assert !DiffersFirst(a, b, 0);
        forall k | DiffersFirst(a, b, k) ensures DiffersFirst(a[1..], b[1..], k - 1) {
          LaterDifference(a, b, k - 1);
        }
      } else {
        assert DiffersFirst(a, b, 0) <==> a[0] < b[0];
        forall k | k > 0 ensures !DiffersFirst(a, b, k) {
          if DiffersFirst(a, b, k) {
            StartAlike(a, b, k);
          }
        }
      }
    }
  }

  lemma StartAlike(a: string, b: string, k: int)
    requires 0 < k <= |a| && k <= |b| && a[..k] == b[..k]
    ensures a[0] == b[0]
  {
    assert a[..k][0] == b[..k][0];
  }

  lemma LaterDifference(a: string, b: string, k: int)
    requires a != "" && b != "" && a[0] == b[0]
    ensures k >= 0 ==> (DiffersFirst(a, b, k + 1) <==> DiffersFirst(a[1..], b[1..], k))
  {
    if 0 <= k && k + 1 <= |a| && k + 1 <= |b| {
      assert a[..k + 1] == [a[0]] + a[1..][..k] && b[..k + 1] == [b[0]] + b[1..][..k];
      assert a[..k + 1][1..] == a[1..][..k] && b[..k + 1][1..] == b[1..][..k];
    }
  }

  lemma {:induction false} StringLeIsTotal(a: string, b: string)
    ensures StringLe(a, b) || StringLe(b, a)
    ensures StringLe(a, b) && StringLe(b, a) ==> a == b
  {
    if a != "" && b != "" && a[0] == b[0] {
      StringLeIsTotal(a[1..], b[1..]);
      assert a == [a[0]] + a[1..] && b == [b[0]] + b[1..];
    }
  }

  lemma {:induction false} StringLeIsTransitive(a: string, b: string, c: string)
    requires StringLe(a, b) && StringLe(b, c)
    ensures StringLe(a, c)
  {
    if a != "" && a[0] == b[0] == c[0] {
      StringLeIsTransitive(a[1..], b[1..], c[1..]);
    }
  }

  lemma KeyLeIsTotalOrder(a: SortKey, b: SortKey, c: SortKey)
    ensures KeyLe(a, b) || KeyLe(b, a)
    ensures KeyLe(a, b) && KeyLe(b, a) ==> a == b
    ensures KeyLe(a, b) && KeyLe(b, c) ==> KeyLe(a, c)
  {
    StringLeIsTotal(a.path, b.path);
    if KeyLe(a, b) && KeyLe(b, c) && StringLe(a.path, b.path) && StringLe(b.path, c.path) {
      StringLeIsTransitive(a.path, b.path, c.path);
      StringLeIsTotal(b.path, c.path);
      StringLeIsTotal(a.path, c.path);
    }
  }

  ghost predicate Sorted(xs: seq<Finding>) {
    forall i, j :: 0 <= i <= j < |xs| ==> KeyLe(KeyOf(xs[i]), KeyOf(xs[j]))
  }

  /** More severe first, then by path, then by line. */
  ghost predicate ComesBefore(f: Finding, g: Finding) {
    || SeverityRank(f.severity) < SeverityRank(g.severity)
    || (&& SeverityRank(f.severity) == SeverityRank(g.severity)
        && (if f.filePath == g.filePath then f.lineStart <= g.lineStart else Lexicographic(f.filePath, g.filePath)))
  }

  lemma SortedMeans(xs: seq<Finding>)
    ensures Sorted(xs) <==> forall i, j :: 0 <= i <= j < |xs| ==> ComesBefore(xs[i], xs[j])
  {
    hide StringLe, Lexicographic, SeverityRank;
    forall f, g ensures KeyLe(KeyOf(f), KeyOf(g)) <==> ComesBefore(f, g) {
      StringLeIsLexicographic(f.filePath, g.filePath);
    }
  }

  predicate HasKey(f: Finding, k: SortKey) {
    SeverityRank(f.severity) == k.rank && f.filePath == k.path && f.lineStart == k.line
  }

  /** The findings with one key, in order: what a stable sort leaves alone. */
  function WithKey(xs: seq<Finding>, k: SortKey): seq<Finding> {
    if xs == [] then [] else (if HasKey(xs[0], k) then [xs[0]] else []) + WithKey(xs[1..], k)
  }

  lemma HasKeyOf(f: Finding, k: SortKey)
    ensures HasKey(f, k) <==> KeyOf(f) == k
  {
  }

  ghost predicate SameOrderPerKey(xs: seq<Finding>, ys: seq<Finding>) {
    forall k :: WithKey(xs, k) == WithKey(ys, k)
  }

  function Insert(x: Finding, ys: seq<Finding>): seq<Finding> {
    if ys == [] || KeyLe(KeyOf(x), KeyOf(ys[0])) then [x] + ys else [ys[0]] + Insert(x, ys[1..])
  }

  function Sort(xs: seq<Finding>): seq<Finding> {
    if xs == [] then [] else Insert(xs[0], Sort(xs[1..]))
  }

  lemma {:induction false} InsertKeeps(x: Finding, ys: seq<Finding>)
    requires Sorted(ys)
    ensures Sorted(Insert(x, ys))
    ensures multiset(Insert(x, ys)) == multiset{x} + multiset(ys)
  {
    hide KeyLe, KeyOf;
    KeyLeIsTotalOrder(KeyOf(x), KeyOf(x), KeyOf(x));
    if ys == [] {
    } else if KeyLe(KeyOf(x), KeyOf(ys[0])) {
      forall i | 0 <= i < |ys| ensures KeyLe(KeyOf(x), KeyOf(ys[i])) {
        KeyLeIsTotalOrder(KeyOf(x), KeyOf(ys[0]), KeyOf(ys[i]));
      }
    } else {
      var rest := Insert(x, ys[1..]);
      InsertKeeps(x, ys[1..]);
      assert ys == [ys[0]] + ys[1..];
      KeyLeIsTotalOrder(KeyOf(x), KeyOf(ys[0]), KeyOf(x));
      forall i | 0 <= i < |rest| ensures KeyLe(KeyOf(ys[0]), KeyOf(rest[i])) {
        assert rest[i] in multiset(rest);
        if rest[i] != x {
          assert rest[i] in multiset(ys[1..]);
        }
      }
      KeyLeIsTotalOrder(KeyOf(ys[0]), KeyOf(ys[0]), KeyOf(ys[0]));
    }
  }

  lemma {:induction false} InsertIsStable(x: Finding, ys: seq<Finding>, k: SortKey)
    ensures WithKey(Insert(x, ys), k) == WithKey([x] + ys, k)
  {
    hide KeyLe, KeyOf;
    assert ([x] + ys)[1..] == ys;
    HasKeyOf(x, k);
    if ys != [] {
      HasKeyOf(ys[0], k);
    }
    if ys != [] && !KeyLe(KeyOf(x), KeyOf(ys[0])) {
      InsertIsStable(x, ys[1..], k);
      assert ([x] + ys[1..])[1..] == ys[1..];
      assert Insert(x, ys)[1..] == Insert(x, ys[1..]);
      KeyLeIsTotalOrder(KeyOf(x), KeyOf(x), KeyOf(x));
    }
  }

  /** The sort is a stable sorted permutation. */
  lemma {:induction false} SortIsStableSort(xs: seq<Finding>)
    ensures Sorted(Sort(xs)) && multiset(Sort(xs)) == multiset(xs) && SameOrderPerKey(Sort(xs), xs)
  {
    hide KeyLe, KeyOf;
    if xs != [] {
      SortIsStableSort(xs[1..]);
      InsertKeeps(xs[0], Sort(xs[1..]));
      assert xs == [xs[0]] + xs[1..];
      forall k ensures WithKey(Sort(xs), k) == WithKey(xs, k) {
        InsertIsStable(xs[0], Sort(xs[1..]), k);
        assert ([xs[0]] + Sort(xs[1..]))[1..] == Sort(xs[1..]);
      }
    }
  }

  lemma {:induction false} WithKeyMembers(xs: seq<Finding>, k: SortKey)
    ensures forall f :: f in WithKey(xs, k) <==> f in xs && KeyOf(f) == k
  {
    hide KeyOf;
    if xs != [] {
      WithKeyMembers(xs[1..], k);
      HasKeyOf(xs[0], k);
      assert xs == [xs[0]] + xs[1..];
    }
  }

  lemma HeadIsLeast(xs: seq<Finding>, ys: seq<Finding>)
    requires Sorted(xs) && SameOrderPerKey(xs, ys) && xs != [] && ys != []
    ensures KeyLe(KeyOf(xs[0]), KeyOf(ys[0]))
  {
    hide KeyLe, KeyOf;
    var k := KeyOf(ys[0]);
    WithKeyMembers(ys, k);
    WithKeyMembers(xs, k);
    assert WithKey(xs, k) == WithKey(ys, k);
    assert ys[0] in xs;
  }

  lemma EmptyTogether(xs: seq<Finding>, ys: seq<Finding>)
    ensures xs == [] && ys != [] ==> !SameOrderPerKey(xs, ys)
  {
    if xs == [] && ys != [] {
      HasKeyOf(ys[0], KeyOf(ys[0]));
      assert WithKey(ys, KeyOf(ys[0])) != [];
    }
  }

  /** A stable sort has one possible result, so any stable sorting routine returns this one. */
  lemma {:induction false} StableSortIsUnique(xs: seq<Finding>, ys: seq<Finding>)
    requires Sorted(xs) && Sorted(ys) && SameOrderPerKey(xs, ys)
    ensures xs == ys
    decreases |xs|
  {
    hide KeyLe, KeyOf;
    if xs == [] || ys == [] {
      EmptyTogether(xs, ys);
      EmptyTogether(ys, xs);
    } else {
      HeadIsLeast(xs, ys);
      HeadIsLeast(ys, xs);
      KeyLeIsTotalOrder(KeyOf(xs[0]), KeyOf(ys[0]), KeyOf(xs[0]));
      var k := KeyOf(xs[0]);
      HasKeyOf(xs[0], k);
      HasKeyOf(ys[0], k);
      assert WithKey(xs, k)[0] == xs[0] && WithKey(ys, k)[0] == ys[0];
      forall l ensures WithKey(xs[1..], l) == WithKey(ys[1..], l) {
        assert WithKey(xs, l) == WithKey(ys, l);
        HasKeyOf(xs[0], l);
        HasKeyOf(ys[0], l);
        var head := if KeyOf(xs[0]) == l then [xs[0]] else [];
        assert WithKey(xs[1..], l) == WithKey(xs, l)[|head|..];
        assert WithKey(ys[1..], l) == WithKey(ys, l)[|head|..];
      }
      StableSortIsUnique(xs[1..], ys[1..]);
      assert xs == [xs[0]] + xs[1..] && ys == [ys[0]] + ys[1..];
    }
  }
}
