/** `applyFilters` and `applySorting`, as pure functions on sequences of
    books: an order-preserving filter and a stable sort under the comparator
    selected by the sort key. */
module Pipeline {
  import opened Wrappers
  import opened Collation
  import opened Books

  /** `currentFilters`. A year bound of `None` stands for `''` and for `NaN`,
      which are falsy like the bound `0`. */
  datatype Filters = Filters(category: string, yearMin: Option<int>, yearMax: Option<int>)

  const NoFilters := Filters("", None, None)

  /** A year bound that is truthy, so that it constrains. */
  predicate IsSet(bound: Option<int>) {
    bound.Some? && bound.value != 0
  }

  /** The test `applyFilters` runs on one book. */
  predicate Passes(b: Book, f: Filters) {
    && (f.category == "" || (b.info.categories.Some? && f.category in b.info.categories.value))
    && (!IsSet(f.yearMin) || (HasYear(b) && YearOf(b).value >= f.yearMin.value))
    && (!IsSet(f.yearMax) || (HasYear(b) && YearOf(b).value <= f.yearMax.value))
  }

  /** `allBooks.filter(...)`. */
  function FilterBooks(s: seq<Book>, f: Filters): (r: seq<Book>)
    ensures |r| <= |s|
    ensures forall b :: b in r ==> b in s && Passes(b, f)
  {
    if s == [] then []
    else (if Passes(s[0], f) then [s[0]] else []) + FilterBooks(s[1..], f)
  }

  /** `r` is `s` with some elements left out, the rest in their order. */
  predicate IsSubsequence<T(==)>(r: seq<T>, s: seq<T>)
    decreases |s|
  {
    if r == [] then true
    else if s == [] then false
    else if r[0] == s[0] then IsSubsequence(r[1..], s[1..])
    else IsSubsequence(r, s[1..])
  }

  /** Filtering keeps the surviving books in their original order. */
  lemma {:induction false} FilterIsSubsequence(s: seq<Book>, f: Filters)
    ensures IsSubsequence(FilterBooks(s, f), s)
  {
    if s != [] {
      FilterIsSubsequence(s[1..], f);
      var rest := FilterBooks(s[1..], f);
      if Passes(s[0], f) {
        assert FilterBooks(s, f) == [s[0]] + rest;
        assert ([s[0]] + rest)[1..] == rest;
      } else {
        assert FilterBooks(s, f) == rest;
        if rest != [] {
          SubsequenceSkip(rest, s);
        }
      }
    }
  }

  /** A subsequence of the tail is a subsequence of the whole. */
  lemma {:induction false} SubsequenceSkip<T>(r: seq<T>, s: seq<T>)
    requires s != [] && IsSubsequence(r, s[1..])
    ensures IsSubsequence(r, s)
    decreases |s|, 0
  {
    if r != [] && r[0] == s[0] {
      SubsequenceDropHead(r, s[1..]);
    }
  }

  /** Leaving out the first element of a subsequence keeps it a subsequence. */
  lemma {:induction false} SubsequenceDropHead<T>(r: seq<T>, s: seq<T>)
    requires r != [] && IsSubsequence(r, s)
    ensures IsSubsequence(r[1..], s)
    decreases |s|, 1
  {
    if r[0] == s[0] {
      if r[1..] != [] {
        SubsequenceSkip(r[1..], s);
      }
    } else {
      SubsequenceDropHead(r, s[1..]);
      if r[1..] != [] {
        SubsequenceSkip(r[1..], s);
      }
    }
  }

  /** A book is kept exactly when it occurs in the input and passes the test. */
  lemma {:induction false} FilterMembership(s: seq<Book>, f: Filters, b: Book)
    ensures b in FilterBooks(s, f) <==> b in s && Passes(b, f)
  {
    if s != [] {
      FilterMembership(s[1..], f, b);
      assert s == [s[0]] + s[1..];
    }
  }

  /** A passing book is kept as often as it occurs in the input, a failing
      one not at all. */
  lemma {:induction false} FilterMultiplicity(s: seq<Book>, f: Filters, b: Book)
    ensures multiset(FilterBooks(s, f))[b] == (if Passes(b, f) then multiset(s)[b] else 0)
  {
    if s != [] {
      FilterMultiplicity(s[1..], f, b);
      assert s == [s[0]] + s[1..];
      assert multiset(s) == multiset{s[0]} + multiset(s[1..]);
      var head := if Passes(s[0], f) then [s[0]] else [];
      assert FilterBooks(s, f) == head + FilterBooks(s[1..], f);
      assert multiset(FilterBooks(s, f)) == multiset(head) + multiset(FilterBooks(s[1..], f));
    }
  }

  /** With a year bound set, no book without a (non-zero) year survives. */
  lemma YearBoundNeedsYear(s: seq<Book>, f: Filters)
    requires IsSet(f.yearMin) || IsSet(f.yearMax)
    ensures forall b :: b in FilterBooks(s, f) ==> HasYear(b)
  {
  }

  /** With no criteria every book survives, in order. */
  lemma {:induction false} NoFiltersKeepAll(s: seq<Book>)
    ensures FilterBooks(s, NoFilters) == s
  {
    if s != [] {
      NoFiltersKeepAll(s[1..]);
      assert s == [s[0]] + s[1..];
    }
  }

  // ---- sorting ----

  /** `info.title || ''`. */
  function TitleKey(b: Book): string {
    b.info.title.GetOr("")
  }

  /** `info.authors ? info.authors[0] : ''` (an empty array counts as `''`). */
  function AuthorKey(b: Book): string {
    match b.info.authors
    case Some(a) => if |a| > 0 then a[0] else ""
    case None => ""
  }

  /** `extractYear(info.publishedDate) || 0`. */
  function YearKey(b: Book): (y: int)
    ensures 0 <= y <= 9999
    ensures HasYear(b) <==> y != 0
  {
    YearOf(b).GetOr(0)
  }

  /** `info.pageCount || 0`. */
  function PagesKey(b: Book): int {
    b.info.pageCount.GetOr(0)
  }

  /** The comparator of `applySorting` for the sort key `sortVal`: negative
      when `a` goes first. An unknown key compares everything as equal. */
  function Compare(sortVal: string, a: Book, b: Book): int {
    if sortVal == "title-asc" then LocaleCompare(TitleKey(a), TitleKey(b))
    else if sortVal == "title-desc" then LocaleCompare(TitleKey(b), TitleKey(a))
    else if sortVal == "author-asc" then LocaleCompare(AuthorKey(a), AuthorKey(b))
    else if sortVal == "author-desc" then LocaleCompare(AuthorKey(b), AuthorKey(a))
    else if sortVal == "date-asc" then YearKey(a) - YearKey(b)
    else if sortVal == "date-desc" then YearKey(b) - YearKey(a)
    else if sortVal == "pages-asc" then PagesKey(a) - PagesKey(b)
    else if sortVal == "pages-desc" then PagesKey(b) - PagesKey(a)
    else 0
  }

  /** `a` may precede `b`. */
  predicate Le(sortVal: string, a: Book, b: Book) {
    Compare(sortVal, a, b) <= 0
  }

  /** Every comparator is a total preorder. */
  lemma CompareIsTotalPreorder(sortVal: string, a: Book, b: Book, c: Book)
    ensures Le(sortVal, a, a)
    ensures Le(sortVal, a, b) || Le(sortVal, b, a)
    ensures Le(sortVal, a, b) && Le(sortVal, b, c) ==> Le(sortVal, a, c)
  {
    CompareReflexive(TitleKey(a));
    CompareReflexive(AuthorKey(a));
    CompareAntisymmetric(TitleKey(a), TitleKey(b));
    CompareAntisymmetric(AuthorKey(a), AuthorKey(b));
    if Le(sortVal, a, b) && Le(sortVal, b, c) {
      if sortVal == "title-asc" {
        CompareTransitive(TitleKey(a), TitleKey(b), TitleKey(c));
      } else if sortVal == "title-desc" {
        CompareTransitive(TitleKey(c), TitleKey(b), TitleKey(a));
      } else if sortVal == "author-asc" {
        CompareTransitive(AuthorKey(a), AuthorKey(b), AuthorKey(c));
      } else if sortVal == "author-desc" {
        CompareTransitive(AuthorKey(c), AuthorKey(b), AuthorKey(a));
      }
    }
  }

  /** Ordered: every book may precede every later one. */
  predicate Sorted(sortVal: string, s: seq<Book>) {
    forall i, j :: 0 <= i < j < |s| ==> Le(sortVal, s[i], s[j])
  }

  /** Inserts `x` before the first element it may precede; after all elements
      that must precede it. */
  function Insert(sortVal: string, x: Book, s: seq<Book>): (r: seq<Book>)
    ensures |r| == |s| + 1
    ensures multiset(r) == multiset(s) + multiset{x}
  {
    if s == [] then [x]
    else if Le(sortVal, x, s[0]) then [x] + s
    else
      assert s == [s[0]] + s[1..];
      [s[0]] + Insert(sortVal, x, s[1..])
  }

  /** `filteredBooks.sort(comparator)`, a stable insertion sort. */
  function SortBooks(s: seq<Book>, sortVal: string): (r: seq<Book>)
    ensures |r| == |s|
    ensures multiset(r) == multiset(s)
  {
    if s == [] then []
    else
      assert s == [s[0]] + s[1..];
      Insert(sortVal, s[0], SortBooks(s[1..], sortVal))
  }

  /** A book that may precede every element of a sorted list may head it. */
  lemma SortedCons(sortVal: string, a: Book, r: seq<Book>)
    requires Sorted(sortVal, r)
    requires forall y :: y in r ==> Le(sortVal, a, y)
    ensures Sorted(sortVal, [a] + r)
  {
    var u := [a] + r;
    forall i, j | 0 <= i < j < |u| ensures Le(sortVal, u[i], u[j]) {
      if i == 0 {
        assert u[j] in r;
      } else {
        assert u[i] == r[i - 1] && u[j] == r[j - 1];
      }
    }
  }

  lemma {:induction false} InsertSorted(sortVal: string, x: Book, s: seq<Book>)
    requires Sorted(sortVal, s)
    ensures Sorted(sortVal, Insert(sortVal, x, s))
  {
    if s == [] {
    } else if Le(sortVal, x, s[0]) {
      forall y | y in s ensures Le(sortVal, x, y) {
        if y != s[0] {
          var j :| 0 <= j < |s| && s[j] == y;
          CompareIsTotalPreorder(sortVal, x, s[0], y);
        }
      }
      SortedCons(sortVal, x, s);
    } else {
      var t := s[1..];
      assert Sorted(sortVal, t);
      InsertSorted(sortVal, x, t);
      var r := Insert(sortVal, x, t);
      CompareIsTotalPreorder(sortVal, x, s[0], x);
      forall y | y in r ensures Le(sortVal, s[0], y) {
        assert y in multiset(r);
        if y != x {
          assert y in t;
        }
      }
      SortedCons(sortVal, s[0], r);
    }
  }

  /** The sorted result is ordered by the comparator. */
  lemma {:induction false} SortSorted(s: seq<Book>, sortVal: string)
    ensures Sorted(sortVal, SortBooks(s, sortVal))
  {
    if s != [] {
      SortSorted(s[1..], sortVal);
      InsertSorted(sortVal, s[0], SortBooks(s[1..], sortVal));
    }
  }

  /** An input already in order comes back unchanged. */
  lemma {:induction false} SortKeepsSorted(s: seq<Book>, sortVal: string)
    requires Sorted(sortVal, s)
    ensures SortBooks(s, sortVal) == s
  {
    if s != [] {
      assert Sorted(sortVal, s[1..]);
      SortKeepsSorted(s[1..], sortVal);
      if |s| > 1 {
        assert Le(sortVal, s[0], s[1]);
      }
      assert s == [s[0]] + s[1..];
    }
  }

  /** Swapping the books negates the comparator. */
  lemma CompareFlips(sortVal: string, a: Book, b: Book)
    ensures Compare(sortVal, a, b) == -Compare(sortVal, b, a)
  {
    CompareAntisymmetric(TitleKey(a), TitleKey(b));
    CompareAntisymmetric(AuthorKey(a), AuthorKey(b));
  }

  /** Two books tying with a third tie with each other. */
  lemma TiesLink(sortVal: string, x: Book, y: Book, z: Book)
    requires Compare(sortVal, x, y) == 0 && Compare(sortVal, x, z) == 0
    ensures Compare(sortVal, y, z) == 0
  {
    CompareFlips(sortVal, x, y);
    CompareFlips(sortVal, x, z);
    CompareFlips(sortVal, y, z);
    CompareIsTotalPreorder(sortVal, y, x, z);
    CompareIsTotalPreorder(sortVal, z, x, y);
  }

  /** The books of `s` that tie with `x` under the comparator, in their order. */
  function Ties(sortVal: string, x: Book, s: seq<Book>): (r: seq<Book>)
    ensures forall y :: y in r ==> y in s && Compare(sortVal, x, y) == 0
  {
    if s == [] then []
    else (if Compare(sortVal, x, s[0]) == 0 then [s[0]] else []) + Ties(sortVal, x, s[1..])
  }

  /** `Ties` of a list with a given head. */
  lemma TiesCons(sortVal: string, x: Book, a: Book, r: seq<Book>)
    ensures Ties(sortVal, x, [a] + r) == (if Compare(sortVal, x, a) == 0 then [a] else []) + Ties(sortVal, x, r)
  {
    assert ([a] + r)[0] == a && ([a] + r)[1..] == r;
  }

  /** Two books of which the first must follow the second never both tie
      with `x`, so their contributions to `Ties` commute. */
  lemma TiesCommute(sortVal: string, x: Book, y: Book, z: Book, rest: seq<Book>)
    requires !Le(sortVal, y, z)
    ensures var ty := if Compare(sortVal, x, y) == 0 then [y] else [];
      var tz := if Compare(sortVal, x, z) == 0 then [z] else [];
      tz + (ty + rest) == ty + (tz + rest)
  {
    if Compare(sortVal, x, y) == 0 && Compare(sortVal, x, z) == 0 {
      TiesLink(sortVal, x, y, z);
      assert false;
    }
  }

  /** Inserting `y` puts it ahead of every book it ties with. */
  lemma {:induction false} InsertTies(sortVal: string, x: Book, y: Book, r: seq<Book>)
    ensures Ties(sortVal, x, Insert(sortVal, y, r))
         == (if Compare(sortVal, x, y) == 0 then [y] else []) + Ties(sortVal, x, r)
  {
    if r == [] {
      TiesCons(sortVal, x, y, []);
    } else if Le(sortVal, y, r[0]) {
      TiesCons(sortVal, x, y, r);
    } else {
      var t := r[1..];
      InsertTies(sortVal, x, y, t);
      assert r == [r[0]] + t;
      TiesCons(sortVal, x, r[0], Insert(sortVal, y, t));
      TiesCons(sortVal, x, r[0], t);
      TiesCommute(sortVal, x, y, r[0], Ties(sortVal, x, t));
    }
  }

  /** Stability: the books that tie with any `x` come out of the sort in
      the order they went in. */
  lemma {:induction false} SortIsStable(s: seq<Book>, sortVal: string, x: Book)
    ensures Ties(sortVal, x, SortBooks(s, sortVal)) == Ties(sortVal, x, s)
  {
    if s != [] {
      SortIsStable(s[1..], sortVal, x);
      InsertTies(sortVal, x, s[0], SortBooks(s[1..], sortVal));
    }
  }

  /** `s` in reverse order. */
  function Reverse(s: seq<Book>): (r: seq<Book>)
    ensures |r| == |s|
    ensures forall i :: 0 <= i < |s| ==> r[i] == s[|s| - 1 - i]
    ensures multiset(r) == multiset(s)
  {
    if s == [] then []
    else
      assert s == [s[0]] + s[1..];
      Reverse(s[1..]) + [s[0]]
  }

  /** A book heading an ordered list may precede every book of the list. */
  lemma HeadPrecedes(sortVal: string, r: seq<Book>, b: Book)
    requires Sorted(sortVal, r) && r != [] && b in r
    ensures Le(sortVal, r[0], b)
  {
    var m :| 0 <= m < |r| && r[m] == b;
    if m == 0 {
      CompareIsTotalPreorder(sortVal, b, b, b);
    }
  }

  /** Two ordered arrangements of the same books start with the same book
      when tying books are equal. */
  lemma SortedSameHead(sortVal: string, r1: seq<Book>, r2: seq<Book>)
    requires Sorted(sortVal, r1) && Sorted(sortVal, r2) && r1 != [] && r2 != []
    requires multiset(r1) == multiset(r2)
    requires forall a, b :: a in r1 && b in r1 && Compare(sortVal, a, b) == 0 ==> a == b
    ensures r1[0] == r2[0]
  {
    var a, b := r1[0], r2[0];
    assert b in multiset(r1) && a in multiset(r2);
    HeadPrecedes(sortVal, r1, b);
    HeadPrecedes(sortVal, r2, a);
    CompareFlips(sortVal, a, b);
    assert Compare(sortVal, a, b) == 0;
  }

  /** The tail of an ordered list is ordered. */
  lemma SortedTail(sortVal: string, r: seq<Book>)
    requires r != [] && Sorted(sortVal, r)
    ensures Sorted(sortVal, r[1..])
  {
    var t := r[1..];
    forall i, j | 0 <= i < j < |t| ensures Le(sortVal, t[i], t[j]) {
      assert t[i] == r[i + 1] && t[j] == r[j + 1];
    }
  }

  /** Two lists with the same books and the same head have tails with the same books. */
  lemma SameHeadTailMultiset(r1: seq<Book>, r2: seq<Book>)
    requires r1 != [] && r2 != [] && r1[0] == r2[0]
    requires multiset(r1) == multiset(r2)
    ensures multiset(r1[1..]) == multiset(r2[1..])
  {
    assert r1 == [r1[0]] + r1[1..] && r2 == [r1[0]] + r2[1..];
    assert multiset(r1[1..]) == multiset(r1) - multiset{r1[0]};
    assert multiset(r2[1..]) == multiset(r2) - multiset{r1[0]};
  }

  /** Under a comparator where tying books are equal there is only one
      ordered arrangement of a multiset of books. */
  lemma {:induction false} SortedUnique(sortVal: string, r1: seq<Book>, r2: seq<Book>)
    requires Sorted(sortVal, r1) && Sorted(sortVal, r2)
    requires multiset(r1) == multiset(r2)
    requires forall a, b :: a in r1 && b in r1 && Compare(sortVal, a, b) == 0 ==> a == b
    ensures r1 == r2
    decreases |r1|
  {
    assert |r2| == |multiset(r2)| == |r1|;
    if r1 != [] {
      SortedSameHead(sortVal, r1, r2);
      SortedTail(sortVal, r1);
      SortedTail(sortVal, r2);
      SameHeadTailMultiset(r1, r2);
      forall a, b | a in r1[1..] && b in r1[1..] && Compare(sortVal, a, b) == 0 ensures a == b {
        assert a in r1 && b in r1;
      }
      SortedUnique(sortVal, r1[1..], r2[1..]);
      assert r1 == [r1[0]] + r1[1..] && r2 == [r2[0]] + r2[1..];
    }
  }

  /** With no two title keys tying, sorting by title descending gives the
      reverse of sorting by title ascending. */
  lemma TitleDescIsReverse(s: seq<Book>)
    requires forall a, b :: a in s && b in s && LocaleCompare(TitleKey(a), TitleKey(b)) == 0 ==> a == b
    ensures SortBooks(s, "title-desc") == Reverse(SortBooks(s, "title-asc"))
  {
    var asc := SortBooks(s, "title-asc");
    var desc := SortBooks(s, "title-desc");
    var rev := Reverse(asc);
    SortSorted(s, "title-asc");
    SortSorted(s, "title-desc");
    forall i, j | 0 <= i < j < |rev| ensures Le("title-desc", rev[i], rev[j]) {
      assert Le("title-asc", asc[|asc| - 1 - j], asc[|asc| - 1 - i]);
    }
    forall a, b | a in desc && b in desc && Compare("title-desc", a, b) == 0 ensures a == b {
      assert a in multiset(s) && b in multiset(s);
    }
    SortedUnique("title-desc", desc, rev);
  }

  /** An unknown sort key leaves the order as it is. */
  lemma UnknownKeyKeepsOrder(s: seq<Book>, sortVal: string)
    requires sortVal !in {"title-asc", "title-desc", "author-asc", "author-desc",
                          "date-asc", "date-desc", "pages-asc", "pages-desc"}
    ensures SortBooks(s, sortVal) == s
  {
    SortKeepsSorted(s, sortVal);
  }

  /** What "ordered" means for each sort key: non-decreasing keys for `*-asc`,
      non-increasing for `*-desc`, with a missing year or page count as 0. */
  lemma SortOrdersByKey(s: seq<Book>, sortVal: string, i: nat, j: nat)
    requires i < j < |s|
    ensures var r := SortBooks(s, sortVal);
      && (sortVal == "title-asc" ==> LocaleCompare(TitleKey(r[i]), TitleKey(r[j])) <= 0)
      && (sortVal == "title-desc" ==> LocaleCompare(TitleKey(r[j]), TitleKey(r[i])) <= 0)
      && (sortVal == "author-asc" ==> LocaleCompare(AuthorKey(r[i]), AuthorKey(r[j])) <= 0)
      && (sortVal == "author-desc" ==> LocaleCompare(AuthorKey(r[j]), AuthorKey(r[i])) <= 0)
      && (sortVal == "date-asc" ==> YearKey(r[i]) <= YearKey(r[j]))
      && (sortVal == "date-desc" ==> YearKey(r[i]) >= YearKey(r[j]))
      && (sortVal == "pages-asc" ==> PagesKey(r[i]) <= PagesKey(r[j]))
      && (sortVal == "pages-desc" ==> PagesKey(r[i]) >= PagesKey(r[j]))
  {
    SortSorted(s, sortVal);
    var r := SortBooks(s, sortVal);
    assert Le(sortVal, r[i], r[j]);
  }

  /** The displayed view: `sort(filter(allBooks, criteria), key)`. */
  function View(allBooks: seq<Book>, f: Filters, sortVal: string): seq<Book> {
    SortBooks(FilterBooks(allBooks, f), sortVal)
  }

  /** The view holds exactly the books of `allBooks` that pass the criteria,
      each as often as in `allBooks`, and is ordered by the sort key. */
  lemma ViewIsOrderedSelection(allBooks: seq<Book>, f: Filters, sortVal: string)
    ensures forall b :: multiset(View(allBooks, f, sortVal))[b] == (if Passes(b, f) then multiset(allBooks)[b] else 0)
    ensures forall b :: b in View(allBooks, f, sortVal) <==> b in allBooks && Passes(b, f)
    ensures |View(allBooks, f, sortVal)| <= |allBooks|
    ensures Sorted(sortVal, View(allBooks, f, sortVal))
  {
    var v := View(allBooks, f, sortVal);
    forall b ensures b in v <==> b in allBooks && Passes(b, f) {
      FilterMembership(allBooks, f, b);
      assert b in v <==> b in multiset(v);
    }
    forall b ensures multiset(v)[b] == (if Passes(b, f) then multiset(allBooks)[b] else 0) {
      FilterMultiplicity(allBooks, f, b);
    }
    SortSorted(FilterBooks(allBooks, f), sortVal);
  }
}
