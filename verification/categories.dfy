/** `populateCategories`: the set of category tags offered by the category
    dropdown. The app script starts from five default tags and splits every
    category on '/', trimming the pieces; the standalone script collects the
    raw category strings only. Building the dropdown's DOM is not modelled. */
module Categories {
  import opened Wrappers
  import opened Text
  import opened Books
  import opened Pipeline

  const DefaultTags: set<string> := {"Fiction", "Nonfiction", "Science", "History", "Biography"}

  /** `item.volumeInfo?.categories` when it is an array, else nothing. */
  function CategoriesOf(b: Book): seq<string> {
    b.info.categories.GetOr([])
  }

  /** `subCat.trim()`. */
  function JsTrim(s: string): string {
    Trim(s, IsJsSpace)
  }

  /** The trimmed pieces. */
  function PieceTags(pieces: seq<string>): set<string> {
    if pieces == [] then {} else PieceTags(pieces[..|pieces| - 1]) + {JsTrim(pieces[|pieces| - 1])}
  }

  /** The tags from a list of categories, each split on '/'. */
  function CategoryTags(cats: seq<string>): set<string> {
    if cats == [] then {} else CategoryTags(cats[..|cats| - 1]) + PieceTags(Split(cats[|cats| - 1], '/'))
  }

  /** The tags from the categories of all books. */
  function BookTags(books: seq<Book>): set<string> {
    if books == [] then {} else BookTags(books[..|books| - 1]) + CategoryTags(CategoriesOf(books[|books| - 1]))
  }

  /** `populateCategories` of the app script. */
  method CollectTags(books: seq<Book>) returns (tags: set<string>)
    ensures tags == DefaultTags + BookTags(books)
  {
    tags := DefaultTags;
    var i := 0;
    while i < |books|
      invariant 0 <= i <= |books|
      invariant tags == DefaultTags + BookTags(books[..i])
    {
      var cats := CategoriesOf(books[i]);
      var j := 0;
      while j < |cats|
        invariant 0 <= j <= |cats|
        invariant tags == DefaultTags + BookTags(books[..i]) + CategoryTags(cats[..j])
      {
        var pieces := Split(cats[j], '/');
        var k := 0;
        while k < |pieces|
          invariant 0 <= k <= |pieces|
          invariant tags == DefaultTags + BookTags(books[..i]) + CategoryTags(cats[..j]) + PieceTags(pieces[..k])
        {
          tags := tags + {JsTrim(pieces[k])};
          assert pieces[..k + 1][..k] == pieces[..k];
          k := k + 1;
        }
        assert pieces[..k] == pieces;
        assert cats[..j + 1][..j] == cats[..j];
        j := j + 1;
      }
      assert cats[..j] == cats;
      assert books[..i + 1][..i] == books[..i];
      i := i + 1;
    }
    assert books[..i] == books;
  }

  lemma {:induction false} PieceTagsMembership(pieces: seq<string>, t: string)
    ensures t in PieceTags(pieces) <==> exists p :: p in pieces && JsTrim(p) == t
  {
    if pieces != [] {
      var n := |pieces| - 1;
      PieceTagsMembership(pieces[..n], t);
      assert pieces == pieces[..n] + [pieces[n]];
    }
  }

  lemma {:induction false} CategoryTagsMembership(cats: seq<string>, t: string)
    ensures t in CategoryTags(cats) <==> exists c :: c in cats && t in PieceTags(Split(c, '/'))
  {
    if cats != [] {
      var n := |cats| - 1;
      CategoryTagsMembership(cats[..n], t);
      assert cats == cats[..n] + [cats[n]];
      if t in PieceTags(Split(cats[n], '/')) {
        assert cats[n] in cats;
      }
      if t in CategoryTags(cats[..n]) {
        var c :| c in cats[..n] && t in PieceTags(Split(c, '/'));
        assert c in cats;
      }
    }
  }

  lemma {:induction false} BookTagsMembership(books: seq<Book>, t: string)
    ensures t in BookTags(books) <==> exists b :: b in books && t in CategoryTags(CategoriesOf(b))
  {
    if books != [] {
      var n := |books| - 1;
      BookTagsMembership(books[..n], t);
      assert books == books[..n] + [books[n]];
    }
  }

  /** `t` is one of the trimmed '/'-separated pieces of category `c`. */
  ghost predicate PieceOf(c: string, t: string) {
    exists p :: p in Split(c, '/') && JsTrim(p) == t
  }

  /** A tag is offered exactly when it is a default tag or a trimmed piece
      of some category of some book. */
  lemma TagMembership(books: seq<Book>, t: string)
    ensures t in DefaultTags + BookTags(books) <==>
      t in DefaultTags || exists b, c :: b in books && c in CategoriesOf(b) && PieceOf(c, t)
  {
    BookTagsMembership(books, t);
    forall b | b in books
      ensures t in CategoryTags(CategoriesOf(b)) <==> exists c :: c in CategoriesOf(b) && PieceOf(c, t)
    {
      CategoryTagsMembership(CategoriesOf(b), t);
      forall c | c in CategoriesOf(b)
        ensures t in PieceTags(Split(c, '/')) <==> PieceOf(c, t)
      {
        PieceTagsMembership(Split(c, '/'), t);
      }
    }
  }

  /** The tags from a category containing '/' never equal that category,
      while the category filter tests exact membership: choosing such a tag
      hides a book whose only category is the combined one. */
  lemma SplitTagHidesCombinedCategory(b: Book, c: string, p: string)
    requires b.info.categories == Some([c]) && '/' in c
    requires p in Split(c, '/') && JsTrim(p) != ""
    ensures FilterBooks([b], Filters(JsTrim(p), None, None)) == []
  {
    var t := JsTrim(p);
    TrimShape(p, IsJsSpace);
    var i := LeadingBlanks(p, IsJsSpace);
    assert t == p[i..i + |t|];
    assert '/' !in t by {
      forall k | 0 <= k < |t| ensures t[k] != '/' {
        assert t[k] == p[i + k];
      }
    }
    assert t != c;
    assert !Passes(b, Filters(t, None, None));
  }

  function Elements(s: seq<string>): set<string> {
    set x | x in s
  }

  /** The category set of the `populateCategories` of the standalone script. */
  function RawCategories(books: seq<Book>): set<string> {
    if books == [] then {}
    else RawCategories(books[..|books| - 1]) + Elements(CategoriesOf(books[|books| - 1]))
  }

  /** `populateCategories` of the standalone script: no defaults, no splitting. */
  method CollectRawCategories(books: seq<Book>) returns (categories: set<string>)
    ensures categories == RawCategories(books)
  {
    categories := {};
    var i := 0;
    while i < |books|
      invariant 0 <= i <= |books|
      invariant categories == RawCategories(books[..i])
    {
      var cats := CategoriesOf(books[i]);
      var j := 0;
      while j < |cats|
        invariant 0 <= j <= |cats|
        invariant categories == RawCategories(books[..i]) + Elements(cats[..j])
      {
        categories := categories + {cats[j]};
        assert cats[..j + 1] == cats[..j] + [cats[j]];
        j := j + 1;
      }
      assert cats[..j] == cats;
      assert books[..i + 1][..i] == books[..i];
      i := i + 1;
    }
    assert books[..i] == books;
  }

  /** The standalone script offers exactly the raw category strings that
      occur in the books. */
  lemma {:induction false} RawCategoriesMembership(books: seq<Book>, c: string)
    ensures c in RawCategories(books) <==> exists b :: b in books && c in CategoriesOf(b)
  {
    if books != [] {
      var n := |books| - 1;
      RawCategoriesMembership(books[..n], c);
      assert books == books[..n] + [books[n]];
    }
  }
}
