/** The search-results state of a front-end script: the fetched books, the
    filtered and sorted view of them, the offered category tags, the active
    filter criteria and the active sort key, with the handlers that change
    them. Both scripts share this logic; they differ only in how the
    category tags are collected. Rendering is not modelled. */
module ResultsView {
  import opened Wrappers
  import opened Text
  import opened Books
  import opened Pipeline
  import opened Categories

  const DefaultSort: string := "title-asc"

  /** `searchInput.value.trim()`, or nothing when the input is blank (the
      handler then shows a modal and stops). */
  function SearchQuery(input: string): (q: Option<string>)
    ensures q.None? <==> forall k :: 0 <= k < |input| ==> IsJsSpace(input[k])
    ensures q.Some? ==> q.value == Trim(input, IsJsSpace)
    ensures q.Some? ==> q.value != "" && !IsJsSpace(q.value[0]) && !IsJsSpace(q.value[|q.value| - 1])
    ensures q.Some? ==>
      var i := LeadingBlanks(input, IsJsSpace);
      && i + |q.value| <= |input|
      && q.value == input[i..i + |q.value|]
      && (forall k :: 0 <= k < i ==> IsJsSpace(input[k]))
      && (forall k :: i + |q.value| <= k < |input| ==> IsJsSpace(input[k]))
  {
    TrimEmptyIff(input, IsJsSpace);
    TrimShape(input, IsJsSpace);
    var t := Trim(input, IsJsSpace);
    if t == "" then None else Some(t)
  }

  /** The year-filter handler refuses a pair of set bounds with `min > max`. */
  predicate YearRangeAccepted(min: Option<int>, max: Option<int>) {
    !(IsSet(min) && IsSet(max) && min.value > max.value)
  }

  class ResultsView {
    /** True for the app script (default tags, '/'-split categories),
        false for the standalone script (raw categories). */
    const splitsCategories: bool
    var allBooks: seq<Book>
    var filteredBooks: seq<Book>
    var categories: set<string>
    var currentFilters: Filters
    var currentSort: string

    /** The displayed books are the filtered, sorted view of the fetched ones. */
    ghost predicate Consistent()
      reads this
    {
      filteredBooks == View(allBooks, currentFilters, currentSort)
    }

    constructor (splitsCategories: bool)
      ensures this.splitsCategories == splitsCategories
      ensures allBooks == [] && filteredBooks == [] && categories == {}
      ensures currentFilters == NoFilters && currentSort == DefaultSort
      ensures Consistent()
    {
      this.splitsCategories := splitsCategories;
      allBooks := [];
      filteredBooks := [];
      categories := {};
      currentFilters := NoFilters;
      currentSort := DefaultSort;
    }

    /** `applyFilters`: the fetched books passing the current criteria, in order. */
    method ApplyFilters()
      modifies this
      ensures filteredBooks == FilterBooks(allBooks, currentFilters)
      ensures allBooks == old(allBooks) && categories == old(categories)
      ensures currentFilters == old(currentFilters) && currentSort == old(currentSort)
    {
      filteredBooks := FilterBooks(allBooks, currentFilters);
    }

    /** `applySorting`: the displayed books stably sorted by the current key. */
    method ApplySorting()
      modifies this
      ensures filteredBooks == SortBooks(old(filteredBooks), currentSort)
      ensures allBooks == old(allBooks) && categories == old(categories)
      ensures currentFilters == old(currentFilters) && currentSort == old(currentSort)
    {
      filteredBooks := SortBooks(filteredBooks, currentSort);
    }

    /** `updateDisplay`: filter, then sort. */
    method UpdateDisplay()
      modifies this
      ensures Consistent()
      ensures allBooks == old(allBooks) && categories == old(categories)
      ensures currentFilters == old(currentFilters) && currentSort == old(currentSort)
    {
      ApplyFilters();
      ApplySorting();
    }

    /** `populateCategories` in the flavour of this script. */
    method PopulateCategories(books: seq<Book>)
      modifies this
      ensures splitsCategories ==> categories == DefaultTags + BookTags(books)
      ensures !splitsCategories ==> categories == RawCategories(books)
      ensures allBooks == old(allBooks) && filteredBooks == old(filteredBooks)
      ensures currentFilters == old(currentFilters) && currentSort == old(currentSort)
    {
      if splitsCategories {
        categories := CollectTags(books);
      } else {
        categories := CollectRawCategories(books);
      }
    }

    /** The part of the search handler after the books arrive: an empty result
        clears the display and keeps the filters and tags; otherwise the tags
        are rebuilt, the criteria reset (the sort key is kept) and the view
        recomputed. */
    method ShowResults(books: seq<Book>)
      modifies this
      ensures allBooks == books && currentSort == old(currentSort)
      ensures books == [] ==>
        filteredBooks == [] && currentFilters == old(currentFilters) && categories == old(categories)
      ensures books != [] ==>
        currentFilters == NoFilters && Consistent()
        && (splitsCategories ==> categories == DefaultTags + BookTags(books))
        && (!splitsCategories ==> categories == RawCategories(books))
    {
      allBooks := books;
      if |books| == 0 {
        filteredBooks := [];
        return;
      }
      PopulateCategories(books);
      currentFilters := NoFilters;
      UpdateDisplay();
    }

    /** The category dropdown handler. */
    method SelectCategory(category: string)
      modifies this
      ensures currentFilters == old(currentFilters).(category := category)
      ensures allBooks == old(allBooks) && categories == old(categories) && currentSort == old(currentSort)
      ensures Consistent()
    {
      currentFilters := currentFilters.(category := category);
      UpdateDisplay();
    }

    /** The year-filter handler; `min` and `max` are the parsed inputs, with
        nothing for an empty field or an unparsable one. A pair of set bounds
        with `min > max` is refused and nothing changes. */
    method ApplyYearFilter(min: Option<int>, max: Option<int>) returns (accepted: bool)
      modifies this
      ensures accepted <==> YearRangeAccepted(min, max)
      ensures !accepted ==>
        allBooks == old(allBooks) && filteredBooks == old(filteredBooks) && categories == old(categories)
        && currentFilters == old(currentFilters) && currentSort == old(currentSort)
      ensures accepted ==>
        currentFilters == old(currentFilters).(yearMin := min, yearMax := max)
        && allBooks == old(allBooks) && categories == old(categories) && currentSort == old(currentSort)
        && Consistent()
    {
      if IsSet(min) && IsSet(max) && min.value > max.value {
        return false;
      }
      currentFilters := currentFilters.(yearMin := min, yearMax := max);
      UpdateDisplay();
      return true;
    }

    /** The sort dropdown handler. */
    method SelectSort(sortVal: string)
      modifies this
      ensures currentSort == sortVal
      ensures allBooks == old(allBooks) && categories == old(categories) && currentFilters == old(currentFilters)
      ensures Consistent()
    {
      currentSort := sortVal;
      UpdateDisplay();
    }

    /** The clear-filters handler: no criteria, default sort, view recomputed. */
    method ClearFilters()
      modifies this
      ensures currentFilters == NoFilters && currentSort == DefaultSort
      ensures allBooks == old(allBooks) && categories == old(categories)
      ensures filteredBooks == SortBooks(allBooks, DefaultSort)
    {
      currentFilters := NoFilters;
      currentSort := DefaultSort;
      UpdateDisplay();
      NoFiltersKeepAll(allBooks);
    }
  }

  /** After an accepted year filter every displayed book has a year within
      each set bound. */
  lemma AcceptedYearFilterBounds(allBooks: seq<Book>, f: Filters, sortVal: string, b: Book)
    requires b in View(allBooks, f, sortVal)
    ensures IsSet(f.yearMin) ==> HasYear(b) && YearOf(b).value >= f.yearMin.value
    ensures IsSet(f.yearMax) ==> HasYear(b) && YearOf(b).value <= f.yearMax.value
  {
    ViewIsOrderedSelection(allBooks, f, sortVal);
    FilterMembership(allBooks, f, b);
  }

  /** A refused year range has no book in it: both bounds set and `min > max`
      would filter everything out, which the handler's guard prevents. */
  lemma RefusedRangeIsEmpty(allBooks: seq<Book>, min: Option<int>, max: Option<int>)
    requires !YearRangeAccepted(min, max)
    ensures FilterBooks(allBooks, Filters("", min, max)) == []
  {
    var r := FilterBooks(allBooks, Filters("", min, max));
    assert forall b :: b !in r;
  }
}
