/** The three reading lists (`favorites`, `toRead`, `read`) and the
    operations on them, all keyed by a book's derived identity. Writing the
    lists to `localStorage` after each change is not part of this model. */
module ReadingLists {
  import opened Wrappers
  import opened Books

  datatype ListName = Favorites | ToRead | Read

  /** Some entry of `s` has the identity of `b` (`isInReadingList`'s `some`). */
  predicate Contains(s: seq<Book>, b: Book) {
    exists i :: 0 <= i < |s| && SameIdentity(s[i], b)
  }

  /** No two entries share an identity. */
  predicate Distinct(s: seq<Book>) {
    forall i, j :: 0 <= i < j < |s| ==> !SameIdentity(s[i], s[j])
  }

  /** `findIndex`: the first position whose entry has the identity of `b`. */
  function FindIndex(s: seq<Book>, b: Book): (r: Option<nat>)
    ensures r.None? <==> !Contains(s, b)
    ensures r.Some? ==>
      r.value < |s| && SameIdentity(s[r.value], b) && forall j :: 0 <= j < r.value ==> !SameIdentity(s[j], b)
  {
    if |s| == 0 then None
    else if SameIdentity(s[0], b) then Some(0)
    else match FindIndex(s[1..], b)
      case None => None
      case Some(i) => Some(i + 1)
  }

  /** The list after `addToReadingList`. */
  function AddTo(s: seq<Book>, b: Book): (r: seq<Book>)
    ensures Contains(s, b) ==> r == s
    ensures !Contains(s, b) ==> |r| == |s| + 1 && r[..|s|] == s && r[|s|] == b
  {
    if Contains(s, b) then s else s + [b]
  }

  /** The list after `removeFromReadingList`: the first matching entry is cut out. */
  function RemoveFrom(s: seq<Book>, b: Book): (r: seq<Book>)
    ensures !Contains(s, b) ==> r == s
    ensures Contains(s, b) ==> var i := FindIndex(s, b).value;
      |r| == |s| - 1 && r[..i] == s[..i] && r[i..] == s[i + 1..]
  {
    match FindIndex(s, b)
    case None => s
    case Some(i) => s[..i] + s[i + 1..]
  }

  /** Identities are compared with `===`, so matching is symmetric and transitive. */
  lemma SameIdentityLinks(a: Book, b: Book, c: Book)
    ensures SameIdentity(a, b) ==> SameIdentity(b, a)
    ensures SameIdentity(a, b) && SameIdentity(b, c) ==> SameIdentity(a, c)
  {
  }

  /** After adding a book that has a string identity, the list contains it. */
  lemma AddThenContains(s: seq<Book>, b: Book)
    requires Identity(b).Str?
    ensures Contains(AddTo(s, b), b)
  {
    if !Contains(s, b) {
      assert AddTo(s, b)[|s|] == b;
    }
  }

  /** Adding the same book twice leaves the list as adding it once. */
  lemma AddIdempotent(s: seq<Book>, b: Book)
    requires Identity(b).Str?
    ensures AddTo(AddTo(s, b), b) == AddTo(s, b)
  {
    AddThenContains(s, b);
  }

  /** Two different books without an id but with the same title and authors
      share an identity, so once one is in a list the other is not added. */
  lemma LookalikeNotAdded(s: seq<Book>, a: Book, b: Book)
    requires a in s
    requires a.id.None? || a.id.value == ""
    requires b.id.None? || b.id.value == ""
    requires a.info.title == b.info.title && a.info.authors == b.info.authors
    requires a.info.title.Some? || a.info.authors.Some?
    ensures SameIdentity(a, b)
    ensures AddTo(s, b) == s
  {
    var i :| 0 <= i < |s| && s[i] == a;
    assert SameIdentity(s[i], b);
  }

  /** A book with neither id, title nor authors has identity `NaN`, matches
      nothing, and is appended again on every add. */
  lemma AddNaNAppendsAgain(s: seq<Book>, b: Book)
    requires Identity(b).NaN?
    ensures AddTo(AddTo(s, b), b) == s + [b, b]
  {
  }

  /** Adding keeps identities pairwise distinct. */
  lemma AddKeepsDistinct(s: seq<Book>, b: Book)
    requires Distinct(s)
    ensures Distinct(AddTo(s, b))
  {
    if !Contains(s, b) {
      var t := s + [b];
      forall i, j | 0 <= i < j < |t| ensures !SameIdentity(t[i], t[j]) {
        if j == |s| {
          assert t[i] == s[i] && t[j] == b;
        }
      }
    }
  }

  /** Removing keeps identities pairwise distinct. */
  lemma RemoveKeepsDistinct(s: seq<Book>, b: Book)
    requires Distinct(s)
    ensures Distinct(RemoveFrom(s, b))
  {
    match FindIndex(s, b)
    case None =>
    case Some(k) =>
      var t := s[..k] + s[k + 1..];
      forall i, j | 0 <= i < j < |t| ensures !SameIdentity(t[i], t[j]) {
        var i' := if i < k then i else i + 1;
        var j' := if j < k then j else j + 1;
        assert t[i] == s[i'] && t[j] == s[j'] && i' < j';
      }
  }

  /** Removing deletes exactly one entry when there is a match and none otherwise. */
  lemma RemoveLength(s: seq<Book>, b: Book)
    ensures Contains(s, b) ==> |RemoveFrom(s, b)| == |s| - 1
    ensures !Contains(s, b) ==> RemoveFrom(s, b) == s
  {
  }

  /** On a list without duplicates, a removed book is no longer contained. */
  lemma RemoveThenAbsent(s: seq<Book>, b: Book)
    requires Distinct(s)
    ensures !Contains(RemoveFrom(s, b), b)
  {
    match FindIndex(s, b)
    case None =>
    case Some(k) =>
      var t := s[..k] + s[k + 1..];
      forall i | 0 <= i < |t| ensures !SameIdentity(t[i], b) {
        var i' := if i < k then i else i + 1;
        assert t[i] == s[i'];
        if i' > k {
          assert !SameIdentity(s[k], s[i']);
          assert Identity(s[k]) == Identity(b) && Identity(s[k]).Str?;
        }
      }
  }

  /** Adding a book that was absent and removing it again restores the list. */
  lemma AddThenRemove(s: seq<Book>, b: Book)
    requires Identity(b).Str? && !Contains(s, b)
    ensures RemoveFrom(AddTo(s, b), b) == s
  {
    var t := s + [b];
    assert FindIndex(t, b) == Some(|s|) by {
      assert SameIdentity(t[|s|], b);
    }
    assert t[..|s|] == s;
  }

  /** Removing a book and adding it back makes it present again. */
  lemma RemoveThenAdd(s: seq<Book>, b: Book)
    requires Identity(b).Str?
    ensures Contains(AddTo(RemoveFrom(s, b), b), b)
  {
    AddThenContains(RemoveFrom(s, b), b);
  }

  /** The `data-action`, `data-list` and `data-index` attributes of a
      reading-list action button; `list` is nothing when the button has no
      `data-list` attribute. */
  datatype ActionButton = ActionButton(action: string, list: Option<ListName>, index: nat)

  /** The buttons `displayReadingLists` renders on the card of entry `idx`
      of list `name`: a remove button naming the list, and on `toRead` a
      mark-read button that names no list. */
  function CardButtons(name: ListName, idx: nat): (buttons: seq<ActionButton>)
    ensures |buttons| == (if name == ToRead then 2 else 1)
    ensures buttons[0] == ActionButton("remove", Some(name), idx)
    ensures name == ToRead ==> buttons[1].action == "mark-read" && buttons[1].index == idx
  {
    [ActionButton("remove", Some(name), idx)]
    + (if name == ToRead then [ActionButton("mark-read", None, idx)] else [])
  }

  /** The buttons as evidently intended: the mark-read button also names
      the `toRead` list it belongs to. */
  function IntendedCardButtons(name: ListName, idx: nat): (buttons: seq<ActionButton>)
    ensures |buttons| == (if name == ToRead then 2 else 1)
    ensures forall i :: 0 <= i < |buttons| ==> buttons[i].list == Some(name) && buttons[i].index == idx
    ensures buttons[0].action == "remove"
    ensures name == ToRead ==> buttons[1].action == "mark-read"
  {
    [ActionButton("remove", Some(name), idx)]
    + (if name == ToRead then [ActionButton("mark-read", Some(ToRead), idx)] else [])
  }

  class ReadingLists {
    var favorites: seq<Book>
    var toRead: seq<Book>
    var read: seq<Book>

    function List(name: ListName): seq<Book>
      reads this
    {
      match name
      case Favorites => favorites
      case ToRead => toRead
      case Read => read
    }

    /** Every list is free of duplicate identities. */
    ghost predicate Valid()
      reads this
    {
      forall n: ListName :: Distinct(List(n))
    }

    /** `loadReadingLists`: the stored lists, or three empty lists when
        nothing was stored. Stored lists are trusted as they are. */
    constructor (saved: Option<(seq<Book>, seq<Book>, seq<Book>)>)
      ensures saved.None? ==> favorites == [] && toRead == [] && read == [] && Valid()
      ensures saved.Some? ==> (favorites, toRead, read) == saved.value
    {
      match saved
      case None =>
        favorites, toRead, read := [], [], [];
      case Some(lists) =>
        favorites, toRead, read := lists.0, lists.1, lists.2;
    }

    /** `addToReadingList`: appends the book unless the list already holds its
        identity; reports whether it appended. Other lists are untouched. */
    method Add(b: Book, name: ListName) returns (added: bool)
      modifies this
      ensures added <==> !Contains(old(List(name)), b)
      ensures List(name) == AddTo(old(List(name)), b)
      ensures forall n :: n != name ==> List(n) == old(List(n))
      ensures old(Valid()) ==> Valid()
    {
      var s := List(name);
      added := FindIndex(s, b).None?;
      if added {
        SetList(name, s + [b]);
      }
      if old(Valid()) {
        forall n: ListName ensures Distinct(List(n)) {
          if n == name {
            AddKeepsDistinct(s, b);
          }
        }
      }
    }

    /** `removeFromReadingList`: cuts out the first entry with the book's
        identity and reports whether there was one. Other lists are untouched. */
    method Remove(b: Book, name: ListName) returns (removed: bool)
      modifies this
      ensures removed <==> Contains(old(List(name)), b)
      ensures List(name) == RemoveFrom(old(List(name)), b)
      ensures forall n :: n != name ==> List(n) == old(List(n))
      ensures old(Valid()) ==> Valid()
    {
      var s := List(name);
      var index := FindIndex(s, b);
      removed := index.Some?;
      if removed {
        SetList(name, s[..index.value] + s[index.value + 1..]);
      }
      if old(Valid()) {
        forall n: ListName ensures Distinct(List(n)) {
          if n == name {
            RemoveKeepsDistinct(s, b);
          }
        }
      }
    }

    /** `isInReadingList`. */
    function IsIn(b: Book, name: ListName): (r: bool)
      reads this
      ensures r <==> exists i :: 0 <= i < |List(name)| && SameIdentity(List(name)[i], b)
    {
      FindIndex(List(name), b).Some?
    }

    /** What the mark-read handler does with an entry of `toRead`: remove
        it there, then add it to `read`. The rendered button cannot reach
        this (see `Click` and `MarkReadButtonFindsNoBook`); it is the
        intended effect. */
    method MarkAsRead(b: Book)
      modifies this
      ensures toRead == RemoveFrom(old(toRead), b)
      ensures read == AddTo(old(read), b)
      ensures favorites == old(favorites)
      ensures old(Valid()) && Identity(b).Str? ==> !IsIn(b, ToRead) && IsIn(b, Read)
      ensures old(Valid()) ==> Valid()
    {
      var _ := Remove(b, ToRead);
      assert List(Favorites) == old(favorites) && List(Read) == old(read);
      var _ := Add(b, Read);
      assert List(Favorites) == old(favorites) && List(ToRead) == RemoveFrom(old(toRead), b);
      if old(Valid()) && Identity(b).Str? {
        assert old(List(ToRead)) == old(toRead);
        RemoveThenAbsent(old(toRead), b);
        AddThenContains(old(read), b);
      }
    }

    /** `readingLists[listType][index]` for a button: nothing when the
        button names no list (`readingLists[null]` is `undefined`, and
        indexing it throws) or when the index is past the end (`undefined`). */
    function ButtonBook(button: ActionButton): (r: Option<Book>)
      reads this
      ensures r.Some? <==> button.list.Some? && button.index < |List(button.list.value)|
      ensures r.Some? ==> r.value == List(button.list.value)[button.index]
    {
      if button.list.Some? && button.index < |List(button.list.value)|
      then Some(List(button.list.value)[button.index])
      else None
    }

    /** The click handler of the reading-list action buttons, as written.
        It throws (and changes nothing) when the button names no list, or
        when there is no book at the index and the action then reads the
        book's identity. */
    method Click(button: ActionButton) returns (threw: bool)
      modifies this
      ensures threw <==>
        (button.list.None? || (old(ButtonBook(button)).None? && (button.action == "remove" || button.action == "mark-read")))
      ensures threw || (button.action != "remove" && button.action != "mark-read") ==>
        favorites == old(favorites) && toRead == old(toRead) && read == old(read)
      ensures !threw && button.action == "remove" ==>
        var name := button.list.value;
        && List(name) == RemoveFrom(old(List(name)), old(ButtonBook(button)).value)
        && forall n :: n != name ==> List(n) == old(List(n))
      ensures !threw && button.action == "mark-read" ==>
        var b := old(ButtonBook(button)).value;
        toRead == RemoveFrom(old(toRead), b) && read == AddTo(old(read), b) && favorites == old(favorites)
      ensures old(Valid()) ==> Valid()
    {
      if button.list.None? {
        return true;
      }
      var book := ButtonBook(button);
      if book.None? {
        return button.action == "remove" || button.action == "mark-read";
      }
      threw := false;
      if button.action == "remove" {
        var _ := Remove(book.value, button.list.value);
      } else if button.action == "mark-read" {
        MarkAsRead(book.value);
      }
    }

    method SetList(name: ListName, s: seq<Book>)
      modifies this
      ensures List(name) == s
      ensures forall n :: n != name ==> List(n) == old(List(n))
    {
      match name
      case Favorites => favorites := s;
      case ToRead => toRead := s;
      case Read => read := s;
    }
  }

  /** As written, the rendered mark-read button finds no book: it names no
      list, so the lookup throws and the click changes none of the lists. */
  lemma MarkReadButtonFindsNoBook(r: ReadingLists, idx: nat)
    ensures var button := CardButtons(ToRead, idx)[1];
      button.action == "mark-read" && r.ButtonBook(button).None?
  {
  }

  /** As intended, the mark-read button of entry `idx` of `toRead` finds
      that entry, so the click runs `MarkAsRead` on it. */
  lemma IntendedMarkReadButtonFindsBook(r: ReadingLists, idx: nat)
    requires idx < |r.toRead|
    ensures var button := IntendedCardButtons(ToRead, idx)[1];
      button.action == "mark-read" && r.ButtonBook(button) == Some(r.toRead[idx])
  {
  }
}
