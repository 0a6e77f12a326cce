/**
 * The list logic of the file panel (src/views/file_view.py), lifted out of the widget:
 * the name filter of `filter_files` and the three orders of `sort_files`.
 */
module Catalog {
  import opened Wrappers
  import opened Text
  import opened Models
  import opened Lists
  import opened Sorting

  // ---------------------------------------------------------------------------
  // Filtering
  // ---------------------------------------------------------------------------

  /** The filter test of `filter_files`: `needle in file.name.lower()`. */
  predicate NameMatches(f: File, needle: string): (matches: bool)
    ensures matches ==> exists i: nat :: i <= |f.name| && OccursAt(Lower(f.name), needle, i)
    ensures (exists i: nat :: i <= |f.name| && OccursAt(Lower(f.name), needle, i)) ==> matches
  {
    var name := Lower(f.name);
    ContainsIffOccurs(name, needle);
    Contains(name, needle)
  }

  /** The comprehension `[file for file in files if needle in file.name.lower()]`. */
  function Matching(files: seq<File>, needle: string): (r: seq<File>)
    ensures |r| <= |files|
    ensures forall f :: f in r ==> NameMatches(f, needle)
  {
    Keep(files, f => NameMatches(f, needle))
  }

  /**
   * The filtered view is exactly the matching files of the catalog in catalog order:
   * `idx` lists, strictly increasing, the catalog positions the view was taken from,
   * and a position is listed if and only if its file's lowercased name contains `needle`.
   */
  lemma MatchingPicksExactly(files: seq<File>, needle: string) returns (idx: seq<nat>)
    ensures |idx| == |Matching(files, needle)|
    ensures forall k :: 0 <= k < |idx| ==> idx[k] < |files| && Matching(files, needle)[k] == files[idx[k]]
    ensures forall k, l :: 0 <= k < l < |idx| ==> idx[k] < idx[l]
    ensures forall i :: 0 <= i < |files| ==> (NameMatches(files[i], needle) <==> i in idx)
  {
    idx := KeepPicksExactly(files, f => NameMatches(f, needle));
  }

  /** The view never holds a file the catalog does not, nor more copies of one. */
  lemma MatchingSubMultiset(files: seq<File>, needle: string)
    ensures multiset(Matching(files, needle)) <= multiset(files)
  {
    KeepSubMultiset(files, f => NameMatches(f, needle));
  }

  /** With an empty needle every file matches, so filtering gives back the catalog. */
  lemma MatchingEmptyNeedle(files: seq<File>)
    ensures Matching(files, "") == files
  {
    KeepAll(files, f => NameMatches(f, ""));
  }

  // ---------------------------------------------------------------------------
  // Sorting
  // ---------------------------------------------------------------------------

  /** The three orders of the Sort menu. */
  datatype SortKey = ByName | BySize | ByDate

  /** The criterion strings `sort_files` recognises; any other string selects no order. */
  function ParseCriterion(criterion: string): (r: Option<SortKey>)
    ensures r == Some(ByName) <==> criterion == "name"
    ensures r == Some(BySize) <==> criterion == "size"
    ensures r == Some(ByDate) <==> criterion == "date"
  {
    if criterion == "name" then Some(ByName)
    else if criterion == "size" then Some(BySize)
    else if criterion == "date" then Some(ByDate)
    else None
  }

  /**
   * `a` may stand before `b`: lowercase names ascending, sizes ascending, or
   * modification times descending (`reverse=True`).
   */
  predicate KeyLe(key: SortKey, a: File, b: File)
    ensures key == ByName && Lower(a.name) == Lower(b.name) ==> KeyLe(key, a, b)
    ensures key == BySize && a.size == b.size ==> KeyLe(key, a, b)
    ensures key == ByDate && a.date == b.date ==> KeyLe(key, a, b)
    ensures key == ByName && KeyLe(key, a, b) && a.name != [] ==> b.name != [] && LowerChar(a.name[0]) <= LowerChar(b.name[0])
  {
    match key
    case ByName =>
      LexLeTotal(Lower(a.name), Lower(a.name));
      if a.name != [] && b.name != [] then
        LowerAt(a.name, 0);
        LowerAt(b.name, 0);
        LexLe(Lower(a.name), Lower(b.name))
      else
        LexLe(Lower(a.name), Lower(b.name))
    case BySize => a.size <= b.size
    case ByDate => a.date >= b.date
  }

  /** `KeyLe` as the order `Sort` takes. */
  function KeyOrder(key: SortKey): (File, File) -> bool
  {
    (a, b) => KeyLe(key, a, b)
  }

  /** `list.sort(key=...)`, with `reverse=True` for dates. */
  function SortBy(key: SortKey, s: seq<File>): (r: seq<File>)
    ensures |r| == |s|
  {
    Sort(KeyOrder(key), s)
  }

  /** Each of the three orders is total and transitive. */
  lemma KeyOrderIsPreorder(key: SortKey)
    ensures Total(KeyOrder(key)) && Transitive(KeyOrder(key))
  {
    forall a, b
      ensures KeyLe(key, a, b) || KeyLe(key, b, a)
    {
      if key == ByName {
        LexLeTotal(Lower(a.name), Lower(b.name));
      }
    }
    forall a, b, c | KeyLe(key, a, b) && KeyLe(key, b, c)
      ensures KeyLe(key, a, c)
    {
      if key == ByName {
        LexLeTrans(Lower(a.name), Lower(b.name), Lower(c.name));
      }
    }
  }

  /** Two files tie exactly when the key the source sorts by is the same for both. */
  lemma TieMeansSameKey(key: SortKey, a: File, b: File)
    ensures KeyLe(key, a, b) && KeyLe(key, b, a) <==>
      match key
      case ByName => Lower(a.name) == Lower(b.name)
      case BySize => a.size == b.size
      case ByDate => a.date == b.date
  {
    if key == ByName {
      if KeyLe(key, a, b) && KeyLe(key, b, a) {
        LexLeAntisym(Lower(a.name), Lower(b.name));
      }
      LexLeTotal(Lower(a.name), Lower(a.name));
    }
  }

  /**
   * Sorting permutes the view and puts it in the chosen order: lowercase names
   * non-decreasing, sizes non-decreasing, or dates non-increasing.
   */
  lemma SortByOrders(key: SortKey, s: seq<File>)
    ensures multiset(SortBy(key, s)) == multiset(s)
    ensures key == ByName ==> forall i, j :: 0 <= i < j < |s| ==>
      LexLe(Lower(SortBy(key, s)[i].name), Lower(SortBy(key, s)[j].name))
    ensures key == BySize ==> forall i, j :: 0 <= i < j < |s| ==>
      SortBy(key, s)[i].size <= SortBy(key, s)[j].size
    ensures key == ByDate ==> forall i, j :: 0 <= i < j < |s| ==>
      SortBy(key, s)[i].date >= SortBy(key, s)[j].date
  {
    KeyOrderIsPreorder(key);
    SortSorted(KeyOrder(key), s);
    SortPermutes(KeyOrder(key), s);
  }

  /** Sorting is stable: the files that tie with `y` keep their relative order. */
  lemma SortByStable(key: SortKey, s: seq<File>, y: File)
    ensures Ties(KeyOrder(key), SortBy(key, s), y) == Ties(KeyOrder(key), s, y)
  {
    KeyOrderIsPreorder(key);
    SortStable(KeyOrder(key), s, y);
  }

  /** Sorting twice by the same criterion gives the view of sorting once. */
  lemma SortByIdempotent(key: SortKey, s: seq<File>)
    ensures SortBy(key, SortBy(key, s)) == SortBy(key, s)
  {
    KeyOrderIsPreorder(key);
    SortIdempotent(KeyOrder(key), s);
  }

  /**
   * `SortBy` is the stable sort: any ordering of the same files in the chosen order,
   * with ties in their original order, is `SortBy(key, s)`.
   */
  lemma SortByUnique(key: SortKey, s: seq<File>, r: seq<File>)
    requires multiset(r) == multiset(s)
    requires Sorted(KeyOrder(key), r)
    requires forall y :: Ties(KeyOrder(key), r, y) == Ties(KeyOrder(key), s, y)
    ensures r == SortBy(key, s)
  {
    KeyOrderIsPreorder(key);
    SortUnique(KeyOrder(key), s, r);
  }
}
