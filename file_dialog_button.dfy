/**
 * Inspect::FileDialogButton (Libraries/InspectFile/FileDialogButton.cpp): the
 * button that opens a file dialog, with its title, its start path and its
 * std::set of dialog filters, the filter string the dialog is given, and the
 * attribute dispatch that configures the button.
 */
module InspectFile {
  import opened SortedSets
  import opened Tokenizer

  const AllFilesFilter: string := "All files (*.*)|*.*"
  const DefaultTitle: string := "Open"
  const FilterDelimiter: char := '|'

  /** The attribute keys Process recognises (FileDialogButton.h; only their being distinct matters here). */
  const AttrFilter: string := "filter"
  const AttrPath: string := "path"
  const AttrTitle: string := "title"

  /** The filter string Write hands to the dialog for a given filter set. */
  function DialogFilter(filters: seq<string>): string
  {
    if filters == [] then AllFilesFilter else Join(filters, FilterDelimiter)
  }

  /**
   * The dialog filter is the set's elements in ascending order joined by `|`:
   * any strictly ascending enumeration of the same set gives the same string.
   */
  lemma DialogFilterSorted(filters: seq<string>, members: set<string>, order: seq<string>)
    requires StrictlySorted(filters) && StrictlySorted(order)
    requires forall y :: y in filters <==> y in members
    requires forall y :: y in order <==> y in members
    ensures DialogFilter(filters) == if members == {} then AllFilesFilter else Join(order, FilterDelimiter)
  {
    SortedUnique(filters, order);
    if filters != [] {
      assert filters[0] in members;
    }
  }

  class FileDialogButton {
    var title: string            // m_Title
    var filters: seq<string>     // m_Filters, a std::set in ascending order
    var path: string             // m_Path

    ghost predicate Valid()
      reads this
    {
      StrictlySorted(filters)
    }

    /** The filter set as a set. */
    ghost function Filters(): set<string>
      reads this
    {
      set f | f in filters
    }

    /** A new button: title "Open", only the all-files filter, and the project's asset path. */
    constructor (projectAssets: string)
      ensures Valid() && title == DefaultTitle
      ensures filters == [AllFilesFilter] && Filters() == {AllFilesFilter}
      ensures path == projectAssets
    {
      title := DefaultTitle;
      filters := Insert([], AllFilesFilter);
      path := projectAssets;
    }

    method SetTitleBar(title: string)
      modifies this`title
      ensures this.title == title
    {
      this.title := title;
    }

    /** The start path of the dialog. */
    method SetPath(path: string)
      modifies this`path
      ensures this.path == path
    {
      this.path := path;
    }

    /** Replaces the filter set with the single filter `filter`. */
    method SetFilter(filter: string)
      modifies this`filters
      ensures Valid() && filters == [filter] && Filters() == {filter}
    {
      filters := [];
      filters := Insert(filters, filter);
    }

    /** Replaces the filter set with the distinct elements of `filter`. */
    method SetFilters(filter: seq<string>)
      modifies this`filters
      ensures Valid() && filters == InsertAll([], filter)
      ensures forall y :: y in filters <==> y in filter
    {
      filters := [];
      var i := 0;
      while i < |filter|
        invariant 0 <= i <= |filter|
        invariant StrictlySorted(filters)
        invariant InsertAll(filters, filter[i..]) == InsertAll([], filter)
        invariant forall y :: y in filters <==> y in filter[..i]
      {
        InsertSorted(filters, filter[i]);
        assert filter[i..][1..] == filter[i + 1..];
        assert filter[..i + 1] == filter[..i] + [filter[i]];
        filters := Insert(filters, filter[i]);
        i := i + 1;
      }
      assert filter[..i] == filter;
      InsertAllSorted([], filter);
    }

    /** Inserts `filter` into the set; an element already present changes nothing. */
    method AddFilter(filter: string)
      requires Valid()
      modifies this`filters
      ensures Valid() && filters == Insert(old(filters), filter)
      ensures Filters() == old(Filters()) + {filter}
      ensures filter in old(filters) ==> filters == old(filters)
    {
      InsertSorted(filters, filter);
      if filter in filters {
        InsertPresent(filters, filter);
      }
      filters := Insert(filters, filter);
    }

    /**
     * The filter string of Write: each filter followed by `|`, then the last
     * character erased; the all-files filter when the set is empty.
     */
    method FilterString() returns (filterStr: string)
      ensures filterStr == DialogFilter(filters)
    {
      filterStr := AllFilesFilter;
      if filters != [] {
        filterStr := [];
        var k := 0;
        while k < |filters|
          invariant 0 <= k <= |filters|
          invariant k == 0 ==> filterStr == []
          invariant k > 0 ==> filterStr == Join(filters[..k], FilterDelimiter) + [FilterDelimiter]
        {
          JoinPrefix(filters, k, FilterDelimiter);
          filterStr := filterStr + filters[k];
          filterStr := filterStr + [FilterDelimiter];
          k := k + 1;
        }
        assert filters[..k] == filters;
        filterStr := filterStr[..|filterStr| - 1];
      }
    }

    /** Stores a button attribute; keys other than filter, path and title get the base class's answer. */
    method Process(key: string, value: string, baseHandled: bool) returns (wasHandled: bool)
      requires Valid()
      modifies this
      ensures Valid()
      ensures key == AttrFilter ==>
        wasHandled && filters == [value] && title == old(title) && path == old(path)
      ensures key != AttrFilter && key == AttrPath ==>
        wasHandled && path == value && title == old(title) && filters == old(filters)
      ensures key != AttrFilter && key != AttrPath && key == AttrTitle ==>
        wasHandled && title == value && path == old(path) && filters == old(filters)
      ensures key != AttrFilter && key != AttrPath && key != AttrTitle ==>
        wasHandled == baseHandled && title == old(title) && path == old(path) && filters == old(filters)
    {
      wasHandled := false;
      if key == AttrFilter {
        SetFilter(value);
        wasHandled := true;
      } else if key == AttrPath {
        SetPath(value);
        wasHandled := true;
      } else if key == AttrTitle {
        SetTitleBar(value);
        wasHandled := true;
      } else {
        wasHandled := baseHandled;
      }
    }
  }
}
