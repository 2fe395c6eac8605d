/**
 * The filter table of UIToolKit::FileDialog (UIToolKit/FileDialog.cpp): an
 * ordered set of `display|mask` entries built from a `|`-separated filter
 * string, joined back into the dialog's wild card, plus the style queries and
 * the cached selection.
 */
module UIToolKit {
  import opened Tokenizer
  import opened OrderedSets
  import opened SortedSets

  /** The FileDialogStyles bits the queries test (FileDialog.h; the values are assumed, that header is not part of this model). */
  const Multiple: bv32 := 0x0000_0020
  const ShowAllFilesFilter: bv32 := 0x0001_0000

  const FilterDelimiter: char := '|'
  const AllFilesFilter: string := "All files (*.*)|*.*"

  /**
   * The entries AddFilter's loop makes, two tokens at a time: `display|mask`
   * for each consecutive pair. Entry k joins tokens 2k and 2k + 1.
   */
  function Pairs(tokens: seq<string>): (entries: seq<string>)
    requires |tokens| % 2 == 0
    ensures |entries| == |tokens| / 2
    ensures forall k :: 0 <= k < |entries| ==>
      entries[k] == tokens[2 * k] + [FilterDelimiter] + tokens[2 * k + 1]
    decreases |tokens|
  {
    if tokens == [] then []
    else [tokens[0] + [FilterDelimiter] + tokens[1]] + Pairs(tokens[2..])
  }

  /** The entries UpdateFilter ends with, before it joins them. */
  function WithAllFiles(filters: seq<string>, style: bv32): seq<string>
  {
    if style & ShowAllFilesFilter != 0 then Appended(filters, AllFilesFilter) else filters
  }

  /** The entries after AddFilter(filter) on a filter string with an even number of tokens. */
  function AddedFilters(filters: seq<string>, style: bv32, filter: string): seq<string>
    requires |Tokenize(filter, FilterDelimiter)| % 2 == 0
  {
    WithAllFiles(AppendedAll(filters, Pairs(Tokenize(filter, FilterDelimiter))), style)
  }

  lemma PairsSnoc(tokens: seq<string>, i: nat)
    requires i % 2 == 0 && i + 2 <= |tokens|
    ensures Pairs(tokens[..i + 2]) == Pairs(tokens[..i]) + [tokens[i] + [FilterDelimiter] + tokens[i + 1]]
  {
    var a, b := Pairs(tokens[..i + 2]), Pairs(tokens[..i]) + [tokens[i] + [FilterDelimiter] + tokens[i + 1]];
    assert |a| == i / 2 + 1 == |b|;
    forall k | 0 <= k < |a| ensures a[k] == b[k] {
      if k < i / 2 {
        assert tokens[..i + 2][2 * k] == tokens[..i][2 * k] && tokens[..i + 2][2 * k + 1] == tokens[..i][2 * k + 1];
      } else {
        assert k == i / 2 && 2 * k == i;
      }
    }
  }

  ghost predicate NonEmptyEntries(filters: seq<string>)
  {
    forall k :: 0 <= k < |filters| ==> filters[k] != []
  }

  /** The empty filter string has an odd token count: AddFilter and SetFilter leave the wild card alone, and the constructor keeps it as given. */
  lemma EmptyFilterTokens()
    ensures Tokenize([], FilterDelimiter) == [[]] && |Tokenize([], FilterDelimiter)| % 2 != 0
  {
  }

  /** Stepping an even index by two stays even and within an even length. */
  lemma EvenStep(i: nat, n: nat)
    requires i % 2 == 0 && n % 2 == 0 && i < n
    ensures i + 2 <= n && (i + 2) % 2 == 0
  {
  }

  /** One iteration of AddFilter's loop appends the next pair entry. */
  lemma AddPairStep(base: seq<string>, tokens: seq<string>, i: nat)
    requires i % 2 == 0 && i + 2 <= |tokens|
    ensures AppendedAll(base, Pairs(tokens[..i + 2]))
         == Appended(AppendedAll(base, Pairs(tokens[..i])), tokens[i] + [FilterDelimiter] + tokens[i + 1])
  {
    PairsSnoc(tokens, i);
    AppendedAllSnoc(base, Pairs(tokens[..i]), tokens[i] + [FilterDelimiter] + tokens[i + 1]);
  }

  /** Adding pair entries to a duplicate-free table of non-empty entries keeps it so. */
  lemma AppendedPairsShape(base: seq<string>, tokens: seq<string>)
    requires |tokens| % 2 == 0
    requires NoDuplicates(base) && NonEmptyEntries(base)
    ensures NoDuplicates(AppendedAll(base, Pairs(tokens)))
    ensures NonEmptyEntries(AppendedAll(base, Pairs(tokens)))
  {
    var pairs := Pairs(tokens);
    var r := AppendedAll(base, pairs);
    AppendedAllKeepsNoDuplicates(base, pairs);
    forall k | 0 <= k < |r| ensures r[k] != [] {
      assert r[k] in r;
      if r[k] !in base {
        var j :| 0 <= j < |pairs| && pairs[j] == r[k];
        assert |pairs[j]| >= 1;
      }
    }
  }

  /**
   * AddFilter keeps what was there, in order, adds only the new pair entries
   * (and the all-files entry when the style asks for it), and never duplicates one.
   */
  lemma AddedFiltersShape(filters: seq<string>, style: bv32, filter: string)
    requires NoDuplicates(filters)
    requires |Tokenize(filter, FilterDelimiter)| % 2 == 0
    ensures var r := AddedFilters(filters, style, filter);
      && NoDuplicates(r)
      && |filters| <= |r| && r[..|filters|] == filters
      && (forall e :: e in r <==>
            e in filters || e in Pairs(Tokenize(filter, FilterDelimiter))
            || (e == AllFilesFilter && style & ShowAllFilesFilter != 0))
  {
    var added := AppendedAll(filters, Pairs(Tokenize(filter, FilterDelimiter)));
    AppendedAllKeepsNoDuplicates(filters, Pairs(Tokenize(filter, FilterDelimiter)));
    if style & ShowAllFilesFilter != 0 && AllFilesFilter !in added {
      assert (added + [AllFilesFilter])[..|filters|] == added[..|filters|];
    }
  }

  /** The wild card is empty exactly when there are no entries, else it starts with the first entry and ends with the last. */
  lemma WildcardShape(filters: seq<string>)
    requires NonEmptyEntries(filters)
    ensures Join(filters, FilterDelimiter) == [] <==> filters == []
    ensures filters != [] ==>
      var w := Join(filters, FilterDelimiter);
      && |w| >= |filters[0]| && w[..|filters[0]|] == filters[0]
      && |w| >= |filters[|filters| - 1]| && w[|w| - |filters[|filters| - 1]|..] == filters[|filters| - 1]
  {
    JoinEmpty(filters, FilterDelimiter);
    if filters != [] {
      JoinEnds(filters, FilterDelimiter);
    }
  }

  class FileDialog {
    const style: bv32               // m_Style
    var filters: seq<string>        // m_Filters
    var wildcard: string            // the wxFileDialog wild card
    var filterIndex: nat            // the wxFileDialog filter index
    var files: seq<string>          // m_Files, a std::set in ascending order

    ghost predicate Valid()
      reads this
    {
      NoDuplicates(filters) && NonEmptyEntries(filters) && StrictlySorted(files)
    }

    /** The constructor's Create: the base dialog is taken to keep `wildCard` as given, then SetFilter(wildCard). */
    constructor (style: bv32, wildCard: string)
      ensures Valid() && this.style == style && files == [] && filterIndex == 0
      ensures |Tokenize(wildCard, FilterDelimiter)| % 2 != 0 ==> filters == [] && wildcard == wildCard
      ensures |Tokenize(wildCard, FilterDelimiter)| % 2 == 0 ==>
        filters == AddedFilters([], style, wildCard) && wildcard == Join(filters, FilterDelimiter)
    {
      this.style := style;
      filters := [];
      wildcard := wildCard;
      filterIndex := 0;
      files := [];
      new;
      SetFilter(wildCard);
    }

    /** Holds exactly when every Multiple bit is set in the style. */
    predicate IsMultipleSelectionEnabled()
      reads this
      ensures IsMultipleSelectionEnabled() <==> Multiple & !style == 0
    {
      style & Multiple == Multiple
    }

    /** The first (least) selected path, or the empty string when none is stored. */
    function GetFilePath(): (path: string)
      requires Valid()
      reads this
      ensures files == [] ==> path == []
      ensures files != [] ==> path in files && forall f :: f in files && f != path ==> Less(path, f)
    {
      if files != [] then files[0] else []
    }

    /** Clears the entries, then adds those of `filter`. */
    method SetFilter(filter: string)
      requires Valid()
      modifies this
      ensures Valid() && files == old(files) && filterIndex == old(filterIndex)
      ensures |Tokenize(filter, FilterDelimiter)| % 2 != 0 ==> filters == [] && wildcard == old(wildcard)
      ensures |Tokenize(filter, FilterDelimiter)| % 2 == 0 ==>
        filters == AddedFilters([], style, filter) && wildcard == Join(filters, FilterDelimiter)
    {
      filters := [];
      AddFilter(filter);
    }

    /** The position of the first entry equal to `filter`, 0 when there is none. */
    method FindFilterIndex(filter: string) returns (index: nat)
      ensures filter in filters ==> index < |filters| && filters[index] == filter && filter !in filters[..index]
      ensures filter !in filters ==> index == 0
    {
      index := 0;
      var count := 0;
      while count < |filters|
        invariant 0 <= count <= |filters|
        invariant filter !in filters[..count]
      {
        if filters[count] == filter {
          index := count;
          return;
        }
        assert filters[..count + 1] == filters[..count] + [filters[count]];
        count := count + 1;
      }
      assert filters[..count] == filters;
    }

    /** Selects the entry equal to `filter` in the dialog. */
    method SetFilterIndex(filter: string)
      modifies this`filterIndex
      ensures filter in filters ==>
        filterIndex < |filters| && filters[filterIndex] == filter && filter !in filters[..filterIndex]
      ensures filter !in filters ==> filterIndex == 0
    {
      filterIndex := FindFilterIndex(filter);
    }

    /** Parses `display|mask|display|mask...` and appends an entry per pair; an odd token count changes nothing. */
    method AddFilter(filter: string)
      requires Valid()
      modifies this
      ensures Valid() && files == old(files) && filterIndex == old(filterIndex)
      ensures |Tokenize(filter, FilterDelimiter)| % 2 != 0 ==>
        filters == old(filters) && wildcard == old(wildcard)
      ensures |Tokenize(filter, FilterDelimiter)| % 2 == 0 ==>
        filters == AddedFilters(old(filters), style, filter) && wildcard == Join(filters, FilterDelimiter)
    {
      var splitFilter := Tokenize(filter, FilterDelimiter);
      if |splitFilter| % 2 != 0 {
        return;
      }
      var i := 0;
      while i < |splitFilter|
        invariant 0 <= i <= |splitFilter| && i % 2 == 0
        invariant filters == AppendedAll(old(filters), Pairs(splitFilter[..i]))
        modifies this`filters
      {
        EvenStep(i, |splitFilter|);
        var display := splitFilter[i];
        var mask := splitFilter[i + 1];
        display := display + [FilterDelimiter] + mask;
        AddPairStep(old(filters), splitFilter, i);
        filters := Appended(filters, display);
        i := i + 2;
      }
      assert splitFilter[..i] == splitFilter;
      AppendedPairsShape(old(filters), splitFilter);
      UpdateFilter();
    }

    /** Adds the all-files entry if the style asks for it and joins the entries into the wild card. */
    method UpdateFilter()
      requires Valid()
      modifies this
      ensures Valid() && files == old(files) && filterIndex == old(filterIndex)
      ensures filters == WithAllFiles(old(filters), style)
      ensures wildcard == Join(filters, FilterDelimiter)
    {
      if style & ShowAllFilesFilter != 0 {
        AppendedKeepsNoDuplicates(filters, AllFilesFilter);
        filters := Appended(filters, AllFilesFilter);
      }
      var filterStr := [];
      if filters != [] {
        var k := 0;
        while k < |filters|
          invariant 0 <= k <= |filters|
          invariant filterStr == Join(filters[..k], FilterDelimiter)
          invariant k > 0 ==> filterStr != []
          modifies {}
        {
          JoinPrefix(filters, k, FilterDelimiter);
          if filterStr != [] {
            filterStr := filterStr + [FilterDelimiter];
          }
          filterStr := filterStr + filters[k];
          k := k + 1;
        }
        assert filters[..k] == filters;
      }
      wildcard := filterStr;
    }
  }
}
