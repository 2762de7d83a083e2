/**
  The page's state and the operations of `dom-manipulation/script.js` that
  change or read it: the `quotes` array, its localStorage snapshot, and the
  saved filter selection.
*/
module QuotePage {
  import opened Wrappers
  import opened JsString
  import opened Quotes
  import opened CategoryIndex
  import opened Selection

  /** What `(input?.value || "")` reads from an input box that may be missing. */
  function InputValue(input: Option<Str>): Str
  {
    input.GetOr([])
  }

  /**
    The quote the add form would store: both fields trimmed, or None when
    either of them is blank once trimmed.
  */
  function Candidate(textInput: Option<Str>, categoryInput: Option<Str>): (c: Option<Quote>)
    ensures c.None? <==> AllWhitespace(InputValue(textInput)) || AllWhitespace(InputValue(categoryInput))
    ensures c.Some? ==> WellFormed(c.value)
    ensures c.Some? ==> c.value == Quote(Trim(InputValue(textInput)), Trim(InputValue(categoryInput)))
  {
    var text, category := InputValue(textInput), InputValue(categoryInput);
    TrimEmptyIff(text);
    TrimEmptyIff(category);
    if Trim(text) == [] || Trim(category) == [] then None
    else Some(Quote(Trim(text), Trim(category)))
  }

  /** The three alerts of an import. */
  datatype ImportOutcome = Imported | NotAnArray | InvalidJson

  class Page {
    /** The module-level `quotes` array. */
    var quotes: seq<Quote>
    /**
      The localStorage entries read back through `JSON.parse`, keyed by name;
      an entry is what `JSON.parse` makes of its text (an empty text is a
      `ParseFail`: the page skips it as falsy, which has the same effect).
      Only the `QuotesKey` entry is ever read or written here; the
      "selectedCategory" entry is the separate field below, and a value this
      map may hold under that name plays no part.
    */
    var storage: map<Str, Parsed>
    /** The localStorage entry "selectedCategory", read back verbatim; None while unset. */
    var selectedCategory: Option<Str>

    /**
      Page start-up: the seed quotes, replaced by the saved snapshot when it
      is an array. The storage is what earlier visits left behind.
    */
    constructor (saved: map<Str, Parsed>, savedFilter: Option<Str>)
      ensures storage == saved && selectedCategory == savedFilter
      ensures QuotesKey in saved && saved[QuotesKey].IsArray? ==> quotes == saved[QuotesKey].items
      ensures !(QuotesKey in saved && saved[QuotesKey].IsArray?) ==> quotes == Seed
    {
      quotes := Seed;
      storage := saved;
      selectedCategory := savedFilter;
      new;
      Load();
    }

    /** `saveQuotes`: the snapshot entry becomes the current collection; no other entry changes. */
    method Save()
      modifies this`storage
      ensures storage == old(storage)[QuotesKey := IsArray(quotes)]
    {
      storage := storage[QuotesKey := IsArray(quotes)];
    }

    /** The shared `Array.isArray(parsed)` decision of load and import: replace only with an array. */
    method ReplaceIfArray(doc: Parsed) returns (replaced: bool)
      modifies this`quotes
      ensures replaced <==> doc.IsArray?
      ensures replaced ==> quotes == doc.items
      ensures !replaced ==> quotes == old(quotes)
    {
      replaced := doc.IsArray?;
      if replaced {
        quotes := doc.items;
      }
    }

    /**
      `loadQuotes`: a missing entry, a text that does not parse and a
      non-array value all leave the collection as it was.
    */
    method Load()
      modifies this`quotes
      ensures QuotesKey in storage && storage[QuotesKey].IsArray? ==> quotes == storage[QuotesKey].items
      ensures !(QuotesKey in storage && storage[QuotesKey].IsArray?) ==> quotes == old(quotes)
    {
      if QuotesKey in storage {
        var replaced := ReplaceIfArray(storage[QuotesKey]);
      }
    }

    /**
      `addQuote`: a blank field after trimming rejects the quote and changes
      nothing; otherwise the trimmed quote is appended and the snapshot saved.
    */
    method Add(textInput: Option<Str>, categoryInput: Option<Str>) returns (added: bool)
      modifies this`quotes, this`storage
      ensures added <==> !AllWhitespace(InputValue(textInput)) && !AllWhitespace(InputValue(categoryInput))
      ensures added ==> quotes == old(quotes) + [Quote(Trim(InputValue(textInput)), Trim(InputValue(categoryInput)))]
      ensures added ==> WellFormed(quotes[|quotes| - 1])
      ensures added ==> storage == old(storage)[QuotesKey := IsArray(quotes)]
      ensures !added ==> quotes == old(quotes) && storage == old(storage)
    {
      var candidate := Candidate(textInput, categoryInput);
      if candidate.None? {
        added := false;
        return;
      }
      quotes := quotes + [candidate.value];
      Save();
      added := true;
    }

    /**
      The load handler of `importFromJsonFile`: an array replaces the whole
      collection, unvalidated, and is saved; anything else is reported and
      changes nothing.
    */
    method Import(doc: Parsed) returns (outcome: ImportOutcome)
      modifies this`quotes, this`storage
      ensures outcome == match doc
                         case ParseFail => InvalidJson
                         case NotArray => NotAnArray
                         case IsArray(_) => Imported
      ensures doc.IsArray? ==> quotes == doc.items && storage == old(storage)[QuotesKey := IsArray(doc.items)]
      ensures !doc.IsArray? ==> quotes == old(quotes) && storage == old(storage)
    {
      var replaced := ReplaceIfArray(doc);
      if replaced {
        Save();
        outcome := Imported;
      } else if doc.NotArray? {
        outcome := NotAnArray;
      } else {
        outcome := InvalidJson;
      }
    }

    /**
      `populateCategories`: the option values of the drop-down, "all" first
      and then one per category in ascending order without repeats, and the
      saved selection it puts back when there is a non-empty one.
    */
    method PopulateCategories() returns (options: seq<Str>, restored: Option<Str>)
      ensures |options| >= 1 && options[0] == All
      ensures options[1..] == Categories(quotes)
      ensures Ascending(options[1..]) && NoDuplicates(options[1..])
      ensures forall c :: c in options[1..] <==> Occurs(quotes, c)
      ensures restored.Some? <==> selectedCategory.Some? && selectedCategory.value != []
      ensures restored.Some? ==> restored == selectedCategory
    {
      var categories := Categories(quotes);
      CategoriesSpec(quotes);
      options := [All];
      var i := 0;
      while i < |categories|
        invariant 0 <= i <= |categories|
        invariant options == [All] + categories[..i]
      {
        options := options + [categories[i]];
        i := i + 1;
      }
      assert categories[..i] == categories;
      restored := if selectedCategory.Some? && selectedCategory.value != [] then selectedCategory else None;
    }

    /**
      `showRandomQuote`, given the drop-down's value (None when there is no
      drop-down) and the draw `r` of `Math.random()`.
    */
    method ShowRandomQuote(filter: Option<Str>, r: real) returns (shown: Display)
      requires 0.0 <= r < 1.0
      ensures shown.NoQuotes? <==> RandomPool(quotes, filter) == []
      ensures shown.Shown? ==> shown.quote in RandomPool(quotes, filter) && shown.quote in quotes
      ensures shown == Pick(RandomPool(quotes, filter), r)
    {
      var pool := quotes;
      if filter.Some? && filter.value != [] && filter.value != All {
        pool := Filter(quotes, filter.value);
      }
      shown := Pick(pool, r);
      RandomPoolSpec(quotes, filter);
      SubsequenceMultiset(pool, quotes);
      if shown.Shown? {
        assert shown.quote in multiset(pool);
      }
    }

    /**
      `filterQuotes`, given the drop-down's value (None when there is no
      drop-down): the value is saved at once, then a quote of that category
      (of any category for "all") is shown.
    */
    method FilterQuotes(sel: Option<Str>, r: real) returns (shown: Option<Display>)
      requires 0.0 <= r < 1.0
      modifies this`selectedCategory
      ensures sel.None? ==> shown.None? && selectedCategory == old(selectedCategory)
      ensures sel.Some? ==> selectedCategory == sel && shown == Some(Pick(FilterPool(quotes, sel.value), r))
    {
      if sel.None? {
        return None;
      }
      selectedCategory := sel;
      if sel.value == All {
        var d := ShowRandomQuote(sel, r);
        shown := Some(d);
      } else {
        var pool := Filter(quotes, sel.value);
        shown := Some(Pick(pool, r));
      }
    }
  }

  /** A page reload right after `saveQuotes` starts with the same collection and selection. */
  method ReloadAfterSave(page: Page) returns (next: Page)
    modifies page
    ensures next.quotes == old(page.quotes)
    ensures next.selectedCategory == old(page.selectedCategory)
    ensures next.storage == page.storage
  {
    page.Save();
    next := new Page(page.storage, page.selectedCategory);
  }

  /**
    A selection made with `filterQuotes` is what `populateCategories` puts
    back after a reload, unless it was the empty value.
  */
  method ReloadRestoresFilter(page: Page, v: Str, r: real) returns (restored: Option<Str>)
    requires 0.0 <= r < 1.0
    modifies page
    ensures restored == if v == [] then None else Some(v)
  {
    var shown := page.FilterQuotes(Some(v), r);
    var next := new Page(page.storage, page.selectedCategory);
    var options;
    options, restored := next.PopulateCategories();
  }
}
