/** The quote records of the page and the JSON documents they travel in. */
module Quotes {
  import opened JsString

  /** A `{ text, category }` record. The page gives quotes no identifier. */
  datatype Quote = Quote(text: Str, category: Str)

  /**
    What `JSON.parse` makes of a stored or imported text: it throws
    (`ParseFail`), yields a value that `Array.isArray` rejects (`NotArray`),
    or yields an array of quote records (`IsArray`).
  */
  datatype Parsed = ParseFail | NotArray | IsArray(items: seq<Quote>)

  /** A quote the add form would accept: both fields non-empty and trimmed. */
  predicate WellFormed(q: Quote)
  {
    q.text != [] && q.category != [] && IsTrimmed(q.text) && IsTrimmed(q.category)
  }

  /** The localStorage key of the quote snapshot. */
  const QuotesKey: Str := Lit("quotes")

  /** The "All Categories" option value: the filter sentinel that means "no filter". */
  const All: Str := Lit("all")

  /** The three quotes the page starts with before anything is loaded. */
  const Seed: seq<Quote> := [
    Quote(Lit("The best way to predict the future is to invent it."), Lit("Inspiration")),
    Quote(Lit("Life is what happens when you're busy making other plans."), Lit("Life")),
    Quote(Lit("Get busy living or get busy dying."), Lit("Motivation"))
  ]
}
