/**
 * `search`: the query is cut to the 32 characters the fuzzy matcher accepts
 * (`maxPatternLength`), the matcher ranks the dataset, and a non-zero `count`
 * keeps that many results (lodash `take`). The matcher is a parameter.
 */
module Search {
  import opened EmojiTypes

  /** The longest pattern the matcher is configured for. */
  const MaxPatternLength := 32

  /** The query cut to its first 32 characters. */
  function Cut(query: string): (q: string)
    ensures q <= query
    ensures |q| == if |query| < MaxPatternLength then |query| else MaxPatternLength
  {
    if |query| <= MaxPatternLength then query else query[..MaxPatternLength]
  }

  /** lodash `take`: the first `n` results, none for a negative `n`. */
  function Take(results: seq<Emoji>, n: int): (r: seq<Emoji>)
    ensures r <= results
    ensures |r| == if n <= 0 then 0 else if n < |results| then n else |results|
  {
    if n <= 0 then [] else if n < |results| then results[..n] else results
  }

  /**
   * `search(query, count)`: every result is ranked for the cut query; a zero
   * count keeps all of them, any other at most `count` of the first ones.
   */
  function Search(fuse: string -> seq<Emoji>, query: string, count: int): (r: seq<Emoji>)
    ensures r <= fuse(Cut(query))
    ensures count == 0 ==> r == fuse(Cut(query))
    ensures count < 0 ==> r == []
    ensures count > 0 ==> |r| == if count < |fuse(Cut(query))| then count else |fuse(Cut(query))|
  {
    var results := fuse(Cut(query));
    if count != 0 then Take(results, count) else results
  }

  /** Cutting twice is cutting once. */
  lemma CutIdempotent(query: string)
    ensures Cut(Cut(query)) == Cut(query)
  {
  }

  /** Only the first 32 characters of a query matter. */
  lemma SearchSeesPrefix(fuse: string -> seq<Emoji>, a: string, b: string, count: int)
    requires |a| >= MaxPatternLength && |b| >= MaxPatternLength
    requires a[..MaxPatternLength] == b[..MaxPatternLength]
    ensures Search(fuse, a, count) == Search(fuse, b, count)
  {
    assert Cut(a) == a[..MaxPatternLength];
    assert Cut(b) == b[..MaxPatternLength];
  }

  /** A larger positive count only adds results after the ones a smaller count keeps. */
  lemma SearchCountPrefix(fuse: string -> seq<Emoji>, query: string, m: int, n: int)
    requires 0 < m <= n
    ensures Search(fuse, query, m) <= Search(fuse, query, n)
  {
  }
}
