/**
 * `getEmojiCount` and `getSizeClass`. The emoji regular expression is
 * abstracted: a message is given already cut into the pieces the expression
 * would see, each either one emoji match or one other character, and a match
 * position is the index of a piece.
 */
module SizeClasses {
  import opened Wrappers
  import opened JsText

  /** The text of one match: the emoji expression never matches the empty string. */
  type MatchText = s: string | |s| > 0 witness "x"

  datatype Token = EmojiMatch(text: MatchText) | Plain(c: char)

  /** The characters a piece stands for. */
  function TokenText(t: Token): string {
    match t
    case EmojiMatch(text) => text
    case Plain(c) => [c]
  }

  /** The message itself. */
  function Text(tokens: seq<Token>): string {
    if tokens == [] then [] else TokenText(tokens[0]) + Text(tokens[1..])
  }

  /** What `str.match(regex)` would list: the emoji matches, in order. */
  function Matches(tokens: seq<Token>): seq<string> {
    if tokens == [] then []
    else (if tokens[0].EmojiMatch? then [tokens[0].text] else []) + Matches(tokens[1..])
  }

  /** Where a search that starts at piece `from` finds its match; `None` when there is none. */
  function NextMatch(tokens: seq<Token>, from: nat): (m: Option<nat>)
    decreases |tokens| - from
    ensures m.Some? ==> from <= m.value < |tokens| && tokens[m.value].EmojiMatch?
    ensures m.Some? ==> forall i :: from <= i < m.value ==> !tokens[i].EmojiMatch?
    ensures m.None? ==> forall i :: from <= i < |tokens| ==> !tokens[i].EmojiMatch?
  {
    if from >= |tokens| then None
    else if tokens[from].EmojiMatch? then Some(from)
    else NextMatch(tokens, from + 1)
  }

  /** A regular expression object: its `global` flag and its `lastIndex`. */
  class EmojiRegex {
    const global: bool
    var lastIndex: nat

    constructor (global: bool)
      ensures this.global == global && lastIndex == 0
    {
      this.global := global;
      lastIndex := 0;
    }

    /**
     * `regex.exec(str)`. A global expression searches from `lastIndex` and
     * moves it past the match, or back to the start when there is none; any
     * other one searches from the start and leaves `lastIndex` alone.
     */
    method Exec(tokens: seq<Token>) returns (m: Option<nat>)
      modifies this`lastIndex
      ensures global ==> m == NextMatch(tokens, old(lastIndex))
      ensures global ==> lastIndex == if m.Some? then m.value + 1 else 0
      ensures !global ==> m == NextMatch(tokens, 0) && lastIndex == old(lastIndex)
    {
      if global {
        m := NextMatch(tokens, lastIndex);
        lastIndex := if m.Some? then m.value + 1 else 0;
      } else {
        m := NextMatch(tokens, 0);
      }
    }
  }

  /** The number of matches from piece `k` on. */
  function CountFrom(tokens: seq<Token>, k: nat): nat
    decreases |tokens| - k
  {
    if k >= |tokens| then 0 else (if tokens[k].EmojiMatch? then 1 else 0) + CountFrom(tokens, k + 1)
  }

  lemma {:induction false} CountFromMatches(tokens: seq<Token>, k: nat)
    requires k <= |tokens|
    decreases |tokens| - k
    ensures CountFrom(tokens, k) == |Matches(tokens[k..])|
  {
    if k < |tokens| {
      CountFromMatches(tokens, k + 1);
      assert tokens[k..][1..] == tokens[k + 1..];
    }
  }

  /** A search from `k` skips no match: the pieces it passes over count nothing. */
  lemma {:induction false} SearchSkipsNothing(tokens: seq<Token>, k: nat)
    decreases |tokens| - k
    ensures NextMatch(tokens, k).None? ==> CountFrom(tokens, k) == 0
    ensures NextMatch(tokens, k).Some? ==> CountFrom(tokens, k) == CountFrom(tokens, NextMatch(tokens, k).value)
  {
    if k < |tokens| && !tokens[k].EmojiMatch? {
      SearchSkipsNothing(tokens, k + 1);
    }
  }

  /** How many matches a search that found `found` has still to count, itself included. */
  function Remaining(tokens: seq<Token>, found: Option<nat>): nat {
    if found.Some? then CountFrom(tokens, found.value) else 0
  }

  /** A search from the start sees every match. */
  lemma FirstSearch(tokens: seq<Token>)
    ensures Remaining(tokens, NextMatch(tokens, 0)) == |Matches(tokens)|
  {
    SearchSkipsNothing(tokens, 0);
    CountFromMatches(tokens, 0);
    assert tokens[0..] == tokens;
  }

  /** Counting the match at `j` leaves the ones the next search finds. */
  lemma NextSearch(tokens: seq<Token>, j: nat)
    requires j < |tokens| && tokens[j].EmojiMatch?
    ensures Remaining(tokens, Some(j)) == 1 + Remaining(tokens, NextMatch(tokens, j + 1))
  {
    SearchSkipsNothing(tokens, j + 1);
  }

  /**
   * `getEmojiCount`: with a global expression, the number of emoji matches;
   * otherwise one if there is any match and zero if there is none.
   */
  method GetEmojiCount(tokens: seq<Token>, global: bool) returns (count: nat)
    ensures global ==> count == |Matches(tokens)|
    ensures !global ==> count == if Matches(tokens) == [] then 0 else 1
  {
    var regex := new EmojiRegex(global);
    var found := regex.Exec(tokens);
    count := 0;
    FirstSearch(tokens);
    if !regex.global {
      return if found.Some? then 1 else 0;
    }
    while found.Some?
      invariant regex.global
      invariant found.Some? ==> found.value < |tokens| && tokens[found.value].EmojiMatch?
      invariant found.Some? ==> regex.lastIndex == found.value + 1
      invariant count + Remaining(tokens, found) == |Matches(tokens)|
      decreases if found.Some? then |tokens| - found.value else 0
    {
      NextSearch(tokens, found.value);
      count := count + 1;
      found := regex.Exec(tokens);
    }
  }

  // ----- getSizeClass -----

  datatype SizeClass = NoSize | Small | Medium | Large | ExtraLarge | Max {
    /** The class name the message list uses. */
    function Name(): string {
      match this
      case NoSize => ""
      case Small => "small"
      case Medium => "medium"
      case Large => "large"
      case ExtraLarge => "extra-large"
      case Max => "max"
    }
  }

  /** One emoji shows largest, five smallest; any other count gets no class. */
  function SizeForCount(n: int): SizeClass {
    if n == 1 then Max
    else if n == 2 then ExtraLarge
    else if n == 3 then Large
    else if n == 4 then Medium
    else if n == 5 then Small
    else NoSize
  }

  /** The text with every match removed. */
  function PlainText(tokens: seq<Token>): string {
    if tokens == [] then []
    else (if tokens[0].Plain? then [tokens[0].c] else []) + PlainText(tokens[1..])
  }

  /** The text with the first match removed. */
  function WithoutFirstMatch(tokens: seq<Token>): string {
    if tokens == [] then []
    else if tokens[0].EmojiMatch? then Text(tokens[1..])
    else [tokens[0].c] + WithoutFirstMatch(tokens[1..])
  }

  /** Removing the matches from the message: a global expression removes every match, any other the first. */
  function Stripped(tokens: seq<Token>, global: bool): string {
    if global then PlainText(tokens) else WithoutFirstMatch(tokens)
  }

  /** Some character of `s` is not white space. */
  predicate HasText(s: string) {
    exists i :: 0 <= i < |s| && !IsJsWhiteSpace(s[i])
  }

  /**
   * `getSizeClass`: no class when anything but white space is left once the
   * emoji are removed; otherwise the class for the number of emoji.
   */
  method GetSizeClass(tokens: seq<Token>, global: bool) returns (size: SizeClass)
    ensures HasText(Stripped(tokens, global)) ==> size == NoSize
    ensures !HasText(Stripped(tokens, global)) && global ==> size == SizeForCount(|Matches(tokens)|)
    ensures !HasText(Stripped(tokens, global)) && !global ==>
      size == if Matches(tokens) == [] then NoSize else Max
  {
    var rest := Stripped(tokens, global);
    TrimNonEmptyIff(rest);
    if |Trim(rest)| > 0 {
      return NoSize;
    }
    var count := GetEmojiCount(tokens, global);
    size := SizeForCount(count);
  }

  /** The characters left once every match is removed are exactly the other pieces. */
  lemma {:induction false} PlainTextChars(tokens: seq<Token>, c: char)
    ensures c in PlainText(tokens) <==> Plain(c) in tokens
  {
    if tokens != [] {
      PlainTextChars(tokens[1..], c);
      assert tokens == [tokens[0]] + tokens[1..];
    }
  }

  /**
   * With the global expression a message gets a size class exactly when it is
   * one to five emoji, with nothing but white space between them.
   */
  lemma SizedExactly(tokens: seq<Token>)
    ensures SizeForCount(|Matches(tokens)|) != NoSize && !HasText(Stripped(tokens, true)) <==>
      1 <= |Matches(tokens)| <= 5 && forall c :: Plain(c) in tokens ==> IsJsWhiteSpace(c)
  {
    var s := PlainText(tokens);
    forall c ensures c in s <==> Plain(c) in tokens {
      PlainTextChars(tokens, c);
    }
    if HasText(s) {
      var i :| 0 <= i < |s| && !IsJsWhiteSpace(s[i]);
      assert Plain(s[i]) in tokens;
    }
    if !HasText(s) {
      forall c | Plain(c) in tokens ensures IsJsWhiteSpace(c) {
        var i :| 0 <= i < |s| && s[i] == c;
      }
    }
  }

  /** Each count from one to five has its own class, and every such class has a name. */
  lemma SizeForCountDistinct(a: int, b: int)
    requires 1 <= a <= 5 && 1 <= b <= 5
    ensures SizeForCount(a) == SizeForCount(b) <==> a == b
    ensures SizeForCount(a).Name() != ""
  {
  }
}
