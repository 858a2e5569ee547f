/**
 * `unifiedToEmoji`: a dataset `unified` string such as "1F468-200D-1F469" is
 * split on '-', each piece is read by `parseInt(piece, 16)` and turned into a
 * character by `String.fromCodePoint`. The emoji is modelled as its sequence of
 * code points.
 */
module Unified {
  import opened Wrappers
  import opened JsText
  import opened EmojiTypes

  predicate IsHexDigit(c: char) {
    '0' <= c <= '9' || 'a' <= c <= 'f' || 'A' <= c <= 'F'
  }

  /** The value of a hexadecimal digit; only digits are ever read, anything else counts 0. */
  function HexDigitValue(c: char): (d: nat)
    ensures d < 16
  {
    if '0' <= c <= '9' then c as int - '0' as int
    else if 'a' <= c <= 'f' then c as int - 'a' as int + 10
    else if 'A' <= c <= 'F' then c as int - 'A' as int + 10
    else 0
  }

  predicate AllHex(s: string) {
    forall i :: 0 <= i < |s| ==> IsHexDigit(s[i])
  }

  /** The number a string of hexadecimal digits denotes, most significant digit first. */
  function HexValue(s: string): nat {
    if s == [] then 0 else HexValue(s[..|s| - 1]) * 16 + HexDigitValue(s[|s| - 1])
  }

  /** The length of the longest prefix of hexadecimal digits. */
  function HexPrefixLength(s: string): (n: nat)
    ensures n <= |s|
  {
    if s != [] && IsHexDigit(s[0]) then 1 + HexPrefixLength(s[1..]) else 0
  }

  /** The prefix is all digits and is followed by no digit: it is the longest. */
  lemma {:induction false} HexPrefixIsLongest(s: string)
    ensures var n := HexPrefixLength(s);
      && AllHex(s[..n])
      && (n < |s| ==> !IsHexDigit(s[n]))
  {
    if s != [] && IsHexDigit(s[0]) {
      HexPrefixIsLongest(s[1..]);
      var n := HexPrefixLength(s);
      assert s[..n] == [s[0]] + s[1..][..n - 1];
    }
  }

  /** A string of digits is its own longest prefix. */
  lemma {:induction false} HexPrefixOfDigits(s: string)
    requires AllHex(s)
    ensures HexPrefixLength(s) == |s|
  {
    if s != [] {
      HexPrefixOfDigits(s[1..]);
    }
  }

  /**
   * `parseInt(s, 16)` (section 19.2.5 of ECMA-262): skip leading white space, take
   * an optional sign, drop an optional "0x" / "0X", then read the longest run of
   * hexadecimal digits. `None` stands for NaN, the result when that run is empty.
   */
  function ParseInt16(s: string): (r: Option<int>)
    ensures r.None? <==> HexPrefixLength(Unprefixed(s)) == 0
  {
    var v := Unprefixed(s);
    var n := HexPrefixLength(v);
    if n == 0 then None
    else
      var magnitude: int := HexValue(v[..n]);
      Some(if IsNegative(s) then -magnitude else magnitude)
  }

  /** Whether the number `parseInt` reads carries a minus sign. */
  predicate IsNegative(s: string) {
    var t := TrimStart(s);
    |t| > 0 && t[0] == '-'
  }

  /** What `parseInt` reads digits from: white space, sign and "0x" removed. */
  function Unprefixed(s: string): string {
    var t := TrimStart(s);
    var u := if |t| > 0 && (t[0] == '-' || t[0] == '+') then t[1..] else t;
    if |u| >= 2 && u[0] == '0' && (u[1] == 'x' || u[1] == 'X') then u[2..] else u
  }

  /** `String.fromCodePoint`: RangeError unless its argument is a code point. */
  function FromCodePoint(x: Option<int>): (r: Result<CodePoint>)
    ensures r.Ok? <==> x.Some? && 0 <= x.value <= 0x10FFFF
    ensures r.Ok? ==> r.value == x.value
    ensures r.Throws? ==> r.error == RangeError
  {
    if x.Some? && 0 <= x.value <= 0x10FFFF then Ok(x.value) else Throws(RangeError)
  }

  /** One piece read as hexadecimal and turned into a code point. */
  function PieceCodePoint(piece: string): (r: Result<CodePoint>)
    ensures r.Ok? ==> ParseInt16(piece) == Some(r.value as int)
    ensures r.Throws? ==> r.error == RangeError
  {
    FromCodePoint(ParseInt16(piece))
  }

  /** The piece denotes a code point. */
  predicate IsCodePointPiece(piece: string) {
    PieceCodePoint(piece).Ok?
  }

  /** The results of a `map` whose callback may throw, in order; the first exception ends it. */
  function Sequence<T>(rs: seq<Result<T>>): (r: Result<seq<T>>)
    ensures r.Ok? <==> forall i :: 0 <= i < |rs| ==> rs[i].Ok?
    ensures r.Throws? ==> exists i :: 0 <= i < |rs| && rs[i] == Throws(r.error) && forall j :: 0 <= j < i ==> rs[j].Ok?
    ensures r.Ok? ==> |r.value| == |rs| && forall i :: 0 <= i < |rs| ==> rs[i] == Ok(r.value[i])
  {
    if rs == [] then Ok([])
    else
      match rs[0]
      case Throws(e) => Throws(e)
      case Ok(x) =>
        var rest := Sequence(rs[1..]);
        assert forall i :: 1 <= i < |rs| ==> rs[i] == rs[1..][i - 1];
        match rest
        case Throws(e) =>
          assert exists i :: 1 <= i < |rs| && rs[i] == Throws(e) && forall j :: 1 <= j < i ==> rs[j].Ok?;
          Throws(e)
        case Ok(xs) => Ok([x] + xs)
  }

  /** Each piece read as hexadecimal and turned into a code point, in order; the first failure throws. */
  function ConvertPieces(pieces: seq<string>): (r: Result<EmojiString>)
    ensures r.Ok? <==> forall i :: 0 <= i < |pieces| ==> IsCodePointPiece(pieces[i])
    ensures r.Throws? ==> r.error == RangeError
    ensures r.Ok? ==> |r.value| == |pieces|
    ensures r.Ok? ==> forall i :: 0 <= i < |pieces| ==> PieceCodePoint(pieces[i]) == Ok(r.value[i])
  {
    var rs := seq(|pieces|, i requires 0 <= i < |pieces| => PieceCodePoint(pieces[i]));
    assert forall i :: 0 <= i < |pieces| ==> rs[i] == PieceCodePoint(pieces[i]);
    var r := Sequence(rs);
    assert r.Ok? <==> forall i :: 0 <= i < |pieces| ==> rs[i].Ok?;
    r
  }

  /**
   * `unifiedToEmoji`: one code point per '-'-separated piece of `unified`, in
   * order, each the hexadecimal value of its piece; RangeError if some piece is
   * not a code point.
   */
  function UnifiedToEmoji(unified: string): (r: Result<EmojiString>)
    ensures var pieces := Split(unified, '-');
      && (r.Ok? <==> forall i :: 0 <= i < |pieces| ==> IsCodePointPiece(pieces[i]))
      && (r.Throws? ==> r.error == RangeError)
      && (r.Ok? ==> |r.value| == |pieces| && r.value != [])
      && (r.Ok? ==> forall i :: 0 <= i < |r.value| ==> PieceCodePoint(pieces[i]) == Ok(r.value[i]))
  {
    var pieces := Split(unified, '-');
    var r := ConvertPieces(pieces);
    assert r.Ok? ==> forall i :: 0 <= i < |pieces| ==> IsCodePointPiece(pieces[i]);
    assert (forall i :: 0 <= i < |pieces| ==> IsCodePointPiece(pieces[i])) ==> r.Ok?;
    r
  }

  // ----- The dataset's own notation, and the round trip back through it -----

  function HexDigit(d: nat): (c: char)
    requires d < 16
    ensures IsHexDigit(c) && HexDigitValue(c) == d
  {
    "0123456789ABCDEF"[d]
  }

  /** The upper-case hexadecimal digits of `n`, without leading zeros. */
  function HexDigits(n: nat): (s: string)
    ensures AllHex(s) && 1 <= |s|
  {
    if n < 16 then [HexDigit(n)] else HexDigits(n / 16) + [HexDigit(n % 16)]
  }

  /** At least four digits, zero-padded, as the dataset writes code points ("00A9"). */
  function CodePointHex(c: CodePoint): (s: string)
    ensures AllHex(s) && 4 <= |s|
  {
    var d := HexDigits(c);
    if |d| < 4 then seq(4 - |d|, _ => '0') + d else d
  }

  /** The `unified` string the dataset would hold for an emoji. */
  function ToUnified(e: EmojiString): string {
    Join(seq(|e|, i requires 0 <= i < |e| => CodePointHex(e[i])), '-')
  }

  lemma {:induction false} HexValueOfHexDigits(n: nat)
    ensures HexValue(HexDigits(n)) == n
  {
    if n >= 16 {
      HexValueOfHexDigits(n / 16);
      var s := HexDigits(n);
      assert s[..|s| - 1] == HexDigits(n / 16);
    }
  }

  /** Leading zeros do not change the value. */
  lemma {:induction false} HexValueLeadingZeros(z: string, s: string)
    requires forall i :: 0 <= i < |z| ==> z[i] == '0'
    ensures HexValue(z + s) == HexValue(s)
  {
    if s == [] {
      assert z + s == z;
      ZerosAreZero(z);
    } else {
      var t := z + s;
      assert t[..|t| - 1] == z + s[..|s| - 1];
      HexValueLeadingZeros(z, s[..|s| - 1]);
    }
  }

  lemma {:induction false} ZerosAreZero(z: string)
    requires forall i :: 0 <= i < |z| ==> z[i] == '0'
    ensures HexValue(z) == 0
  {
    if z != [] {
      ZerosAreZero(z[..|z| - 1]);
    }
  }

  /** A plain run of hexadecimal digits parses to its value. */
  lemma ParseInt16OfDigits(s: string)
    requires |s| >= 1 && AllHex(s)
    ensures ParseInt16(s) == Some(HexValue(s))
  {
    assert !IsJsWhiteSpace(s[0]);
    assert TrimStart(s) == s;
    assert Unprefixed(s) == s;
    HexPrefixOfDigits(s);
    assert s[..|s|] == s;
  }

  lemma CodePointHexParses(c: CodePoint)
    ensures ParseInt16(CodePointHex(c)) == Some(c as int)
  {
    var d := HexDigits(c);
    HexValueOfHexDigits(c);
    if |d| < 4 {
      HexValueLeadingZeros(seq(4 - |d|, _ => '0'), d);
    }
    ParseInt16OfDigits(CodePointHex(c));
  }

  /** Pieces that each parse to the matching code point convert to exactly those code points. */
  lemma ConvertPiecesOfValues(pieces: seq<string>, e: EmojiString)
    requires |pieces| == |e|
    requires forall i :: 0 <= i < |e| ==> ParseInt16(pieces[i]) == Some(e[i] as int)
    ensures ConvertPieces(pieces) == Ok(e)
  {
    forall i | 0 <= i < |e| ensures PieceCodePoint(pieces[i]) == Ok(e[i]) {
      assert FromCodePoint(Some(e[i] as int)) == Ok(e[i]);
    }
    assert forall i :: 0 <= i < |pieces| ==> IsCodePointPiece(pieces[i]);
    var r := ConvertPieces(pieces);
    assert r.Ok?;
    assert |r.value| == |e|;
    forall i | 0 <= i < |e| ensures r.value[i] == e[i] {
      assert PieceCodePoint(pieces[i]) == Ok(r.value[i]);
    }
    assert r.value == e;
  }

  /** Writing an emoji in the dataset's notation and reading it back gives the emoji. */
  lemma UnifiedRoundTrip(e: EmojiString)
    requires |e| >= 1
    ensures UnifiedToEmoji(ToUnified(e)) == Ok(e)
  {
    var pieces := seq(|e|, i requires 0 <= i < |e| => CodePointHex(e[i]));
    forall i | 0 <= i < |pieces| ensures '-' !in pieces[i] {
      assert AllHex(pieces[i]);
    }
    SplitJoin(pieces, '-');
    assert Split(ToUnified(e), '-') == pieces;
    forall i | 0 <= i < |pieces| ensures ParseInt16(pieces[i]) == Some(e[i] as int) {
      CodePointHexParses(e[i]);
    }
    ConvertPiecesOfValues(pieces, e);
  }

  /** The modifiers U+1F3FB to U+1F3FF share their first four digits. */
  lemma ModifierDigits(k: nat)
    requires k < 5
    ensures CodePointHex(0x1F3FB + k) == "1F3F" + ["BCDEF"[k]]
  {
    var c := 0x1F3FB + k;
    assert c / 16 == 0x1F3F && c % 16 == 11 + k;
    assert HexDigits(0x1F3F) == "1F3F";
    assert HexDigit(11 + k) == "BCDEF"[k];
  }

  /** The dataset writes each tone modifier as its code point in hexadecimal. */
  lemma ModifierHex(k: nat)
    requires k < |SkinTones|
    ensures CodePointHex(0x1F3FB + k) == SkinTones[k]
  {
    ModifierDigits(k);
    var t := "1F3F" + ["BCDEF"[k]];
    assert t == SkinTones[k] by {
      if k == 0 {
        assert t == "1F3FB";
      } else if k == 1 {
        assert t == "1F3FC";
      } else if k == 2 {
        assert t == "1F3FD";
      } else if k == 3 {
        assert t == "1F3FE";
      } else {
        assert t == "1F3FF";
      }
    }
  }

  /** Every tone modifier names the code point it is written as. */
  lemma SkinTonesAreModifiers(k: nat)
    requires k < |SkinTones|
    ensures UnifiedToEmoji(SkinTones[k]) == Ok([0x1F3FB + k])
  {
    var c: CodePoint := 0x1F3FB + k;
    ModifierHex(k);
    assert ToUnified([c]) == CodePointHex(c);
    UnifiedRoundTrip([c]);
  }
}
