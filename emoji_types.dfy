/**
 * The records of the emoji dataset (`EmojiData`, `EmojiSkinVariation` in lib.ts),
 * the skin-tone argument the lookups accept, and the image-path builder.
 */
module EmojiTypes {
  import opened Wrappers

  /** A Unicode code point, the range `String.fromCodePoint` accepts. */
  type CodePoint = c: int | 0 <= c <= 0x10FFFF

  /** An emoji as the code points `unifiedToEmoji` emits. */
  type EmojiString = seq<CodePoint>

  /** One entry of a record's `skin_variations` object. */
  datatype SkinVariation = SkinVariation(
    unified: string,
    nonQualified: Option<string>,
    image: string,
    sheetX: int,
    sheetY: int,
    addedIn: string,
    hasImgApple: bool,
    hasImgGoogle: bool,
    hasImgTwitter: bool,
    hasImgEmojione: bool,
    hasImgFacebook: bool,
    hasImgMessenger: bool)

  /**
   * One dataset record. `skinVariations` is `None` when the property is absent and
   * otherwise lists the object's entries in property order. `hasImgEmojione` and
   * `hasImgMessenger` are not fields of a dataset record (`None`); they appear
   * (`Some`) on a record that a skin variation has been spread over.
   */
  datatype Emoji = Emoji(
    name: string,
    unified: string,
    nonQualified: Option<string>,
    docomo: Option<string>,
    au: Option<string>,
    softbank: Option<string>,
    google: Option<string>,
    image: string,
    sheetX: int,
    sheetY: int,
    shortName: string,
    shortNames: seq<string>,
    text: Option<string>,
    texts: Option<seq<string>>,
    category: string,
    sortOrder: int,
    addedIn: string,
    hasImgApple: bool,
    hasImgGoogle: bool,
    hasImgTwitter: bool,
    hasImgFacebook: bool,
    skinVariations: Option<seq<(string, SkinVariation)>>,
    hasImgEmojione: Option<bool>,
    hasImgMessenger: Option<bool>)

  /** The `skinTone` argument: omitted, a number, or a `SkinToneKey` string. */
  datatype SkinTone = NoTone | ToneIndex(n: int) | ToneKey(key: string)

  /** The five Fitzpatrick modifiers, light to dark (`skinTones`). */
  const SkinTones: seq<string> := ["1F3FB", "1F3FC", "1F3FD", "1F3FE", "1F3FF"]

  /** JavaScript truthiness of the tone: `undefined`, `0` and `''` are falsy. */
  predicate IsTruthy(t: SkinTone) {
    match t
    case NoTone => false
    case ToneIndex(n) => n != 0
    case ToneKey(k) => k != ""
  }

  /**
   * The property key a tone selects: `skinTones[n - 1]` for a number, the string
   * itself otherwise. An out-of-range index reads `undefined`, which as a property
   * key is the string "undefined".
   */
  function ToneKeyOf(t: SkinTone): (k: string)
    ensures t.ToneIndex? && 1 <= t.n <= 5 ==> k == SkinTones[t.n - 1]
    ensures t.ToneIndex? && !(1 <= t.n <= 5) ==> k == "undefined"
    ensures t.ToneKey? ==> k == t.key
    ensures t.ToneIndex? ==> (k in SkinTones <==> 1 <= t.n <= 5)
  {
    match t
    case ToneIndex(n) => if 1 <= n <= |SkinTones| then SkinTones[n - 1] else "undefined"
    case ToneKey(k) => k
    case NoTone => "undefined"
  }

  /** The first entry stored under `key` in a variations object, if any. */
  function FindVariation(vs: seq<(string, SkinVariation)>, key: string): (r: Option<SkinVariation>)
    ensures r.Some? <==> exists i :: 0 <= i < |vs| && vs[i].0 == key
    ensures r.Some? ==> exists i :: 0 <= i < |vs| && vs[i] == (key, r.value)
  {
    if vs == [] then None
    else if vs[0].0 == key then Some(vs[0].1)
    else
      var r := FindVariation(vs[1..], key);
      assert forall i :: 1 <= i < |vs| ==> vs[i] == vs[1..][i - 1];
      r
  }

  const ImageDirectory: string := "node_modules/emoji-datasource-apple/img/apple/64/"

  /** `makeImagePath`: the Apple 64px image of `src` below the application root. */
  function MakeImagePath(root: string, src: string): (p: string)
    ensures |p| == |root| + |ImageDirectory| + |src|
    ensures p[..|root|] == root
    ensures p[|root|..|root| + |ImageDirectory|] == ImageDirectory
    ensures p[|root| + |ImageDirectory|..] == src
  {
    root + ImageDirectory + src
  }

  /** Distinct image names give distinct paths under one root. */
  lemma MakeImagePathInjective(root: string, a: string, b: string)
    requires MakeImagePath(root, a) == MakeImagePath(root, b)
    ensures a == b
  {
  }
}
