/**
 * The short-name lookups over `dataByShortName`: `getEmojiData`,
 * `getImagePath`, `convertShortNameToData` and `convertShortName`. The table
 * is a parameter, so the index builder can call them on the table as it is at
 * each step.
 */
module Lookup {
  import opened Wrappers
  import opened EmojiTypes
  import opened Unified

  /** What `getEmojiData` returns: a record, one of its variations, or `undefined`. */
  datatype EmojiDataResult = BaseRecord(emoji: Emoji) | SkinRecord(variation: SkinVariation) | Undefined

  /** The key twice, joined by '-': the entry of a two-person emoji with both people in one tone. */
  function DoubledKey(key: string): string {
    key + "-" + key
  }

  /**
   * `getEmojiData`. A falsy tone, or a record without variations, gives the
   * record itself; otherwise the variation stored under the tone's key, or else
   * the one under the doubled key, or else `undefined`. For an unknown name the
   * record is `undefined`: with a falsy tone that is the answer, with a truthy
   * one reading its `skin_variations` throws.
   */
  function GetEmojiData(table: map<string, Emoji>, shortName: string, tone: SkinTone): (r: Result<EmojiDataResult>)
    ensures shortName !in table ==> r == (if IsTruthy(tone) then Throws(TypeError) else Ok(Undefined))
    ensures shortName in table && (!IsTruthy(tone) || table[shortName].skinVariations.None?) ==>
      r == Ok(BaseRecord(table[shortName]))
    ensures shortName in table && IsTruthy(tone) && table[shortName].skinVariations.Some? ==>
      var vs := table[shortName].skinVariations.value;
      var key := ToneKeyOf(tone);
      && (FindVariation(vs, key).Some? ==> r == Ok(SkinRecord(FindVariation(vs, key).value)))
      && (FindVariation(vs, key).None? && FindVariation(vs, DoubledKey(key)).Some? ==> r == Ok(SkinRecord(FindVariation(vs, DoubledKey(key)).value)))
      && (FindVariation(vs, key).None? && FindVariation(vs, DoubledKey(key)).None? ==> r == Ok(Undefined))
    ensures r.Ok? && r.value.SkinRecord? ==>
      shortName in table && table[shortName].skinVariations.Some? &&
      exists i :: 0 <= i < |table[shortName].skinVariations.value| &&
        table[shortName].skinVariations.value[i].1 == r.value.variation
  {
    if shortName !in table then
      if IsTruthy(tone) then Throws(TypeError) else Ok(Undefined)
    else
      var base := table[shortName];
      if IsTruthy(tone) && base.skinVariations.Some? then
        var vs := base.skinVariations.value;
        var key := ToneKeyOf(tone);
        match FindVariation(vs, key)
        case Some(v) => Ok(SkinRecord(v))
        case None =>
          match FindVariation(vs, DoubledKey(key))
          case Some(v) => Ok(SkinRecord(v))
          case None => Ok(Undefined)
      else Ok(BaseRecord(base))
  }

  /** `getImagePath`: the image of what `getEmojiData` finds; reading `image` of `undefined` throws. */
  function GetImagePath(table: map<string, Emoji>, root: string, shortName: string, tone: SkinTone): (r: Result<string>)
    ensures r.Ok? <==> GetEmojiData(table, shortName, tone).Ok? && !GetEmojiData(table, shortName, tone).value.Undefined?
    ensures r.Ok? && GetEmojiData(table, shortName, tone).value.BaseRecord? ==>
      r.value == MakeImagePath(root, GetEmojiData(table, shortName, tone).value.emoji.image)
    ensures r.Ok? && GetEmojiData(table, shortName, tone).value.SkinRecord? ==>
      r.value == MakeImagePath(root, GetEmojiData(table, shortName, tone).value.variation.image)
    ensures r.Throws? ==> r.error == TypeError
  {
    match GetEmojiData(table, shortName, tone)
    case Throws(e) => Throws(e)
    case Ok(BaseRecord(e)) => Ok(MakeImagePath(root, e.image))
    case Ok(SkinRecord(v)) => Ok(MakeImagePath(root, v.image))
    case Ok(Undefined) => Throws(TypeError)
  }

  // ----- spreading a variation over its record -----

  /** The fields a skin variation carries, read off a record, when it has them all. */
  function VariationFields(e: Emoji): Option<SkinVariation> {
    if e.hasImgEmojione.Some? && e.hasImgMessenger.Some? then
      Some(SkinVariation(e.unified, e.nonQualified, e.image, e.sheetX, e.sheetY, e.addedIn,
        e.hasImgApple, e.hasImgGoogle, e.hasImgTwitter, e.hasImgEmojione.value,
        e.hasImgFacebook, e.hasImgMessenger.value))
    else None
  }

  /** The fields of a record that no skin variation has. */
  datatype OwnFields = OwnFields(
    name: string, docomo: Option<string>, au: Option<string>, softbank: Option<string>,
    google: Option<string>, shortName: string, shortNames: seq<string>, text: Option<string>,
    texts: Option<seq<string>>, category: string, sortOrder: int,
    skinVariations: Option<seq<(string, SkinVariation)>>)

  function OwnFieldsOf(e: Emoji): OwnFields {
    OwnFields(e.name, e.docomo, e.au, e.softbank, e.google, e.shortName, e.shortNames,
      e.text, e.texts, e.category, e.sortOrder, e.skinVariations)
  }

  /** The spread: every field the variation has comes from it, every other from the base. */
  function Merge(base: Emoji, v: SkinVariation): (r: Emoji)
    ensures VariationFields(r) == Some(v)
    ensures OwnFieldsOf(r) == OwnFieldsOf(base)
  {
    base.(unified := v.unified, nonQualified := v.nonQualified, image := v.image,
      sheetX := v.sheetX, sheetY := v.sheetY, addedIn := v.addedIn,
      hasImgApple := v.hasImgApple, hasImgGoogle := v.hasImgGoogle,
      hasImgTwitter := v.hasImgTwitter, hasImgEmojione := Some(v.hasImgEmojione),
      hasImgFacebook := v.hasImgFacebook, hasImgMessenger := Some(v.hasImgMessenger))
  }

  /** Those two facts determine the merged record: nothing else about it is left open. */
  lemma MergeDetermined(base: Emoji, v: SkinVariation, x: Emoji)
    requires VariationFields(x) == Some(v)
    requires OwnFieldsOf(x) == OwnFieldsOf(base)
    ensures x == Merge(base, v)
  {
  }

  /** Spreading twice keeps only the later variation. */
  lemma MergeTwice(base: Emoji, v: SkinVariation, w: SkinVariation)
    ensures Merge(Merge(base, v), w) == Merge(base, w)
  {
  }

  /**
   * `convertShortNameToData`. `None` (`undefined`) for an unknown name; the
   * variation spread over the record when the tone is truthy and the record has
   * a variation under the tone's key; the record otherwise. There is no
   * doubled-key fallback here.
   */
  function ConvertShortNameToData(table: map<string, Emoji>, shortName: string, tone: SkinTone): (r: Option<Emoji>)
    ensures r.None? <==> shortName !in table
    ensures r.Some? ==>
      var base := table[shortName];
      var key := ToneKeyOf(tone);
      if IsTruthy(tone) && base.skinVariations.Some? && FindVariation(base.skinVariations.value, key).Some?
      then r.value == Merge(base, FindVariation(base.skinVariations.value, key).value)
      else r.value == base
  {
    if shortName !in table then None
    else
      var base := table[shortName];
      var key := ToneKeyOf(tone);
      if IsTruthy(tone) && base.skinVariations.Some? then
        match FindVariation(base.skinVariations.value, key)
        case Some(v) => Some(Merge(base, v))
        case None => Some(base)
      else Some(base)
  }

  /**
   * `convertShortName`: the emoji of the resolved record, or the empty string
   * for an unknown name. The empty string comes from nowhere else, because
   * `unifiedToEmoji` either throws or yields at least one code point.
   */
  function ConvertShortName(table: map<string, Emoji>, shortName: string, tone: SkinTone): (r: Result<EmojiString>)
    ensures r == Ok([]) <==> shortName !in table
    ensures shortName in table ==> r == UnifiedToEmoji(ConvertShortNameToData(table, shortName, tone).value.unified)
  {
    match ConvertShortNameToData(table, shortName, tone)
    case None => Ok([])
    case Some(e) => UnifiedToEmoji(e.unified)
  }

  /**
   * Where a variation sits under the tone's own key, `getEmojiData` returns it
   * and `convertShortNameToData` returns it spread over the record, so the two
   * agree on every variation field. Where only the doubled key is present they
   * part: `getEmojiData` finds the doubled variation, `convertShortNameToData`
   * falls back to the record.
   */
  lemma ResolutionsAgree(table: map<string, Emoji>, shortName: string, tone: SkinTone)
    requires shortName in table && IsTruthy(tone) && table[shortName].skinVariations.Some?
    ensures var vs := table[shortName].skinVariations.value;
      var key := ToneKeyOf(tone);
      && (FindVariation(vs, key).Some? ==>
            && GetEmojiData(table, shortName, tone).Ok?
            && GetEmojiData(table, shortName, tone).value.SkinRecord?
            && VariationFields(ConvertShortNameToData(table, shortName, tone).value)
               == Some(GetEmojiData(table, shortName, tone).value.variation))
      && (FindVariation(vs, key).None? ==> ConvertShortNameToData(table, shortName, tone) == Some(table[shortName]))
      && (FindVariation(vs, key).None? && FindVariation(vs, DoubledKey(key)).Some? ==>
            GetEmojiData(table, shortName, tone) == Ok(SkinRecord(FindVariation(vs, DoubledKey(key)).value)))
  {
  }

  /** The numeric tone 0 is falsy: both lookups give the record itself. */
  lemma ToneZero(table: map<string, Emoji>, shortName: string)
    requires shortName in table
    ensures ConvertShortNameToData(table, shortName, ToneIndex(0)) == Some(table[shortName])
    ensures GetEmojiData(table, shortName, ToneIndex(0)) == GetEmojiData(table, shortName, NoTone)
  {
  }

  /** A numeric tone 1..5 looks up the matching entry of `skinTones`. */
  lemma NumericTones(table: map<string, Emoji>, shortName: string, n: int)
    requires shortName in table && 1 <= n <= 5
    ensures ConvertShortNameToData(table, shortName, ToneIndex(n)) == ConvertShortNameToData(table, shortName, ToneKey(SkinTones[n - 1]))
    ensures GetEmojiData(table, shortName, ToneIndex(n)) == GetEmojiData(table, shortName, ToneKey(SkinTones[n - 1]))
  {
    assert ToneKeyOf(ToneIndex(n)) == ToneKeyOf(ToneKey(SkinTones[n - 1]));
    assert IsTruthy(ToneKey(SkinTones[n - 1]));
  }
}
