/**
 * What the module-level tables hold: `dataByShortName` from `keyBy`, the
 * `shortNames` set, and the loop that adds every alias and fills the reverse
 * tables `imageByEmoji` and `dataByEmoji`, as functions of the dataset. The
 * class in module Index builds the same tables in place.
 */
module IndexSpec {
  import opened Wrappers
  import opened EmojiTypes
  import opened Unified
  import opened Lookup

  // ----- `keyBy` on the short name -----

  /** Records keyed by their `short_name`; a later record replaces an earlier one. */
  function KeyBy(data: seq<Emoji>): map<string, Emoji> {
    if data == [] then map[]
    else
      var last := data[|data| - 1];
      KeyBy(data[..|data| - 1])[last.shortName := last]
  }

  /** The position of the last record whose `short_name` is `n`. */
  function LastNamed(data: seq<Emoji>, n: string): (r: Option<nat>)
    ensures r.Some? ==> r.value < |data| && data[r.value].shortName == n
    ensures r.Some? ==> forall j :: r.value < j < |data| ==> data[j].shortName != n
    ensures r.None? ==> forall j :: 0 <= j < |data| ==> data[j].shortName != n
  {
    if data == [] then None
    else if data[|data| - 1].shortName == n then Some(|data| - 1)
    else
      var r := LastNamed(data[..|data| - 1], n);
      assert forall j :: 0 <= j < |data| - 1 ==> data[..|data| - 1][j] == data[j];
      r
  }

  /** A name is a key exactly when some record has it, and then it holds the last such record. */
  lemma {:induction false} KeyByLookup(data: seq<Emoji>, n: string)
    ensures n in KeyBy(data) <==> LastNamed(data, n).Some?
    ensures n in KeyBy(data) ==> KeyBy(data)[n] == data[LastNamed(data, n).value]
  {
    if data != [] {
      var m := |data| - 1;
      var init := data[..m];
      KeyByLookup(init, n);
      if data[m].shortName != n && LastNamed(init, n).Some? {
        assert data[LastNamed(data, n).value] == init[LastNamed(init, n).value];
      }
    }
  }

  // ----- the short-name set: every `short_name` and every non-empty alias -----

  /** The `short_name` of every record, in order. */
  function ShortNameList(data: seq<Emoji>): seq<string> {
    seq(|data|, i requires 0 <= i < |data| => data[i].shortName)
  }

  /** The aliases of every record, concatenated in order. */
  function AliasList(data: seq<Emoji>): seq<string> {
    if data == [] then [] else data[0].shortNames + AliasList(data[1..])
  }

  /** `compact`: drops the falsy strings, that is the empty one. */
  function Compact(s: seq<string>): seq<string> {
    if s == [] then [] else (if s[0] != "" then [s[0]] else []) + Compact(s[1..])
  }

  function ElementsOf(s: seq<string>): set<string> {
    set x | x in s
  }

  /** The `shortNames` set behind `isShortName`. */
  function ShortNameSet(data: seq<Emoji>): set<string> {
    ElementsOf(ShortNameList(data)) + ElementsOf(Compact(AliasList(data)))
  }

  lemma {:induction false} AliasListMembers(data: seq<Emoji>, n: string)
    ensures n in AliasList(data) <==> exists i :: 0 <= i < |data| && n in data[i].shortNames
  {
    if data != [] {
      AliasListMembers(data[1..], n);
      assert forall i :: 1 <= i < |data| ==> data[i] == data[1..][i - 1];
    }
  }

  lemma {:induction false} CompactMembers(s: seq<string>, n: string)
    ensures n in Compact(s) <==> n in s && n != ""
  {
    if s != [] {
      CompactMembers(s[1..], n);
      assert s == [s[0]] + s[1..];
    }
  }

  /**
   * `isShortName(n)` holds exactly when some record's `short_name` is n or n is a
   * non-empty entry of some record's `short_names`.
   */
  lemma ShortNameSetMembers(data: seq<Emoji>, n: string)
    ensures n in ShortNameSet(data) <==>
      (exists i :: 0 <= i < |data| && data[i].shortName == n) ||
      (n != "" && exists i :: 0 <= i < |data| && n in data[i].shortNames)
  {
    AliasListMembers(data, n);
    CompactMembers(AliasList(data), n);
    if n in ShortNameList(data) {
      var i :| 0 <= i < |data| && ShortNameList(data)[i] == n;
    }
    if exists i :: 0 <= i < |data| && data[i].shortName == n {
      var i :| 0 <= i < |data| && data[i].shortName == n;
      assert ShortNameList(data)[i] == n;
    }
  }

  // ----- every alias of a record written into `dataByShortName` -----

  function SetAliases(t: map<string, Emoji>, names: seq<string>, e: Emoji): map<string, Emoji> {
    if names == [] then t
    else SetAliases(t, names[..|names| - 1], e)[names[|names| - 1] := e]
  }

  /** Writing the aliases one by one is the table overridden on those names. */
  lemma {:induction false} SetAliasesOverride(t: map<string, Emoji>, names: seq<string>, e: Emoji)
    ensures SetAliases(t, names, e) == t + map n | n in names :: e
  {
    if names != [] {
      var init := names[..|names| - 1];
      SetAliasesOverride(t, init, e);
      assert names == init + [names[|names| - 1]];
    }
  }

  /** The aliases of each record in turn. */
  function AliasFold(t: map<string, Emoji>, data: seq<Emoji>): map<string, Emoji> {
    if data == [] then t
    else
      var last := data[|data| - 1];
      SetAliases(AliasFold(t, data[..|data| - 1]), last.shortNames, last)
  }

  /** The position of the last record that lists `n` among its `short_names`. */
  function LastListing(data: seq<Emoji>, n: string): (r: Option<nat>)
    ensures r.Some? ==> r.value < |data| && n in data[r.value].shortNames
    ensures r.Some? ==> forall j :: r.value < j < |data| ==> n !in data[j].shortNames
    ensures r.None? ==> forall j :: 0 <= j < |data| ==> n !in data[j].shortNames
  {
    if data == [] then None
    else if n in data[|data| - 1].shortNames then Some(|data| - 1)
    else
      var r := LastListing(data[..|data| - 1], n);
      assert forall j :: 0 <= j < |data| - 1 ==> data[..|data| - 1][j] == data[j];
      r
  }

  /**
   * After the aliases of every record are written, an alias holds the last
   * record listing it, and every other name keeps what it had.
   */
  lemma {:induction false} AliasFoldLookup(t: map<string, Emoji>, data: seq<Emoji>, n: string)
    ensures LastListing(data, n).Some? ==>
      n in AliasFold(t, data) && AliasFold(t, data)[n] == data[LastListing(data, n).value]
    ensures LastListing(data, n).None? ==>
      (n in AliasFold(t, data) <==> n in t) && (n in t ==> AliasFold(t, data)[n] == t[n])
  {
    if data != [] {
      var m := |data| - 1;
      var init := data[..m];
      AliasFoldLookup(t, init, n);
      SetAliasesOverride(AliasFold(t, init), data[m].shortNames, data[m]);
      if n !in data[m].shortNames && LastListing(init, n).Some? {
        assert data[LastListing(data, n).value] == init[LastListing(init, n).value];
      }
    }
  }

  // ----- the reverse tables -----

  datatype IndexState = IndexState(
    byShortName: map<string, Emoji>,
    imageByEmoji: map<EmojiString, string>,
    dataByEmoji: map<EmojiString, Emoji>)

  /** The state before the loop: the `keyBy` table and two empty reverse tables. */
  function InitialState(data: seq<Emoji>): IndexState {
    IndexState(KeyBy(data), map[], map[])
  }

  /** Stores the image and the record under one emoji, in both reverse tables. */
  function Record(s: IndexState, key: EmojiString, image: string, e: Emoji): IndexState {
    s.(imageByEmoji := s.imageByEmoji[key := image], dataByEmoji := s.dataByEmoji[key := e])
  }

  /** The entries of `skin_variations`, each keyed by `convertShortName(short_name, tone)`. */
  function IndexVariations(root: string, s: IndexState, e: Emoji, vs: seq<(string, SkinVariation)>): Result<IndexState> {
    if vs == [] then Ok(s)
    else
      match IndexVariations(root, s, e, vs[..|vs| - 1])
      case Throws(err) => Throws(err)
      case Ok(s') =>
        var (tone, v) := vs[|vs| - 1];
        match ConvertShortName(s'.byShortName, e.shortName, ToneKey(tone))
        case Throws(err) => Throws(err)
        case Ok(key) => Ok(Record(s', key, MakeImagePath(root, v.image), e))
  }

  /** One turn of `data.forEach`: aliases, then the record itself, then its variations. */
  function IndexRecord(root: string, s: IndexState, e: Emoji): Result<IndexState> {
    var t := SetAliases(s.byShortName, e.shortNames, e);
    match ConvertShortName(t, e.shortName, ToneIndex(0))
    case Throws(err) => Throws(err)
    case Ok(key) =>
      var s1 := Record(s.(byShortName := t), key, MakeImagePath(root, e.image), e);
      if e.skinVariations.Some? then IndexVariations(root, s1, e, e.skinVariations.value) else Ok(s1)
  }

  /** The whole loop; the first exception ends it. */
  function IndexAll(root: string, s: IndexState, data: seq<Emoji>): Result<IndexState> {
    if data == [] then Ok(s)
    else
      match IndexAll(root, s, data[..|data| - 1])
      case Throws(err) => Throws(err)
      case Ok(s') => IndexRecord(root, s', data[|data| - 1])
  }

  // ----- what the loop leaves in dataByShortName -----

  lemma {:induction false} IndexVariationsKeepsNames(root: string, s: IndexState, e: Emoji, vs: seq<(string, SkinVariation)>)
    requires IndexVariations(root, s, e, vs).Ok?
    ensures IndexVariations(root, s, e, vs).value.byShortName == s.byShortName
  {
    if vs != [] {
      IndexVariationsKeepsNames(root, s, e, vs[..|vs| - 1]);
    }
  }

  lemma {:induction false} IndexAllNames(root: string, s: IndexState, data: seq<Emoji>)
    requires IndexAll(root, s, data).Ok?
    ensures IndexAll(root, s, data).value.byShortName == AliasFold(s.byShortName, data)
  {
    if data != [] {
      var m := |data| - 1;
      IndexAllNames(root, s, data[..m]);
      var s' := IndexAll(root, s, data[..m]).value;
      var t := SetAliases(s'.byShortName, data[m].shortNames, data[m]);
      var key := ConvertShortName(t, data[m].shortName, ToneIndex(0)).value;
      var s1 := Record(s'.(byShortName := t), key, MakeImagePath(root, data[m].image), data[m]);
      if data[m].skinVariations.Some? {
        IndexVariationsKeepsNames(root, s1, data[m], data[m].skinVariations.value);
      }
    }
  }

  /**
   * After a completed load, `dataByShortName[n]` is the last record listing n
   * among its `short_names`; a name no record lists is looked up by `short_name`,
   * giving the last record with it; any other name is unknown.
   */
  lemma ShortNameTable(root: string, data: seq<Emoji>, n: string)
    requires IndexAll(root, InitialState(data), data).Ok?
    ensures var table := IndexAll(root, InitialState(data), data).value.byShortName;
      && (LastListing(data, n).Some? ==> n in table && table[n] == data[LastListing(data, n).value])
      && (LastListing(data, n).None? ==>
            (n in table <==> LastNamed(data, n).Some?) &&
            (n in table ==> table[n] == data[LastNamed(data, n).value]))
  {
    IndexAllNames(root, InitialState(data), data);
    AliasFoldLookup(KeyBy(data), data, n);
    KeyByLookup(data, n);
  }

  /**
   * The names `dataByShortName` knows are the names `isShortName` accepts, plus
   * the empty string when some record lists it: `compact` drops it from the set
   * but not from the table.
   */
  lemma ShortNameTableKeys(root: string, data: seq<Emoji>, n: string)
    requires IndexAll(root, InitialState(data), data).Ok?
    ensures n in IndexAll(root, InitialState(data), data).value.byShortName <==>
      n in ShortNameSet(data) || (n == "" && exists i :: 0 <= i < |data| && "" in data[i].shortNames)
  {
    ShortNameTable(root, data, n);
    ShortNameSetMembers(data, n);
    if LastNamed(data, n).Some? {
      assert data[LastNamed(data, n).value].shortName == n;
    }
    if LastListing(data, n).Some? {
      assert n in data[LastListing(data, n).value].shortNames;
    }
  }

  // ----- what the loop leaves in imageByEmoji and dataByEmoji -----

  /** The image stored beside a record is its own or one of its variations'. */
  predicate ImageOf(root: string, d: Emoji, image: string) {
    image == MakeImagePath(root, d.image) ||
    (d.skinVariations.Some? &&
      exists i :: 0 <= i < |d.skinVariations.value| && image == MakeImagePath(root, d.skinVariations.value[i].1.image))
  }

  /** Both reverse tables have the same keys; each key holds a dataset record and one of its images. */
  predicate Paired(root: string, data: seq<Emoji>, s: IndexState) {
    && s.imageByEmoji.Keys == s.dataByEmoji.Keys
    && forall k :: k in s.dataByEmoji ==> s.dataByEmoji[k] in data && ImageOf(root, s.dataByEmoji[k], s.imageByEmoji[k])
  }

  lemma {:induction false} IndexVariationsPaired(root: string, data: seq<Emoji>, s: IndexState, e: Emoji, vs: seq<(string, SkinVariation)>)
    requires Paired(root, data, s) && e in data
    requires e.skinVariations.Some? && vs <= e.skinVariations.value
    requires IndexVariations(root, s, e, vs).Ok?
    ensures Paired(root, data, IndexVariations(root, s, e, vs).value)
    ensures s.dataByEmoji.Keys <= IndexVariations(root, s, e, vs).value.dataByEmoji.Keys
  {
    if vs != [] {
      var m := |vs| - 1;
      IndexVariationsPaired(root, data, s, e, vs[..m]);
      assert e.skinVariations.value[m] == vs[m];
    }
  }

  lemma {:induction false} IndexRecordPaired(root: string, data: seq<Emoji>, s: IndexState, e: Emoji)
    requires Paired(root, data, s) && e in data
    requires IndexRecord(root, s, e).Ok?
    ensures Paired(root, data, IndexRecord(root, s, e).value)
    ensures s.dataByEmoji.Keys <= IndexRecord(root, s, e).value.dataByEmoji.Keys
  {
    var t := SetAliases(s.byShortName, e.shortNames, e);
    var key := ConvertShortName(t, e.shortName, ToneIndex(0)).value;
    var s1 := Record(s.(byShortName := t), key, MakeImagePath(root, e.image), e);
    assert Paired(root, data, s1);
    if e.skinVariations.Some? {
      IndexVariationsPaired(root, data, s1, e, e.skinVariations.value);
    }
  }

  lemma {:induction false} IndexAllPaired(root: string, data: seq<Emoji>, s: IndexState, d: seq<Emoji>)
    requires Paired(root, data, s)
    requires forall i :: 0 <= i < |d| ==> d[i] in data
    requires IndexAll(root, s, d).Ok?
    ensures Paired(root, data, IndexAll(root, s, d).value)
    ensures s.dataByEmoji.Keys <= IndexAll(root, s, d).value.dataByEmoji.Keys
  {
    if d != [] {
      var m := |d| - 1;
      IndexAllPaired(root, data, s, d[..m]);
      IndexRecordPaired(root, data, IndexAll(root, s, d[..m]).value, d[m]);
    }
  }

  /**
   * After a completed load, `emojiToImage` and `emojiToData` know the same
   * emoji; each maps to a dataset record and to that record's image or the
   * image of one of its skin variations.
   */
  lemma ReverseTablesPaired(root: string, data: seq<Emoji>)
    requires IndexAll(root, InitialState(data), data).Ok?
    ensures Paired(root, data, IndexAll(root, InitialState(data), data).value)
  {
    IndexAllPaired(root, data, InitialState(data), data);
  }

  // ----- which emoji each reverse-table entry is stored under -----

  /** Variation keys that are non-empty and pairwise distinct, as object keys are. */
  predicate DistinctTones(vs: seq<(string, SkinVariation)>) {
    && (forall i :: 0 <= i < |vs| ==> vs[i].0 != "")
    && (forall i, j :: 0 <= i < j < |vs| ==> vs[i].0 != vs[j].0)
  }

  /**
   * The dataset shape the loop relies on: every record lists its own
   * `short_name` among its aliases, and its variation keys are distinct and
   * non-empty.
   */
  predicate Regular(data: seq<Emoji>) {
    forall e :: e in data ==>
      && e.shortName in e.shortNames
      && (e.skinVariations.Some? ==> DistinctTones(e.skinVariations.value))
  }

  /**
   * What may sit under emoji `k`: a record with its own image when `k` is the
   * record's emoji, or with the image of one of its variations when `k` is that
   * variation's emoji.
   */
  predicate KeyedEntry(root: string, k: EmojiString, d: Emoji, image: string) {
    || (image == MakeImagePath(root, d.image) && UnifiedToEmoji(d.unified) == Ok(k))
    || (d.skinVariations.Some? &&
        exists i :: 0 <= i < |d.skinVariations.value| &&
          image == MakeImagePath(root, d.skinVariations.value[i].1.image) &&
          UnifiedToEmoji(d.skinVariations.value[i].1.unified) == Ok(k))
  }

  /** Both reverse tables share their keys, and every entry is stored under its own emoji. */
  predicate Keyed(root: string, s: IndexState) {
    && s.imageByEmoji.Keys == s.dataByEmoji.Keys
    && forall k :: k in s.dataByEmoji ==> KeyedEntry(root, k, s.dataByEmoji[k], s.imageByEmoji[k])
  }

  /** A variation whose key is unique in its record is the one the key finds. */
  lemma FindUniqueTone(vs: seq<(string, SkinVariation)>, m: nat)
    requires m < |vs| && DistinctTones(vs)
    ensures FindVariation(vs, vs[m].0) == Some(vs[m].1)
  {
    var w := FindVariation(vs, vs[m].0).value;
    var i :| 0 <= i < |vs| && vs[i] == (vs[m].0, w);
    if i < m {
      assert vs[i].0 != vs[m].0;
    } else if m < i {
      assert vs[m].0 != vs[i].0;
    }
  }

  /** The variation loop stores each variation's image and record under that variation's emoji. */
  lemma {:induction false} VariationsKeyed(root: string, s: IndexState, e: Emoji, vs: seq<(string, SkinVariation)>)
    requires Keyed(root, s)
    requires e.skinVariations.Some? && vs <= e.skinVariations.value && DistinctTones(e.skinVariations.value)
    requires e.shortName in s.byShortName && s.byShortName[e.shortName] == e
    requires IndexVariations(root, s, e, vs).Ok?
    ensures Keyed(root, IndexVariations(root, s, e, vs).value)
  {
    if vs != [] {
      var m := |vs| - 1;
      var full := e.skinVariations.value;
      assert vs[..m] <= full;
      VariationsKeyed(root, s, e, vs[..m]);
      IndexVariationsKeepsNames(root, s, e, vs[..m]);
      var s' := IndexVariations(root, s, e, vs[..m]).value;
      assert full[m] == vs[m];
      var (tone, v) := vs[m];
      FindUniqueTone(full, m);
      assert ConvertShortNameToData(s'.byShortName, e.shortName, ToneKey(tone)) == Some(Merge(e, v));
      var key := ConvertShortName(s'.byShortName, e.shortName, ToneKey(tone)).value;
      assert UnifiedToEmoji(full[m].1.unified) == Ok(key);
      assert KeyedEntry(root, key, e, MakeImagePath(root, full[m].1.image));
    }
  }

  /** Storing an entry under its own emoji keeps every entry stored under its own emoji. */
  lemma RecordKeepsKeyed(root: string, s: IndexState, key: EmojiString, image: string, e: Emoji)
    requires Keyed(root, s) && KeyedEntry(root, key, e, image)
    ensures Keyed(root, Record(s, key, image, e))
  {
  }

  /** Once a record's aliases are written, its short name with the default tone gives its own emoji. */
  lemma OwnEmoji(t: map<string, Emoji>, e: Emoji)
    requires e.shortName in t && t[e.shortName] == e
    ensures ConvertShortName(t, e.shortName, ToneIndex(0)) == UnifiedToEmoji(e.unified)
  {
    ToneZero(t, e.shortName);
  }

  /** One turn stores the record under its own emoji and each variation under the variation's. */
  lemma RecordKeyed(root: string, s: IndexState, e: Emoji)
    requires Keyed(root, s)
    requires e.shortName in e.shortNames
    requires e.skinVariations.Some? ==> DistinctTones(e.skinVariations.value)
    requires IndexRecord(root, s, e).Ok?
    ensures Keyed(root, IndexRecord(root, s, e).value)
  {
    var t := SetAliases(s.byShortName, e.shortNames, e);
    SetAliasesOverride(s.byShortName, e.shortNames, e);
    assert t[e.shortName] == e;
    OwnEmoji(t, e);
    var key := ConvertShortName(t, e.shortName, ToneIndex(0)).value;
    var s1 := Record(s.(byShortName := t), key, MakeImagePath(root, e.image), e);
    RecordKeepsKeyed(root, s.(byShortName := t), key, MakeImagePath(root, e.image), e);
    if e.skinVariations.Some? {
      VariationsKeyed(root, s1, e, e.skinVariations.value);
    }
  }

  lemma {:induction false} AllKeyed(root: string, data: seq<Emoji>, s: IndexState, d: seq<Emoji>)
    requires Regular(data) && Keyed(root, s)
    requires forall i :: 0 <= i < |d| ==> d[i] in data
    requires IndexAll(root, s, d).Ok?
    ensures Keyed(root, IndexAll(root, s, d).value)
  {
    if d != [] {
      var m := |d| - 1;
      AllKeyed(root, data, s, d[..m]);
      assert d[m] in data;
      RecordKeyed(root, IndexAll(root, s, d[..m]).value, d[m]);
    }
  }

  /**
   * After a completed load of a regular dataset, every emoji `emojiToImage` and
   * `emojiToData` know is the emoji of the stored record, with its own image, or
   * the emoji of one of its variations, with that variation's image.
   */
  lemma LoadKeyed(root: string, data: seq<Emoji>)
    requires IndexAll(root, InitialState(data), data).Ok?
    ensures Regular(data) ==> Keyed(root, IndexAll(root, InitialState(data), data).value)
  {
    if Regular(data) {
      AllKeyed(root, data, InitialState(data), data);
    }
  }

  /**
   * After a completed load, every record listed under its own `short_name` is
   * found by its emoji: the key `unifiedToEmoji(unified)` is in `dataByEmoji`
   * (perhaps holding a later record with the same emoji).
   */
  lemma EveryEmojiIndexed(root: string, data: seq<Emoji>, i: nat)
    requires i < |data|
    requires data[i].shortName in data[i].shortNames
    requires UnifiedToEmoji(data[i].unified).Ok?
    requires IndexAll(root, InitialState(data), data).Ok?
    ensures UnifiedToEmoji(data[i].unified).value in IndexAll(root, InitialState(data), data).value.dataByEmoji
  {
    var s0 := InitialState(data);
    IndexAllPrefixKeys(root, s0, data, i + 1);
    IndexAllPrefixOk(root, s0, data, i);
    IndexAllStep(root, s0, data, i);
    IndexRecordOwnKey(root, IndexAll(root, s0, data[..i]).value, data[i]);
  }

  /** The run over one more record is the run so far followed by that record's turn. */
  lemma IndexAllStep(root: string, s: IndexState, data: seq<Emoji>, i: nat)
    requires i < |data|
    requires IndexAll(root, s, data[..i]).Ok?
    ensures IndexAll(root, s, data[..i + 1]) == IndexRecord(root, IndexAll(root, s, data[..i]).value, data[i])
  {
    assert data[..i + 1][..i] == data[..i];
  }

  /** A record listed under its own `short_name` is stored under its own emoji. */
  lemma IndexRecordOwnKey(root: string, s: IndexState, e: Emoji)
    requires e.shortName in e.shortNames
    requires UnifiedToEmoji(e.unified).Ok?
    requires IndexRecord(root, s, e).Ok?
    ensures UnifiedToEmoji(e.unified).value in IndexRecord(root, s, e).value.dataByEmoji
  {
    var t := SetAliases(s.byShortName, e.shortNames, e);
    SetAliasesOverride(s.byShortName, e.shortNames, e);
    assert t[e.shortName] == e;
    assert ConvertShortNameToData(t, e.shortName, ToneIndex(0)) == Some(e);
    var key := UnifiedToEmoji(e.unified).value;
    assert ConvertShortName(t, e.shortName, ToneIndex(0)) == Ok(key);
    var s1 := Record(s.(byShortName := t), key, MakeImagePath(root, e.image), e);
    assert key in s1.dataByEmoji;
    if e.skinVariations.Some? {
      KeysGrowVariations(root, s1, e, e.skinVariations.value);
    }
  }

  /** Every run that completes passed through a completed run of each prefix. */
  lemma {:induction false} IndexAllPrefixOk(root: string, s: IndexState, data: seq<Emoji>, n: nat)
    requires n <= |data|
    requires IndexAll(root, s, data).Ok?
    ensures IndexAll(root, s, data[..n]).Ok?
  {
    if n < |data| {
      var m := |data| - 1;
      IndexAllPrefixOk(root, s, data[..m], n);
      assert data[..m][..n] == data[..n];
    } else {
      assert data[..n] == data;
    }
  }

  /** Once a prefix of the loop throws, the whole loop ends with that exception. */
  lemma {:induction false} IndexAllFirstThrow(root: string, s: IndexState, data: seq<Emoji>, n: nat)
    requires n <= |data|
    requires IndexAll(root, s, data[..n]).Throws?
    ensures IndexAll(root, s, data) == IndexAll(root, s, data[..n])
  {
    if n < |data| {
      var m := |data| - 1;
      assert data[..m][..n] == data[..n];
      IndexAllFirstThrow(root, s, data[..m], n);
    } else {
      assert data[..n] == data;
    }
  }

  /** Once a prefix of the variations throws, indexing them all ends with that exception. */
  lemma {:induction false} IndexVariationsFirstThrow(root: string, s: IndexState, e: Emoji, vs: seq<(string, SkinVariation)>, n: nat)
    requires n <= |vs|
    requires IndexVariations(root, s, e, vs[..n]).Throws?
    ensures IndexVariations(root, s, e, vs) == IndexVariations(root, s, e, vs[..n])
  {
    if n < |vs| {
      var m := |vs| - 1;
      assert vs[..m][..n] == vs[..n];
      IndexVariationsFirstThrow(root, s, e, vs[..m], n);
    } else {
      assert vs[..n] == vs;
    }
  }

  /** The keys of `dataByEmoji` only grow from one prefix to a longer one. */
  lemma {:induction false} IndexAllPrefixKeys(root: string, s: IndexState, data: seq<Emoji>, n: nat)
    requires n <= |data|
    requires IndexAll(root, s, data).Ok?
    ensures IndexAll(root, s, data[..n]).Ok?
    ensures IndexAll(root, s, data[..n]).value.dataByEmoji.Keys <= IndexAll(root, s, data).value.dataByEmoji.Keys
  {
    IndexAllPrefixOk(root, s, data, n);
    if n < |data| {
      var m := |data| - 1;
      IndexAllPrefixKeys(root, s, data[..m], n);
      assert data[..m][..n] == data[..n];
      var s' := IndexAll(root, s, data[..m]).value;
      KeysGrow(root, s', data[m]);
    } else {
      assert data[..n] == data;
    }
  }

  lemma {:induction false} KeysGrowVariations(root: string, s: IndexState, e: Emoji, vs: seq<(string, SkinVariation)>)
    requires IndexVariations(root, s, e, vs).Ok?
    ensures s.dataByEmoji.Keys <= IndexVariations(root, s, e, vs).value.dataByEmoji.Keys
  {
    if vs != [] {
      KeysGrowVariations(root, s, e, vs[..|vs| - 1]);
    }
  }

  lemma KeysGrow(root: string, s: IndexState, e: Emoji)
    requires IndexRecord(root, s, e).Ok?
    ensures s.dataByEmoji.Keys <= IndexRecord(root, s, e).value.dataByEmoji.Keys
  {
    var t := SetAliases(s.byShortName, e.shortNames, e);
    var key := ConvertShortName(t, e.shortName, ToneIndex(0)).value;
    var s1 := Record(s.(byShortName := t), key, MakeImagePath(root, e.image), e);
    if e.skinVariations.Some? {
      KeysGrowVariations(root, s1, e, e.skinVariations.value);
    }
  }

  // ----- when the loop completes -----

  /** Every `unified` in the dataset, of records and of their variations, denotes an emoji. */
  predicate WellFormed(data: seq<Emoji>) {
    forall e :: e in data ==>
      && UnifiedToEmoji(e.unified).Ok?
      && (e.skinVariations.Some? ==>
            forall j :: 0 <= j < |e.skinVariations.value| ==> UnifiedToEmoji(e.skinVariations.value[j].1.unified).Ok?)
  }

  /** Every record of the table comes from the dataset. */
  predicate FromData(data: seq<Emoji>, t: map<string, Emoji>) {
    forall n :: n in t ==> t[n] in data
  }

  /** Over a table of dataset records, `convertShortName` never throws on a well-formed dataset. */
  lemma ConvertShortNameTotal(data: seq<Emoji>, t: map<string, Emoji>, n: string, tone: SkinTone)
    requires WellFormed(data) && FromData(data, t)
    ensures ConvertShortName(t, n, tone).Ok?
  {
    if n in t {
      var base := t[n];
      assert base in data;
      var r := ConvertShortNameToData(t, n, tone).value;
      var key := ToneKeyOf(tone);
      if IsTruthy(tone) && base.skinVariations.Some? && FindVariation(base.skinVariations.value, key).Some? {
        var vs := base.skinVariations.value;
        var v := FindVariation(vs, key).value;
        var j :| 0 <= j < |vs| && vs[j] == (key, v);
        assert r.unified == vs[j].1.unified;
      } else {
        assert r.unified == base.unified;
      }
      assert UnifiedToEmoji(r.unified).Ok?;
    }
  }

  lemma {:induction false} IndexVariationsTotal(root: string, data: seq<Emoji>, s: IndexState, e: Emoji, vs: seq<(string, SkinVariation)>)
    requires WellFormed(data) && FromData(data, s.byShortName)
    ensures IndexVariations(root, s, e, vs).Ok?
  {
    if vs != [] {
      IndexVariationsTotal(root, data, s, e, vs[..|vs| - 1]);
      IndexVariationsKeepsNames(root, s, e, vs[..|vs| - 1]);
      ConvertShortNameTotal(data, s.byShortName, e.shortName, ToneKey(vs[|vs| - 1].0));
    }
  }

  lemma IndexRecordTotal(root: string, data: seq<Emoji>, s: IndexState, e: Emoji)
    requires WellFormed(data) && FromData(data, s.byShortName) && e in data
    ensures IndexRecord(root, s, e).Ok?
    ensures FromData(data, IndexRecord(root, s, e).value.byShortName)
  {
    var t := SetAliases(s.byShortName, e.shortNames, e);
    SetAliasesOverride(s.byShortName, e.shortNames, e);
    assert FromData(data, t);
    ConvertShortNameTotal(data, t, e.shortName, ToneIndex(0));
    var key := ConvertShortName(t, e.shortName, ToneIndex(0)).value;
    var s1 := Record(s.(byShortName := t), key, MakeImagePath(root, e.image), e);
    if e.skinVariations.Some? {
      IndexVariationsTotal(root, data, s1, e, e.skinVariations.value);
      IndexVariationsKeepsNames(root, s1, e, e.skinVariations.value);
    }
  }

  lemma {:induction false} IndexAllTotal(root: string, data: seq<Emoji>, s: IndexState, d: seq<Emoji>)
    requires WellFormed(data) && FromData(data, s.byShortName)
    requires forall i :: 0 <= i < |d| ==> d[i] in data
    ensures IndexAll(root, s, d).Ok?
    ensures FromData(data, IndexAll(root, s, d).value.byShortName)
  {
    if d != [] {
      var m := |d| - 1;
      assert forall i :: 0 <= i < m ==> d[..m][i] == d[i];
      IndexAllTotal(root, data, s, d[..m]);
      var s' := IndexAll(root, s, d[..m]).value;
      var e := d[m];
      assert e in data;
      IndexRecordTotal(root, data, s', e);
      assert IndexAll(root, s, d) == IndexRecord(root, s', e);
    }
  }

  lemma {:induction false} KeyByFromData(data: seq<Emoji>)
    ensures FromData(data, KeyBy(data))
  {
    if data != [] {
      KeyByFromData(data[..|data| - 1]);
    }
  }

  /** On a well-formed dataset the load never throws. */
  lemma LoadCompletes(root: string, data: seq<Emoji>)
    requires WellFormed(data)
    ensures IndexAll(root, InitialState(data), data).Ok?
  {
    KeyByFromData(data);
    IndexAllTotal(root, data, InitialState(data), data);
  }
}
