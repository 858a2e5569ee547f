/**
 * The module-level state of the emoji library as an object: the dataset, the
 * `dataByShortName` table that the load loop extends with every alias, the
 * `shortNames` set, and the reverse tables `imageByEmoji` and `dataByEmoji`
 * that the loop fills. Each method is proved to leave the state that module
 * IndexSpec computes.
 */
module Index {
  import opened Wrappers
  import opened EmojiTypes
  import opened Lookup
  import opened Dataset
  import opened IndexSpec

  class EmojiIndex {
    /** `ROOT_PATH`, read once from the page. */
    const root: string
    /** The dataset after the Apple filter and the sort-order adjustment. */
    const data: seq<Emoji>
    var dataByShortName: map<string, Emoji>
    var shortNames: set<string>
    var imageByEmoji: map<EmojiString, string>
    var dataByEmoji: map<EmojiString, Emoji>

    /** The three tables the load loop changes. */
    function State(): IndexState
      reads this
    {
      IndexState(dataByShortName, imageByEmoji, dataByEmoji)
    }

    /** `shortNames` is fixed when the tables are declared and never changes. */
    ghost predicate Valid()
      reads this
    {
      shortNames == ShortNameSet(data)
    }

    /** After the load loop has run over the whole dataset without an exception. */
    ghost predicate Loaded()
      reads this
    {
      Valid() && IndexAll(root, InitialState(data), data) == Ok(State())
    }

    /** The declarations: the filtered dataset, `keyBy`, the `shortNames` set, two empty tables. */
    constructor (root: string, raw: seq<Emoji>)
      ensures Valid()
      ensures this.root == root && data == Normalise(raw)
      ensures State() == InitialState(data)
    {
      this.root := root;
      data := Normalise(raw);
      new;
      dataByShortName := KeyBy(data);
      shortNames := ShortNameSet(data);
      imageByEmoji := map[];
      dataByEmoji := map[];
    }

    /**
     * The `data.forEach` that runs when the module loads. The first exception
     * ends it and is reported; the tables are then left as the loop left them.
     */
    method IndexAllRecords() returns (error: Option<JsError>)
      requires Valid()
      modifies this`dataByShortName, this`imageByEmoji, this`dataByEmoji
      ensures Valid()
      ensures var r := IndexAll(root, old(State()), data);
        && (error.None? <==> r.Ok?)
        && (r.Ok? ==> State() == r.value)
        && (r.Throws? ==> error == Some(r.error))
    {
      ghost var s0 := State();
      var i := 0;
      while i < |data|
        invariant 0 <= i <= |data|
        invariant Valid()
        invariant IndexAll(root, s0, data[..i]) == Ok(State())
      {
        var e := data[i];
        assert data[..i + 1][..i] == data[..i];
        assert IndexAll(root, s0, data[..i + 1]) == IndexRecord(root, State(), e);
        error := IndexRecordInPlace(e);
        if error.Some? {
          IndexAllFirstThrow(root, s0, data, i + 1);
          return;
        }
        i := i + 1;
      }
      assert data[..i] == data;
      error := None;
    }

    /** One turn of the loop: the aliases, the record under its own emoji, then its variations. */
    method IndexRecordInPlace(e: Emoji) returns (error: Option<JsError>)
      modifies this`dataByShortName, this`imageByEmoji, this`dataByEmoji
      ensures var r := IndexRecord(root, old(State()), e);
        && (error.None? <==> r.Ok?)
        && (r.Ok? ==> State() == r.value)
        && (r.Throws? ==> error == Some(r.error))
    {
      ghost var s := State();
      var j := 0;
      while j < |e.shortNames|
        invariant 0 <= j <= |e.shortNames|
        invariant imageByEmoji == s.imageByEmoji && dataByEmoji == s.dataByEmoji
        invariant dataByShortName == SetAliases(s.byShortName, e.shortNames[..j], e)
      {
        assert e.shortNames[..j + 1][..j] == e.shortNames[..j];
        dataByShortName := dataByShortName[e.shortNames[j] := e];
        j := j + 1;
      }
      assert e.shortNames[..j] == e.shortNames;
      var key := ConvertShortName(dataByShortName, e.shortName, ToneIndex(0));
      if key.Throws? {
        return Some(key.error);
      }
      imageByEmoji := imageByEmoji[key.value := MakeImagePath(root, e.image)];
      dataByEmoji := dataByEmoji[key.value := e];
      error := None;
      if e.skinVariations.Some? {
        error := IndexVariationsInPlace(e, e.skinVariations.value);
      }
    }

    /** `Object.entries(skin_variations).forEach`: each variation under the emoji of its tone. */
    method IndexVariationsInPlace(e: Emoji, vs: seq<(string, SkinVariation)>) returns (error: Option<JsError>)
      modifies this`imageByEmoji, this`dataByEmoji
      ensures var r := IndexVariations(root, old(State()), e, vs);
        && (error.None? <==> r.Ok?)
        && (r.Ok? ==> State() == r.value)
        && (r.Throws? ==> error == Some(r.error))
    {
      ghost var s := State();
      var j := 0;
      while j < |vs|
        invariant 0 <= j <= |vs|
        invariant IndexVariations(root, s, e, vs[..j]) == Ok(State())
      {
        assert vs[..j + 1][..j] == vs[..j];
        var (tone, v) := vs[j];
        var key := ConvertShortName(dataByShortName, e.shortName, ToneKey(tone));
        if key.Throws? {
          IndexVariationsFirstThrow(root, s, e, vs, j + 1);
          return Some(key.error);
        }
        imageByEmoji := imageByEmoji[key.value := MakeImagePath(root, v.image)];
        dataByEmoji := dataByEmoji[key.value := e];
        j := j + 1;
      }
      assert vs[..j] == vs;
      error := None;
    }

    /** `isShortName`: a record's `short_name`, or a non-empty alias some record lists. */
    function IsShortName(name: string): (b: bool)
      reads this
      requires Valid()
      ensures b <==> (exists i :: 0 <= i < |data| && data[i].shortName == name) ||
                     (name != "" && exists i :: 0 <= i < |data| && name in data[i].shortNames)
    {
      ShortNameSetMembers(data, name);
      name in shortNames
    }

    /**
     * `emojiToImage`: the own entry of `imageByEmoji`, present for exactly the
     * emoji `emojiToData` knows and belonging to that record; on a regular
     * dataset it is the image of the record or variation whose emoji is `emoji`.
     */
    function EmojiToImage(emoji: EmojiString): (r: Option<string>)
      reads this
      requires Loaded()
      ensures r.Some? <==> emoji in dataByEmoji
      ensures r.Some? ==> emoji in imageByEmoji && r.value == imageByEmoji[emoji]
      ensures r.Some? ==> ImageOf(root, dataByEmoji[emoji], r.value)
      ensures r.Some? && Regular(data) ==> KeyedEntry(root, emoji, dataByEmoji[emoji], r.value)
    {
      ReverseTablesPaired(root, data);
      LoadKeyed(root, data);
      if emoji in imageByEmoji then Some(imageByEmoji[emoji]) else None
    }

    /**
     * `emojiToData`: the own entry of `dataByEmoji`, a dataset record, present for
     * exactly the emoji `emojiToImage` knows; on a regular dataset `emoji` is the
     * emoji of that record or of one of its variations.
     */
    function EmojiToData(emoji: EmojiString): (r: Option<Emoji>)
      reads this
      requires Loaded()
      ensures r.Some? <==> emoji in imageByEmoji
      ensures r.Some? ==> emoji in dataByEmoji && r.value == dataByEmoji[emoji]
      ensures r.Some? ==> r.value in data && ImageOf(root, r.value, imageByEmoji[emoji])
      ensures r.Some? && Regular(data) ==> KeyedEntry(root, emoji, r.value, imageByEmoji[emoji])
    {
      ReverseTablesPaired(root, data);
      LoadKeyed(root, data);
      if emoji in dataByEmoji then Some(dataByEmoji[emoji]) else None
    }
  }

  /**
   * The module's load: the declarations, then the loop. An error is reported
   * exactly when the loop throws, and it is the loop's exception; on success
   * every lookup reads the completed tables; on a well-formed dataset the loop
   * cannot throw.
   */
  method Load(root: string, raw: seq<Emoji>) returns (index: EmojiIndex, error: Option<JsError>)
    ensures fresh(index) && index.root == root && index.data == Normalise(raw)
    ensures index.Valid()
    ensures error.None? <==> IndexAll(root, InitialState(index.data), index.data).Ok?
    ensures error.Some? ==> error == Some(IndexAll(root, InitialState(index.data), index.data).error)
    ensures error.None? ==> index.Loaded()
    ensures WellFormed(Normalise(raw)) ==> error.None?
  {
    index := new EmojiIndex(root, raw);
    error := index.IndexAllRecords();
    ghost var wellFormed := WellFormed(index.data);
    if wellFormed {
      LoadCompletes(root, index.data);
    }
  }
}
