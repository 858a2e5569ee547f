/**
 * The dataset as lib.ts uses it: the raw `emoji-datasource` records, keeping
 * only those with an Apple image, with the sort order of "People & Body"
 * moved 1000 places down so that the merged smileys-and-people category lists
 * the smileys first.
 */
module Dataset {
  import opened EmojiTypes

  const PeopleAndBody: string := "People & Body"
  const PeopleSortOffset: int := 1000

  /** The `.map` step for one record. */
  function Adjust(e: Emoji): (r: Emoji)
    ensures r.sortOrder == e.sortOrder + (if e.category == PeopleAndBody then PeopleSortOffset else 0)
    ensures r.(sortOrder := e.sortOrder) == e
  {
    if e.category == PeopleAndBody then e.(sortOrder := e.sortOrder + PeopleSortOffset) else e
  }

  /** The records that have an Apple image, in order. */
  function KeepApple(raw: seq<Emoji>): seq<Emoji> {
    if raw == [] then []
    else
      var last := raw[|raw| - 1];
      KeepApple(raw[..|raw| - 1]) + (if last.hasImgApple then [last] else [])
  }

  /** Every record adjusted, in order. */
  function AdjustAll(s: seq<Emoji>): (r: seq<Emoji>)
    ensures |r| == |s| && forall j :: 0 <= j < |s| ==> r[j] == Adjust(s[j])
  {
    seq(|s|, j requires 0 <= j < |s| => Adjust(s[j]))
  }

  /** The dataset every other table is built from. */
  function Normalise(raw: seq<Emoji>): seq<Emoji> {
    AdjustAll(KeepApple(raw))
  }

  /** How many records before position `i` survive the filter: the position raw[i] takes. */
  function KeptBefore(raw: seq<Emoji>, i: nat): nat
    requires i <= |raw|
  {
    |KeepApple(raw[..i])|
  }

  lemma {:induction false} KeepAppleOnly(raw: seq<Emoji>)
    ensures forall j :: 0 <= j < |KeepApple(raw)| ==> KeepApple(raw)[j].hasImgApple
    ensures forall j :: 0 <= j < |KeepApple(raw)| ==> KeepApple(raw)[j] in raw
  {
    if raw != [] {
      KeepAppleOnly(raw[..|raw| - 1]);
    }
  }

  /** Filtering a longer prefix extends the filtered shorter prefix. */
  lemma {:induction false} KeepApplePrefix(raw: seq<Emoji>, i: nat)
    requires i <= |raw|
    ensures KeepApple(raw[..i]) <= KeepApple(raw)
  {
    if i < |raw| {
      KeepApplePrefix(raw[..|raw| - 1], i);
      assert raw[..|raw| - 1][..i] == raw[..i];
    } else {
      assert raw[..i] == raw;
    }
  }

  /** After normalisation every record has an Apple image. */
  lemma NormaliseKeepsApple(raw: seq<Emoji>)
    ensures forall j :: 0 <= j < |Normalise(raw)| ==> Normalise(raw)[j].hasImgApple
  {
    KeepAppleOnly(raw);
  }

  /**
   * Every raw record with an Apple image appears, adjusted, at position
   * KeptBefore(raw, i), so the kept records keep their relative order.
   */
  lemma NormalisePlacesKept(raw: seq<Emoji>, i: nat)
    requires i < |raw| && raw[i].hasImgApple
    ensures KeptBefore(raw, i) < |Normalise(raw)|
    ensures Normalise(raw)[KeptBefore(raw, i)] == Adjust(raw[i])
  {
    KeepApplePrefix(raw, i + 1);
    assert raw[..i + 1][..i] == raw[..i];
    assert KeepApple(raw[..i + 1]) == KeepApple(raw[..i]) + [raw[i]];
  }

  /** Records without an Apple image take no position: the count is those with one. */
  lemma {:induction false} NormaliseLength(raw: seq<Emoji>)
    ensures |Normalise(raw)| == |set i | 0 <= i < |raw| && raw[i].hasImgApple|
  {
    if raw != [] {
      var n := |raw| - 1;
      var init := raw[..n];
      NormaliseLength(init);
      var before := set i | 0 <= i < |init| && init[i].hasImgApple;
      var after := set i | 0 <= i < |raw| && raw[i].hasImgApple;
      if raw[n].hasImgApple {
        assert after == before + {n};
      } else {
        assert after == before;
      }
    }
  }

  /** Every normalised record is the adjusted form of a raw record with an Apple image. */
  lemma NormaliseFromRaw(raw: seq<Emoji>, j: nat)
    requires j < |Normalise(raw)|
    ensures exists i :: 0 <= i < |raw| && raw[i].hasImgApple && Normalise(raw)[j] == Adjust(raw[i])
  {
    KeepAppleOnly(raw);
    var e := KeepApple(raw)[j];
    var i :| 0 <= i < |raw| && raw[i] == e;
  }
}
