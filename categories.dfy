/**
 * `dataByCategory`: the dataset grouped by the key the picker shows each
 * category under, every group sorted by `sort_order` (lodash `groupBy`, then
 * `mapValues` with the stable `sortBy`).
 */
module Categories {
  import opened EmojiTypes

  /** The grouping callback: dataset category to picker key. */
  function CategoryKey(category: string): string {
    if category == "Activities" then "activity"
    else if category == "Animals & Nature" then "animal"
    else if category == "Flags" then "flag"
    else if category == "Food & Drink" then "food"
    else if category == "Objects" then "object"
    else if category == "Travel & Places" then "travel"
    else if category == "Smileys & Emotion" then "emoji"
    else if category == "People & Body" then "emoji"
    else if category == "Symbols" then "symbol"
    else "misc"
  }

  /** The categories the callback names, with their keys, as a table. */
  const NamedCategories: map<string, string> := map[
    "Activities" := "activity",
    "Animals & Nature" := "animal",
    "Flags" := "flag",
    "Food & Drink" := "food",
    "Objects" := "object",
    "Travel & Places" := "travel",
    "Smileys & Emotion" := "emoji",
    "People & Body" := "emoji",
    "Symbols" := "symbol"]

  /** The keys the picker can receive. */
  const PickerKeys: set<string> :=
    {"activity", "animal", "flag", "food", "object", "travel", "emoji", "symbol", "misc"}

  /** The callback is the table, with "misc" for every category the table does not name. */
  lemma CategoryKeyIsTable(category: string)
    ensures CategoryKey(category) == if category in NamedCategories then NamedCategories[category] else "misc"
    ensures CategoryKey(category) in PickerKeys
  {
  }

  /** Smileys and people share the "emoji" key, and nothing else has it. */
  lemma EmojiKeyCategories(category: string)
    ensures CategoryKey(category) == "emoji" <==> category == "Smileys & Emotion" || category == "People & Body"
  {
  }

  /** "misc" collects exactly the categories the callback does not name. */
  lemma MiscKeyCategories(category: string)
    ensures CategoryKey(category) == "misc" <==> category !in NamedCategories
  {
  }

  /** The records of one group, in dataset order. */
  function Group(data: seq<Emoji>, key: string): seq<Emoji> {
    if data == [] then []
    else (if CategoryKey(data[0].category) == key then [data[0]] else []) + Group(data[1..], key)
  }

  lemma {:induction false} GroupMembers(data: seq<Emoji>, key: string, e: Emoji)
    ensures e in Group(data, key) <==> e in data && CategoryKey(e.category) == key
  {
    if data != [] {
      GroupMembers(data[1..], key, e);
      assert data == [data[0]] + data[1..];
    }
  }

  /** A group holds each record of its key as often as the dataset does, and no other record. */
  lemma {:induction false} GroupCount(data: seq<Emoji>, key: string, e: Emoji)
    ensures multiset(Group(data, key))[e] == if CategoryKey(e.category) == key then multiset(data)[e] else 0
  {
    if data != [] {
      GroupCount(data[1..], key, e);
      assert data == [data[0]] + data[1..];
    }
  }

  // ----- the stable sort by `sort_order` -----

  predicate SortedByOrder(s: seq<Emoji>) {
    forall i, j :: 0 <= i < j < |s| ==> s[i].sortOrder <= s[j].sortOrder
  }

  /** Each record's order is at most its successor's. */
  predicate StepSorted(s: seq<Emoji>) {
    forall i :: 0 < i < |s| ==> s[i - 1].sortOrder <= s[i].sortOrder
  }

  lemma {:induction false} StepSortedIsSorted(s: seq<Emoji>)
    requires StepSorted(s)
    ensures SortedByOrder(s)
  {
    if |s| > 1 {
      var t := s[1..];
      StepSortedIsSorted(t);
      forall i, j | 0 <= i < j < |s| ensures s[i].sortOrder <= s[j].sortOrder {
        if i > 0 {
          assert s[i] == t[i - 1] && s[j] == t[j - 1];
        } else if j > 1 {
          assert s[1] == t[0] && s[j] == t[j - 1];
        }
      }
    }
  }

  /** The records with one given sort order, in sequence order. */
  function WithOrder(s: seq<Emoji>, order: int): seq<Emoji> {
    if s == [] then []
    else (if s[0].sortOrder == order then [s[0]] else []) + WithOrder(s[1..], order)
  }

  /** Places `x` before the first record whose order is not below its own. */
  function Insert(x: Emoji, s: seq<Emoji>): seq<Emoji> {
    if s == [] then [x]
    else if x.sortOrder <= s[0].sortOrder then [x] + s
    else [s[0]] + Insert(x, s[1..])
  }

  /** A stable sort by `sort_order`: insertion from the back. */
  function SortByOrder(s: seq<Emoji>): seq<Emoji> {
    if s == [] then [] else Insert(s[0], SortByOrder(s[1..]))
  }

  /** Inserting adds exactly `x`, and the result starts with `x` or with the old first record. */
  lemma {:induction false} InsertAdds(x: Emoji, s: seq<Emoji>)
    ensures |Insert(x, s)| == |s| + 1
    ensures Insert(x, s)[0] == x || (s != [] && Insert(x, s)[0] == s[0])
    ensures multiset(Insert(x, s)) == multiset(s) + multiset{x}
  {
    if s != [] && x.sortOrder > s[0].sortOrder {
      InsertAdds(x, s[1..]);
      assert s == [s[0]] + s[1..];
    }
  }

  /** Inserting into a sorted sequence keeps it sorted. */
  lemma {:induction false} InsertSorted(x: Emoji, s: seq<Emoji>)
    requires StepSorted(s)
    ensures StepSorted(Insert(x, s))
  {
    if s != [] && x.sortOrder > s[0].sortOrder {
      var rest := Insert(x, s[1..]);
      InsertSorted(x, s[1..]);
      InsertAdds(x, s[1..]);
      var r := [s[0]] + rest;
      assert r[1] == rest[0];
      forall i | 1 < i < |r| ensures r[i - 1].sortOrder <= r[i].sortOrder {
        assert r[i - 1] == rest[i - 2] && r[i] == rest[i - 1];
      }
    }
  }

  /** The sort returns the records it was given, as often as given, sorted. */
  lemma {:induction false} SortByOrderSorts(s: seq<Emoji>)
    ensures StepSorted(SortByOrder(s))
    ensures multiset(SortByOrder(s)) == multiset(s)
  {
    if s != [] {
      SortByOrderSorts(s[1..]);
      InsertSorted(s[0], SortByOrder(s[1..]));
      InsertAdds(s[0], SortByOrder(s[1..]));
      assert s == [s[0]] + s[1..];
    }
  }

  /** Filtering a sequence with one more record in front. */
  lemma WithOrderCons(x: Emoji, s: seq<Emoji>, order: int)
    ensures WithOrder([x] + s, order) == (if x.sortOrder == order then [x] else []) + WithOrder(s, order)
  {
    assert ([x] + s)[1..] == s;
  }

  lemma {:induction false} InsertStable(x: Emoji, s: seq<Emoji>, order: int)
    ensures WithOrder(Insert(x, s), order) == (if x.sortOrder == order then [x] else []) + WithOrder(s, order)
  {
    if s == [] {
      WithOrderCons(x, [], order);
    } else if x.sortOrder <= s[0].sortOrder {
      WithOrderCons(x, s, order);
    } else {
      var rest := Insert(x, s[1..]);
      var tail := WithOrder(s[1..], order);
      var mid := if x.sortOrder == order then [x] else [];
      assert Insert(x, s) == [s[0]] + rest;
      InsertStable(x, s[1..], order);
      assert WithOrder(rest, order) == mid + tail;
      WithOrderCons(s[0], rest, order);
      WithOrderCons(s[0], s[1..], order);
      assert [s[0]] + s[1..] == s;
      if s[0].sortOrder == order {
        assert mid == [];
      }
    }
  }

  /** Records with equal sort order keep their relative order: the sort is stable. */
  lemma {:induction false} SortByOrderStable(s: seq<Emoji>, order: int)
    ensures WithOrder(SortByOrder(s), order) == WithOrder(s, order)
  {
    if s != [] {
      SortByOrderStable(s[1..], order);
      InsertStable(s[0], SortByOrder(s[1..]), order);
      assert s == [s[0]] + s[1..];
    }
  }

  // ----- the grouped and sorted table -----

  /** The keys that occur in the dataset. */
  function KeysOf(data: seq<Emoji>): set<string> {
    set i | 0 <= i < |data| :: CategoryKey(data[i].category)
  }

  /** `dataByCategory`. */
  function DataByCategory(data: seq<Emoji>): map<string, seq<Emoji>> {
    map key | key in KeysOf(data) :: SortByOrder(Group(data, key))
  }

  /** A key has a group exactly when some record's category maps to it, and that group is the sorted `Group`. */
  lemma DataByCategoryKeys(data: seq<Emoji>, key: string)
    ensures key in DataByCategory(data) <==> exists e :: e in data && CategoryKey(e.category) == key
    ensures key in DataByCategory(data) ==> DataByCategory(data)[key] == SortByOrder(Group(data, key))
  {
    if exists e :: e in data && CategoryKey(e.category) == key {
      var e :| e in data && CategoryKey(e.category) == key;
      var i :| 0 <= i < |data| && data[i] == e;
      assert key in KeysOf(data);
    }
  }

  /** The sorted group: sorted, the group's records as often as it has them, and stable. */
  lemma SortedGroup(data: seq<Emoji>, key: string)
    ensures var group := SortByOrder(Group(data, key));
      && SortedByOrder(group)
      && multiset(group) == multiset(Group(data, key))
      && (forall e :: e in group <==> e in data && CategoryKey(e.category) == key)
      && (forall order :: WithOrder(group, order) == WithOrder(Group(data, key), order))
  {
    var group := SortByOrder(Group(data, key));
    SortByOrderSorts(Group(data, key));
    StepSortedIsSorted(group);
    forall e ensures e in group <==> e in data && CategoryKey(e.category) == key {
      GroupMembers(data, key, e);
      assert e in group <==> e in multiset(group);
    }
    forall order ensures WithOrder(group, order) == WithOrder(Group(data, key), order) {
      SortByOrderStable(Group(data, key), order);
    }
  }

  /**
   * The table has a group for exactly the keys that occur; each group
   * holds exactly the records of that key, as often as the dataset does, sorted
   * by sort order, with records of equal sort order in dataset order.
   */
  lemma DataByCategoryGroups(data: seq<Emoji>, key: string)
    ensures key in DataByCategory(data) <==> exists e :: e in data && CategoryKey(e.category) == key
    ensures key in DataByCategory(data) ==>
      && SortedByOrder(DataByCategory(data)[key])
      && multiset(DataByCategory(data)[key]) == multiset(Group(data, key))
      && (forall e :: e in DataByCategory(data)[key] <==> e in data && CategoryKey(e.category) == key)
      && (forall order :: WithOrder(DataByCategory(data)[key], order) == WithOrder(Group(data, key), order))
  {
    DataByCategoryKeys(data, key);
    SortedGroup(data, key);
  }

  /** Every record lands in the group of its own category's key. */
  lemma EveryRecordGrouped(data: seq<Emoji>, i: nat)
    requires i < |data|
    ensures CategoryKey(data[i].category) in DataByCategory(data)
    ensures data[i] in DataByCategory(data)[CategoryKey(data[i].category)]
  {
    DataByCategoryGroups(data, CategoryKey(data[i].category));
  }
}
