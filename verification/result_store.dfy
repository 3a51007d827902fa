/** The results history: AsyncStorage seen as a map from keys to the list of
    result records stored (as JSON) under each key, newest first. JSON
    serialisation is the identity here; the asynchronous I/O and its
    failures are not modelled. */
module ResultStore {
  import opened Records
  import opened Decimal

  const KeyPrefix: string := "@results:test"

  /** The key all three screens build from a test number: `@results:test<n>`. */
  function Key(testNumber: nat): (k: string)
    ensures |k| > |KeyPrefix| && k[..|KeyPrefix|] == KeyPrefix
  {
    KeyPrefix + NatToString(testNumber)
  }

  /** Distinct tests never share a key, so reader and writers agree on the
      entry of each test and on nothing else. */
  lemma KeyInjective(a: nat, b: nat)
    ensures Key(a) == Key(b) <==> a == b
  {
    if Key(a) == Key(b) {
      assert Key(a)[|KeyPrefix|..] == NatToString(a);
      assert Key(b)[|KeyPrefix|..] == NatToString(b);
      NatToStringInjective(a, b);
    }
  }

  type Items = map<string, seq<ResultRecord>>

  /** `stored ? JSON.parse(stored) : []`: a missing key reads as the empty list. */
  function Lookup(items: Items, key: string): (l: seq<ResultRecord>)
    ensures key !in items ==> l == []
    ensures key in items ==> l == items[key]
  {
    if key in items then items[key] else []
  }

  /** The read-prepend-write of a new record: the list under `key` grows by
      one, its head is `r` and its tail is what was there; no other key
      changes. */
  function Prepend(items: Items, key: string, r: ResultRecord): (items': Items)
    ensures key in items' && |items'[key]| == |Lookup(items, key)| + 1
    ensures items'[key][0] == r && items'[key][1..] == Lookup(items, key)
    ensures items'.Keys == items.Keys + {key}
    ensures forall k :: k in items && k != key ==> items'[k] == items[k]
  {
    items[key := [r] + Lookup(items, key)]
  }

  /** Writing a one-element list: whatever was under `key` is gone. */
  function Overwrite(items: Items, key: string, r: ResultRecord): (items': Items)
    ensures key in items' && items'[key] == [r]
    ensures items'.Keys == items.Keys + {key}
    ensures forall k :: k in items && k != key ==> items'[k] == items[k]
  {
    items[key := [r]]
  }

  /** Two results recorded one after the other for a test with no history
      read back newest first. */
  lemma PrependTwice(items: Items, key: string, r1: ResultRecord, r2: ResultRecord)
    requires key !in items
    ensures Prepend(Prepend(items, key, r1), key, r2)[key] == [r2, r1]
  {
  }

  /** The durable key-value store. */
  class Storage {
    var items: Items

    constructor (initial: Items)
      ensures items == initial
    {
      items := initial;
    }

    /** `AsyncStorage.getItem`: the stored value, or nothing for a missing key. */
    method GetItem(key: string) returns (stored: Option<seq<ResultRecord>>)
      ensures stored.None? <==> key !in items
      ensures stored.Some? ==> stored.value == items[key]
    {
      if key in items {
        stored := Some(items[key]);
      } else {
        stored := None;
      }
    }

    /** `AsyncStorage.setItem`: replaces the value under `key`. */
    method SetItem(key: string, value: seq<ResultRecord>)
      modifies this
      ensures items == old(items)[key := value]
    {
      items := items[key := value];
    }
  }
}
