/** Command definitions and the keyed collections that index them. */
module Commands {
  import opened Js

  /** The `type` tag of a command definition. */
  datatype CommandType = ChatInputType | MessageType | UserType | SubcommandType

  /** How a call of a definition's callback ends: it returns, or it throws `error`. */
  datatype Callback = Returns | Throws(error: string)

  /**
   * A loaded command definition. `reference` is the owning top-level command of a
   * subcommand; `testOnly` stays `None` until the loader fills in the default; absent
   * `permissions`, `devsOnly` and `hasSub` read as `[]`, `false` and `false`.
   */
  datatype Descriptor = Descriptor(
    kind: CommandType,
    name: Option<string>,
    reference: Option<string>,
    permissions: seq<string>,
    devsOnly: bool,
    testOnly: Option<bool>,
    hasSub: bool,
    callback: Callback)

  /** No two positions of `keys` hold the same key. */
  ghost predicate Distinct<K>(keys: seq<K>) {
    forall i, j :: 0 <= i < j < |keys| ==> keys[i] != keys[j]
  }

  /**
   * An insertion-ordered map from keys to definitions, as the platform's `Collection`
   * (a JavaScript `Map`): `keys` lists every key once, in the order it was first set.
   */
  datatype Collection<K(==,!new)> = Collection(keys: seq<K>, entries: map<K, Descriptor>) {

    ghost predicate Valid() {
      && Distinct(keys)
      && (forall k :: k in entries <==> k in keys)
    }

    /** `collection.get(k)` */
    function Get(k: K): Option<Descriptor> {
      if k in entries then Some(entries[k]) else None
    }

    /** `collection.set(k, d)`: a new key goes last, an existing key keeps its place. */
    function Set(k: K, d: Descriptor): (c: Collection<K>)
      ensures c.entries == entries[k := d]
      ensures k in entries ==> c.keys == keys
      ensures k !in entries ==> c.keys == keys + [k]
      ensures Valid() ==> c.Valid()
    {
      if k in entries then Collection(keys, entries[k := d])
      else Collection(keys + [k], entries[k := d])
    }

    /** `Array.from(collection.values())`: one value per key, in insertion order. */
    function Values(): (r: seq<Descriptor>)
      requires Valid()
      ensures |r| == |keys| == |entries|
      ensures forall i :: 0 <= i < |r| ==> r[i] == entries[keys[i]]
      ensures forall d :: d in r <==> d in entries.Values
    {
      DistinctCount(keys);
      assert entries.Keys == set k | k in keys;
      seq(|keys|, i requires 0 <= i < |keys| => entries[keys[i]])
    }
  }

  function EmptyCollection<K(==,!new)>(): (c: Collection<K>)
    ensures c.Valid() && c.entries == map[]
  {
    Collection([], map[])
  }

  /** A duplicate-free sequence has as many elements as its set of elements. */
  lemma {:induction false} DistinctCount<K>(keys: seq<K>)
    requires Distinct(keys)
    ensures |set k | k in keys| == |keys|
  {
    if keys != [] {
      var init, last := keys[..|keys| - 1], keys[|keys| - 1];
      assert Distinct(init);
      DistinctCount(init);
      assert last !in init by {
        forall i | 0 <= i < |init| ensures init[i] != last {
          assert keys[i] == init[i];
        }
      }
      assert keys == init + [last];
      assert (set k | k in keys) == (set k | k in init) + {last};
    }
  }
}
