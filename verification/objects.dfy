/**
 * JavaScript objects used as dictionaries by the bundler: entries by key,
 * and the order `Object.keys` lists them in (the order keys were first
 * added; assigning to an existing key keeps its place).
 */
module Objects {

  datatype Obj<T> = Obj(entries: map<string, T>, keys: seq<string>)

  /** The keys listed once each, and exactly the keys of the entries. */
  ghost predicate WellFormed<T>(o: Obj<T>)
  {
    && (forall i, j | 0 <= i < j < |o.keys| :: o.keys[i] != o.keys[j])
    && (forall k :: k in o.entries <==> k in o.keys)
  }

  /** `o[k] = v`. */
  function Put<T>(o: Obj<T>, k: string, v: T): (r: Obj<T>)
    ensures r.entries == o.entries[k := v]
    ensures k in o.entries ==> r.keys == o.keys
    ensures k !in o.entries ==> r.keys == o.keys + [k]
  {
    if k in o.entries then Obj(o.entries[k := v], o.keys)
    else Obj(o.entries[k := v], o.keys + [k])
  }

  /** Assigning keeps an object well formed. */
  lemma PutWellFormed<T>(o: Obj<T>, k: string, v: T)
    requires WellFormed(o)
    ensures WellFormed(Put(o, k, v))
  {
  }

  /** The keys of `src` not in `dst`, in `src` order: where `concatObject` appends them. */
  function NewKeys(src: seq<string>, dst: set<string>): (r: seq<string>)
    ensures forall k :: k in r <==> k in src && k !in dst
  {
    if |src| == 0 then []
    else
      var k := src[|src| - 1];
      NewKeys(src[..|src| - 1], dst) + (if k in dst || k in src[..|src| - 1] then [] else [k])
  }

  lemma NewKeysSnoc(src: seq<string>, i: nat, dst: set<string>)
    requires i < |src|
    ensures NewKeys(src[..i + 1], dst)
            == NewKeys(src[..i], dst) + (if src[i] in dst || src[i] in src[..i] then [] else [src[i]])
  {
    assert src[..i + 1][..i] == src[..i];
  }

  /** `dst` after `dst[k] = src[k]` for each of `keys` in turn. */
  function PutAll<T>(dst: Obj<T>, keys: seq<string>, src: map<string, T>): Obj<T>
    requires forall i | 0 <= i < |keys| :: keys[i] in src
  {
    if |keys| == 0 then dst
    else
      var k := keys[|keys| - 1];
      Put(PutAll(dst, keys[..|keys| - 1], src), k, src[k])
  }

  lemma {:induction false} PutAllEntries<T>(dst: Obj<T>, keys: seq<string>, src: map<string, T>)
    requires forall i | 0 <= i < |keys| :: keys[i] in src
    ensures forall j :: j in PutAll(dst, keys, src).entries <==> j in dst.entries || j in keys
    ensures forall j | j in PutAll(dst, keys, src).entries ::
      PutAll(dst, keys, src).entries[j] == if j in keys then src[j] else dst.entries[j]
  {
    if |keys| > 0 {
      PutAllEntries(dst, keys[..|keys| - 1], src);
    }
  }

  lemma {:induction false} PutAllKeys<T>(dst: Obj<T>, keys: seq<string>, src: map<string, T>)
    requires forall i | 0 <= i < |keys| :: keys[i] in src
    ensures PutAll(dst, keys, src).keys == dst.keys + NewKeys(keys, dst.entries.Keys)
  {
    if |keys| > 0 {
      var init := keys[..|keys| - 1];
      var k := keys[|keys| - 1];
      PutAllKeys(dst, init, src);
      PutAllEntries(dst, init, src);
      var before := PutAll(dst, init, src);
      assert (k in before.entries) == (k in dst.entries.Keys || k in init);
    }
  }

  lemma {:induction false} PutAllWellFormed<T>(dst: Obj<T>, keys: seq<string>, src: map<string, T>)
    requires WellFormed(dst)
    requires forall i | 0 <= i < |keys| :: keys[i] in src
    ensures WellFormed(PutAll(dst, keys, src))
  {
    if |keys| > 0 {
      var init := keys[..|keys| - 1];
      PutAllWellFormed(dst, init, src);
      PutWellFormed(PutAll(dst, init, src), keys[|keys| - 1], src[keys[|keys| - 1]]);
    }
  }

  /** Copying all of a well-formed `src` into `dst`: the entries of `src` win. */
  lemma CopiedAll<T>(dst: Obj<T>, src: Obj<T>)
    requires WellFormed(dst) && WellFormed(src)
    ensures WellFormed(PutAll(dst, src.keys, src.entries))
    ensures PutAll(dst, src.keys, src.entries).entries == dst.entries + src.entries
    ensures PutAll(dst, src.keys, src.entries).keys == dst.keys + NewKeys(src.keys, dst.entries.Keys)
  {
    PutAllWellFormed(dst, src.keys, src.entries);
    PutAllEntries(dst, src.keys, src.entries);
    PutAllKeys(dst, src.keys, src.entries);
    Merged(PutAll(dst, src.keys, src.entries).entries, dst.entries, src.entries, src.keys);
  }

  /** A map that agrees with `b` on `b`'s keys and with `a` elsewhere is `a + b`. */
  lemma Merged<T>(m: map<string, T>, a: map<string, T>, b: map<string, T>, keys: seq<string>)
    requires forall j :: j in b <==> j in keys
    requires forall j :: j in m <==> j in a || j in keys
    requires forall j | j in m :: m[j] == if j in keys then b[j] else a[j]
    ensures m == a + b
  {
  }

  /**
   * `concatObject(dst, src)`: copies every own entry of `src` into `dst`, in
   * `src` key order; the entries of `src` win, and keys new to `dst` are
   * appended in `src` order.
   */
  method ConcatObject<T>(dst: Obj<T>, src: Obj<T>) returns (r: Obj<T>)
    requires WellFormed(dst) && WellFormed(src)
    ensures WellFormed(r)
    ensures r.entries == dst.entries + src.entries
    ensures r.keys == dst.keys + NewKeys(src.keys, dst.entries.Keys)
  {
    r := dst;
    var i := 0;
    while i < |src.keys|
      invariant 0 <= i <= |src.keys|
      invariant r == PutAll(dst, src.keys[..i], src.entries)
    {
      var k := src.keys[i];
      assert src.keys[..i + 1][..i] == src.keys[..i];
      r := Put(r, k, src.entries[k]);
      i := i + 1;
    }
    assert src.keys[..i] == src.keys;
    CopiedAll(dst, src);
  }
}
