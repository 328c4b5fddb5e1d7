/** A news item is a Python dict from field name to value whose keys keep
    their insertion order. Values are either a string or a list of strings
    (the `author` and `category` fields). The model holds a dict as the
    sequence of its entries in insertion order. */
module Items {
  import opened Common

  datatype Value = Text(text: string) | Texts(texts: seq<string>)

  datatype Field = Field(key: string, value: Value)

  type Item = seq<Field>

  /** The keys of a dict, in insertion order (`list(d.keys())`). */
  function Keys(item: Item): seq<string>
  {
    if item == [] then [] else [item[0].key] + Keys(item[1..])
  }

  /** `d.get(key)`: the value stored under `key`, if any. */
  function Get(item: Item, key: string): (r: Option<Value>)
    ensures r.Some? <==> key in Keys(item)
    ensures r.Some? ==> Field(key, r.value) in item
  {
    if item == [] then None
    else if item[0].key == key then Some(item[0].value)
    else Get(item[1..], key)
  }

  /** `d[key] = v`: an existing key keeps its position and gets the new value,
      a new key is appended at the end. */
  function Set(item: Item, key: string, v: Value): (r: Item)
    ensures Get(r, key) == Some(v)
    ensures forall k :: k != key ==> Get(r, k) == Get(item, k)
  {
    if item == [] then [Field(key, v)]
    else if item[0].key == key then
      var r := [Field(key, v)] + item[1..];
      assert r[1..] == item[1..];
      r
    else
      var rest := Set(item[1..], key, v);
      var r := [item[0]] + rest;
      assert r[1..] == rest;
      r
  }

  /** Assignment keeps the key order: an existing key stays where it was, a
      new key goes last. */
  lemma {:induction false} SetKeys(item: Item, key: string, v: Value)
    ensures Keys(Set(item, key, v)) == if key in Keys(item) then Keys(item) else Keys(item) + [key]
  {
    if item != [] {
      var r := Set(item, key, v);
      if item[0].key == key {
        assert r[1..] == item[1..];
      } else {
        SetKeys(item[1..], key, v);
        assert r[1..] == Set(item[1..], key, v);
      }
    }
  }

  /** Looking up a key that first occurs at `i` reads the entry at `i`. */
  lemma {:induction false} GetAt(item: Item, i: nat, key: string)
    requires i < |item| && item[i].key == key
    requires forall j :: 0 <= j < i ==> item[j].key != key
    ensures Get(item, key) == Some(item[i].value)
    decreases i
  {
    if i > 0 {
      GetAt(item[1..], i - 1, key);
    }
  }

  /** Assigning a key that first occurs at `i` replaces the entry at `i`. */
  lemma {:induction false} SetAt(item: Item, i: nat, key: string, v: Value)
    requires i < |item| && item[i].key == key
    requires forall j :: 0 <= j < i ==> item[j].key != key
    ensures Set(item, key, v) == item[i := Field(key, v)]
    decreases i
  {
    if i > 0 {
      SetAt(item[1..], i - 1, key, v);
      SetSkip(item, key, v);
      UpdateTail(item, i, Field(key, v));
    }
  }

  /** Assigning a key the first entry does not hold leaves that entry first. */
  lemma SetSkip(item: Item, key: string, v: Value)
    requires item != [] && item[0].key != key
    ensures Set(item, key, v) == [item[0]] + Set(item[1..], key, v)
  {
  }

  /** Replacing an element past the head is replacing it in the tail. */
  lemma UpdateTail<T>(s: seq<T>, i: nat, x: T)
    requires 0 < i < |s|
    ensures [s[0]] + s[1..][i - 1 := x] == s[i := x]
  {
    var joined, updated := [s[0]] + s[1..][i - 1 := x], s[i := x];
    assert |joined| == |updated|;
    assert forall k :: 0 <= k < |s| ==> joined[k] == updated[k];
  }
}
