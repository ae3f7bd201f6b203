/** The persistent medium (AsyncStorage) and the five helpers of
    data/storageFunc.ts that wrap it: setItem, getItem, removeItem,
    getAllKeys and multiGet. */
module Medium {
  import opened JsResults
  import opened Json

  /** The text AsyncStorage holds under a key: what JSON.stringify produced
      for a value (reading it back with JSON.parse gives that value), the empty
      string, or text JSON.parse rejects. */
  datatype Blob = Text(v: Value) | Blank | Garbled

  /** The medium's entries, and whether it currently accepts writes: when it
      does not, every setItem and removeItem call throws. */
  datatype Store = Store(entries: map<string, Blob>, writable: bool)

  /** What an exported operation returns, together with the medium after it. */
  datatype Step<+T> = Step(result: T, store: Store)

  /** setItem: stores the serialised value under the key, or throws. */
  function SetItem(st: Store, key: string, v: Value): (r: Attempt<Store>)
    ensures r.Returned? <==> st.writable
    ensures r.Returned? ==> r.value.writable && key in r.value.entries && r.value.entries[key] == Text(v)
    ensures r.Returned? ==> forall k :: k != key ==> Agree(st, r.value, k)
  {
    if st.writable then Returned(st.(entries := st.entries[key := Text(v)])) else Threw
  }

  /** getItem: a missing key and empty stored text both read as null, stored
      text is parsed back into its value, and unparsable text makes the parse throw. */
  function GetItem(st: Store, key: string): (r: Attempt<Value>)
    ensures r.Threw? <==> key in st.entries && st.entries[key] == Garbled
    ensures r.Returned? && r.value != Null ==> key in st.entries && st.entries[key] == Text(r.value)
    ensures key in st.entries && st.entries[key].Text? ==> r == Returned(st.entries[key].v)
  {
    if key !in st.entries then Returned(Null)
    else match st.entries[key]
      case Text(v) => Returned(v)
      case Blank => Returned(Null)
      case Garbled => Threw
  }

  /** removeItem: deletes the key if present, or throws. */
  function RemoveItem(st: Store, key: string): (r: Attempt<Store>)
    ensures r.Returned? <==> st.writable
    ensures r.Returned? ==> r.value.writable && key !in r.value.entries
    ensures r.Returned? ==> forall k :: k != key ==> Agree(st, r.value, k)
  {
    if st.writable then Returned(st.(entries := st.entries - {key})) else Threw
  }

  /** `keys` is an answer getAllKeys may give: every key of the medium exactly
      once, in an order the medium does not specify. */
  predicate ListsKeys(keys: seq<string>, st: Store) {
    && Distinct(keys)
    && (forall k :: k in keys ==> k in st.entries)
    && (forall k :: k in st.entries ==> k in keys)
  }

  /** multiGet: for each requested key its stored text, or `null`
      (None) when the key is missing. */
  function MultiGet(st: Store, keys: seq<string>): (r: seq<Option<Blob>>)
    ensures |r| == |keys|
    ensures forall i :: 0 <= i < |keys| ==>
      (r[i].Some? <==> keys[i] in st.entries) && (r[i].Some? ==> r[i].value == st.entries[keys[i]])
  {
    seq(|keys|, i requires 0 <= i < |keys| => if keys[i] in st.entries then Some(st.entries[keys[i]]) else None)
  }

  /** No element of `s` occurs twice. */
  predicate Distinct<T(==)>(s: seq<T>) {
    forall i, j :: 0 <= i < j < |s| ==> s[i] != s[j]
  }

  /** Key `k` is present in both stores with the same text, or in neither. */
  predicate Agree(st: Store, st': Store, k: string) {
    (k in st.entries <==> k in st'.entries) && (k in st.entries ==> st.entries[k] == st'.entries[k])
  }
}
