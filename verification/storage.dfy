/** The browser's `localStorage` as the preference services see it: a
    string-to-string map whose reads and writes may throw (storage disabled,
    quota exceeded). Whether an access throws is part of the state. */
module KeyValueStore {
  import opened Wrappers

  datatype Store = Store(items: map<string, string>, readable: bool, writable: bool)

  /** A store that never throws. */
  predicate Working(st: Store) {
    st.readable && st.writable
  }

  /** `localStorage.getItem(key)`: `null` for a missing key, a throw when
      reads fail. */
  function GetItem(st: Store, key: string): (r: Result<Option<string>, string>)
    ensures r.Failure? <==> !st.readable
    ensures r.Success? ==> (r.value.Some? <==> key in st.items)
    ensures r.Success? && r.value.Some? ==> r.value.value == st.items[key]
  {
    if !st.readable then Failure("storage read failed")
    else if key in st.items then Success(Some(st.items[key]))
    else Success(None)
  }

  /** `localStorage.setItem(key, value)`: a throw when writes fail, which
      leaves the store as it was. */
  function SetItem(st: Store, key: string, value: string): (r: Result<Store, string>)
    ensures r.Failure? <==> !st.writable
    ensures r.Success? ==> r.value.readable == st.readable && r.value.writable == st.writable
    ensures r.Success? ==> key in r.value.items && r.value.items[key] == value
    ensures r.Success? ==> forall k :: k != key ==>
      (k in r.value.items <==> k in st.items) && (k in st.items ==> r.value.items[k] == st.items[k])
  {
    if !st.writable then Failure("storage write failed")
    else Success(st.(items := st.items[key := value]))
  }

  /** Reading back what was just written gives the written value. */
  lemma SetThenGet(st: Store, key: string, value: string)
    requires Working(st)
    ensures SetItem(st, key, value).Success?
    ensures GetItem(SetItem(st, key, value).value, key) == Success(Some(value))
  {
  }

  /** A write to one key is invisible through every other key. */
  lemma SetOtherKey(st: Store, key: string, other: string, value: string)
    requires st.writable && other != key
    ensures GetItem(SetItem(st, key, value).value, other) == GetItem(st, other)
  {
  }
}
