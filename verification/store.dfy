/** The database directory of the hotel service: one file `<key>.json` per
    hotel holding the record as JSON. The directory is modelled as the sequence
    of its files in the order `readdir` lists them, each with the record it
    parses to; serialisation and parsing are the identity on records. */
module RecordStore {
  import opened Wrappers
  import opened HotelTypes
  import Search

  /** One file: its name without the `.json` suffix, and its record. */
  datatype Entry = Entry(key: string, hotel: Hotel)

  datatype Store = Store(entries: seq<Entry>)

  /** File names in a directory are distinct. */
  predicate DistinctKeys(s: Store)
  {
    forall i, j :: 0 <= i < j < |s.entries| ==> s.entries[i].key != s.entries[j].key
  }

  /** Every file is named after the `id` field of the record it holds. */
  predicate WellKeyed(s: Store)
  {
    forall i :: 0 <= i < |s.entries| ==> s.entries[i].hotel.id == s.entries[i].key
  }

  /** Whether a file named `key` exists. */
  predicate HasKey(s: Store, key: string)
  {
    exists i :: 0 <= i < |s.entries| && s.entries[i].key == key
  }

  /** Position of the file named `key`. */
  function IndexOfKey(entries: seq<Entry>, key: string): (r: Option<nat>)
    ensures r.Some? ==> r.value < |entries| && entries[r.value].key == key
    ensures r.Some? ==> forall j :: 0 <= j < r.value ==> entries[j].key != key
    ensures r.None? <==> forall j :: 0 <= j < |entries| ==> entries[j].key != key
  {
    Search.FirstIndex(entries, (e: Entry) => e.key == key)
  }

  /** Position of the first file, in directory order, whose record has `slug`. */
  function SlugIndex(entries: seq<Entry>, slug: string): (r: Option<nat>)
    ensures r.Some? ==> r.value < |entries| && entries[r.value].hotel.slug == slug
    ensures r.Some? ==> forall j :: 0 <= j < r.value ==> entries[j].hotel.slug != slug
    ensures r.None? <==> forall j :: 0 <= j < |entries| ==> entries[j].hotel.slug != slug
  {
    Search.FirstIndex(entries, (e: Entry) => e.hotel.slug == slug)
  }

  /** `writeFile(<key>.json, h)`: an existing file is overwritten where it is,
      a new file is added after the existing ones. */
  function Write(s: Store, key: string, h: Hotel): (w: Store)
    // existing files keep their names and positions; only the file `key` changes
    ensures |s.entries| <= |w.entries| <= |s.entries| + 1
    ensures forall i :: 0 <= i < |s.entries| ==> w.entries[i].key == s.entries[i].key
    ensures forall i :: 0 <= i < |s.entries| && s.entries[i].key != key ==> w.entries[i] == s.entries[i]
    ensures forall i :: 0 <= i < |s.entries| ==> w.entries[i] == s.entries[i] || w.entries[i] == Entry(key, h)
    // a file is created exactly when none was named `key`
    ensures |w.entries| == |s.entries| + 1 <==> !HasKey(s, key)
    ensures |w.entries| == |s.entries| + 1 ==> w.entries[|s.entries|] == Entry(key, h)
    // afterwards the file `key` holds exactly `h`
    ensures IndexOfKey(w.entries, key).Some?
    ensures HasKey(s, key) ==> IndexOfKey(w.entries, key) == IndexOfKey(s.entries, key)
    ensures w.entries[IndexOfKey(w.entries, key).value] == Entry(key, h)
    ensures DistinctKeys(s) ==> DistinctKeys(w)
    ensures WellKeyed(s) && h.id == key ==> WellKeyed(w)
  {
    match IndexOfKey(s.entries, key)
    case Some(i) =>
      var w := Store(s.entries[i := Entry(key, h)]);
      assert IndexOfKey(w.entries, key) == Some(i) by {
        var r := IndexOfKey(w.entries, key);
        assert w.entries[i].key == key;
        assert r.Some? && r.value <= i;
      }
      w
    case None =>
      var w := Store(s.entries + [Entry(key, h)]);
      assert IndexOfKey(w.entries, key) == Some(|s.entries|) by {
        var r := IndexOfKey(w.entries, key);
        assert w.entries[|s.entries|].key == key;
        assert r.Some? && r.value <= |s.entries|;
      }
      w
  }
}
