/** Properties of sequences of hotel-service operations. */
module ServiceProperties {
  import opened Wrappers
  import opened HotelTypes
  import opened RecordStore
  import opened HotelService

  /** Writing a file twice leaves only the second content, in the place the
      first write gave the file. */
  lemma WriteTwice(s: Store, key: string, a: Hotel, b: Hotel)
    ensures Write(Write(s, key, a), key, b) == Write(s, key, b)
  {
    var w1 := Write(s, key, a);
    match IndexOfKey(s.entries, key)
    case Some(i) =>
      assert HasKey(s, key) && IndexOfKey(w1.entries, key) == Some(i);
    case None =>
      assert !HasKey(s, key);
      assert IndexOfKey(w1.entries, key) == Some(|s.entries|);
      assert (s.entries + [Entry(key, a)])[|s.entries| := Entry(key, b)] == s.entries + [Entry(key, b)];
  }

  /** Writing a file with the content it already holds changes nothing. */
  lemma WriteUnchanged(s: Store, key: string, h: Hotel, i: nat)
    requires i < |s.entries| && s.entries[i] == Entry(key, h)
    requires DistinctKeys(s)
    ensures Write(s, key, h) == s
  {
    assert IndexOfKey(s.entries, key) == Some(i);
    assert s.entries[i := Entry(key, h)] == s.entries;
  }

  /** When the file a hotel is found in by slug is named after the hotel's
      id, the hotel written back under that id with the same slug stays where
      it was, and is still the one a lookup by that slug finds. */
  lemma WriteBackFound(s: Store, slug: string, h: Hotel)
    requires DistinctKeys(s)
    requires GetHotelBySlug(s, slug).Some?
    requires s.entries[SlugIndex(s.entries, slug).value].key == GetHotelBySlug(s, slug).value.id
    requires h.slug == slug && h.id == GetHotelBySlug(s, slug).value.id
    ensures
      var i := SlugIndex(s.entries, slug).value;
      Write(s, h.id, h).entries == s.entries[i := Entry(h.id, h)]
    ensures GetHotelBySlug(Write(s, h.id, h), slug) == Some(h)
  {
    var i := SlugIndex(s.entries, slug).value;
    assert s.entries[i].key == h.id;
    assert IndexOfKey(s.entries, h.id) == Some(i) by {
      var r := IndexOfKey(s.entries, h.id);
      assert r.Some? && r.value <= i;
    }
    var w := Write(s, h.id, h);
    assert SlugIndex(w.entries, slug) == Some(i) by {
      var r := SlugIndex(w.entries, slug);
      assert w.entries[i].hotel.slug == slug;
      assert r.Some? && r.value <= i;
      forall j | 0 <= j < i
        ensures w.entries[j].hotel.slug != slug
      {
        assert w.entries[j] == s.entries[j];
      }
    }
  }

  /** After `createHotel`, a lookup by the new slug finds the new hotel,
      provided no other file holds a hotel with that slug. */
  lemma CreateThenGetBySlug(s: Store, id: string, data: HotelData, slugify: Slugify)
    requires forall i :: 0 <= i < |s.entries| && s.entries[i].key != id ==>
      s.entries[i].hotel.slug != slugify(data.title)
    ensures
      var c := CreateHotel(s, id, data, slugify);
      GetHotelBySlug(c.store, c.hotel.slug) == Some(c.hotel)
  {
    var c := CreateHotel(s, id, data, slugify);
    var w := c.store;
    var slug := slugify(data.title);
    var k := IndexOfKey(w.entries, id).value;
    assert SlugIndex(w.entries, slug) == Some(k) by {
      var r := SlugIndex(w.entries, slug);
      assert w.entries[k].hotel.slug == slug;
      assert r.Some? && r.value <= k;
      forall j | 0 <= j < k
        ensures w.entries[j].hotel.slug != slug
      {
        assert w.entries[j].key != id;
        if j < |s.entries| {
          assert w.entries[j] == s.entries[j];
        }
      }
    }
  }

  /** Slugs are not unique: when a hotel with the slug already exists,
      creating another one under a new id does not change which hotel a
      lookup by that slug returns. */
  lemma DuplicateSlugShadows(s: Store, id: string, data: HotelData, slugify: Slugify)
    requires !HasKey(s, id)
    requires GetHotelBySlug(s, slugify(data.title)).Some?
    ensures
      var c := CreateHotel(s, id, data, slugify);
      GetHotelBySlug(c.store, c.hotel.slug) == GetHotelBySlug(s, c.hotel.slug)
  {
    var c := CreateHotel(s, id, data, slugify);
    var slug := slugify(data.title);
    assert c.store.entries == s.entries + [Entry(id, c.hotel)];
    var i := SlugIndex(s.entries, slug).value;
    assert SlugIndex(c.store.entries, slug) == Some(i) by {
      var r := SlugIndex(c.store.entries, slug);
      assert c.store.entries[i] == s.entries[i];
      assert r.Some? && r.value <= i;
    }
  }

  /** Two updates of the same hotel are one update with the combined patch,
      as long as the file `id` holds a record whose id is `id` and the first
      patch does not change that id. */
  lemma UpdateThenUpdate(s: Store, id: string, p: HotelPatch, q: HotelPatch)
    requires GetHotel(s, id).Some? ==> GetHotel(s, id).value.id == id
    requires p.id.None? || p.id == Some(id)
    ensures UpdateHotel(UpdateHotel(s, id, p).store, id, q) == UpdateHotel(s, id, Then(p, q))
  {
    match GetHotel(s, id)
    case None =>
    case Some(prev) =>
      var m1 := Merge(prev, p);
      MergeThen(prev, p, q);
      ReadAfterWrite(s, id, m1);
      WriteTwice(s, id, m1, Merge(m1, q));
  }

  /** Uploading images twice leaves only the second list: the earlier URLs are
      gone, exactly as if only the second upload had happened. This holds in
      every directory, also when the file `id` holds a record with another id. */
  lemma ImagesReplaced(s: Store, id: string, a: seq<string>, b: seq<string>)
    ensures UpdateHotelImages(UpdateHotelImages(s, id, a).store, id, b) == UpdateHotelImages(s, id, b)
  {
    match GetHotel(s, id)
    case None =>
    case Some(prev) =>
      var m1 := Merge(prev, ImagesPatch(a));
      var m2 := Merge(prev, ImagesPatch(b));
      ReadAfterWrite(s, prev.id, m1);
      if prev.id == id {
        MergeThen(prev, ImagesPatch(a), ImagesPatch(b));
        assert Then(ImagesPatch(a), ImagesPatch(b)) == ImagesPatch(b);
        assert Merge(m1, ImagesPatch(b)) == m2;
      } else {
        assert GetHotel(Write(s, prev.id, m1), id) == Some(prev);
      }
      WriteTwice(s, prev.id, m1, m2);
  }

  /** An update keeps every file named after its record's id exactly when
      the patch does not carry a different id. */
  lemma UpdateKeyingIff(s: Store, id: string, p: HotelPatch)
    requires WellKeyed(s) && HasKey(s, id)
    ensures WellKeyed(UpdateHotel(s, id, p).store) <==> p.id.None? || p.id == Some(id)
  {
    var prev := GetHotel(s, id).value;
    assert prev.id == id;
    var m := Merge(prev, p);
    var w := Write(s, id, m);
    if !(p.id.None? || p.id == Some(id)) {
      var k := IndexOfKey(w.entries, id).value;
      assert w.entries[k].hotel.id != w.entries[k].key;
    }
  }

  /** An example: a patch carrying `id` leaves file "1" holding a record
      whose id is "2", and the next update of "1", although its patch is
      empty, writes a second file "2" instead of updating "1". */
  lemma RenamedIdForksRecord()
    ensures
      var h := Hotel("1", "grand-palace", "Grand Palace", [], [], map[]);
      var s := Store([Entry("1", h)]);
      var r1 := UpdateHotel(s, "1", EmptyPatch.(id := Some("2")));
      var r2 := UpdateHotel(r1.store, "1", EmptyPatch);
      && GetHotel(r1.store, "1").value.id == "2"
      && !WellKeyed(r1.store)
      && r2.store.entries == [Entry("1", h.(id := "2")), Entry("2", h.(id := "2"))]
  {
    var h := Hotel("1", "grand-palace", "Grand Palace", [], [], map[]);
    var s := Store([Entry("1", h)]);
    var h2 := h.(id := "2");
    assert IndexOfKey(s.entries, "1") == Some(0);
    var s1 := Store([Entry("1", h2)]);
    assert IndexOfKey(s1.entries, "1") == Some(0);
    assert IndexOfKey(s1.entries, "2") == None;
    MergeEmpty(h2);
  }

  /** After `addRoom`, the lookup by the hotel's slug returns the hotel with
      the new room, provided the file it was found in is named after its id.
      Other files may hold records with other ids. */
  lemma AddRoomThenGetBySlug(s: Store, hotelSlug: string, data: RoomData, slugify: Slugify)
    requires DistinctKeys(s)
    requires GetHotelBySlug(s, hotelSlug).Some? ==>
      s.entries[SlugIndex(s.entries, hotelSlug).value].key == GetHotelBySlug(s, hotelSlug).value.id
    ensures
      var r := AddRoom(s, hotelSlug, data, slugify);
      GetHotelBySlug(r.store, hotelSlug) == r.hotel
  {
    var r := AddRoom(s, hotelSlug, data, slugify);
    if r.hotel.Some? {
      WriteBackFound(s, hotelSlug, r.hotel.value);
    }
  }

  /** After a write of a hotel with slug `slug`, the lookup by that slug
      returns either the hotel it returned before or the written one; when no
      record had the slug before, it returns the written one. */
  lemma SlugLookupAfterWrite(s: Store, slug: string, key: string, h: Hotel)
    requires h.slug == slug
    ensures
      var g := GetHotelBySlug(Write(s, key, h), slug);
      g == GetHotelBySlug(s, slug) || g == Some(h)
  {
    var w := Write(s, key, h);
    var k := IndexOfKey(w.entries, key).value;
    assert w.entries[k].hotel.slug == slug;
    var m := SlugIndex(w.entries, slug).value;
    if m < |s.entries| && w.entries[m] == s.entries[m] {
      // every earlier file is an old one without the slug
      forall j | 0 <= j < m
        ensures s.entries[j].hotel.slug != slug
      {
        assert w.entries[j].hotel.slug != slug;
        assert w.entries[j] == s.entries[j];
      }
      assert SlugIndex(s.entries, slug) == Some(m);
    } else if m < |s.entries| {
      assert w.entries[m] == s.entries[m] || w.entries[m] == Entry(key, h);
    } else {
      assert |w.entries| == |s.entries| + 1;
    }
  }

  /** Setting a room image again, on the hotel before or after the first
      setting, gives the hotel after the first setting. */
  lemma RoomImageReapplied(prev: Hotel, g: Hotel, roomSlug: string, url: string, i: nat)
    requires RoomIndex(prev.rooms, roomSlug) == Some(i)
    requires g == prev || g == prev.(rooms := prev.rooms[i := prev.rooms[i].(roomImage := url)])
    ensures RoomIndex(g.rooms, roomSlug) == Some(i)
    ensures g.(rooms := g.rooms[i := g.rooms[i].(roomImage := url)])
         == prev.(rooms := prev.rooms[i := prev.rooms[i].(roomImage := url)])
  {
    assert |g.rooms| == |prev.rooms|;
    assert RoomIndex(g.rooms, roomSlug) == Some(i) by {
      var ri := RoomIndex(g.rooms, roomSlug);
      assert g.rooms[i].roomSlug == roomSlug;
      assert ri.Some? && ri.value <= i;
      forall j | 0 <= j < i
        ensures g.rooms[j].roomSlug != roomSlug
      {
        assert g.rooms[j] == prev.rooms[j];
      }
    }
  }

  /** Setting the same room image twice is the same as setting it once. This
      holds in every directory, also when the hotel's file is not named after
      its id and the second call therefore finds a different copy of it. */
  lemma UpdateRoomImageIdempotent(s: Store, hotelSlug: string, roomSlug: string, url: string)
    ensures
      var r1 := UpdateRoomImage(s, hotelSlug, roomSlug, url);
      UpdateRoomImage(r1.store, hotelSlug, roomSlug, url) == r1
  {
    match GetHotelBySlug(s, hotelSlug)
    case None =>
    case Some(prev) =>
      match RoomIndex(prev.rooms, roomSlug)
      case None =>
      case Some(i) =>
        var h := prev.(rooms := prev.rooms[i := prev.rooms[i].(roomImage := url)]);
        var s1 := Write(s, prev.id, h);
        SlugLookupAfterWrite(s, hotelSlug, prev.id, h);
        var g := GetHotelBySlug(s1, hotelSlug).value;
        RoomImageReapplied(prev, g, roomSlug, url, i);
        WriteTwice(s, prev.id, h, h);
  }

  /** An example of a file not named after its record's id: `addRoom` writes
      the hotel with its new room to a second file named after the id. With
      the new file listed after the old one, the lookup by slug keeps
      returning the old copy without the room. */
  lemma ForkedRecordLosesRoom(data: RoomData, slugify: Slugify)
    ensures
      var h := Hotel("2", "grand-palace", "Grand Palace", [], [], map[]);
      var s := Store([Entry("1", h)]);
      var r := AddRoom(s, "grand-palace", data, slugify);
      && r.hotel.Some? && |r.hotel.value.rooms| == 1
      && |r.store.entries| == 2
      && GetHotelBySlug(r.store, "grand-palace") == Some(h)
  {
    var h := Hotel("2", "grand-palace", "Grand Palace", [], [], map[]);
    var s := Store([Entry("1", h)]);
    assert SlugIndex(s.entries, "grand-palace") == Some(0);
    assert IndexOfKey(s.entries, "2") == None;
    var r := AddRoom(s, "grand-palace", data, slugify);
    assert r.store.entries[0] == Entry("1", h);
    assert SlugIndex(r.store.entries, "grand-palace") == Some(0);
  }
}
