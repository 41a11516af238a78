/** The hotel service: creation, lookup and update of hotel records and of the
    rooms nested in them, over the record store. Each operation takes the store
    as it is before the call and returns the value the service returns (`None`
    for `null`) together with the store after the call. The current time that
    becomes a new hotel's id is the `id` parameter, and the slug library is the
    `slugify` parameter, a deterministic function of the title. */
module HotelService {
  import opened Wrappers
  import opened HotelTypes
  import opened RecordStore
  import Search

  /** `slugify(text, { lower: true })`. */
  type Slugify = string -> string

  /** The result of `createHotel` and the store after it. */
  datatype Created = Created(hotel: Hotel, store: Store)

  /** The result of an update and the store after it. */
  datatype Reply = Reply(hotel: Option<Hotel>, store: Store)

  /** `getHotel`: the record in the file named `id`, or None when there is no
      such file. */
  function GetHotel(s: Store, id: string): (r: Option<Hotel>)
    ensures r.None? <==> !HasKey(s, id)
    ensures r.Some? ==> Entry(id, r.value) in s.entries
    ensures r.Some? && DistinctKeys(s) ==>
      forall i :: 0 <= i < |s.entries| && s.entries[i].key == id ==> s.entries[i].hotel == r.value
  {
    match IndexOfKey(s.entries, id)
    case Some(i) => Some(s.entries[i].hotel)
    case None => None
  }

  /** `getHotelBySlug`: the first record in directory order whose slug is
      `slug`, or None when no record has it. */
  function GetHotelBySlug(s: Store, slug: string): (r: Option<Hotel>)
    ensures r.None? <==> forall i :: 0 <= i < |s.entries| ==> s.entries[i].hotel.slug != slug
    ensures r.Some? ==> r.value.slug == slug
    ensures r.Some? ==>
      exists i :: 0 <= i < |s.entries| && s.entries[i].hotel == r.value
        && forall j :: 0 <= j < i ==> s.entries[j].hotel.slug != slug
  {
    match SlugIndex(s.entries, slug)
    case Some(i) => Some(s.entries[i].hotel)
    case None => None
  }

  /** Writing a file leaves the read of every other file as it was. */
  lemma ReadOtherAfterWrite(s: Store, key: string, h: Hotel, k: string)
    requires k != key
    ensures GetHotel(Write(s, key, h), k) == GetHotel(s, k)
  {
    var w := Write(s, key, h);
    match IndexOfKey(s.entries, k)
    case Some(i) =>
      assert w.entries[i] == s.entries[i];
      assert IndexOfKey(w.entries, k) == Some(i) by {
        var r := IndexOfKey(w.entries, k);
        assert r.Some? && r.value <= i;
      }
    case None =>
      assert IndexOfKey(w.entries, k).None? by {
        forall j | 0 <= j < |w.entries|
          ensures w.entries[j].key != k
        {
          if j < |s.entries| {
            assert w.entries[j].key == s.entries[j].key;
          }
        }
      }
  }

  /** Reading a file after writing it gives what was written, and leaves
      every other file as it was. */
  lemma ReadAfterWrite(s: Store, key: string, h: Hotel)
    ensures GetHotel(Write(s, key, h), key) == Some(h)
    ensures forall k :: k != key ==> GetHotel(Write(s, key, h), k) == GetHotel(s, k)
  {
    forall k | k != key
      ensures GetHotel(Write(s, key, h), k) == GetHotel(s, k)
    {
      ReadOtherAfterWrite(s, key, h, k);
    }
  }

  /** `createHotel`: the record built from `data`, with id `id` and the slug
      of its title, written to the file named `id`. */
  function CreateHotel(s: Store, id: string, data: HotelData, slugify: Slugify): (r: Created)
    // descriptive fields are copied; images and rooms start empty whatever
    // `data` carried, because the later keys of the object literal win
    ensures r.hotel.id == id && r.hotel.slug == slugify(data.title)
    ensures r.hotel.title == data.title && r.hotel.extra == data.extra
    ensures r.hotel.images == [] && r.hotel.rooms == []
    // the record can be read back under its id; an older file `id` is replaced
    ensures GetHotel(r.store, id) == Some(r.hotel)
    ensures forall k :: k != id ==> GetHotel(r.store, k) == GetHotel(s, k)
    ensures DistinctKeys(s) ==> DistinctKeys(r.store)
    ensures WellKeyed(s) ==> WellKeyed(r.store)
  {
    var h := Hotel(id, slugify(data.title), data.title, [], [], data.extra);
    ReadAfterWrite(s, id, h);
    Created(h, Write(s, id, h))
  }

  /** `updateHotel`: the record in the file `id` shallow-merged with `patch`,
      written to the file named by the record's OWN id field as it was before
      the merge; None, and no write, when there is no file `id`. */
  function UpdateHotel(s: Store, id: string, patch: HotelPatch): (r: Reply)
    ensures r.hotel.None? <==> !HasKey(s, id)
    ensures r.hotel.None? ==> r.store == s
    ensures r.hotel.Some? ==>
      var prev := GetHotel(s, id).value;
      && r.hotel.value == Merge(prev, patch)
      && GetHotel(r.store, prev.id) == r.hotel
      && forall k :: k != prev.id ==> GetHotel(r.store, k) == GetHotel(s, k)
    ensures DistinctKeys(s) ==> DistinctKeys(r.store)
  {
    match GetHotel(s, id)
    case None => Reply(None, s)
    case Some(prev) =>
      var updated := Merge(prev, patch);
      ReadAfterWrite(s, prev.id, updated);
      Reply(Some(updated), Write(s, prev.id, updated))
  }

  /** `updateHotelImages`: the update whose patch is `{ images: urls }`. The
      image list is replaced as a whole, never appended to, and nothing else in
      the record changes. */
  function UpdateHotelImages(s: Store, id: string, urls: seq<string>): (r: Reply)
    ensures r == UpdateHotel(s, id, ImagesPatch(urls))
    ensures r.hotel.None? <==> !HasKey(s, id)
    ensures r.hotel.Some? ==>
      var prev := GetHotel(s, id).value;
      && r.hotel.value.images == urls
      && r.hotel.value == prev.(images := urls)
  {
    UpdateHotel(s, id, ImagesPatch(urls))
  }

  /** The room that `addRoom` appends: the fields of `data`, with the hotel's
      slug, the slug of the room title and no image. */
  function NewRoom(hotelSlug: string, data: RoomData, slugify: Slugify): Room
  {
    Room(data.roomTitle, hotelSlug, slugify(data.roomTitle), "", data.extra)
  }

  /** `addRoom`: the hotel found by slug with one room appended, written to the
      file named by the hotel's id field; None, and no write, when no hotel has
      the slug. */
  function AddRoom(s: Store, hotelSlug: string, data: RoomData, slugify: Slugify): (r: Reply)
    ensures r.hotel.None? <==> GetHotelBySlug(s, hotelSlug).None?
    ensures r.hotel.None? ==> r.store == s
    ensures r.hotel.Some? ==>
      var prev := GetHotelBySlug(s, hotelSlug).value;
      var h := r.hotel.value;
      // existing rooms kept in order, one new room last
      && |h.rooms| == |prev.rooms| + 1
      && h.rooms[..|prev.rooms|] == prev.rooms
      // the new room: title and descriptive fields from `data`, the hotel
      // slug from the argument (whatever `data` said), no image yet
      && h.rooms[|prev.rooms|].roomTitle == data.roomTitle
      && h.rooms[|prev.rooms|].extra == data.extra
      && h.rooms[|prev.rooms|].hotelSlug == hotelSlug
      && h.rooms[|prev.rooms|].roomSlug == slugify(data.roomTitle)
      && h.rooms[|prev.rooms|].roomImage == ""
      // every other hotel field unchanged
      && h.(rooms := prev.rooms) == prev
      // stored under the hotel's id, other files untouched
      && GetHotel(r.store, prev.id) == r.hotel
      && forall k :: k != prev.id ==> GetHotel(r.store, k) == GetHotel(s, k)
    ensures DistinctKeys(s) ==> DistinctKeys(r.store)
    ensures WellKeyed(s) ==> WellKeyed(r.store)
  {
    match GetHotelBySlug(s, hotelSlug)
    case None => Reply(None, s)
    case Some(prev) =>
      var h := prev.(rooms := prev.rooms + [NewRoom(hotelSlug, data, slugify)]);
      assert WellKeyed(s) ==> h.id == prev.id == s.entries[SlugIndex(s.entries, hotelSlug).value].key;
      ReadAfterWrite(s, prev.id, h);
      Reply(Some(h), Write(s, prev.id, h))
  }

  /** Position of the first room whose slug is `roomSlug` (`findIndex`). */
  function RoomIndex(rooms: seq<Room>, roomSlug: string): (r: Option<nat>)
    ensures r.Some? ==> r.value < |rooms| && rooms[r.value].roomSlug == roomSlug
    ensures r.Some? ==> forall j :: 0 <= j < r.value ==> rooms[j].roomSlug != roomSlug
    ensures r.None? <==> forall j :: 0 <= j < |rooms| ==> rooms[j].roomSlug != roomSlug
  {
    Search.FirstIndex(rooms, (room: Room) => room.roomSlug == roomSlug)
  }

  /** `updateRoomImage`: in the hotel found by slug, the first room with slug
      `roomSlug` gets image `url`, and the hotel is written to the file named by
      its id field; None, and no write, when the hotel or the room is missing. */
  function UpdateRoomImage(s: Store, hotelSlug: string, roomSlug: string, url: string): (r: Reply)
    ensures r.hotel.None? <==>
      || GetHotelBySlug(s, hotelSlug).None?
      || forall j :: 0 <= j < |GetHotelBySlug(s, hotelSlug).value.rooms| ==>
           GetHotelBySlug(s, hotelSlug).value.rooms[j].roomSlug != roomSlug
    ensures r.hotel.None? ==> r.store == s
    ensures r.hotel.Some? ==>
      var prev := GetHotelBySlug(s, hotelSlug).value;
      var h := r.hotel.value;
      var i := RoomIndex(prev.rooms, roomSlug).value;
      // the first matching room gets the image and keeps its other fields
      && |h.rooms| == |prev.rooms|
      && h.rooms[i] == prev.rooms[i].(roomImage := url)
      // every other room and every hotel field unchanged
      && (forall j :: 0 <= j < |h.rooms| && j != i ==> h.rooms[j] == prev.rooms[j])
      && h.(rooms := prev.rooms) == prev
      // stored under the hotel's id, other files untouched
      && GetHotel(r.store, prev.id) == r.hotel
      && forall k :: k != prev.id ==> GetHotel(r.store, k) == GetHotel(s, k)
    ensures DistinctKeys(s) ==> DistinctKeys(r.store)
    ensures WellKeyed(s) ==> WellKeyed(r.store)
  {
    match GetHotelBySlug(s, hotelSlug)
    case None => Reply(None, s)
    case Some(prev) =>
      match RoomIndex(prev.rooms, roomSlug)
      case None => Reply(None, s)
      case Some(i) =>
        var h := prev.(rooms := prev.rooms[i := prev.rooms[i].(roomImage := url)]);
        assert WellKeyed(s) ==> h.id == prev.id == s.entries[SlugIndex(s.entries, hotelSlug).value].key;
        ReadAfterWrite(s, prev.id, h);
        Reply(Some(h), Write(s, prev.id, h))
  }
}
