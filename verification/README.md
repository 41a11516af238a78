# Hotel service — a Dafny model

This project models the hotel service of a small hotel-listing backend
(`src/services/hotelService.ts`). The service keeps one JSON file per hotel in
a database directory. The file is named after the hotel's `id`, and each hotel
carries a nested list of rooms. The service creates hotels, reads them by id or
by slug, shallow-merges partial updates into them, replaces their image lists,
appends rooms, and sets the image of a room.

Layout:

- `wrappers.dfy` — `Option`, standing for the service's `T | null` results.
- `search.dfy` — `FirstIndex`, the linear first-match search behind the slug
  scan and `findIndex`.
- `types.dfy` — `Hotel`, `Room`, the input shapes `HotelData` and `RoomData`,
  the partial update `HotelPatch`, and `Merge`, the shallow merge
  `{ ...hotel, ...updates }`. A JSON object is modelled as its named fields plus
  `extra`, a map holding every other (descriptive) field.
- `store.dfy` — the database directory as a sequence of `(file key, record)`
  entries in `readdir` order. It has the lookups by key and by slug and
  `Write` (`fs.writeFile`). Two invariants are stated: `DistinctKeys` (file
  names are unique) and `WellKeyed` (every file is named after its record's
  `id`).
- `service.dfy` — the seven service operations. Each is a pure function from
  the store before the call to the returned value and the store after it.
  `Date.now()` is the caller-supplied `id`, and the `slugify` library is a
  function parameter `slugify: string -> string`. The reads `GetHotel` and
  `GetHotelBySlug` return no store, so they cannot change it.
- `properties.dfy` — properties of sequences of operations. They cover
  read-after-write, repeated updates, repeated image uploads, lookup by slug
  after create and after `addRoom`, idempotence of `updateRoomImage`, and
  what an id-changing patch does to the directory.

The code writes every update to the file named by the record's own `id` field,
read back from disk (`hotel.id`). It does not reuse the name of the file the
record was read from. The two are the same file exactly when the record's `id`
equals its file name. The model keeps the file key and the `id` field apart to
capture this.

Consequences of the code that the model makes explicit:

- The code does not keep a hotel's id fixed. `updateHotel` merges a patch's
  `id` like any other field, so the file keeps its name while its record now
  carries a different id (`UpdateKeyingIff`). The next update of that file then
  writes a second file named after the new id, and the old file goes stale
  (`RenamedIdForksRecord`). `addRoom` and `updateRoomImage` also write under
  the record's `id` field, so on such a file they write the change to the other
  file. A later lookup by slug may return the old copy without the change. It
  does when `readdir` lists the old file first, as in the model
  (`ForkedRecordLosesRoom`). Every other operation, and every update whose patch
  has no `id` or the same `id`, preserves `WellKeyed`.
- Slugs are not unique, and the slug scan returns the first match. A newly
  created hotel is therefore found by its slug only when no other file holds a
  hotel with that slug (`CreateThenGetBySlug`). Otherwise the older hotel keeps
  being returned (`DuplicateSlugShadows`).
- `getHotel` and `getHotelBySlug` catch every failure and return `null`. The
  model has no read failures (see Left out).

## Model

| member | source | states |
|---|---|---|
| Search.FirstIndex | src/services/hotelService.ts:133-134 | the result is the index of the first element satisfying the predicate, with no earlier element satisfying it, and None exactly when no element satisfies it (`findIndex` returning -1) |
| RecordStore.IndexOfKey | src/services/hotelService.ts:48-49 | locates the file named by a key: its entry has that key, no earlier entry does, and None exactly when no file has that name |
| RecordStore.SlugIndex | src/services/hotelService.ts:59-71 | the position of the first record in directory order whose slug matches; None exactly when no record has the slug |
| RecordStore.Write | src/services/hotelService.ts:35-38 | writeFile: afterwards the file `key` holds exactly the new record; every other file keeps its content and position; a file is added, at the end, exactly when none had that name; unique file names are preserved, and so is keying by id when the record's id is the key |
| HotelTypes.Merge | src/services/hotelService.ts:83 | shallow merge: each named field comes from the patch when present and from the hotel when absent; the descriptive fields are the union, with the patch winning on shared names |
| HotelTypes.MergeEmpty | src/services/hotelService.ts:83 | merging a patch with no fields returns the hotel unchanged |
| HotelTypes.MergeThen | src/services/hotelService.ts:83 | two successive merges equal one merge of the combined patch, whose later fields win |
| HotelService.GetHotel | src/services/hotelService.ts:46-55 | getHotel returns None exactly when no file has the id (it never fails); otherwise it returns the record stored under that id, the only one when file names are unique |
| HotelService.GetHotelBySlug | src/services/hotelService.ts:57-76 | getHotelBySlug returns None exactly when no record has the slug; otherwise it returns a record with that slug, and no earlier file in directory order holds one |
| HotelService.ReadAfterWrite | src/services/hotelService.ts:46-50 | reading a file after writing it returns what was written; reading any other file returns what it returned before |
| HotelService.ReadOtherAfterWrite | src/services/hotelService.ts:46-50 | writing one file leaves the read of every other file returning what it returned before |
| HotelService.CreateHotel | src/services/hotelService.ts:22-44 | the new record has the given id and the slug of its title, and copies the title and descriptive fields; images and rooms are empty even when the input carried some; afterwards getHotel(id) returns it, an older file with that id is overwritten, all other files are unchanged, and unique file names and keying by id are preserved |
| HotelService.UpdateHotel | src/services/hotelService.ts:78-95 | None, with the store unchanged, exactly when the id has no file; otherwise the result is the shallow merge of the stored record with the patch, readable afterwards under the stored record's former id field even when the patch carries another id; every other file is unchanged |
| HotelService.UpdateHotelImages | src/services/hotelService.ts:97-99 | equals updateHotel with the patch `{ images: urls }`; on success the images are exactly `urls` (a replacement, not an append) and every other field is unchanged |
| HotelService.AddRoom | src/services/hotelService.ts:101-126 | None, with the store unchanged, exactly when no hotel has the slug; otherwise the rooms are the old rooms in order followed by one new room; the new room keeps the given title and descriptive fields, its hotelSlug is the argument (overriding the input's), its roomSlug is the slug of its title, and its image is empty; every other hotel field is unchanged; the hotel is stored under its id and every other file is unchanged |
| HotelService.RoomIndex | src/services/hotelService.ts:133 | the position of the first room with the slug; None exactly when no room has it |
| HotelService.UpdateRoomImage | src/services/hotelService.ts:128-148 | None, with the store unchanged, exactly when the hotel or a room with the slug is missing; otherwise only the first matching room has its image set to the URL; all other rooms, the room count, the room's other fields and the hotel's fields are unchanged; the hotel is stored under its id and every other file is unchanged |
| ServiceProperties.WriteTwice | src/services/hotelService.ts:85-88 | writing a file twice equals writing only the second content |
| ServiceProperties.WriteUnchanged | src/services/hotelService.ts:138-141 | rewriting a file with the record it already holds leaves the directory unchanged |
| ServiceProperties.WriteBackFound | src/services/hotelService.ts:114-119 | when the file a hotel is found in by slug is named after its id (other files may hold records with other ids), the hotel written back under its id overwrites that file in place, and a later slug lookup returns the new content |
| ServiceProperties.CreateThenGetBySlug | src/services/hotelService.ts:22-39 | after createHotel, a lookup by the new slug returns the new hotel when no other file holds a hotel with that slug |
| ServiceProperties.DuplicateSlugShadows | src/services/hotelService.ts:61-68 | creating a hotel under a fresh id whose slug is already taken leaves the slug lookup returning the older hotel |
| ServiceProperties.UpdateThenUpdate | src/services/hotelService.ts:78-90 | two updates of a hotel equal one update with the combined patch, provided the file `id` holds a record whose id is `id` and the first patch does not change that id |
| ServiceProperties.ImagesReplaced | src/services/hotelService.ts:97-99 | in every directory, a second image upload gives exactly the same store and result as if only the second upload had happened, so the earlier URLs are gone |
| ServiceProperties.UpdateKeyingIff | src/services/hotelService.ts:83-88 | in a directory keyed by id, an update keeps it keyed by id exactly when the patch carries no id or the same id |
| ServiceProperties.RenamedIdForksRecord | src/services/hotelService.ts:80-88 | an example: after a patch with a new id, the old file holds a record with the new id, and the next (empty) update of the old file creates a second file |
| ServiceProperties.AddRoomThenGetBySlug | src/services/hotelService.ts:101-121 | after addRoom, a lookup by the hotel's slug returns the hotel with the new room, in a directory with unique file names where the file the hotel was found in is named after its id (other files may hold records with other ids) |
| ServiceProperties.SlugLookupAfterWrite | src/services/hotelService.ts:61-68 | after writing a hotel with that slug, the first-match scan for the slug returns either the hotel it returned before or the written one (the written one when no record had the slug) |
| ServiceProperties.ForkedRecordLosesRoom | src/services/hotelService.ts:114-119 | an example: when the file holds a record with another id, addRoom returns the hotel with the room but writes it to a second file; a later lookup by slug may return the old copy without the room, and does when `readdir` lists the old file first, as in the model |
| ServiceProperties.UpdateRoomImageIdempotent | src/services/hotelService.ts:128-143 | in every directory, setting the same room image twice returns the same result and leaves the same store as setting it once |
| ServiceProperties.RoomImageReapplied | src/services/hotelService.ts:133-136 | setting the first matching room's image again, on the hotel before or after the first setting, finds the same room and gives the hotel after the first setting |

## Left out

- The HTTP layer (`src/controllers/hotelController.ts`) and the server bootstrap (`src/app.ts`) are not modelled. They are request plumbing and status-code mapping over libraries outside the model. Building the upload URL `/uploads/images/<filename>` is trivial string formatting.
- `src/models/types.ts` is not part of this model. The `Hotel` and `Room` shapes follow the fields the service reads and writes.
- Directory creation (`initializeDatabase`) and logging are left out. Both are side effects with no effect on results.
- File-system I/O and JSON encoding are abstracted. Writing then parsing a record is the identity. Errors from reading, writing or parsing are not modelled. In the code, a write error is rethrown, `getHotel` returns `null` on a read or parse error, and one unparsable file aborts the whole slug scan with `null`.
- A file key stands for the file name `<id>.json`. An id containing path separators, which `path.join` would resolve to another file, is not modelled.
- The order of `readdir` is abstracted as the order files were created in, with overwritten files keeping their place. Real file systems may list files in another order. `DuplicateSlugShadows`, `ForkedRecordLosesRoom` and `RenamedIdForksRecord` depend on new files being listed last: the first two for which copy a slug lookup returns, the third for the order of the entries it states. `RecordStore.Write`'s position-keeping clause, `GetHotelBySlug`'s first-match clause, and `WriteUnchanged`, `SlugLookupAfterWrite`, `WriteBackFound`, `AddRoomThenGetBySlug` and `UpdateRoomImageIdempotent` depend on an overwritten file keeping its place.
- Files in the directory that do not hold a hotel record are not modelled.
- There is no schema validation. A JSON body whose fields have other types (a `null` title, a non-array `images`) is outside the model. The descriptive fields in `extra` are assumed not to reuse the named fields' names.
- `slugify` and `Date.now()` are parameters. Their internals are outside the model, including the id collisions of two creations in the same millisecond, which `CreateHotel` models as an overwrite.
- Async sequencing and the lost-update race between concurrent read-modify-write requests are concurrency. Each operation is modelled as one atomic step.
