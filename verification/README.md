# Events and media core of the Khalid Lifestyle site, in Dafny

This project models the logic under the site's pages. It covers:

- the event store on a document collection (`lib/firestore-services.ts`) and the memoising cache around its two read queries
- the server actions that invalidate that cache after a successful write (`lib/actions.ts`)
- the upload helpers for the media host (`lib/storage-services.ts`)
- the demo-event fallback and the hero media selection (`lib/events.ts`)
- the slug and the submit sequence of the new-event admin page (`app/admin/events/new/page.tsx`)
- the shuffle and carousel index of the hero (`components/hero.tsx`)
- the gallery's past-event filter (`components/gallery.tsx`)

Every external service is a parameter:

- The document store's outcome is `readOk`/`writeOk`. Its query answer is a `snapshot` of keys. Its clock is `now`. Its Timestamp-to-day conversion is `iso`.
- Each media-host request gets an `HttpResponse`.
- Environment variables are an `Env`.
- The cache's expiry is a flag, `expired`.
- `Math.random` becomes the index it would produce.
- `new Date(…)` becomes a `parse` function into an integer clock, and "today at midnight" becomes an integer.

Modules and files:

| module | file | models |
|---|---|---|
| `EventTypes` | event_types.dfy | the `GalleryItem`/`PastEvent` records of `lib/events.ts` |
| `Subsequences` | subsequences.dfy | `Array.prototype.filter` and its order and membership laws |
| `FirestoreServices` | firestore_services.dfy | the `EventStore` class (a `map` of documents), the `QueryCache` class (the `unstable_cache` memo with tag "events"), reads, writes, and the two read-modify-write media updates |
| `Actions` | actions.dfy | the five `*Action` wrappers |
| `StorageServices` | storage_services.dfy | classification, size check, upload requests and replies, the sequential batch, and the public id used to delete an image |
| `Events` | events.dfy | the demo events, `getAllEvents`, and `getHeroMedia` as a loop with its specification |
| `NewEventPage` | new_event_page.dfy | the slug and the `NewEventForm` class (the page's state) with its two handlers |
| `Hero` | hero.dfy | `shuffleArray` on an array copy, the `(prev + 1) % length` advance, and the `Carousel` class |
| `Gallery` | gallery.dfy | the past-event filter |

Where the code behaves differently from what a reader of the site might expect, the model follows the code:

- **`updateEvent` on a missing id fails.** One might expect a merge that creates a missing event. The code calls `updateDoc`, which rejects a missing document; the error is caught, so the result is `{ success: false }`. `UpdateEventSpec` follows the code.
- **The document key is random, not the slug.** One might expect events keyed by a slug derived from the title. `createEvent` calls `addDoc`, which picks a fresh random key. The new-event page passes `id: slug`, but the readers overwrite `id` with the document key. The slug only names the thumbnail's upload folder, and the page then goes to the page for the fresh key.
- **The new-event page does not invalidate the cache.** It calls `createEvent` directly, not `createEventAction`, so nothing is invalidated after it creates an event.
- **`addMediaToEvent` reports success even when its write failed.** One might expect a failed store write to come back as `{ success: false }`. The code ignores `updateEvent`'s result.
- **Dates that do not parse are excluded from the gallery.** An Invalid Date compares false, so such events are neither past nor shown. An event with no date counts as the epoch and is always past.

## Model

| member | source | states |
|---|---|---|
| FirestoreServices.ConvertFirestoreDate | lib/firestore-services.ts:22-28 | a stored date string comes back unchanged; a Timestamp becomes its ISO day |
| FirestoreServices.ListedEvent | lib/firestore-services.ts:55-66 | a listed event has the document key as `id`, `items` defaulted to `[]` when missing, and `featured` always set, true only for a stored `true` |
| FirestoreServices.FetchedEvent | lib/firestore-services.ts:95-104 | the single-event read builds the listing's event but never sets `featured` |
| FirestoreServices.GetAllEventsFromFirestore | lib/firestore-services.ts:48-74 | a failed read gives `[]`; otherwise one event per snapshot document in snapshot order, forming a complete listing with no key twice, newest `createdAt` first |
| FirestoreServices.GetEventById | lib/firestore-services.ts:86-109 | an event is found exactly when the read succeeds and the key exists; it carries that key, the stored items (or `[]`) and no `featured` |
| FirestoreServices.CachedLookup | lib/firestore-services.ts:111-114 | the cached answer is the memo while it is fresh and holds the id, and the store read otherwise |
| FirestoreServices.CachedGetEventById | lib/firestore-services.ts:111-114 | answers from the memo while it is fresh, otherwise reads through; memoises the answer under the id and touches nothing else |
| FirestoreServices.CachedGetAllEvents | lib/firestore-services.ts:76-83 | a fresh memo is returned as is; otherwise the listing (or `[]` on a failed read) is computed and memoised |
| FirestoreServices.LookupKeepsCoherent | lib/firestore-services.ts:111-114 | a lookup through a cache that agrees with the store leaves it agreeing |
| FirestoreServices.CoherentLookupSeesStore | lib/firestore-services.ts:111-114 | on a cache that agrees with the store, a found event has exactly the stored items |
| FirestoreServices.NewDoc | lib/firestore-services.ts:34-39 | the written document has `items = []` whatever the caller passed, both stamps set to now, and the caller's title, date and thumbnail |
| FirestoreServices.CreateEvent | lib/firestore-services.ts:31-45 | succeeds exactly when the write goes through; then it returns a key that was not in use and the store gains exactly that document; on failure the store is unchanged |
| FirestoreServices.CreatedEventRetrievable | lib/firestore-services.ts:31-45 | a created event is found under the returned key, with no items and the caller's title, date (converted), location, description and thumbnail |
| FirestoreServices.Merge | lib/firestore-services.ts:122-127 | the merge `updateDoc` performs keeps `createdAt` and sets `updatedAt` to now; an empty patch changes nothing else |
| FirestoreServices.UpdateEventSpec | lib/firestore-services.ts:117-132 | the update keeps the key set, succeeds exactly when the write goes through and the key exists, and writes nothing on failure |
| FirestoreServices.UpdateEvent | lib/firestore-services.ts:117-132 | the store and result are those of the merge specification: success only when the write goes through and the document exists |
| FirestoreServices.UpdateChangesOnlySuppliedFields | lib/firestore-services.ts:122-127 | only the supplied fields and `updatedAt` change, only under the given key; the key set is kept; a failure writes nothing |
| FirestoreServices.DeleteEventSpec | lib/firestore-services.ts:135-144 | the delete succeeds exactly when the write goes through; then the key set loses the id, otherwise it is kept |
| FirestoreServices.DeleteEvent | lib/firestore-services.ts:135-144 | a successful delete removes the key; a failed one leaves the store as it was |
| FirestoreServices.DeleteRemovesKey | lib/firestore-services.ts:137-139 | after a delete no document has the key, the others are untouched, and deleting again succeeds and changes nothing |
| FirestoreServices.StoreError.Message | lib/firestore-services.ts:154 | only the not-found error carries the message "Event not found" |
| FirestoreServices.AddMediaSpec | lib/firestore-services.ts:147-164 | adding media succeeds exactly when the read found the event; otherwise "Event not found" with the store unchanged; the key set is kept |
| FirestoreServices.AddMediaToEvent | lib/firestore-services.ts:147-164 | reads through the cache, then writes back the event's items followed by the new ones, discarding the write's outcome; the memo records the read |
| FirestoreServices.AddMediaOutcome | lib/firestore-services.ts:152-159 | "Event not found" with nothing written when the read finds nothing; otherwise success even if the write failed; a write that went through holds the read items followed by the new ones; other documents are untouched |
| FirestoreServices.AddMediaAppendsToStoredItems | lib/firestore-services.ts:152-158 | with a cache that agrees with the store, the new items land after exactly the stored ones |
| FirestoreServices.StaleLookupLosesUpdate | lib/firestore-services.ts:152-158 | a memo that missed a stored item makes adding media write back a list without that item, while still reporting success |
| FirestoreServices.DropIndex | lib/firestore-services.ts:177 | the index filter is one shorter exactly when the index is in range |
| FirestoreServices.DropIndexIsSplice | lib/firestore-services.ts:177 | an in-range index removes exactly that element and keeps the rest in order; any other index, negative included, removes nothing |
| FirestoreServices.RemoveMediaSpec | lib/firestore-services.ts:167-184 | removing media succeeds exactly when the read found the event; otherwise "Event not found" with the store unchanged; the key set is kept |
| FirestoreServices.RemoveMediaFromEvent | lib/firestore-services.ts:167-184 | reads through the cache, then writes back the items without the given index, discarding the write's outcome |
| FirestoreServices.RemoveMediaOutcome | lib/firestore-services.ts:172-179 | with a cache that agrees with the store: success exactly when the event is found; "Event not found" and no write for an unknown event; success even if the write failed, which then changes nothing; other documents are untouched; a write that goes through leaves the stored items without exactly the element at an in-range index, and unchanged for any other index |
| FirestoreServices.QueryCache.RevalidateTag | lib/actions.ts:20-22 | the tag invalidation drops both memos and counts one invalidation |
| Actions.CreateEventAction | lib/actions.ts:16-24 | returns the store's result unchanged, invalidates once exactly on success, leaves the cache untouched on failure, and keeps the cache in agreement with the store |
| Actions.UpdateEventAction | lib/actions.ts:29-38 | as above for the update |
| Actions.DeleteEventAction | lib/actions.ts:43-49 | as above for the delete |
| Actions.AddMediaToEventAction | lib/actions.ts:54-63 | invalidates exactly when the event was found, even if the inner write failed; on "Event not found" only the memoised lookup changes; the cache keeps agreeing with the store |
| Actions.RemoveMediaFromEventAction | lib/actions.ts:68-77 | as above for removing media |
| Actions.AddedMediaVisibleAfterInvalidation | lib/actions.ts:58-61 | after media are added to a found event and the tag is invalidated, the next lookup sees the stored items followed by the new ones |
| StorageServices.GetFileType | lib/storage-services.ts:138-142 | image exactly for an "image/" prefix, video exactly for a "video/" prefix, unknown for neither |
| StorageServices.MimePrefixesExclusive | lib/storage-services.ts:139-140 | no content type has both prefixes |
| StorageServices.MaxSize | lib/storage-services.ts:150 | the cap is 10·1024·1024 bytes for images and 100·1024·1024 for everything else |
| StorageServices.ValidateFileSize | lib/storage-services.ts:145-161 | valid exactly when the size is at most the cap, with no message exactly when valid; a rejection names "10MB" for images and "100MB" otherwise |
| StorageServices.SizeBoundaries | lib/storage-services.ts:150-160 | an image one byte over 10 MiB is rejected naming "10MB"; sizes equal to the cap pass; a video one byte over 100 MiB is rejected; an unknown type of 50 MiB passes |
| StorageServices.ImageUploadRequest | lib/storage-services.ts:7-21 | the image upload goes to the cloud's image endpoint, with the preset or "", into folder "khalid-lifestyle/" + event id |
| StorageServices.VideoUploadRequest | lib/storage-services.ts:108-123 | the video upload goes to the video endpoint, into the event folder's "videos" subfolder, marked as a video resource |
| StorageServices.UploadResultOf | lib/storage-services.ts:22-31 | success exactly for a 2xx reply, carrying its `secure_url`; otherwise failure with the status or fetch error and no URL |
| StorageServices.Uploaded | lib/storage-services.ts:47 | defines the batch's success test: a successful reply with a non-empty URL |
| StorageServices.UrlsOf | lib/storage-services.ts:44-51 | the URLs the batch collects are at most one per file; which ones is stated by `UrlsAreUsable` |
| StorageServices.ErrorsOf | lib/storage-services.ts:44-51 | the errors the batch collects are at most one per file |
| StorageServices.UploadMultipleImages | lib/storage-services.ts:36-63 | one request per file in input order; progress is (1, n) … (n, n) when a callback is given; the URLs and errors are the batch specifications; success exactly when no upload failed; errors are absent rather than empty on success |
| StorageServices.BatchPartition | lib/storage-services.ts:44-62 | every file lands in exactly one of the two lists, and the error list is empty exactly when every upload yielded a URL |
| StorageServices.UrlsAreSuccessfulInOrder | lib/storage-services.ts:44-51 | the URLs from the first k files are a prefix of all the URLs, so order is kept |
| StorageServices.UrlsAreUsable | lib/storage-services.ts:44-51 | a URL is collected exactly when some file's upload succeeded with it as a usable URL |
| StorageServices.SecondOfThreeFails | lib/storage-services.ts:44-62 | three files with the second failing give the first and third URLs in order and one error for the second |
| StorageServices.Split | lib/storage-services.ts:71-72 | splitting gives at least one piece, and no piece contains the separator |
| StorageServices.JoinSplit | lib/storage-services.ts:71-73 | joining the pieces of a split with the separator gives the string back |
| StorageServices.FirstPieceIsPrefix | lib/storage-services.ts:72 | the first piece is the prefix before the first separator |
| StorageServices.FolderParts | lib/storage-services.ts:73 | `slice(-3, -1)` gives the two segments before the last, or fewer when there are fewer |
| StorageServices.PublicId | lib/storage-services.ts:71-74 | defines the public id derived from an image URL; its shape is stated by `PublicIdShape` |
| StorageServices.PublicIdShape | lib/storage-services.ts:71-74 | the public id is the two segments before the last joined by "/", then "/" and the last segment cut at its first "."; shorter URLs lose folder segments |
| StorageServices.DestroyRequestFor | lib/storage-services.ts:76-88 | the delete request targets the image destroy endpoint with the derived public id and an empty signature |
| StorageServices.DeleteImageResult | lib/storage-services.ts:91-99 | deleting succeeds exactly for a 2xx reply, and carries an error exactly when it fails |
| Subsequences.Filter | lib/events.ts:88-89 | a filter is never longer than its input |
| Subsequences.FilterAppend | components/gallery.tsx:18-21 | filtering a concatenation filters each part |
| Subsequences.FilterSound | components/gallery.tsx:18-21 | everything kept comes from the input and passes the test |
| Subsequences.FilterComplete | components/gallery.tsx:18-21 | everything in the input that passes the test is kept |
| Subsequences.FilterIsSubsequence | components/gallery.tsx:18-21 | the filter keeps the input's order |
| Events.FashionWeekItems | lib/events.ts:27-36 | the London demo gallery has 24 items: a video, always the same clip, exactly at every eighth place from the first, images elsewhere, and portrait exactly at every third place |
| Events.SolsticeItems | lib/events.ts:45-49 | the Saint-Tropez demo gallery has 20 images, the i-th at "/gallery/summer-(i+1).jpg", alternating landscape and portrait |
| Events.DubaiItems | lib/events.ts:59-63 | the Dubai demo gallery has 30 square images, the i-th at "/gallery/dubai-(i+1).jpg" |
| Events.DemoEvents | lib/events.ts:18-65 | defines the three undated demo events with their galleries |
| Events.GetAllEvents | lib/events.ts:70-80 | the store's list unchanged when non-empty, the three demo events otherwise; never empty |
| Events.FirstThree | lib/events.ts:90 | `slice(0, 3)` is the whole list when it has at most three elements, and exactly its first three otherwise |
| Events.AsEntries | lib/events.ts:91 | one entry per item |
| Events.AsEntriesAt | lib/events.ts:91 | entry k is item k's source tagged with the kind; the aspect is dropped |
| Events.AsEntriesMembers | lib/events.ts:91 | every item's source is pushed, and every pushed entry has the kind and the source of some item |
| Events.PushAll | lib/events.ts:91 | pushing the items appends their entries in item order |
| Events.PushImages | lib/events.ts:87-92 | the first pass pushes, event by event, the first three image items of each as image entries |
| Events.PushVideos | lib/events.ts:95-98 | the second pass appends, event by event, every video item of each as a video entry |
| Events.ImageEntries | lib/events.ts:86-92 | defines what the first pass pushes: per event in order, its first three images; its kinds and bound are stated by `EntryKinds` |
| Events.VideoEntries | lib/events.ts:94-98 | defines what the second pass pushes: per event in order, all its videos |
| Events.HeroMediaOf | lib/events.ts:82-111 | the hero media for the shown events is never empty: the pushed entries, or the default list when none were pushed |
| Events.GetHeroMedia | lib/events.ts:82-111 | the two push passes over the shown events give the hero-media specification: first-three images per event, then every video, or the default list when nothing was pushed |
| Events.EntryKinds | lib/events.ts:86-98 | the first pass yields only images, each event contributing at most three, so no more than three times the number of events; the second only videos |
| Events.ImageEntriesFromImages | lib/events.ts:87-91 | every image entry is the source of an image item of a shown event |
| Events.FirstImagesIncluded | lib/events.ts:87-91 | the first three image items of every shown event are all used |
| Events.AllVideosIncluded | lib/events.ts:95-98 | every video item of every shown event is used |
| Events.ImagesBeforeVideos | lib/events.ts:86-108 | every image in the result comes before every video, the default list included |
| Events.EventContributesNothing | lib/events.ts:88-96 | an event adds neither an image nor a video exactly when it has no items |
| Events.NoItemsNoEntries | lib/events.ts:86-101 | both passes push nothing exactly when no shown event has any item |
| Events.DefaultImagesFirst | lib/events.ts:102-107 | the default list puts its three images before its video |
| Events.DefaultExactlyWhenNoMedia | lib/events.ts:101-110 | the four-entry default list is returned when no event has items; otherwise the pushed entries are, and they are not empty |
| Events.EmptyStoreUsesDemoMedia | lib/events.ts:75-77 | with an empty store the demo events supply the hero media, so the default list is not reached |
| NewEventPage.ToLowerAscii | app/admin/events/new/page.tsx:60 | each upper-case ASCII letter becomes its own lower-case letter (32 code points on); every other character is kept |
| NewEventPage.Lower | app/admin/events/new/page.tsx:60 | lower-casing keeps the length and maps each character |
| NewEventPage.DropRun | app/admin/events/new/page.tsx:61 | dropping a leading run of separators leaves a suffix that is empty or starts with a letter or digit |
| NewEventPage.HyphenateRuns | app/admin/events/new/page.tsx:61 | the result uses only `a-z`, `0-9` and `-`, never has two hyphens in a row, is empty only for empty input, and starts with a hyphen exactly when the input starts outside the class |
| NewEventPage.TrimHyphens | app/admin/events/new/page.tsx:62 | trimming never lengthens the text |
| NewEventPage.Slug | app/admin/events/new/page.tsx:59-62 | defines the slug as lower-casing, hyphenating runs and trimming one hyphen at each end; its properties are the lemmas below |
| NewEventPage.SlugIsSlug | app/admin/events/new/page.tsx:59-62 | a slug uses only `a-z`, `0-9` and `-`, has no two hyphens in a row, and no leading or trailing hyphen |
| NewEventPage.DropRunKeepsClass | app/admin/events/new/page.tsx:61 | dropping a separator run drops no letter or digit |
| NewEventPage.HyphenateRunsKeepsClass | app/admin/events/new/page.tsx:61 | the letters and digits survive hyphenation in order |
| NewEventPage.TrimKeepsClass | app/admin/events/new/page.tsx:62 | trimming drops no letter or digit |
| NewEventPage.SlugKeepsLettersAndDigits | app/admin/events/new/page.tsx:59-62 | the slug's letters and digits are exactly the lower-cased title's, in order |
| NewEventPage.EmptySlug | app/admin/events/new/page.tsx:59-62 | the slug is empty exactly when the title has no ASCII letter or digit |
| NewEventPage.HyphenateRunsFixesSlugs | app/admin/events/new/page.tsx:61 | text already of the slug shape passes through hyphenation unchanged |
| NewEventPage.HyphenateWordPrefix | app/admin/events/new/page.tsx:61 | a leading run of letters and digits passes through hyphenation unchanged |
| NewEventPage.DropRunBeforeWord | app/admin/events/new/page.tsx:61 | a run with no letter or digit in front of a word is dropped whole |
| NewEventPage.SeparatorThenWord | app/admin/events/new/page.tsx:61 | a non-empty run with no letter or digit, followed by a word, becomes one hyphen and the word |
| NewEventPage.SeparatorRunBecomesHyphen | app/admin/events/new/page.tsx:61 | a non-empty run with no letter or digit between two words becomes exactly one hyphen |
| NewEventPage.SlugJoinsWords | app/admin/events/new/page.tsx:59-62 | two lower-case words with a non-empty run of anything but ASCII letters and digits between them give the two words joined by one hyphen |
| NewEventPage.SlugOfSlug | app/admin/events/new/page.tsx:59-62 | a slug is its own slug |
| NewEventPage.SlugIdempotent | app/admin/events/new/page.tsx:59-62 | deriving the slug twice changes nothing |
| NewEventPage.NewEventForm.constructor | app/admin/events/new/page.tsx:26-35 | the form starts empty, with no file, no error and not loading |
| NewEventPage.NewEventForm.HandleThumbnailChange | app/admin/events/new/page.tsx:37-50 | no file: nothing changes; an oversized file is not kept and its message (or "Invalid file") is shown; otherwise the file and its preview are taken and the error is cleared |
| NewEventPage.NewEventForm.HandleSubmit | app/admin/events/new/page.tsx:52-98 | a picked thumbnail is posted to the slug's folder; a failed upload or a missing URL stops with "Failed to upload thumbnail image" before any write; a failed write shows "Failed to create event"; otherwise exactly one new event with the uploaded URL and no items is stored under a fresh key and the page goes to that key's page; loading always ends |
| Hero.SwapsFrom | components/hero.tsx:21-24 | the remaining loop iterations keep the length |
| Hero.Shuffled | components/hero.tsx:19-25 | the shuffle for given draws keeps the length; its permutation property is `ShuffledPermutes` |
| Hero.SwapPermutes | components/hero.tsx:23 | one swap keeps the multiset of elements |
| Hero.SwapsFromPermutes | components/hero.tsx:21-24 | the remaining swaps keep the length and the multiset |
| Hero.ShuffledPermutes | components/hero.tsx:19-25 | the shuffle is a permutation: same length, same multiset |
| Hero.ShortListsUnchanged | components/hero.tsx:21 | lists of zero or one element come back equal |
| Hero.ShuffleArray | components/hero.tsx:19-26 | swapping down an array copy with draws `j` in `[0, i]` yields the shuffle specification, a permutation of the input, which is a value and stays as it was |
| Hero.NextIndex | components/hero.tsx:46 | the next index is below the slide count, one more while not on the last slide, and 0 from the last |
| Hero.AdvancedCounts | components/hero.tsx:54 | until the last slide each advance moves one slide on |
| Hero.FullCycle | components/hero.tsx:46-54 | advancing as many times as there are slides passes the last slide, wraps to the first, and returns to the start |
| Hero.Carousel.constructor | components/hero.tsx:29-30 | the carousel starts with no slides at index 0 |
| Hero.Carousel.Mount | components/hero.tsx:33-35 | mounting installs the shuffle of the built-in slides, a permutation of them, at index 0 |
| Hero.Carousel.Advance | components/hero.tsx:53-55 | with slides the index moves to the next one, wrapping; with none nothing changes; the index always names a slide |
| Hero.Carousel.Select | components/hero.tsx:100 | a dot click selects that slide and keeps the slides |
| Gallery.EventInstant | components/gallery.tsx:19 | an event without a date, or with an empty one, is at the epoch |
| Gallery.IsPast | components/gallery.tsx:19-20 | defines "past": the event's instant parses and is strictly before midnight |
| Gallery.PastEvents | components/gallery.tsx:18-21 | the shown events are never more than the input; their order and selection are stated by `PastEventsSpec` |
| Gallery.PastEventsSpec | components/gallery.tsx:18-21 | the shown events keep the input order; each is strictly before today's midnight; every event left out is at or after midnight or has a date that does not parse |
| Gallery.Boundaries | components/gallery.tsx:19-20 | an event exactly at midnight is not shown; an undated event is shown once today is after the epoch |
| Gallery.DayBeforeOnly | components/gallery.tsx:15-21 | events the day before, at and the day after midnight: only the first is shown |

## Left out

- The Firestore SDK, the media host's HTTP API and the network are not modelled. Each outcome is a parameter: `readOk`, `writeOk`, the query `snapshot`, and an `HttpResponse` per request.
- `Timestamp.toDate().toISOString().split("T")[0]` is the parameter `iso`.
- `Timestamp.now()` is called twice in `createEvent` and is modelled as one `now`.
- The cache's 10-second `revalidate` is the flag `expired`. Its timing and its per-instance scope are library behaviour.
- Concurrency is not modelled: interleaved media updates, `async` scheduling, and React state and effect timing. `StaleLookupLosesUpdate` shows the lost update that a stale memo causes in a single sequence of calls.
- `Date` parsing, time zones and `toLocaleDateString` are left out. Dates are integers, a parse is the `parse` parameter, and midnight is the integer `today`. `lib/utils.ts` is not part of this model.
- The stored `date` is a Timestamp or a string. A JavaScript `Date` object passed as a date is not modelled.
- `NewEventPage.Lower`: lowercases ASCII only, because the full Unicode `toLowerCase` (for example "İ" or the Kelvin sign becoming ASCII letters) is not modelled.
- `id: slug` in the page's `createEvent` payload is written as a data field that no reader uses. `NewEvent` has no such field.
- Fields set to `undefined` in an update patch are not modelled. A `Patch` field is either supplied or absent.
- `Hero.ShuffleArray`: `picks[0]` is never used. The source draws no index for `i = 0`.
- The hero's video `ended` listener, timers and rendering are left out. Only the index update they trigger is modelled (`Carousel.Advance`).
- The form's intermediate `isLoading = true` and `error = ""` are not observable in the final state and are not stated. Logging and `console` output are also left out.
- Image transcoding and batch video upload are not in the code and are not modelled.
- The presentational components and the other admin pages are not part of this model.
- `NewEventPage.TrimHyphens`: its contract states only that it never lengthens its input. What it does to a slug is stated by `SlugIsSlug`, `TrimKeepsClass` and `SlugOfSlug`.
