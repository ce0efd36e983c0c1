/** The event record store of lib/firestore-services.ts: the `events`
    document collection, the two cached read paths, and the writes.

    The collection is an `EventStore` object whose `docs` map goes from
    document key to stored document. The two `unstable_cache` wrappers
    (tag "events") are a `QueryCache` object holding the memoised answers.
    Everything the SDK decides is an oracle parameter: `readOk`/`writeOk`
    say whether the call reached the database, `now` is `Timestamp.now()`,
    `snapshot` is the key order the SDK's query returned, and `expired`
    says whether the cache's ten-second window has run out. */
module FirestoreServices {
  import opened EventTypes

  /** The error text of the two media writes for an unknown event. */
  const EventNotFoundMessage := "Event not found"

  /** A Firestore `Timestamp`. Its conversion to a calendar day is the SDK's
      `toDate().toISOString()` and is passed in as `iso`. */
  datatype Timestamp = Timestamp(seconds: int, nanoseconds: nat)

  /** The stored `date` field: either a Firestore Timestamp or a date string. */
  datatype StoredDate = Stamp(ts: Timestamp) | Text(text: string)

  /** One stored document. `items` and `featured` may be missing; the
      creation and update stamps are instants on the store's clock. */
  datatype Doc = Doc(
    title: string,
    date: StoredDate,
    location: string,
    thumbnail: string,
    description: string,
    items: Option<seq<GalleryItem>>,
    featured: Option<bool>,
    createdAt: int,
    updatedAt: int)

  /** What a caller hands to `createEvent`: an event without its key. The
      caller's object may still carry `items`; the write overrides it. */
  datatype NewEvent = NewEvent(
    title: string,
    date: StoredDate,
    location: string,
    thumbnail: string,
    description: string,
    featured: Option<bool>,
    items: Option<seq<GalleryItem>>)

  /** A `Partial<PastEvent>`: `None` means the field is not supplied. */
  datatype Patch = Patch(
    title: Option<string>,
    date: Option<StoredDate>,
    location: Option<string>,
    thumbnail: Option<string>,
    description: Option<string>,
    items: Option<seq<GalleryItem>>,
    featured: Option<bool>)

  /** The patch `{ items: s }` the two media writes send. */
  function ItemsPatch(s: seq<GalleryItem>): Patch {
    Patch(None, None, None, None, None, Some(s), None)
  }

  /** `NotFound` carries the message "Event not found"; `Thrown` is whatever
      the SDK threw, caught and returned as the error payload. */
  datatype StoreError = NotFound | Thrown {
    function Message(): (m: Option<string>)
      ensures m.Some? <==> NotFound?
    {
      if NotFound? then Some(EventNotFoundMessage) else None
    }
  }

  /** `{ success: true, id? }` or `{ success: false, error }`. */
  datatype StoreResult = Success(id: Option<string>) | Failure(error: StoreError)

  class EventStore {
    var docs: map<string, Doc>
    /** The SDK's Timestamp-to-day conversion, left abstract. */
    const iso: Timestamp -> string

    constructor (initial: map<string, Doc>, iso: Timestamp -> string)
      ensures docs == initial && this.iso == iso
    {
      docs := initial;
      this.iso := iso;
    }
  }

  /** The `unstable_cache` memo for `getEventById` (per id) and for
      `getAllEventsFromFirestore`; both carry the tag "events". */
  class QueryCache {
    var byId: map<string, Option<PastEvent>>
    var all: Option<seq<PastEvent>>
    /** How many times `revalidateTag("events")` has run. */
    var revalidations: nat

    constructor ()
      ensures byId == map[] && all == None && revalidations == 0
    {
      byId := map[];
      all := None;
      revalidations := 0;
    }

    /** `revalidateTag("events")`: every memo carrying the tag is dropped. */
    method RevalidateTag()
      modifies this
      ensures byId == map[] && all == None
      ensures revalidations == old(revalidations) + 1
    {
      byId := map[];
      all := None;
      revalidations := revalidations + 1;
    }
  }

  // ---------------------------------------------------------------------
  // Reading

  /** `convertFirestoreDate`: a Timestamp becomes its ISO day, a string is
      passed through untouched. */
  function ConvertFirestoreDate(date: StoredDate, iso: Timestamp -> string): (r: string)
    ensures date.Text? ==> r == date.text
    ensures date.Stamp? ==> r == iso(date.ts)
  {
    match date
    case Stamp(ts) => iso(ts)
    case Text(s) => s
  }

  /** The event the listing builds from one document. */
  function ListedEvent(key: string, d: Doc, iso: Timestamp -> string): (e: PastEvent)
    ensures e.id == key
    ensures e.items == (if d.items.Some? then d.items.value else [])
    ensures e.featured.Some? && (e.featured.value <==> d.featured == Some(true))
  {
    PastEvent(key, d.title, Some(ConvertFirestoreDate(d.date, iso)), d.location,
              d.thumbnail, d.description, d.items.GetOr([]), Some(d.featured.GetOr(false)))
  }

  /** The event `getEventById` builds: like the listing, but `featured` is
      never set. */
  function FetchedEvent(key: string, d: Doc, iso: Timestamp -> string): (e: PastEvent)
    ensures e == ListedEvent(key, d, iso).(featured := None)
  {
    PastEvent(key, d.title, Some(ConvertFirestoreDate(d.date, iso)), d.location,
              d.thumbnail, d.description, d.items.GetOr([]), None)
  }

  /** What the SDK may answer to `orderBy("createdAt", "desc")`: every key
      exactly once, newest first. */
  ghost predicate IsQueryAnswer(docs: map<string, Doc>, keys: seq<string>) {
    && (forall i :: 0 <= i < |keys| ==> keys[i] in docs)
    && (forall k :: k in docs ==> k in keys)
    && (forall i, j :: 0 <= i < j < |keys| ==> keys[i] != keys[j])
    && (forall i, j :: 0 <= i < j < |keys| && keys[i] in docs && keys[j] in docs ==>
          docs[keys[i]].createdAt >= docs[keys[j]].createdAt)
  }

  /** A complete listing of `docs`: one normalised event per document, no
      document twice, ordered by `createdAt`, newest first. */
  ghost predicate IsListing(docs: map<string, Doc>, events: seq<PastEvent>, iso: Timestamp -> string) {
    && (forall i :: 0 <= i < |events| ==>
          events[i].id in docs && events[i] == ListedEvent(events[i].id, docs[events[i].id], iso))
    && (forall k :: k in docs ==> exists i :: 0 <= i < |events| && events[i].id == k)
    && (forall i, j :: 0 <= i < j < |events| ==> events[i].id != events[j].id)
    && (forall i, j :: 0 <= i < j < |events| && events[i].id in docs && events[j].id in docs ==>
          docs[events[i].id].createdAt >= docs[events[j].id].createdAt)
  }

  /** `_getAllEventsFromFirestore`: walk the query snapshot and push one
      normalised event per document; a failed read gives the empty list. */
  method GetAllEventsFromFirestore(store: EventStore, snapshot: seq<string>, readOk: bool)
    returns (events: seq<PastEvent>)
    requires readOk ==> IsQueryAnswer(store.docs, snapshot)
    ensures !readOk ==> events == []
    ensures readOk ==> |events| == |snapshot|
    ensures readOk ==> forall i :: 0 <= i < |events| ==>
              events[i] == ListedEvent(snapshot[i], store.docs[snapshot[i]], store.iso)
    ensures readOk ==> IsListing(store.docs, events, store.iso)
  {
    if !readOk {
      return [];
    }
    events := [];
    var n := 0;
    while n < |snapshot|
      invariant 0 <= n <= |snapshot|
      invariant |events| == n
      invariant forall i :: 0 <= i < n ==>
                  events[i] == ListedEvent(snapshot[i], store.docs[snapshot[i]], store.iso)
    {
      events := events + [ListedEvent(snapshot[n], store.docs[snapshot[n]], store.iso)];
      n := n + 1;
    }
    forall k | k in store.docs
      ensures exists i :: 0 <= i < |events| && events[i].id == k
    {
      var i :| 0 <= i < |snapshot| && snapshot[i] == k;
      assert events[i].id == k;
    }
  }

  /** `_getEventById`: a missing document and a failed read both give `None`. */
  function GetEventById(docs: map<string, Doc>, id: string, readOk: bool, iso: Timestamp -> string)
    : (r: Option<PastEvent>)
    ensures r.Some? <==> readOk && id in docs
    ensures r.Some? ==> r.value.id == id && r.value.featured == None
    ensures r.Some? ==> r.value.items == docs[id].items.GetOr([])
  {
    if !readOk || id !in docs then None else Some(FetchedEvent(id, docs[id], iso))
  }

  /** What the cached `getEventById` answers: the memo while it is fresh,
      otherwise a read through to the store. */
  function CachedLookup(memo: map<string, Option<PastEvent>>, docs: map<string, Doc>, id: string,
                        readOk: bool, expired: bool, iso: Timestamp -> string): (r: Option<PastEvent>)
    ensures !expired && id in memo ==> r == memo[id]
    ensures expired || id !in memo ==> r == GetEventById(docs, id, readOk, iso)
  {
    if !expired && id in memo then memo[id] else GetEventById(docs, id, readOk, iso)
  }

  /** The cached `getEventById`. */
  method CachedGetEventById(store: EventStore, cache: QueryCache, id: string, readOk: bool, expired: bool)
    returns (r: Option<PastEvent>)
    modifies cache
    ensures r == CachedLookup(old(cache.byId), store.docs, id, readOk, expired, store.iso)
    ensures cache.byId == old(cache.byId)[id := r]
    ensures cache.all == old(cache.all) && cache.revalidations == old(cache.revalidations)
  {
    if !expired && id in cache.byId {
      r := cache.byId[id];
      assert cache.byId[id := r] == cache.byId;
    } else {
      r := GetEventById(store.docs, id, readOk, store.iso);
      cache.byId := cache.byId[id := r];
    }
  }

  /** The cached `getAllEventsFromFirestore`. */
  method CachedGetAllEvents(store: EventStore, cache: QueryCache, snapshot: seq<string>,
                            readOk: bool, expired: bool)
    returns (events: seq<PastEvent>)
    requires readOk ==> IsQueryAnswer(store.docs, snapshot)
    modifies cache
    ensures !expired && old(cache.all).Some? ==> events == old(cache.all).value && cache.all == old(cache.all)
    ensures expired || old(cache.all).None? ==>
              cache.all == Some(events) && (if readOk then IsListing(store.docs, events, store.iso) else events == [])
    ensures cache.byId == old(cache.byId) && cache.revalidations == old(cache.revalidations)
  {
    if !expired && cache.all.Some? {
      events := cache.all.value;
    } else {
      events := GetAllEventsFromFirestore(store, snapshot, readOk);
      cache.all := Some(events);
    }
  }

  /** The memo agrees with the store, except for answers to failed reads
      (`None`, `[]`), which the cache keeps as it keeps any other answer. */
  ghost predicate Coherent(docs: map<string, Doc>, byId: map<string, Option<PastEvent>>,
                           all: Option<seq<PastEvent>>, iso: Timestamp -> string)
  {
    && (forall id :: id in byId ==> byId[id] == None || byId[id] == GetEventById(docs, id, true, iso))
    && (all.Some? ==> all.value == [] || IsListing(docs, all.value, iso))
  }

  /** A read through the cache never makes it disagree with the store. */
  lemma LookupKeepsCoherent(docs: map<string, Doc>, byId: map<string, Option<PastEvent>>,
                            all: Option<seq<PastEvent>>, iso: Timestamp -> string,
                            id: string, readOk: bool, expired: bool)
    requires Coherent(docs, byId, all, iso)
    ensures Coherent(docs, byId[id := CachedLookup(byId, docs, id, readOk, expired, iso)], all, iso)
  {
  }

  /** On a coherent cache, a lookup that finds the event sees the stored items. */
  lemma CoherentLookupSeesStore(docs: map<string, Doc>, byId: map<string, Option<PastEvent>>,
                                all: Option<seq<PastEvent>>, iso: Timestamp -> string,
                                id: string, readOk: bool, expired: bool)
    requires Coherent(docs, byId, all, iso)
    requires CachedLookup(byId, docs, id, readOk, expired, iso).Some?
    ensures id in docs
    ensures CachedLookup(byId, docs, id, readOk, expired, iso).value.items == docs[id].items.GetOr([])
  {
    if !expired && id in byId {
      assert byId[id] == GetEventById(docs, id, true, iso);
    }
  }

  // ---------------------------------------------------------------------
  // Writing

  /** The document `createEvent` writes: the caller's fields, an empty item
      list whatever the caller passed, and both stamps set to `now`. */
  function NewDoc(e: NewEvent, now: int): (d: Doc)
    ensures d.items == Some([])
    ensures d.createdAt == now && d.updatedAt == now
    ensures d.title == e.title && d.date == e.date && d.thumbnail == e.thumbnail
  {
    Doc(e.title, e.date, e.location, e.thumbnail, e.description, Some([]), e.featured, now, now)
  }

  /** `createEvent`: `addDoc` picks a key no document has yet. */
  method CreateEvent(store: EventStore, e: NewEvent, now: int, writeOk: bool) returns (r: StoreResult)
    modifies store
    ensures r.Success? <==> writeOk
    ensures r.Success? ==> r.id.Some? && r.id.value !in old(store.docs)
                           && store.docs == old(store.docs)[r.id.value := NewDoc(e, now)]
    ensures r.Failure? ==> r == Failure(Thrown) && store.docs == old(store.docs)
  {
    if !writeOk {
      return Failure(Thrown);
    }
    FreshKeyExists(store.docs.Keys);
    var key :| key !in store.docs;
    store.docs := store.docs[key := NewDoc(e, now)];
    r := Success(Some(key));
  }

  /** A created event is found under its new key, with no items and the
      caller's fields. */
  lemma CreatedEventRetrievable(docs: map<string, Doc>, key: string, e: NewEvent, now: int,
                                iso: Timestamp -> string)
    ensures var found := GetEventById(docs[key := NewDoc(e, now)], key, true, iso);
      && found.Some? && found.value.id == key && found.value.items == []
      && found.value.title == e.title && found.value.thumbnail == e.thumbnail
      && found.value.location == e.location && found.value.description == e.description
      && found.value.date == Some(ConvertFirestoreDate(e.date, iso))
  {
  }

  /** Some string is not yet a key: one longer than every key. */
  lemma FreshKeyExists(keys: set<string>)
    ensures exists k :: k !in keys
  {
    var n := LongerThanAll(keys);
    var k := seq(n, _ => 'k');
    assert k !in keys;
  }

  lemma LongerThanAll(keys: set<string>) returns (n: nat)
    ensures forall k :: k in keys ==> |k| < n
  {
    if keys == {} {
      n := 0;
    } else {
      var x :| x in keys;
      var m := LongerThanAll(keys - {x});
      n := if |x| + 1 > m then |x| + 1 else m;
    }
  }

  /** The merge `updateDoc` performs: supplied fields replace stored ones,
      `updatedAt` becomes `now`, everything else stays. */
  function Merge(d: Doc, p: Patch, now: int): (r: Doc)
    ensures r.createdAt == d.createdAt && r.updatedAt == now
    ensures p == Patch(None, None, None, None, None, None, None) ==> r == d.(updatedAt := now)
  {
    Doc(p.title.GetOr(d.title), p.date.GetOr(d.date), p.location.GetOr(d.location),
        p.thumbnail.GetOr(d.thumbnail), p.description.GetOr(d.description),
        if p.items.Some? then p.items else d.items,
        if p.featured.Some? then p.featured else d.featured,
        d.createdAt, now)
  }

  /** `updateEvent`. `updateDoc` rejects a key with no document, so the
      write succeeds only when the database is reached and the key exists. */
  function UpdateEventSpec(docs: map<string, Doc>, id: string, p: Patch, now: int, writeOk: bool)
    : (r: (map<string, Doc>, StoreResult))
    ensures r.0.Keys == docs.Keys
    ensures r.1.Success? <==> writeOk && id in docs
    ensures r.1.Failure? ==> r.0 == docs
  {
    if writeOk && id in docs then (docs[id := Merge(docs[id], p, now)], Success(None))
    else (docs, Failure(Thrown))
  }

  method UpdateEvent(store: EventStore, id: string, updates: Patch, now: int, writeOk: bool)
    returns (r: StoreResult)
    modifies store
    ensures (store.docs, r) == UpdateEventSpec(old(store.docs), id, updates, now, writeOk)
  {
    if writeOk && id in store.docs {
      store.docs := store.docs[id := Merge(store.docs[id], updates, now)];
      r := Success(None);
    } else {
      r := Failure(Thrown);
    }
  }

  /** Only the supplied fields and `updatedAt` change, and only under `id`. */
  lemma UpdateChangesOnlySuppliedFields(docs: map<string, Doc>, id: string, p: Patch, now: int, writeOk: bool)
    ensures var (docs', r) := UpdateEventSpec(docs, id, p, now, writeOk);
      && docs'.Keys == docs.Keys
      && (forall k :: k in docs && k != id ==> docs'[k] == docs[k])
      && (r.Success? <==> writeOk && id in docs)
      && (r.Failure? ==> docs' == docs)
      && (r.Success? ==>
            var (d, d') := (docs[id], docs'[id]);
            && d'.updatedAt == now && d'.createdAt == d.createdAt
            && d'.title == (if p.title.Some? then p.title.value else d.title)
            && d'.date == (if p.date.Some? then p.date.value else d.date)
            && d'.location == (if p.location.Some? then p.location.value else d.location)
            && d'.thumbnail == (if p.thumbnail.Some? then p.thumbnail.value else d.thumbnail)
            && d'.description == (if p.description.Some? then p.description.value else d.description)
            && d'.items == (if p.items.Some? then p.items else d.items)
            && d'.featured == (if p.featured.Some? then p.featured else d.featured))
  {
  }

  /** `deleteEvent`: deleting a missing key is not an error. */
  function DeleteEventSpec(docs: map<string, Doc>, id: string, writeOk: bool): (r: (map<string, Doc>, StoreResult))
    ensures r.1.Success? <==> writeOk
    ensures r.0.Keys == if writeOk then docs.Keys - {id} else docs.Keys
  {
    if writeOk then (docs - {id}, Success(None)) else (docs, Failure(Thrown))
  }

  method DeleteEvent(store: EventStore, id: string, writeOk: bool) returns (r: StoreResult)
    modifies store
    ensures (store.docs, r) == DeleteEventSpec(old(store.docs), id, writeOk)
  {
    if writeOk {
      store.docs := store.docs - {id};
      r := Success(None);
    } else {
      r := Failure(Thrown);
    }
  }

  /** After a successful delete no record has the key, the others are
      untouched, and a second delete succeeds and changes nothing. */
  lemma DeleteRemovesKey(docs: map<string, Doc>, id: string)
    ensures var (docs', r) := DeleteEventSpec(docs, id, true);
      && r.Success? && id !in docs'
      && (forall k :: k in docs && k != id ==> k in docs' && docs'[k] == docs[k])
      && DeleteEventSpec(docs', id, true) == (docs', Success(None))
  {
    var docs' := docs - {id};
    assert docs' - {id} == docs';
  }

  /** `updatedItems = [...event.items, ...mediaItems]` is written back with
      `updateEvent`, whose outcome is ignored. `read` is what the cached
      `getEventById` answered. */
  function AddMediaSpec(docs: map<string, Doc>, id: string, media: seq<GalleryItem>, read: Option<PastEvent>,
                        now: int, writeOk: bool): (r: (map<string, Doc>, StoreResult))
    ensures r.1.Success? <==> read.Some?
    ensures r.1.Failure? ==> r == (docs, Failure(NotFound))
    ensures r.0.Keys == docs.Keys
  {
    if read.None? then (docs, Failure(NotFound))
    else (UpdateEventSpec(docs, id, ItemsPatch(read.value.items + media), now, writeOk).0, Success(None))
  }

  method AddMediaToEvent(store: EventStore, cache: QueryCache, id: string, media: seq<GalleryItem>,
                         now: int, readOk: bool, expired: bool, writeOk: bool)
    returns (r: StoreResult)
    modifies store, cache
    ensures var read := CachedLookup(old(cache.byId), old(store.docs), id, readOk, expired, store.iso);
      && (store.docs, r) == AddMediaSpec(old(store.docs), id, media, read, now, writeOk)
      && cache.byId == old(cache.byId)[id := read]
    ensures cache.all == old(cache.all) && cache.revalidations == old(cache.revalidations)
  {
    var event := CachedGetEventById(store, cache, id, readOk, expired);
    if event.None? {
      return Failure(NotFound);
    }
    var updatedItems := event.value.items + media;
    var _ := UpdateEvent(store, id, ItemsPatch(updatedItems), now, writeOk);
    r := Success(None);
  }

  /** The outcome of adding media: "Event not found" with nothing written
      when the lookup found nothing, otherwise success whether or not the
      write went through; a write that went through appends in order. */
  lemma AddMediaOutcome(docs: map<string, Doc>, id: string, media: seq<GalleryItem>, read: Option<PastEvent>,
                        now: int, writeOk: bool)
    ensures var (docs', r) := AddMediaSpec(docs, id, media, read, now, writeOk);
      && (r.Success? <==> read.Some?)
      && (read.None? ==> r == Failure(NotFound) && r.error.Message() == Some("Event not found") && docs' == docs)
      && (read.Some? && !writeOk ==> docs' == docs)
      && (forall k :: k in docs && k != id ==> k in docs' && docs'[k] == docs[k])
      && (read.Some? && writeOk && id in docs ==> docs'[id].items == Some(read.value.items + media))
  {
  }

  /** With a cache that agrees with the store, a found event gets the new
      items appended after exactly the stored ones. */
  lemma AddMediaAppendsToStoredItems(docs: map<string, Doc>, byId: map<string, Option<PastEvent>>,
                                     all: Option<seq<PastEvent>>, iso: Timestamp -> string, id: string,
                                     media: seq<GalleryItem>, now: int, readOk: bool, expired: bool)
    requires Coherent(docs, byId, all, iso)
    requires CachedLookup(byId, docs, id, readOk, expired, iso).Some?
    ensures var read := CachedLookup(byId, docs, id, readOk, expired, iso);
      var (docs', r) := AddMediaSpec(docs, id, media, read, now, true);
      && r.Success? && id in docs'
      && docs'[id].items == Some(docs[id].items.GetOr([]) + media)
  {
    CoherentLookupSeesStore(docs, byId, all, iso, id, readOk, expired);
  }

  /** A stale memo loses an update: the cache still holds the event with no
      items while the store already holds `x`, and adding `y` writes back a
      list without `x`. */
  lemma StaleLookupLosesUpdate(docs: map<string, Doc>, id: string, x: GalleryItem, y: GalleryItem,
                               now: int, iso: Timestamp -> string)
    requires id in docs && docs[id].items == Some([x])
    ensures var stale := map[id := Some(FetchedEvent(id, docs[id].(items := Some([])), iso))];
      var read := CachedLookup(stale, docs, id, true, false, iso);
      && !Coherent(docs, stale, None, iso)
      && AddMediaSpec(docs, id, [y], read, now, true).1.Success?
      && AddMediaSpec(docs, id, [y], read, now, true).0[id].items == Some([y])
  {
    var stale := map[id := Some(FetchedEvent(id, docs[id].(items := Some([])), iso))];
    assert stale[id].value.items != GetEventById(docs, id, true, iso).value.items;
    assert [] + [y] == [y];
  }

  /** `items.filter((_, index) => index !== k)`. */
  function DropIndex<T>(s: seq<T>, k: int): (r: seq<T>)
    ensures |r| == if 0 <= k < |s| then |s| - 1 else |s|
    decreases |s|
  {
    if s == [] then [] else (if k == 0 then [] else [s[0]]) + DropIndex(s[1..], k - 1)
  }

  /** Putting the head back in front of a spliced tail splices the whole. */
  lemma SpliceCons<T>(s: seq<T>, k: int)
    requires 0 < k < |s|
    ensures [s[0]] + (s[1..][..k - 1] + s[1..][k..]) == s[..k] + s[k + 1..]
  {
    var front, back := s[1..k], s[k + 1..];
    assert s[1..][..k - 1] == front && s[1..][k..] == back;
    assert [s[0]] + front == s[..k];
    assert [s[0]] + (front + back) == ([s[0]] + front) + back;
  }

  /** The index filter removes exactly element `k` when `k` is in range and
      nothing otherwise (negative `k` included); the rest keep their order. */
  lemma {:induction false} DropIndexIsSplice<T>(s: seq<T>, k: int)
    ensures DropIndex(s, k) == if 0 <= k < |s| then s[..k] + s[k + 1..] else s
    decreases |s|
  {
    if s != [] {
      DropIndexIsSplice(s[1..], k - 1);
      if k == 0 {
        assert s[..0] + s[1..] == s[1..];
      } else if 0 < k < |s| {
        SpliceCons(s, k);
      } else {
        assert [s[0]] + s[1..] == s;
      }
    }
  }

  /** `removeMediaFromEvent`: the same read-modify-write with the index filter. */
  function RemoveMediaSpec(docs: map<string, Doc>, id: string, index: int, read: Option<PastEvent>,
                           now: int, writeOk: bool): (r: (map<string, Doc>, StoreResult))
    ensures r.1.Success? <==> read.Some?
    ensures r.1.Failure? ==> r == (docs, Failure(NotFound))
    ensures r.0.Keys == docs.Keys
  {
    if read.None? then (docs, Failure(NotFound))
    else (UpdateEventSpec(docs, id, ItemsPatch(DropIndex(read.value.items, index)), now, writeOk).0, Success(None))
  }

  method RemoveMediaFromEvent(store: EventStore, cache: QueryCache, id: string, index: int,
                              now: int, readOk: bool, expired: bool, writeOk: bool)
    returns (r: StoreResult)
    modifies store, cache
    ensures var read := CachedLookup(old(cache.byId), old(store.docs), id, readOk, expired, store.iso);
      && (store.docs, r) == RemoveMediaSpec(old(store.docs), id, index, read, now, writeOk)
      && cache.byId == old(cache.byId)[id := read]
    ensures cache.all == old(cache.all) && cache.revalidations == old(cache.revalidations)
  {
    var event := CachedGetEventById(store, cache, id, readOk, expired);
    if event.None? {
      return Failure(NotFound);
    }
    var updatedItems := DropIndex(event.value.items, index);
    var _ := UpdateEvent(store, id, ItemsPatch(updatedItems), now, writeOk);
    r := Success(None);
  }

  /** With a cache that agrees with the store: an unknown id reports "Event
      not found" and writes nothing; a known one reports success even when
      the write fails, which then changes nothing. A write that goes through
      removes exactly the stored item at an in-range index and leaves the
      items as they were for any other index. Other documents are never
      touched. */
  lemma RemoveMediaOutcome(docs: map<string, Doc>, byId: map<string, Option<PastEvent>>,
                           all: Option<seq<PastEvent>>, iso: Timestamp -> string, id: string,
                           index: int, now: int, readOk: bool, expired: bool, writeOk: bool)
    requires Coherent(docs, byId, all, iso)
    ensures var read := CachedLookup(byId, docs, id, readOk, expired, iso);
      var (docs', r) := RemoveMediaSpec(docs, id, index, read, now, writeOk);
      && (r.Success? <==> read.Some?)
      && (read.None? ==> r == Failure(NotFound) && r.error.Message() == Some("Event not found") && docs' == docs)
      && (read.Some? && !writeOk ==> docs' == docs)
      && (forall k :: k in docs && k != id ==> k in docs' && docs'[k] == docs[k])
      && (read.Some? && writeOk ==>
            var s := docs[id].items.GetOr([]);
            && id in docs'
            && docs'[id].items == Some(if 0 <= index < |s| then s[..index] + s[index + 1..] else s))
  {
    var read := CachedLookup(byId, docs, id, readOk, expired, iso);
    if read.Some? {
      CoherentLookupSeesStore(docs, byId, all, iso, id, readOk, expired);
      DropIndexIsSplice(read.value.items, index);
    }
  }
}
