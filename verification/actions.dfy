/** The server actions of lib/actions.ts. Each runs exactly one store write
    and then, only if the write reported success, `revalidateTag("events")`;
    it hands the write's result back unchanged.

    Every action keeps the read cache coherent with the store: a write that
    changes the store always reports success, and success drops the memo. */
module Actions {
  import opened EventTypes
  import opened FirestoreServices

  method CreateEventAction(store: EventStore, cache: QueryCache, e: NewEvent, now: int, writeOk: bool)
    returns (r: StoreResult)
    modifies store, cache
    ensures r.Success? <==> writeOk
    ensures r.Success? ==> r.id.Some? && r.id.value !in old(store.docs)
                           && store.docs == old(store.docs)[r.id.value := NewDoc(e, now)]
    ensures r.Failure? ==> r == Failure(Thrown) && store.docs == old(store.docs)
    ensures cache.revalidations == old(cache.revalidations) + (if r.Success? then 1 else 0)
    ensures r.Success? ==> cache.byId == map[] && cache.all == None
    ensures r.Failure? ==> cache.byId == old(cache.byId) && cache.all == old(cache.all)
    ensures old(Coherent(store.docs, cache.byId, cache.all, store.iso)) ==>
              Coherent(store.docs, cache.byId, cache.all, store.iso)
  {
    r := CreateEvent(store, e, now, writeOk);
    if r.Success? {
      cache.RevalidateTag();
    }
  }

  method UpdateEventAction(store: EventStore, cache: QueryCache, id: string, updates: Patch, now: int,
                           writeOk: bool)
    returns (r: StoreResult)
    modifies store, cache
    ensures (store.docs, r) == UpdateEventSpec(old(store.docs), id, updates, now, writeOk)
    ensures cache.revalidations == old(cache.revalidations) + (if r.Success? then 1 else 0)
    ensures r.Success? ==> cache.byId == map[] && cache.all == None
    ensures r.Failure? ==> cache.byId == old(cache.byId) && cache.all == old(cache.all)
    ensures old(Coherent(store.docs, cache.byId, cache.all, store.iso)) ==>
              Coherent(store.docs, cache.byId, cache.all, store.iso)
  {
    r := UpdateEvent(store, id, updates, now, writeOk);
    if r.Success? {
      cache.RevalidateTag();
    }
  }

  method DeleteEventAction(store: EventStore, cache: QueryCache, id: string, writeOk: bool)
    returns (r: StoreResult)
    modifies store, cache
    ensures (store.docs, r) == DeleteEventSpec(old(store.docs), id, writeOk)
    ensures cache.revalidations == old(cache.revalidations) + (if r.Success? then 1 else 0)
    ensures r.Success? ==> cache.byId == map[] && cache.all == None
    ensures r.Failure? ==> cache.byId == old(cache.byId) && cache.all == old(cache.all)
    ensures old(Coherent(store.docs, cache.byId, cache.all, store.iso)) ==>
              Coherent(store.docs, cache.byId, cache.all, store.iso)
  {
    r := DeleteEvent(store, id, writeOk);
    if r.Success? {
      cache.RevalidateTag();
    }
  }

  /** Invalidates whenever the event was found, even when the inner write
      failed, because the store reports success in that case. On "Event not
      found" the only cache change is the memoised lookup. */
  method AddMediaToEventAction(store: EventStore, cache: QueryCache, id: string, media: seq<GalleryItem>,
                               now: int, readOk: bool, expired: bool, writeOk: bool)
    returns (r: StoreResult)
    modifies store, cache
    ensures var read := CachedLookup(old(cache.byId), old(store.docs), id, readOk, expired, store.iso);
      && (store.docs, r) == AddMediaSpec(old(store.docs), id, media, read, now, writeOk)
      && (r.Success? <==> read.Some?)
      && (r.Failure? ==> cache.byId == old(cache.byId)[id := read] && cache.all == old(cache.all))
    ensures cache.revalidations == old(cache.revalidations) + (if r.Success? then 1 else 0)
    ensures r.Success? ==> cache.byId == map[] && cache.all == None
    ensures old(Coherent(store.docs, cache.byId, cache.all, store.iso)) ==>
              Coherent(store.docs, cache.byId, cache.all, store.iso)
  {
    ghost var docs0, byId0, all0 := store.docs, cache.byId, cache.all;
    r := AddMediaToEvent(store, cache, id, media, now, readOk, expired, writeOk);
    if r.Success? {
      cache.RevalidateTag();
    } else if Coherent(docs0, byId0, all0, store.iso) {
      LookupKeepsCoherent(docs0, byId0, all0, store.iso, id, readOk, expired);
    }
  }

  method RemoveMediaFromEventAction(store: EventStore, cache: QueryCache, id: string, index: int,
                                    now: int, readOk: bool, expired: bool, writeOk: bool)
    returns (r: StoreResult)
    modifies store, cache
    ensures var read := CachedLookup(old(cache.byId), old(store.docs), id, readOk, expired, store.iso);
      && (store.docs, r) == RemoveMediaSpec(old(store.docs), id, index, read, now, writeOk)
      && (r.Success? <==> read.Some?)
      && (r.Failure? ==> cache.byId == old(cache.byId)[id := read] && cache.all == old(cache.all))
    ensures cache.revalidations == old(cache.revalidations) + (if r.Success? then 1 else 0)
    ensures r.Success? ==> cache.byId == map[] && cache.all == None
    ensures old(Coherent(store.docs, cache.byId, cache.all, store.iso)) ==>
              Coherent(store.docs, cache.byId, cache.all, store.iso)
  {
    ghost var docs0, byId0, all0 := store.docs, cache.byId, cache.all;
    r := RemoveMediaFromEvent(store, cache, id, index, now, readOk, expired, writeOk);
    if r.Success? {
      cache.RevalidateTag();
    } else if Coherent(docs0, byId0, all0, store.iso) {
      LookupKeepsCoherent(docs0, byId0, all0, store.iso, id, readOk, expired);
    }
  }

  /** After a found event's media are added and the tag is invalidated, the
      next lookup reads through to the store and sees the stored items
      followed by the new ones. */
  lemma AddedMediaVisibleAfterInvalidation(docs: map<string, Doc>, byId: map<string, Option<PastEvent>>,
                                           all: Option<seq<PastEvent>>, iso: Timestamp -> string, id: string,
                                           media: seq<GalleryItem>, now: int, readOk: bool, expired: bool,
                                           laterExpired: bool)
    requires Coherent(docs, byId, all, iso)
    requires CachedLookup(byId, docs, id, readOk, expired, iso).Some?
    ensures var read := CachedLookup(byId, docs, id, readOk, expired, iso);
      var (docs', r) := AddMediaSpec(docs, id, media, read, now, true);
      var later := CachedLookup(map[], docs', id, true, laterExpired, iso);
      && r.Success? && later.Some?
      && later.value.items == docs[id].items.GetOr([]) + media
  {
    AddMediaAppendsToStoredItems(docs, byId, all, iso, id, media, now, readOk, expired);
  }
}
