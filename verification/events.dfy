/** The events layer of lib/events.ts: the built-in demo events, the
    fallback from the store's listing to them, and the selection of hero
    media from the events' galleries.

    The listing the store returns (`getAllEventsFromFirestore`) is a
    parameter here; its own model is `FirestoreServices.GetAllEventsFromFirestore`. */
module Events {
  import opened EventTypes
  import opened Subsequences

  /** Decimal text of a number, as a template literal prints it. */
  function NatToString(n: nat): (s: string)
    ensures |s| >= 1 && forall k :: 0 <= k < |s| ==> '0' <= s[k] <= '9'
    decreases n
  {
    if n < 10 then ["0123456789"[n]] else NatToString(n / 10) + ["0123456789"[n % 10]]
  }

  const FashionWeekVideo := "https://assets.mixkit.co/videos/preview/mixkit-party-crowd-dancing-under-flashing-lights-4240-large.mp4"

  /** Item `i` of the London gallery: every eighth one is a video. */
  function FashionWeekItem(i: nat): GalleryItem {
    GalleryItem(
      if i % 8 == 0 then Video else Image,
      if i % 8 == 0 then FashionWeekVideo
      else "/placeholder.svg?height=" + (if i % 3 == 0 then "1200" else "800")
           + "&width=800&query=luxury+nightlife+event+" + NatToString(i),
      if i % 3 == 0 then Portrait else if i % 3 == 1 then Landscape else Square)
  }

  function SolsticeItem(i: nat): GalleryItem {
    GalleryItem(Image, "/gallery/summer-" + NatToString(i + 1) + ".jpg",
                if i % 2 == 0 then Landscape else Portrait)
  }

  function DubaiItem(i: nat): GalleryItem {
    GalleryItem(Image, "/gallery/dubai-" + NatToString(i + 1) + ".jpg", Square)
  }

  /** The London gallery: 24 items, a video (always the same clip) at every
      eighth place starting from the first and images elsewhere; every third
      item, starting from the first, is portrait. */
  function FashionWeekItems(): (r: seq<GalleryItem>)
    ensures |r| == 24
    ensures forall i :: 0 <= i < 24 ==> (r[i].kind == Video <==> i % 8 == 0)
    ensures forall i :: 0 <= i < 24 && r[i].kind == Video ==> r[i].src == FashionWeekVideo
    ensures forall i :: 0 <= i < 24 ==> (r[i].aspect == Portrait <==> i % 3 == 0)
  {
    seq(24, i requires 0 <= i => FashionWeekItem(i))
  }

  /** The Saint-Tropez gallery: 20 images numbered from 1, alternating
      landscape and portrait. */
  function SolsticeItems(): (r: seq<GalleryItem>)
    ensures |r| == 20
    ensures forall i :: 0 <= i < 20 ==>
              r[i].kind == Image && r[i].src == "/gallery/summer-" + NatToString(i + 1) + ".jpg"
              && (r[i].aspect == Landscape <==> i % 2 == 0)
  {
    seq(20, i requires 0 <= i => SolsticeItem(i))
  }

  /** The Dubai gallery: 30 square images numbered from 1. */
  function DubaiItems(): (r: seq<GalleryItem>)
    ensures |r| == 30
    ensures forall i :: 0 <= i < 30 ==>
              r[i].kind == Image && r[i].aspect == Square
              && r[i].src == "/gallery/dubai-" + NatToString(i + 1) + ".jpg"
  {
    seq(30, i requires 0 <= i => DubaiItem(i))
  }

  const FashionWeekDescription := "An exclusive gathering of the fashion elite during London's most prestigious week."
  const SolsticeDescription := "A sun-drenched celebration of luxury on the French Riviera."
  const DubaiDescription := "Neon lights and desert luxury at the heart of Dubai's nightlife scene."

  /** The module's `pastEvents`: three undated demo events. */
  function DemoEvents(): seq<PastEvent> {
    [
      PastEvent("london-fashion-week-2025", "London Fashion Week Afterparty", None, "The Mayfair Club",
                "/luxury-fashion-party.jpg", FashionWeekDescription, FashionWeekItems(), None),
      PastEvent("summer-solstice-vips", "Summer Solstice VIP Gala", None, "Saint-Tropez",
                "/luxury-champagne-sparklers.jpg", SolsticeDescription, SolsticeItems(), None),
      PastEvent("midnight-in-dubai", "Midnight in Dubai", None, "Burj Khalifa District",
                "/exclusive-vip-booth.jpg", DubaiDescription, DubaiItems(), None)
    ]
  }

  /** `getAllEvents`: the store's events, or the demo events when it has none.
      Either way some events are shown. */
  function GetAllEvents(firestoreEvents: seq<PastEvent>): (r: seq<PastEvent>)
    ensures |r| > 0
    ensures firestoreEvents != [] ==> r == firestoreEvents
    ensures firestoreEvents == [] ==> r == DemoEvents()
  {
    if |firestoreEvents| == 0 then DemoEvents() else firestoreEvents
  }

  /** One entry of `allMedia`: `{ type, src }`. */
  datatype MediaEntry = MediaEntry(kind: MediaType, src: string)

  predicate IsImage(item: GalleryItem) { item.kind == Image }
  predicate IsVideo(item: GalleryItem) { item.kind == Video }

  /** `.slice(0, 3)`. */
  function FirstThree<T>(s: seq<T>): (r: seq<T>)
    ensures |r| <= 3 && |r| <= |s| && r == s[..|r|]
    ensures |s| <= 3 ==> r == s
    ensures 3 <= |s| ==> r == s[..3]
  {
    if |s| <= 3 then s else s[..3]
  }

  /** The images an event contributes: the first three image items. */
  function HeroImagesOf(e: PastEvent): seq<GalleryItem> {
    FirstThree(Filter(e.items, IsImage))
  }

  function HeroVideosOf(e: PastEvent): seq<GalleryItem> {
    Filter(e.items, IsVideo)
  }

  /** The entries pushed for `items`, in order. */
  function AsEntries(kind: MediaType, items: seq<GalleryItem>): (r: seq<MediaEntry>)
    ensures |r| == |items|
    decreases |items|
  {
    if items == [] then [] else AsEntries(kind, items[..|items| - 1]) + [MediaEntry(kind, items[|items| - 1].src)]
  }

  /** Entry `k` is item `k` tagged with `kind`. */
  lemma {:induction false} AsEntriesAt(kind: MediaType, items: seq<GalleryItem>)
    ensures forall k :: 0 <= k < |items| ==> AsEntries(kind, items)[k] == MediaEntry(kind, items[k].src)
    decreases |items|
  {
    if items != [] {
      AsEntriesAt(kind, items[..|items| - 1]);
    }
  }

  /** What the first `forEach` pushes for `events`. */
  function ImageEntries(events: seq<PastEvent>): seq<MediaEntry>
    decreases |events|
  {
    if events == [] then []
    else ImageEntries(events[..|events| - 1]) + AsEntries(Image, HeroImagesOf(events[|events| - 1]))
  }

  /** What the second `forEach` pushes for `events`. */
  function VideoEntries(events: seq<PastEvent>): seq<MediaEntry>
    decreases |events|
  {
    if events == [] then []
    else VideoEntries(events[..|events| - 1]) + AsEntries(Video, HeroVideosOf(events[|events| - 1]))
  }

  /** The list returned when no event has any media. */
  const DefaultHeroMedia: seq<MediaEntry> := [
    MediaEntry(Image, "/luxury-nightclub-interior.jpg"),
    MediaEntry(Image, "/champagne-sparklers-vip.jpg"),
    MediaEntry(Image, "/luxury-fashion-party.jpg"),
    MediaEntry(Video, "https://v0.blob.com/nightlife-sample-video.mp4")
  ]

  /** The hero media for the events shown. */
  function HeroMediaOf(events: seq<PastEvent>): (r: seq<MediaEntry>)
    ensures |r| > 0
  {
    var all := ImageEntries(events) + VideoEntries(events);
    if |all| == 0 then DefaultHeroMedia else all
  }

  /** `items.forEach((x) => allMedia.push({ type: kind, src: x.src }))`. */
  method PushAll(allMedia: seq<MediaEntry>, kind: MediaType, items: seq<GalleryItem>)
    returns (pushed: seq<MediaEntry>)
    ensures pushed == allMedia + AsEntries(kind, items)
  {
    pushed := allMedia;
    var j := 0;
    while j < |items|
      invariant 0 <= j <= |items|
      invariant pushed == allMedia + AsEntries(kind, items[..j])
    {
      pushed := pushed + [MediaEntry(kind, items[j].src)];
      assert items[..j + 1][..j] == items[..j];
      j := j + 1;
    }
    assert items[..j] == items;
  }

  /** The first `allEvents.forEach`: the first three images of each event. */
  method PushImages(allEvents: seq<PastEvent>) returns (allMedia: seq<MediaEntry>)
    ensures allMedia == ImageEntries(allEvents)
  {
    allMedia := [];
    var i := 0;
    while i < |allEvents|
      invariant 0 <= i <= |allEvents|
      invariant allMedia == ImageEntries(allEvents[..i])
    {
      var images := FirstThree(Filter(allEvents[i].items, IsImage));
      allMedia := PushAll(allMedia, Image, images);
      assert allEvents[..i + 1][..i] == allEvents[..i];
      i := i + 1;
    }
    assert allEvents[..i] == allEvents;
  }

  /** The second `allEvents.forEach`: every video of each event, after what
      is already in `allMedia`. */
  method PushVideos(allEvents: seq<PastEvent>, allMedia: seq<MediaEntry>) returns (pushed: seq<MediaEntry>)
    ensures pushed == allMedia + VideoEntries(allEvents)
  {
    pushed := allMedia;
    var i := 0;
    while i < |allEvents|
      invariant 0 <= i <= |allEvents|
      invariant pushed == allMedia + VideoEntries(allEvents[..i])
    {
      var videos := Filter(allEvents[i].items, IsVideo);
      pushed := PushAll(pushed, Video, videos);
      assert allEvents[..i + 1][..i] == allEvents[..i];
      assert allMedia + VideoEntries(allEvents[..i]) + AsEntries(Video, videos)
          == allMedia + (VideoEntries(allEvents[..i]) + AsEntries(Video, videos));
      i := i + 1;
    }
    assert allEvents[..i] == allEvents;
  }

  /** `getHeroMedia`: the two passes over the events shown, then the default
      list if nothing was pushed. */
  method GetHeroMedia(firestoreEvents: seq<PastEvent>) returns (media: seq<MediaEntry>)
    ensures media == HeroMediaOf(GetAllEvents(firestoreEvents))
  {
    var allEvents := GetAllEvents(firestoreEvents);
    var allMedia := PushImages(allEvents);
    allMedia := PushVideos(allEvents, allMedia);
    if |allMedia| == 0 {
      return DefaultHeroMedia;
    }
    return allMedia;
  }

  /** Membership in the pushed entries, both ways. */
  lemma {:induction false} AsEntriesMembers(kind: MediaType, items: seq<GalleryItem>)
    ensures forall it :: it in items ==> MediaEntry(kind, it.src) in AsEntries(kind, items)
    ensures forall m :: m in AsEntries(kind, items) ==> m.kind == kind && exists it :: it in items && m.src == it.src
    decreases |items|
  {
    if items != [] {
      var init := items[..|items| - 1];
      AsEntriesMembers(kind, init);
      assert items == init + [items[|items| - 1]];
    }
  }

  /** The first pass yields only images, no more than three times as many
      as there are events, since each event gives at most three; the second
      yields only videos. */
  lemma {:induction false} EntryKinds(events: seq<PastEvent>)
    ensures forall e :: e in events ==> |AsEntries(Image, HeroImagesOf(e))| <= 3
    ensures |ImageEntries(events)| <= 3 * |events|
    ensures forall k :: 0 <= k < |ImageEntries(events)| ==> ImageEntries(events)[k].kind == Image
    ensures forall k :: 0 <= k < |VideoEntries(events)| ==> VideoEntries(events)[k].kind == Video
    decreases |events|
  {
    if events != [] {
      var init, last := events[..|events| - 1], events[|events| - 1];
      EntryKinds(init);
      AsEntriesMembers(Image, HeroImagesOf(last));
      AsEntriesMembers(Video, HeroVideosOf(last));
    }
  }

  /** Every image entry is the source of an image item of a shown event. */
  lemma {:induction false} ImageEntriesFromImages(events: seq<PastEvent>)
    ensures forall m :: m in ImageEntries(events) ==>
              exists e :: e in events && exists it :: it in e.items && it.kind == Image && m.src == it.src
    decreases |events|
  {
    if events != [] {
      var init, last := events[..|events| - 1], events[|events| - 1];
      ImageEntriesFromImages(init);
      AsEntriesMembers(Image, HeroImagesOf(last));
      FilterSound(last.items, IsImage);
      forall m | m in ImageEntries(events)
        ensures exists e :: e in events && exists it :: it in e.items && it.kind == Image && m.src == it.src
      {
        if m in ImageEntries(init) {
          var e :| e in init && exists it :: it in e.items && it.kind == Image && m.src == it.src;
          assert e in events;
        } else {
          assert m in AsEntries(Image, HeroImagesOf(last));
          var it :| it in HeroImagesOf(last) && m.src == it.src;
          assert it in Filter(last.items, IsImage);
          assert last in events;
        }
      }
    }
  }

  /** The first three image items of every shown event are all used. */
  lemma {:induction false} FirstImagesIncluded(events: seq<PastEvent>)
    ensures forall e, it :: e in events && it in HeroImagesOf(e) ==> MediaEntry(Image, it.src) in ImageEntries(events)
    decreases |events|
  {
    if events != [] {
      var init, last := events[..|events| - 1], events[|events| - 1];
      FirstImagesIncluded(init);
      AsEntriesMembers(Image, HeroImagesOf(last));
      assert forall e :: e in events ==> e in init || e == last;
    }
  }

  /** Every video item of every shown event is used. */
  lemma {:induction false} AllVideosIncluded(events: seq<PastEvent>)
    ensures forall e, it :: e in events && it in e.items && it.kind == Video ==>
              MediaEntry(Video, it.src) in VideoEntries(events)
    decreases |events|
  {
    if events != [] {
      var init, last := events[..|events| - 1], events[|events| - 1];
      AllVideosIncluded(init);
      FilterComplete(last.items, IsVideo);
      AsEntriesMembers(Video, HeroVideosOf(last));
      assert forall e :: e in events ==> e in init || e == last;
    }
  }

  /** A list whose images all come before its videos. */
  predicate ImagesFirst(m: seq<MediaEntry>) {
    forall a, b :: 0 <= a < b < |m| && m[a].kind == Video ==> m[b].kind == Video
  }

  lemma ImagesThenVideos(imgs: seq<MediaEntry>, vids: seq<MediaEntry>)
    requires forall k :: 0 <= k < |imgs| ==> imgs[k].kind == Image
    requires forall k :: 0 <= k < |vids| ==> vids[k].kind == Video
    ensures ImagesFirst(imgs + vids)
  {
    var m := imgs + vids;
    forall a, b | 0 <= a < b < |m| && m[a].kind == Video
      ensures m[b].kind == Video
    {
      if a < |imgs| {
        assert false;
      }
      assert m[b] == vids[b - |imgs|];
    }
  }

  /** The default list's three images come before its video. */
  lemma DefaultImagesFirst()
    ensures ImagesFirst(DefaultHeroMedia)
  {
    var d := DefaultHeroMedia;
    assert d[0].kind == Image && d[1].kind == Image && d[2].kind == Image && d[3].kind == Video;
  }

  /** In the hero media every image comes before every video. */
  lemma ImagesBeforeVideos(events: seq<PastEvent>)
    ensures ImagesFirst(HeroMediaOf(events))
  {
    var imgs, vids := ImageEntries(events), VideoEntries(events);
    if |imgs + vids| == 0 {
      DefaultImagesFirst();
    } else {
      EntryKinds(events);
      ImagesThenVideos(imgs, vids);
    }
  }

  /** An event contributes nothing exactly when it has no items. */
  lemma EventContributesNothing(e: PastEvent)
    ensures HeroImagesOf(e) == [] && HeroVideosOf(e) == [] <==> e.items == []
  {
    if e.items != [] {
      var it := e.items[0];
      if it.kind == Image {
        FilterComplete(e.items, IsImage);
        assert it in Filter(e.items, IsImage);
      } else {
        FilterComplete(e.items, IsVideo);
        assert it in HeroVideosOf(e);
      }
    }
  }

  /** Nothing is pushed exactly when no event has any item. */
  lemma {:induction false} NoItemsNoEntries(events: seq<PastEvent>)
    ensures (ImageEntries(events) == [] && VideoEntries(events) == []) <==> forall e :: e in events ==> e.items == []
    decreases |events|
  {
    if events != [] {
      var init, last := events[..|events| - 1], events[|events| - 1];
      NoItemsNoEntries(init);
      EventContributesNothing(last);
      assert forall e :: e in events <==> e in init || e == last;
    }
  }

  lemma DefaultExactlyWhenNoMedia(events: seq<PastEvent>)
    ensures (forall e :: e in events ==> e.items == []) ==> HeroMediaOf(events) == DefaultHeroMedia
    ensures (exists e :: e in events && e.items != []) ==>
              HeroMediaOf(events) == ImageEntries(events) + VideoEntries(events) && |HeroMediaOf(events)| > 0
  {
    NoItemsNoEntries(events);
  }

  /** With an empty store the demo events supply the hero media, so the
      built-in default list is not reached. */
  lemma EmptyStoreUsesDemoMedia()
    ensures HeroMediaOf(GetAllEvents([])) == ImageEntries(DemoEvents()) + VideoEntries(DemoEvents())
    ensures |HeroMediaOf(GetAllEvents([]))| > 0
  {
    var demo := DemoEvents();
    assert demo[0] in demo && demo[0].items != [];
    DefaultExactlyWhenNoMedia(demo);
  }
}
