/** Records shared by the events layer: the `GalleryItem` and `PastEvent`
    interfaces of lib/events.ts, and the optional value used for JavaScript's
    `undefined`/`null`. */
module EventTypes {

  /** A value that may be absent (`undefined` or `null` in the source). */
  datatype Option<T> = None | Some(value: T) {
    /** `x || d` / `x ?? d` for a field that may be missing. */
    function GetOr(default: T): T {
      match this
      case Some(v) => v
      case None => default
    }
  }

  datatype MediaType = Image | Video

  /** Display hint only; it plays no part in storage or selection. */
  datatype Aspect = Portrait | Landscape | Square

  datatype GalleryItem = GalleryItem(kind: MediaType, src: string, aspect: Aspect)

  /** The normalised event every consumer sees. `date` is `None` for the
      built-in demo events (whose date is `null`); `featured` is `None` where
      the reader never sets it. */
  datatype PastEvent = PastEvent(
    id: string,
    title: string,
    date: Option<string>,
    location: string,
    thumbnail: string,
    description: string,
    items: seq<GalleryItem>,
    featured: Option<bool>)
}
