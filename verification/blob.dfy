/**
 The blob bucket as data.

 A bucket is seen through its two operations: `List(prefix)`, a forward-only
 cursor that yields object attributes, an error, or end-of-listing; and
 `NewReader(key)`, which opens an object or fails. Both are captured as
 functions of the bucket's contents at the moment of the call.
 */
module Blob {
  import opened Errors
  import opened Strings

  /** An open byte stream over one object's contents; its bytes are not modelled. */
  type Reader(==)

  /** An object's modification time; only carried from the listing into a file. */
  type ModTime(==)

  /** What one step of the listing cursor reports about one object. */
  datatype ObjectAttrs = ObjectAttrs(key: string, size: int, modTime: ModTime)

  /** One call of the cursor's `Next`: an object, an error, or end-of-listing. */
  datatype ListEvent =
    | Item(attrs: ObjectAttrs)
    | ListFailed(error: Error)
    | EndOfListing

  /** The bucket as it is at the moment of a call. */
  datatype Bucket = Bucket(
    list: string -> seq<ListEvent>,
    newReader: string -> Result<Reader>)

  /** The objects the cursor yields before it stops: everything up to the
      first error or end-of-listing event. A cursor whose events run out
      behaves as if it had reported end-of-listing. The result is the run of
      leading `Item` events, in order, and the cursor stops at the first
      event after it that is not an object. */
  function Listed(events: seq<ListEvent>): (items: seq<ObjectAttrs>)
    ensures |items| <= |events|
    ensures forall i :: 0 <= i < |items| ==> events[i] == Item(items[i])
    ensures |items| < |events| ==> !events[|items|].Item?
  {
    if |events| == 0 then []
    else match events[0]
      case Item(a) => [a] + Listed(events[1..])
      case ListFailed(_) => []
      case EndOfListing => []
  }

  /** The error that stops the cursor, or `None` when it stops at
      end-of-listing: it is the error of the event right after the listed
      objects, when that event is an error. */
  function ListingError(events: seq<ListEvent>): (r: Option<Error>)
    ensures var n := |Listed(events)|;
      r.Some? <==> n < |events| && events[n].ListFailed?
    ensures var n := |Listed(events)|;
      r.Some? ==> r.value == events[n].error
  {
    if |events| == 0 then None
    else match events[0]
      case Item(_) => ListingError(events[1..])
      case ListFailed(e) => Some(e)
      case EndOfListing => None
  }

  /** The bucket lists only keys under the prefix it was asked for. */
  predicate HonoursPrefix(b: Bucket, prefix: string) {
    var items := Listed(b.list(prefix));
    forall i :: 0 <= i < |items| ==> HasPrefix(items[i].key, prefix)
  }
}
