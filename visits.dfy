/**
 * The visit memory of the boot sequence (assets/js/typing.js): under the localStorage key
 * `agent_typed_pages` a JSON object maps page ids to `true`. Reading or writing may fail,
 * and the stored text may be missing, not an object, or not JSON at all; every failure is
 * swallowed.
 */
module Visits {

  /** A member value of the stored object: exactly `true`, or any other JSON value (kept as its text). */
  datatype Value = TrueValue | OtherValue(json: string)

  /** What `JSON.parse(localStorage.getItem('agent_typed_pages') || '{}')` makes of the stored text. */
  datatype Blob =
    | Absent                            // nothing stored, or the empty string: read as `{}`
    | Entries(entries: map<string, Value>) // a JSON object
    | NonObject                         // `null`, a number, a string or a boolean
    | Unparsable                        // text that `JSON.parse` rejects

  /**
   * `hasVisited(pageId)`: `visited[pageId] === true`; false whenever `getItem` throws
   * (`readable` is false) or parsing or the property read fails.
   */
  function Visited(readable: bool, blob: Blob, id: string): (v: bool)
    ensures !(readable && blob.Entries?) ==> !v
    ensures v ==> forall writable :: Marked(readable, writable, blob, id) == blob
  {
    readable && blob.Entries? && id in blob.entries && blob.entries[id] == TrueValue
  }

  /**
   * What is stored after `markVisited(pageId)`: the object with `pageId` set to `true`.
   * When `getItem` throws, the text is not an object (`null`, or a primitive in strict
   * mode), it does not parse, or `setItem` throws (`writable` is false), the store keeps
   * what it had.
   */
  function Marked(readable: bool, writable: bool, blob: Blob, id: string): Blob {
    if !readable || !writable then blob
    else match blob
      case Absent => Entries(map[id := TrueValue])
      case Entries(m) => Entries(m[id := TrueValue])
      case NonObject => blob
      case Unparsable => blob
  }

  /** Whether `markVisited` can write at all: the store can be read and written and holds an object or nothing. */
  predicate CanMark(readable: bool, writable: bool, blob: Blob) {
    readable && writable && (blob.Absent? || blob.Entries?)
  }

  /** After a mark that goes through, the page counts as visited. */
  lemma MarkThenVisited(readable: bool, writable: bool, blob: Blob, id: string)
    requires CanMark(readable, writable, blob)
    ensures Visited(readable, Marked(readable, writable, blob, id), id)
  {
  }

  /** A mark that cannot go through leaves the stored value exactly as it was. */
  lemma MarkFailsQuietly(readable: bool, writable: bool, blob: Blob, id: string)
    requires !CanMark(readable, writable, blob)
    ensures Marked(readable, writable, blob, id) == blob
  {
  }

  /** Marking one page changes no other page's entry. */
  lemma MarkKeepsOthers(readable: bool, writable: bool, blob: Blob, id: string, other: string)
    requires other != id
    ensures Visited(readable, Marked(readable, writable, blob, id), other) == Visited(readable, blob, other)
    ensures blob.Entries? && other in blob.entries ==>
      var after := Marked(readable, writable, blob, id);
      after.Entries? && other in after.entries && after.entries[other] == blob.entries[other]
  {
  }

  /** Marking twice stores what marking once stores. */
  lemma MarkIdempotent(readable: bool, writable: bool, blob: Blob, id: string)
    ensures var once := Marked(readable, writable, blob, id);
      Marked(readable, writable, once, id) == once
  {
  }

  /** `window.localStorage` as far as the visit memory uses it. */
  class Storage {
    /** `getItem` does not throw. */
    const readable: bool
    /** `setItem` does not throw (no quota or privacy error). */
    const writable: bool
    /** The parsed value stored under `agent_typed_pages`. */
    var blob: Blob

    constructor(readable: bool, writable: bool, blob: Blob)
      ensures this.readable == readable && this.writable == writable && this.blob == blob
    {
      this.readable := readable;
      this.writable := writable;
      this.blob := blob;
    }

    /** `markVisited(pageId)`: a read-modify-write of the stored object that never throws. */
    method MarkVisited(id: string)
      modifies this
      ensures blob == Marked(readable, writable, old(blob), id)
      ensures CanMark(readable, writable, old(blob)) ==> Visited(readable, blob, id)
      ensures forall other :: other != id ==> Visited(readable, blob, other) == Visited(readable, old(blob), other)
    {
      if !readable {
        return;
      }
      var visited := if blob.Absent? then Entries(map[]) else blob;
      if visited.Entries? && writable {
        blob := Entries(visited.entries[id := TrueValue]);
      }
    }
  }
}
