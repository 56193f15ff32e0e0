/**
 The BGP elements the analyses consume.

 The record source (pybgpstream) yields records, each holding a time and a
 list of elements. Every analysis only reads an element's fields together
 with its record's time, so a capture file is modelled as the flattened
 sequence of its elements, each carrying the time of its record.
 */
module Elements {

  /** A field that may be missing from an element's field dictionary. */
  datatype Option<T> = None | Some(value: T)

  /** The element types pybgpstream reports: 'R', 'A', 'W' and 'S'. */
  datatype ElemType = RibEntry | Announcement | Withdrawal | PeerState

  /**
   One BGP element.
   - `time`: the time of the enclosing record;
   - `prefix`: the 'prefix' field, `None` when the field dictionary lacks it;
   - `asPath`: the raw 'as-path' field (a whitespace-separated string), `None` when absent;
   - `peer`: the peer address the element was observed from;
   - `communities`: the 'communities' field, empty when absent.
   */
  datatype Elem = Elem(
    time: int,
    kind: ElemType,
    prefix: Option<string>,
    asPath: Option<string>,
    peer: string,
    communities: seq<string>
  )

  /** One capture file: its elements in the order the record source yields them. */
  type File = seq<Elem>
}
