/** Shared vocabulary: optional values, bytes, payloads and numbered data packets. */
module Basics {

  datatype Option<+T> = None | Some(value: T)

  type Byte = b: nat | b < 256

  type Payload = seq<Byte>

  /** A data packet as the sequencing layers see it: the number given by the
      inorder module and the payload carried behind the header. */
  datatype Segment = Segment(num: nat, payload: Payload)

  const U32_MAX: nat := 0xFFFF_FFFF
  const U64_MAX: nat := 0xFFFF_FFFF_FFFF_FFFF

  function Max(a: nat, b: nat): nat {
    if a < b then b else a
  }

  /** The payloads that reach the application: empty ones never enter the input queue. */
  function NonEmpty(ps: seq<Payload>): seq<Payload> {
    if ps == [] then []
    else if ps[|ps| - 1] == [] then NonEmpty(ps[..|ps| - 1])
    else NonEmpty(ps[..|ps| - 1]) + [ps[|ps| - 1]]
  }
}
