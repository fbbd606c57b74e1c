/**
 * A `std::istream` as the protocol code sees it: the characters still to be
 * read and whether the stream is still good (no failed read so far).
 */
module Streams {

  datatype Stream = Stream(good: bool, chars: seq<char>)

  /** The state a stream is left in once a read has run past its end. */
  const Exhausted: Stream := Stream(false, [])
}
