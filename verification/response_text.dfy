/**
 * The two response lines as the server writes them and the client reads
 * them, without their CR LF: the result line and the image data line.
 * Every field after the first is written after one space.
 */
module ResponseText {
  import opened Lexical

  const Quote: char := '"'

  /** `result:<code> message:"<text>"`. */
  function ResultText(code: int, message: seq<char>): seq<char>
  {
    "result:" + IntText(code) + Spaced("message:") + [Quote] + message + [Quote]
  }

  /** `width:<int> height:<int> size:<int> data:<symbols>`. */
  function ImageText(width: int, height: int, size: int, data: seq<char>): seq<char>
  {
    "width:" + (IntText(width) + (Spaced("height:") + (IntText(height) + (Spaced("size:") + (IntText(size) + (Spaced("data:") + data))))))
  }
}
