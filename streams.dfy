/**
 * The receiving side of a socket (or a file being read) as the app's loops see it:
 * the bytes still to arrive, how many bytes each read call happens to deliver, and
 * how the stream ends once those bytes are used up.
 */
module Streams {
  import opened Wire

  /** What a read call meets once every pending byte has been consumed. */
  datatype Ending =
    | PeerClosed     // orderly end of stream: read returns -1
    | Reset          // the connection breaks: read throws an IOException
    | ClosedLocally  // this side's close() unblocks the read: it throws, and isRunning is already false

  /**
   * `pending`: the bytes the peer has sent and that have not been read yet.
   * `grants`: how many bytes the next read calls deliver at most (a short read);
   * 0 or an exhausted list means the read fills what it asked for when it can.
   */
  datatype Stream = Stream(pending: Bytes, grants: seq<nat>, ending: Ending)

  datatype ReadResult = Got(bytes: Bytes) | EndOfStream | Failed(local: bool)

  datatype ReadStep = ReadStep(result: ReadResult, rest: Stream)

  /** The result a read meets at the end of the stream. */
  function AtEnd(e: Ending): ReadResult
  {
    if e == PeerClosed then EndOfStream else Failed(e == ClosedLocally)
  }

  /**
   * InputStream.read(buffer, off, n): returns 0 bytes when n is 0, at least one and at
   * most n bytes while bytes are pending, and -1 or an exception at the end.
   */
  function Read(s: Stream, n: nat): (r: ReadStep)
    ensures r.rest.ending == s.ending
    ensures n == 0 ==> r == ReadStep(Got([]), s)
    ensures n > 0 && s.pending == [] ==> r == ReadStep(AtEnd(s.ending), s)
    ensures n > 0 && s.pending != [] ==>
      && r.result.Got?
      && 1 <= |r.result.bytes| <= n && |r.result.bytes| <= |s.pending|
      && r.result.bytes == s.pending[..|r.result.bytes|]
      && r.rest.pending == s.pending[|r.result.bytes|..]
  {
    if n == 0 then ReadStep(Got([]), s)
    else if s.pending == [] then ReadStep(AtEnd(s.ending), s)
    else
      var want := if s.grants != [] && 0 < s.grants[0] < n then s.grants[0] else n;
      var k := if want < |s.pending| then want else |s.pending|;
      ReadStep(Got(s.pending[..k]), Stream(s.pending[k..], if s.grants == [] then [] else s.grants[1..], s.ending))
  }

  /** How a sequence of reads that wanted a fixed number of bytes ended. */
  datatype FillEnd = Complete | ShortAtEnd | Broke(local: bool)

  datatype Fill = Fill(got: Bytes, rest: Stream, end: FillEnd)

  function Min(a: int, b: int): int { if a < b then a else b }

  /** The number of bytes a read loop for `remaining` bytes wants: none when remaining <= 0. */
  function Wanted(remaining: int): nat { if remaining > 0 then remaining else 0 }

  /** How a read loop ends when the stream runs out first. */
  function EndOf(e: Ending): FillEnd
  {
    match AtEnd(e)
    case Failed(local) => Broke(local)
    case _ => ShortAtEnd
  }

  /**
   * DataInputStream.readFully for n bytes: it reads until n bytes have arrived, so its
   * result does not depend on how the reads were cut short; when the stream ends
   * first, it has consumed everything that was left and fails (EOFException at the
   * end of the stream, the IOException otherwise). The grants it used are not tracked.
   */
  function ReadFully(s: Stream, n: nat): (f: Fill)
    ensures f.rest.ending == s.ending && f.rest.grants == s.grants
    ensures f.end == Complete <==> n <= |s.pending|
    ensures f.end == Complete ==> |f.got| == n && s.pending == f.got + f.rest.pending
    ensures f.end != Complete ==> f.got == s.pending && f.rest.pending == [] && f.end == EndOf(s.ending)
  {
    if n <= |s.pending| then Fill(s.pending[..n], s.(pending := s.pending[n..]), Complete)
    else Fill(s.pending, s.(pending := []), EndOf(s.ending))
  }
}
