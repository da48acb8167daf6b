/**
 * SendReceiveThread: the session TransferActivity runs over its one socket.
 * A frame is a 4-byte big-endian type tag (Message.TYPE_*), an 8-byte big-endian
 * length and the payload. Text payloads are read whole; image, video and document
 * payloads are streamed into a new file in chunks of at most 8192 bytes.
 */
module SendReceive {
  import opened Wire
  import opened Records
  import opened Streams

  const BUFFER_SIZE: nat := 8192

  datatype ErrorReason = Disconnected | SendFailed

  /** What the session posts to its TransferCallback, in order. */
  datatype Event = Delivered(msg: Message) | TransferError(reason: ErrorReason)

  /** A file written into the app's storage: its absolute path and its contents. */
  datatype SavedFile = SavedFile(path: Bytes, contents: Bytes)

  /** The app's external files directory, and whether a file can be created there. */
  datatype Storage = Storage(dir: Bytes, writable: bool)

  /** What a stretch of the read loop produces: posted events and written files. */
  datatype Outcome = Outcome(events: seq<Event>, files: seq<SavedFile>)

  function Then(events: seq<Event>, files: seq<SavedFile>, o: Outcome): Outcome
  {
    Outcome(events + o.events, files + o.files)
  }

  lemma ThenThen(e1: seq<Event>, f1: seq<SavedFile>, e2: seq<Event>, f2: seq<SavedFile>, o: Outcome)
    ensures Then(e1, f1, Then(e2, f2, o)) == Then(e1 + e2, f1 + f2, o)
  {
    assert e1 + (e2 + o.events) == (e1 + e2) + o.events;
    assert f1 + (f2 + o.files) == (f1 + f2) + o.files;
  }

  lemma ThenNothing(o: Outcome)
    ensures Then([], [], o) == o
  {
  }

  lemma AppendAssoc<T>(a: seq<T>, b: seq<T>, c: seq<T>)
    ensures a + b + c == a + (b + c)
  {
  }

  /** The 12-byte frame header: type tag, then payload length. */
  function Header(tag: int, size: int): (r: Bytes)
    requires IsInt32(tag) && IsInt64(size)
    ensures |r| == 12 && Int32Of(r[..4]) == tag && Int64Of(r[4..12]) == size
  {
    Int32RoundTrip(tag);
    Int64RoundTrip(size);
    var r := Int32Bytes(tag) + Int64Bytes(size);
    SplitAt(Int32Bytes(tag), Int64Bytes(size));
    assert r[4..12] == r[4..];
    r
  }

  /** A whole frame as sendText and sendFile write it. */
  function Frame(tag: int, payload: Bytes): (r: Bytes)
    requires IsInt32(tag) && |payload| < TWO_63
    ensures |r| == 12 + |payload| && r[..12] == Header(tag, |payload|) && r[12..] == payload
  {
    Header(tag, |payload|) + payload
  }

  /** The name prefix and extension receiveFile gives each file type. */
  function NameParts(kind: int): (string, string)
    requires IsFileType(kind)
  {
    if kind == TYPE_IMAGE then ("img", ".jpg")
    else if kind == TYPE_VIDEO then ("vid", ".mp4")
    else ("doc", ".pdf")
  }

  /** "<dir>/<prefix>_<stamp><ext>": the absolute path of a received file. */
  function SavedPath(store: Storage, kind: int, stamp: nat): (path: Bytes)
    requires IsFileType(kind)
    ensures |path| > |store.dir| + 6 && path[..|store.dir|] == store.dir
  {
    var (prefix, ext) := NameParts(kind);
    store.dir + Ascii("/" + prefix + "_") + Ascii(NatText(stamp)) + Ascii(ext)
  }

  /**
   * Files of one type stamped differently get different path strings. Equal stamps give
   * equal paths, so this says nothing about two files received in the same millisecond.
   */
  lemma SavedPathsDistinct(store: Storage, kind: int, m: nat, n: nat)
    requires IsFileType(kind) && m != n
    ensures SavedPath(store, kind, m) != SavedPath(store, kind, n)
  {
    if SavedPath(store, kind, m) == SavedPath(store, kind, n) {
      var (prefix, ext) := NameParts(kind);
      var head := store.dir + Ascii("/" + prefix + "_");
      var a, b := Ascii(NatText(m)), Ascii(NatText(n));
      assert SavedPath(store, kind, m) == head + a + Ascii(ext);
      assert SavedPath(store, kind, n) == head + b + Ascii(ext);
      assert |a| == |b|;
      assert a == SavedPath(store, kind, m)[|head|..|head| + |a|];
      assert b == SavedPath(store, kind, n)[|head|..|head| + |b|];
      AsciiInjective(NatText(m), NatText(n));
      NatTextInjective(m, n);
    }
  }

  lemma AsciiInjective(s: string, t: string)
    requires IsAscii(s) && IsAscii(t) && Ascii(s) == Ascii(t)
    ensures s == t
  {
    assert |s| == |t|;
    forall i | 0 <= i < |s| ensures s[i] == t[i] {
      assert Ascii(s)[i] == Ascii(t)[i];
    }
  }

  /** The events the read loop posts when a read fails or meets the end of the stream. */
  function Failure(e: Ending): seq<Event>
  {
    if e == ClosedLocally then [] else [TransferError(Disconnected)]
  }

  /**
   * What one pass of the read loop does: the events it posts, the files it writes and,
   * when the loop goes on, the bytes left for the next pass.
   */
  datatype StepSpec =
    | Continue(events: seq<Event>, files: seq<SavedFile>, rest: Bytes)
    | Stop(events: seq<Event>, files: seq<SavedFile>)

  /** A text payload of n bytes (the size cut to an Int) after the header. */
  function TextSpec(body: Bytes, n: int, e: Ending): (st: StepSpec)
    ensures st.Continue? ==> |st.rest| <= |body|
  {
    if n < 0 then Stop([], [])
    else if |body| < n then Stop(Failure(e), [])
    else Continue([Delivered(Message(body[..n], true, TYPE_TEXT))], [], body[n..])
  }

  /** A file payload of `size` bytes after the header, saved under stamp `stamp`. */
  function FileSpec(body: Bytes, size: int, kind: int, e: Ending, store: Storage, stamp: nat): (st: StepSpec)
    requires IsFileType(kind)
    ensures st.Continue? ==> |st.rest| <= |body|
  {
    if !store.writable then Stop([], [])
    else
      var path := SavedPath(store, kind, stamp);
      if Wanted(size) <= |body| then
        Continue([Delivered(Message(path, true, kind))], [SavedFile(path, body[..Wanted(size)])], body[Wanted(size)..])
      else if e == PeerClosed then
        Continue([Delivered(Message(path, true, kind))], [SavedFile(path, body)], [])
      else
        Stop([], [SavedFile(path, body)])
  }

  /** One frame: the 12-byte header, then the payload its tag calls for. */
  function FrameSpec(pending: Bytes, e: Ending, store: Storage, stamp: nat): (st: StepSpec)
    ensures st.Continue? ==> |st.rest| < |pending|
  {
    if |pending| < 12 then Stop(Failure(e), [])
    else
      var tag := Int32Of(pending[..4]);
      var size := Int64Of(pending[4..12]);
      if tag == TYPE_TEXT then TextSpec(pending[12..], LongToInt(size), e)
      else if IsFileType(tag) then FileSpec(pending[12..], size, tag, e, store, stamp)
      else Continue([], [], pending[12..])
  }

  /**
   * What the read loop of `run` does with the bytes the peer sends before the stream
   * ends with `e`: the events it posts and the files it writes, the next file being
   * stamped `stamp`. Short reads change nothing here, so they do not appear.
   */
  function RunSpec(pending: Bytes, e: Ending, store: Storage, stamp: nat): Outcome
    decreases |pending|, 1
  {
    RunAfter(FrameSpec(pending, e, store, stamp), |pending|, e, store, stamp)
  }

  /** What the loop does after a frame that `st` describes, within `bound` unread bytes. */
  function RunAfter(st: StepSpec, bound: nat, e: Ending, store: Storage, stamp: nat): Outcome
    requires st.Continue? ==> |st.rest| < bound
    decreases bound, 0
  {
    match st
    case Continue(events, files, rest) => Then(events, files, RunSpec(rest, e, store, stamp + |files|))
    case Stop(events, files) => Outcome(events, files)
  }

  /** The header names the payload's type and length, whatever follows it. */
  lemma FrameOfHeader(tag: int, size: int, body: Bytes, e: Ending, store: Storage, stamp: nat)
    requires IsInt32(tag) && IsInt64(size)
    ensures FrameSpec(Header(tag, size) + body, e, store, stamp) ==
      if tag == TYPE_TEXT then TextSpec(body, LongToInt(size), e)
      else if IsFileType(tag) then FileSpec(body, size, tag, e, store, stamp)
      else Continue([], [], body)
  {
    var p := Header(tag, size) + body;
    assert p[..4] == Header(tag, size)[..4];
    assert p[4..12] == Header(tag, size)[4..12];
    assert p[12..] == body;
  }

  /** A frame after which the loop goes on: what it posts and writes, then the rest. */
  lemma RunSpecContinue(p: Bytes, e: Ending, store: Storage, stamp: nat,
                        events: seq<Event>, files: seq<SavedFile>, rest: Bytes, next: nat)
    requires FrameSpec(p, e, store, stamp) == Continue(events, files, rest)
    requires next == stamp + |files|
    ensures RunSpec(p, e, store, stamp) == Then(events, files, RunSpec(rest, e, store, next))
  {
    var o := RunAfter(Continue(events, files, rest), |p|, e, store, stamp);
    assert o == Then(events, files, RunSpec(rest, e, store, next));
    assert RunSpec(p, e, store, stamp) == o;
  }

  /** A frame that ends the loop: what it posts and writes is all that is left. */
  lemma RunSpecStop(p: Bytes, e: Ending, store: Storage, stamp: nat, events: seq<Event>, files: seq<SavedFile>)
    requires FrameSpec(p, e, store, stamp) == Stop(events, files)
    ensures RunSpec(p, e, store, stamp) == Outcome(events, files)
  {
    assert RunSpec(p, e, store, stamp) == RunAfter(Stop(events, files), |p|, e, store, stamp);
  }

  /** A frame after which the loop goes on moves its events and files from what is left to what is done. */
  lemma RunAdvance(total: Outcome, posted: seq<Event>, written: seq<SavedFile>, p: Bytes, e: Ending,
                   store: Storage, stamp: nat, events: seq<Event>, files: seq<SavedFile>, rest: Bytes, next: nat)
    requires total == Then(posted, written, RunSpec(p, e, store, stamp))
    requires FrameSpec(p, e, store, stamp) == Continue(events, files, rest)
    requires next == stamp + |files|
    ensures total == Then(posted + events, written + files, RunSpec(rest, e, store, next))
  {
    RunSpecContinue(p, e, store, stamp, events, files, rest, next);
    ThenThen(posted, written, events, files, RunSpec(rest, e, store, next));
  }

  /** A frame that ends the loop completes what is done. */
  lemma RunFinish(total: Outcome, posted: seq<Event>, written: seq<SavedFile>, p: Bytes, e: Ending,
                  store: Storage, stamp: nat, events: seq<Event>, files: seq<SavedFile>)
    requires total == Then(posted, written, RunSpec(p, e, store, stamp))
    requires FrameSpec(p, e, store, stamp) == Stop(events, files)
    ensures total == Outcome(posted + events, written + files)
  {
    RunSpecStop(p, e, store, stamp, events, files);
  }

  function Flatten(chunks: seq<Bytes>): Bytes
  {
    if chunks == [] then [] else chunks[0] + Flatten(chunks[1..])
  }

  lemma {:induction false} FlattenAppend(chunks: seq<Bytes>, b: Bytes)
    ensures Flatten(chunks + [b]) == Flatten(chunks) + b
  {
    if chunks != [] {
      assert (chunks + [b])[1..] == chunks[1..] + [b];
      FlattenAppend(chunks[1..], b);
    }
  }

  /** The chunks sendFile's loop reads from a file and writes to the socket. */
  function Chunks(file: Stream, size: nat): (cs: seq<Bytes>)
    requires size > 0
    ensures file.ending == PeerClosed ==> Flatten(cs) == file.pending
    ensures forall i :: 0 <= i < |cs| ==> 1 <= |cs[i]| <= size
    decreases |file.pending|
  {
    var r := Read(file, size);
    match r.result
    case Got(b) =>
      assert file.pending == b + r.rest.pending;
      [b] + Chunks(r.rest, size)
    case _ => []
  }

  /**
   * The copy loop of both sendFile methods: read up to `size` bytes at a time until read
   * returns -1, writing each chunk as it arrives. Whatever the short reads, the whole file is copied.
   */
  method CopyChunks(file: Stream, size: nat) returns (chunks: seq<Bytes>, copied: Bytes)
    requires file.ending == PeerClosed && size > 0
    ensures chunks == Chunks(file, size)
    ensures copied == file.pending
  {
    chunks, copied := [], [];
    var rest := file;
    var done := false;
    while !done
      invariant rest.ending == PeerClosed
      invariant !done ==> Chunks(file, size) == chunks + Chunks(rest, size)
      invariant done ==> Chunks(file, size) == chunks
      invariant copied == Flatten(chunks)
      decreases |rest.pending|, if done then 0 else 1
    {
      var r := Read(rest, size);
      if r.result.Got? {
        var b := r.result.bytes;
        assert Chunks(rest, size) == [b] + Chunks(r.rest, size);
        AppendAssoc(chunks, [b], Chunks(r.rest, size));
        FlattenAppend(chunks, b);
        copied := copied + b;
        chunks := chunks + [b];
      } else {
        assert Chunks(rest, size) == [];
        done := true;
      }
      rest := r.rest;
    }
  }

  /** The chunk sizes of a file of n bytes when every read fills the buffer. */
  function FullChunkSizes(n: nat, size: nat): seq<nat>
    requires size > 0
    decreases n
  {
    if n == 0 then [] else if n <= size then [n] else [size] + FullChunkSizes(n - size, size)
  }

  function Sizes(cs: seq<Bytes>): (ns: seq<nat>)
    ensures |ns| == |cs| && forall i :: 0 <= i < |cs| ==> ns[i] == |cs[i]|
  {
    if cs == [] then [] else [|cs[0]|] + Sizes(cs[1..])
  }

  lemma SizesCons(b: Bytes, cs: seq<Bytes>)
    ensures Sizes([b] + cs) == [|b|] + Sizes(cs)
  {
    assert ([b] + cs)[1..] == cs;
  }

  lemma FullChunkSizesCons(n: nat, size: nat)
    requires size > 0 && n > 0
    ensures FullChunkSizes(n, size) == [Min(size, n)] + FullChunkSizes(n - Min(size, n), size)
  {
    if n <= size {
      assert FullChunkSizes(0, size) == [];
    }
  }

  /** A first chunk that fills the buffer, then chunks that do, are chunks that fill it. */
  lemma SizesOfFullChunks(cs: seq<Bytes>, b: Bytes, rest: seq<Bytes>, n: nat, size: nat)
    requires size > 0 && n > 0 && |b| == Min(size, n)
    requires cs == [b] + rest && Sizes(rest) == FullChunkSizes(n - |b|, size)
    ensures Sizes(cs) == FullChunkSizes(n, size)
  {
    SizesCons(b, rest);
    FullChunkSizesCons(n, size);
  }

  /** With no grants, a read takes the whole buffer's worth, or all that is left. */
  lemma ChunksFullRead(contents: Bytes, size: nat)
    requires size > 0 && contents != []
    ensures var k := Min(size, |contents|);
      Chunks(Stream(contents, [], PeerClosed), size) == [contents[..k]] + Chunks(Stream(contents[k..], [], PeerClosed), size)
  {
    var k := Min(size, |contents|);
    assert Read(Stream(contents, [], PeerClosed), size) == ReadStep(Got(contents[..k]), Stream(contents[k..], [], PeerClosed));
  }

  /** When no read is short, every chunk but the last fills the whole buffer. */
  lemma {:induction false} ChunksWhenReadsFill(contents: Bytes, size: nat)
    requires size > 0
    ensures Sizes(Chunks(Stream(contents, [], PeerClosed), size)) == FullChunkSizes(|contents|, size)
    decreases |contents|
  {
    if contents == [] {
      assert Chunks(Stream(contents, [], PeerClosed), size) == [];
    } else {
      var k := Min(size, |contents|);
      var tail := contents[k..];
      ChunksFullRead(contents, size);
      ChunksWhenReadsFill(tail, size);
      SizesOfFullChunks(Chunks(Stream(contents, [], PeerClosed), size), contents[..k],
                        Chunks(Stream(tail, [], PeerClosed), size), |contents|, size);
    }
  }

  /** A 20000-byte file goes out as 8192, 8192 and 3616 bytes. */
  lemma TwentyThousandBytes(contents: Bytes)
    requires |contents| == 20000
    ensures Sizes(Chunks(Stream(contents, [], PeerClosed), BUFFER_SIZE)) == [8192, 8192, 3616]
  {
    ChunksWhenReadsFill(contents, BUFFER_SIZE);
    assert FullChunkSizes(20000 - 8192 - 8192, 8192) == [3616];
  }

  class SendReceiveThread {
    const store: Storage
    /** Whether the socket's output side accepts writes. */
    const outputHealthy: bool

    var input: Stream
    var isRunning: bool
    var socketClosed: bool
    /** Whether run has opened the data streams (outputStream is null before that). */
    var streamsOpen: bool
    var events: seq<Event>
    var files: seq<SavedFile>
    /** The bytes written to the socket, in order. */
    var outbound: Bytes

    /** close() is the only place that clears isRunning, and it closes the socket. */
    ghost predicate Valid()
      reads this
    {
      isRunning == !socketClosed
    }

    constructor (input: Stream, store: Storage, outputHealthy: bool)
      ensures Valid() && isRunning && !streamsOpen
      ensures this.input == input && this.store == store && this.outputHealthy == outputHealthy
      ensures events == [] && files == [] && outbound == []
    {
      this.input := input;
      this.store := store;
      this.outputHealthy := outputHealthy;
      isRunning := true;
      socketClosed := false;
      streamsOpen := false;
      events := [];
      files := [];
      outbound := [];
    }

    /** close(): clears isRunning and closes the socket; errors from closing are swallowed. */
    method Close()
      modifies this
      ensures Valid() && !isRunning && socketClosed
      ensures input == old(input) && streamsOpen == old(streamsOpen)
      ensures events == old(events) && files == old(files) && outbound == old(outbound)
    {
      isRunning := false;
      socketClosed := true;
    }

    /** The state after a pass of the read loop that `st` describes. */
    ghost predicate Took(st: StepSpec, events0: seq<Event>, files0: seq<SavedFile>)
      reads this
    {
      && events == events0 + st.events
      && files == files0 + st.files
      && isRunning == st.Continue?
      && (st.Continue? ==> input.pending == st.rest)
    }

    /** The catch and finally of run after a read met the end of the stream. */
    method Abort(end: FillEnd)
      requires Valid() && isRunning && end == EndOf(input.ending)
      modifies this
      ensures Valid() && !isRunning
      ensures events == old(events) + Failure(input.ending)
      ensures input == old(input) && streamsOpen == old(streamsOpen)
      ensures files == old(files) && outbound == old(outbound)
    {
      if end == Broke(true) {
        Close();  // the close() that unblocked the read, run on another thread
      }
      if isRunning {
        events := events + [TransferError(Disconnected)];
      }
      Close();
    }

    /** The TEXT branch of run: a buffer of size.toInt() bytes, filled by readFully. */
    method ReadText(size: int)
      requires Valid() && isRunning
      modifies this
      ensures Valid() && streamsOpen == old(streamsOpen) && outbound == old(outbound)
      ensures input.ending == old(input.ending)
      ensures Took(TextSpec(old(input.pending), LongToInt(size), input.ending), old(events), old(files))
    {
      var n := LongToInt(size);
      if n < 0 {
        Close();  // ByteArray(n) throws NegativeArraySizeException: it escapes run; finally closes
        return;
      }
      var body := ReadFully(input, n);
      input := body.rest;
      if body.end != Complete {
        Abort(body.end);
        return;
      }
      events := events + [Delivered(Message(body.got, true, TYPE_TEXT))];
    }

    /** receiveFile: stream `size` bytes into a new file, 8192 bytes at most per read. */
    method ReceiveFile(size: int, kind: int)
      requires Valid() && isRunning && IsFileType(kind)
      modifies this
      ensures Valid() && streamsOpen == old(streamsOpen) && outbound == old(outbound)
      ensures input.ending == old(input.ending)
      ensures Took(FileSpec(old(input.pending), size, kind, input.ending, store, |old(files)|), old(events), old(files))
    {
      if !store.writable {
        Close();  // the file cannot be created: the catch closes the session
        return;
      }
      var path := SavedPath(store, kind, |files|);
      var written: Bytes := [];
      var remaining := size;
      var end := Complete;
      while remaining > 0 && end == Complete
        invariant Valid() && isRunning && input.ending == old(input.ending)
        invariant events == old(events) && files == old(files)
        invariant streamsOpen == old(streamsOpen) && outbound == old(outbound)
        invariant remaining == size - |written|
        invariant size > 0 ==> 0 <= remaining
        invariant old(input.pending) == written + input.pending
        invariant size <= 0 ==> written == []
        invariant end != Complete ==> remaining > 0 && input.pending == [] && end == EndOf(input.ending)
        decreases remaining, if end == Complete then 1 else 0
      {
        var r := Read(input, Min(BUFFER_SIZE, remaining));
        input := r.rest;
        match r.result {
          case Got(b) =>
            written := written + b;
            remaining := remaining - |b|;
          case EndOfStream =>
            end := ShortAtEnd;
          case Failed(local) =>
            end := Broke(local);
        }
      }
      ghost var p := old(input.pending);
      if end == Complete {
        assert |written| == Wanted(size);
        assert written == p[..Wanted(size)] && input.pending == p[Wanted(size)..];
      } else {
        assert written == p && |p| < Wanted(size);
        assert end.Broke? <==> input.ending != PeerClosed;
      }
      files := files + [SavedFile(path, written)];
      if end.Broke? {
        Close();  // the catch: printStackTrace, then close()
      } else {
        events := events + [Delivered(Message(path, true, kind))];
      }
    }

    /** readInt then readLong: the type and the size of the next frame. */
    method ReadHeader() returns (ok: bool, tag: int, size: int)
      requires Valid() && isRunning
      modifies this
      ensures Valid() && streamsOpen == old(streamsOpen) && outbound == old(outbound)
      ensures input.ending == old(input.ending) && files == old(files)
      ensures ok == (|old(input.pending)| >= 12) && isRunning == ok
      ensures ok ==>
        && tag == Int32Of(old(input.pending)[..4]) && size == Int64Of(old(input.pending)[4..12])
        && input.pending == old(input.pending)[12..] && events == old(events)
      ensures !ok ==> events == old(events) + Failure(input.ending)
    {
      ghost var p := input.pending;
      tag, size := 0, 0;
      var tagRead := ReadFully(input, 4);
      input := tagRead.rest;
      if tagRead.end != Complete {
        Abort(tagRead.end);
        return false, tag, size;
      }
      var sizeRead := ReadFully(input, 8);
      input := sizeRead.rest;
      if sizeRead.end != Complete {
        Abort(sizeRead.end);
        return false, tag, size;
      }
      assert p[..4] == tagRead.got;
      assert p[4..12] == sizeRead.got;
      assert input.pending == p[12..];
      return true, Int32Of(tagRead.got), Int64Of(sizeRead.got);
    }

    /** One pass of run's loop: read the type and the size, then dispatch on the type. */
    method ReadFrame()
      requires Valid() && isRunning
      modifies this
      ensures Valid() && streamsOpen == old(streamsOpen) && outbound == old(outbound)
      ensures input.ending == old(input.ending)
      ensures Took(FrameSpec(old(input.pending), input.ending, store, |old(files)|), old(events), old(files))
    {
      ghost var p := input.pending;
      var ok, tag, size := ReadHeader();
      if !ok {
        return;
      }
      ghost var body := input.pending;
      if tag == TYPE_TEXT {
        ReadText(size);
        assert Took(TextSpec(body, LongToInt(size), input.ending), old(events), old(files));
      } else if IsFileType(tag) {
        ReceiveFile(size, tag);
        assert Took(FileSpec(body, size, tag, input.ending, store, |old(files)|), old(events), old(files));
      } else {
        assert Took(Continue([], [], body), old(events), old(files));
      }
    }

    /** run(): read frames while the session is running and the socket is open. */
    method Run()
      requires Valid() && !streamsOpen
      modifies this
      ensures Valid() && !isRunning && streamsOpen == old(isRunning)
      ensures outbound == old(outbound) && input.ending == old(input.ending)
      ensures !old(isRunning) ==> events == old(events) && files == old(files)
      ensures old(isRunning) ==>
        var o := RunSpec(old(input.pending), old(input.ending), store, |old(files)|);
        events == old(events) + o.events && files == old(files) + o.files
    {
      if !isRunning {
        Close();  // the streams of a closed socket cannot be opened; the catch sees isRunning false
        return;
      }
      streamsOpen := true;
      ghost var e := input.ending;
      ghost var total := RunSpec(input.pending, e, store, |files|);
      ghost var posted: seq<Event>, written: seq<SavedFile> := [], [];
      ThenNothing(total);
      while isRunning && !socketClosed
        invariant Valid() && streamsOpen && outbound == old(outbound) && input.ending == e
        invariant events == old(events) + posted && files == old(files) + written
        invariant isRunning ==> total == Then(posted, written, RunSpec(input.pending, e, store, |files|))
        invariant !isRunning ==> total == Outcome(posted, written)
        decreases if isRunning then |input.pending| + 1 else 0
      {
        ghost var p1, stamp := input.pending, |files|;
        ghost var st := FrameSpec(p1, e, store, stamp);
        ReadFrame();
        assert events == old(events) + (posted + st.events) && files == old(files) + (written + st.files) by {
          AppendAssoc(old(events), posted, st.events);
          AppendAssoc(old(files), written, st.files);
        }
        if isRunning {
          RunAdvance(total, posted, written, p1, e, store, stamp, st.events, st.files, input.pending, |files|);
        } else {
          RunFinish(total, posted, written, p1, e, store, stamp, st.events, st.files);
        }
        posted, written := posted + st.events, written + st.files;
      }
      Close();  // finally
    }

    /** Whether a write reaches the peer: the streams are open and the socket is usable. */
    predicate CanSend()
      reads this
    {
      streamsOpen && !socketClosed && outputHealthy
    }

    /** sendText: one text frame, or "Send Failed" when the write cannot happen. */
    method SendText(text: Bytes)
      requires Valid() && |text| < TWO_31
      modifies this
      ensures Valid() && isRunning == old(isRunning) && socketClosed == old(socketClosed)
      ensures input == old(input) && files == old(files) && streamsOpen == old(streamsOpen)
      ensures old(CanSend()) ==> outbound == old(outbound) + Frame(TYPE_TEXT, text) && events == old(events)
      ensures !old(CanSend()) ==> outbound == old(outbound) && events == old(events) + [TransferError(SendFailed)]
    {
      if CanSend() {
        outbound := outbound + Frame(TYPE_TEXT, text);
      } else {
        events := events + [TransferError(SendFailed)];
      }
    }

    /**
     * sendFile: the type and the file's length, then the file in chunks of at most
     * 8192 bytes. `contents` is None when the file cannot be opened; `grants` are the
     * file reads' short-read sizes.
     */
    method SendFile(contents: Option<Bytes>, grants: seq<nat>, kind: int) returns (chunks: seq<Bytes>)
      requires Valid() && IsInt32(kind)
      requires contents.Some? ==> |contents.value| < TWO_63
      modifies this
      ensures Valid() && isRunning == old(isRunning) && socketClosed == old(socketClosed)
      ensures input == old(input) && files == old(files) && streamsOpen == old(streamsOpen)
      ensures contents.Some? && old(CanSend()) ==>
        && outbound == old(outbound) + Frame(kind, contents.value)
        && events == old(events)
        && chunks == Chunks(Stream(contents.value, grants, PeerClosed), BUFFER_SIZE)
      ensures !(contents.Some? && old(CanSend())) ==>
        outbound == old(outbound) && events == old(events) + [TransferError(SendFailed)] && chunks == []
    {
      chunks := [];
      if contents.None? || !CanSend() {
        events := events + [TransferError(SendFailed)];
        return;
      }
      var copied;
      chunks, copied := CopyChunks(Stream(contents.value, grants, PeerClosed), BUFFER_SIZE);
      var frame := Header(kind, |contents.value|) + copied;
      outbound := outbound + frame;
    }
  }

  /** A frame followed by more bytes is its header followed by the payload and those bytes. */
  lemma FrameThen(tag: int, payload: Bytes, rest: Bytes)
    requires IsInt32(tag) && |payload| < TWO_63
    ensures Frame(tag, payload) + rest == Header(tag, |payload|) + (payload + rest)
  {
  }

  lemma SplitAt(a: Bytes, b: Bytes)
    ensures (a + b)[..|a|] == a && (a + b)[|a|..] == b
  {
  }

  /** The frame step for a whole text frame: the text, then the bytes after it. */
  lemma TextFrameStep(text: Bytes, rest: Bytes, e: Ending, store: Storage, stamp: nat)
    requires |text| < TWO_31
    ensures FrameSpec(Frame(TYPE_TEXT, text) + rest, e, store, stamp) ==
      Continue([Delivered(Message(text, true, TYPE_TEXT))], [], rest)
  {
    FrameThen(TYPE_TEXT, text, rest);
    FrameOfHeader(TYPE_TEXT, |text|, text + rest, e, store, stamp);
    SplitAt(text, rest);
  }

  /** A text frame on the wire is delivered as the same bytes, and reading goes on after it. */
  lemma TextFrameDelivered(text: Bytes, rest: Bytes, e: Ending, store: Storage, stamp: nat)
    requires |text| < TWO_31
    ensures RunSpec(Frame(TYPE_TEXT, text) + rest, e, store, stamp) ==
      Then([Delivered(Message(text, true, TYPE_TEXT))], [], RunSpec(rest, e, store, stamp))
  {
    TextFrameStep(text, rest, e, store, stamp);
    RunSpecContinue(Frame(TYPE_TEXT, text) + rest, e, store, stamp,
                    [Delivered(Message(text, true, TYPE_TEXT))], [], rest, stamp);
  }

  /** The frame step for a whole file frame: one saved file, then the bytes after it. */
  lemma FileFrameStep(kind: int, contents: Bytes, rest: Bytes, e: Ending, store: Storage, stamp: nat)
    requires IsFileType(kind) && store.writable && |contents| < TWO_63
    ensures var path := SavedPath(store, kind, stamp);
      FrameSpec(Frame(kind, contents) + rest, e, store, stamp) ==
      Continue([Delivered(Message(path, true, kind))], [SavedFile(path, contents)], rest)
  {
    FrameThen(kind, contents, rest);
    FrameOfHeader(kind, |contents|, contents + rest, e, store, stamp);
    SplitAt(contents, rest);
  }

  /** A complete file frame becomes one saved file with exactly the sent bytes. */
  lemma FileFrameDelivered(kind: int, contents: Bytes, rest: Bytes, e: Ending, store: Storage, stamp: nat)
    requires IsFileType(kind) && store.writable && |contents| < TWO_63
    ensures var path := SavedPath(store, kind, stamp);
      RunSpec(Frame(kind, contents) + rest, e, store, stamp) ==
      Then([Delivered(Message(path, true, kind))], [SavedFile(path, contents)], RunSpec(rest, e, store, stamp + 1))
  {
    var path := SavedPath(store, kind, stamp);
    FileFrameStep(kind, contents, rest, e, store, stamp);
    RunSpecContinue(Frame(kind, contents) + rest, e, store, stamp,
                    [Delivered(Message(path, true, kind))], [SavedFile(path, contents)], rest, stamp + 1);
  }

  /** A header with an unknown tag is dropped alone; reading resumes right after it. */
  lemma UnknownTagSkipsHeader(tag: int, size: int, rest: Bytes, e: Ending, store: Storage, stamp: nat)
    requires IsInt32(tag) && IsInt64(size) && tag != TYPE_TEXT && !IsFileType(tag)
    ensures RunSpec(Header(tag, size) + rest, e, store, stamp) == RunSpec(rest, e, store, stamp)
  {
    FrameOfHeader(tag, size, rest, e, store, stamp);
    RunSpecContinue(Header(tag, size) + rest, e, store, stamp, [], [], rest, stamp);
    ThenNothing(RunSpec(rest, e, store, stamp));
  }

  /**
   * When the peer closes after part of a file, the part is kept as the file, the file
   * is still reported, and then the session reports the disconnect.
   */
  lemma PartialFileKept(kind: int, size: int, body: Bytes, store: Storage, stamp: nat)
    requires IsFileType(kind) && store.writable && IsInt64(size) && |body| < size
    ensures var path := SavedPath(store, kind, stamp);
      RunSpec(Header(kind, size) + body, PeerClosed, store, stamp) ==
      Outcome([Delivered(Message(path, true, kind)), TransferError(Disconnected)], [SavedFile(path, body)])
  {
    var path := SavedPath(store, kind, stamp);
    FrameOfHeader(kind, size, body, PeerClosed, store, stamp);
    RunSpecContinue(Header(kind, size) + body, PeerClosed, store, stamp,
                    [Delivered(Message(path, true, kind))], [SavedFile(path, body)], [], stamp + 1);
    RunSpecStop([], PeerClosed, store, stamp + 1, [TransferError(Disconnected)], []);
  }

  /**
   * When the stream breaks in the middle of a file, the part is kept but the file is
   * not reported, and no error is posted: receiveFile's own catch closes the session.
   */
  lemma BrokenFileKeptSilently(kind: int, size: int, body: Bytes, e: Ending, store: Storage, stamp: nat)
    requires IsFileType(kind) && store.writable && IsInt64(size) && |body| < size && e != PeerClosed
    ensures RunSpec(Header(kind, size) + body, e, store, stamp) ==
      Outcome([], [SavedFile(SavedPath(store, kind, stamp), body)])
  {
    FrameOfHeader(kind, size, body, e, store, stamp);
    RunSpecStop(Header(kind, size) + body, e, store, stamp, [], [SavedFile(SavedPath(store, kind, stamp), body)]);
  }

  /** A text frame whose length reads as a negative Int ends the session without a word. */
  lemma NegativeTextLengthEndsSilently(size: int, rest: Bytes, e: Ending, store: Storage, stamp: nat)
    requires IsInt64(size) && LongToInt(size) < 0
    ensures RunSpec(Header(TYPE_TEXT, size) + rest, e, store, stamp) == Outcome([], [])
  {
    FrameOfHeader(TYPE_TEXT, size, rest, e, store, stamp);
    RunSpecStop(Header(TYPE_TEXT, size) + rest, e, store, stamp, [], []);
  }

  /** What the application hands to sendText or sendFile. */
  datatype Outgoing = OutText(text: Bytes) | OutFile(kind: int, contents: Bytes)

  predicate Sendable(m: Outgoing)
  {
    match m
    case OutText(t) => |t| < TWO_31
    case OutFile(k, c) => IsFileType(k) && |c| < TWO_63
  }

  function Encode(m: Outgoing): Bytes
    requires Sendable(m)
  {
    match m
    case OutText(t) => Frame(TYPE_TEXT, t)
    case OutFile(k, c) => Frame(k, c)
  }

  /** The wire bytes of a series of sends, each frame whole (the write lock keeps them apart). */
  function EncodeAll(ms: seq<Outgoing>): Bytes
    requires forall i :: 0 <= i < |ms| ==> Sendable(ms[i])
  {
    if ms == [] then [] else Encode(ms[0]) + EncodeAll(ms[1..])
  }

  /** What the receiving session should post and write for a series of sends. */
  function Expected(ms: seq<Outgoing>, store: Storage, stamp: nat): Outcome
    requires forall i :: 0 <= i < |ms| ==> Sendable(ms[i])
  {
    if ms == [] then Outcome([], [])
    else
      assert Sendable(ms[0]);
      match ms[0]
      case OutText(t) =>
        Then([Delivered(Message(t, true, TYPE_TEXT))], [], Expected(ms[1..], store, stamp))
      case OutFile(k, c) =>
        var path := SavedPath(store, k, stamp);
        Then([Delivered(Message(path, true, k))], [SavedFile(path, c)], Expected(ms[1..], store, stamp + 1))
  }

  /** The stamp the next received file gets after message m. */
  function NextStamp(m: Outgoing, stamp: nat): nat
  {
    if m.OutFile? then stamp + 1 else stamp
  }

  lemma ExpectedCons(ms: seq<Outgoing>, store: Storage, stamp: nat)
    requires ms != [] && forall i :: 0 <= i < |ms| ==> Sendable(ms[i])
    ensures var one := Expected([ms[0]], store, stamp);
      Expected(ms, store, stamp) == Then(one.events, one.files, Expected(ms[1..], store, NextStamp(ms[0], stamp)))
  {
    assert Sendable(ms[0]);
    assert [ms[0]][1..] == [];
  }

  /** One sent message, followed by anything, is received as Expected says. */
  lemma FrameDelivered(m: Outgoing, rest: Bytes, e: Ending, store: Storage, stamp: nat)
    requires Sendable(m) && store.writable
    ensures var x := Expected([m], store, stamp);
      RunSpec(Encode(m) + rest, e, store, stamp) ==
      Then(x.events, x.files, RunSpec(rest, e, store, NextStamp(m, stamp)))
  {
    match m
    case OutText(t) =>
      assert Encode(m) == Frame(TYPE_TEXT, t);
      assert Expected([m], store, stamp) == Outcome([Delivered(Message(t, true, TYPE_TEXT))], []);
      TextFrameDelivered(t, rest, e, store, stamp);
    case OutFile(k, c) =>
      var path := SavedPath(store, k, stamp);
      assert Encode(m) == Frame(k, c);
      assert Expected([m], store, stamp) == Outcome([Delivered(Message(path, true, k))], [SavedFile(path, c)]);
      FileFrameDelivered(k, c, rest, e, store, stamp);
  }

  /**
   * Round trip of a whole session: the receiver posts every text and saves every file
   * that was sent, in order, and then reports how the stream ended.
   */
  lemma {:induction false} SessionRoundTrip(ms: seq<Outgoing>, e: Ending, store: Storage, stamp: nat)
    requires forall i :: 0 <= i < |ms| ==> Sendable(ms[i])
    requires store.writable
    ensures var x := Expected(ms, store, stamp);
      RunSpec(EncodeAll(ms), e, store, stamp) == Then(x.events, x.files, Outcome(Failure(e), []))
  {
    if ms == [] {
      RunSpecStop([], e, store, stamp, Failure(e), []);
    } else {
      var next := NextStamp(ms[0], stamp);
      var rest := EncodeAll(ms[1..]);
      var one := Expected([ms[0]], store, stamp);
      var tail := Expected(ms[1..], store, next);
      assert EncodeAll(ms) == Encode(ms[0]) + rest;
      calc {
        RunSpec(EncodeAll(ms), e, store, stamp);
      ==  { FrameDelivered(ms[0], rest, e, store, stamp); }
        Then(one.events, one.files, RunSpec(rest, e, store, next));
      ==  { SessionRoundTrip(ms[1..], e, store, next); }
        Then(one.events, one.files, Then(tail.events, tail.files, Outcome(Failure(e), [])));
      ==  { ThenThen(one.events, one.files, tail.events, tail.files, Outcome(Failure(e), [])); }
        Then(one.events + tail.events, one.files + tail.files, Outcome(Failure(e), []));
      ==  { ExpectedCons(ms, store, stamp); }
        Then(Expected(ms, store, stamp).events, Expected(ms, store, stamp).files, Outcome(Failure(e), []));
      }
    }
  }
}
