/**
 * TransferService: the older socket protocol on port 8888. Every frame opens with a
 * 4-byte ASCII header, NAME, TEXT or FILE. NAME and TEXT follow it with a big-endian
 * Int length and that many bytes; FILE follows it with the name's length, the name,
 * a big-endian Long file size and the file's bytes.
 *
 * The receiver reads each header field with one read(buf) call. A read may deliver
 * fewer bytes than the buffer holds, so `Reading` distinguishes the code as written
 * (AsWritten) from fields filled by a read loop (Corrected), the way the TEXT payload
 * is already read. The class below runs the corrected reading.
 */
module Transfer {
  import opened Wire
  import opened Records
  import opened Streams
  import SR = SendReceive

  /** "NAME", "TEXT" and "FILE" in ASCII. */
  const NAME_HEADER: Bytes := [78, 65, 77, 69]
  const TEXT_HEADER: Bytes := [84, 69, 88, 84]
  const FILE_HEADER: Bytes := [70, 73, 76, 69]

  /** The buffer of the file loops on both sides. */
  const READ_SIZE: nat := 4096

  /** What listenForData posts to the handler: onNameReceived, onTextReceived, onFileReceived. */
  datatype Posted = NameReceived(name: Bytes) | TextReceived(text: Bytes) | FileReceived(name: Bytes, path: Bytes)

  /** sendName's frame: "NAME", the name's byte count, the name's UTF-8 bytes. */
  function NameFrame(name: Bytes): Bytes
    requires |name| < TWO_31
  {
    NAME_HEADER + Int32Bytes(|name|) + name
  }

  /** sendText's frame: "TEXT", the byte count, the bytes. */
  function TextFrame(text: Bytes): Bytes
    requires |text| < TWO_31
  {
    TEXT_HEADER + Int32Bytes(|text|) + text
  }

  /** sendFile's frame: "FILE", the name's byte count, the name, the file size, the file. */
  function FileFrame(name: Bytes, contents: Bytes): Bytes
    requires |name| < TWO_31 && |contents| < TWO_63
  {
    FILE_HEADER + Int32Bytes(|name|) + name + Int64Bytes(|contents|) + contents
  }

  /** File(Downloads, name).absolutePath. */
  function DownloadPath(store: SR.Storage, name: Bytes): (path: Bytes)
    ensures |path| == |store.dir| + 1 + |name|
    ensures path[..|store.dir|] == store.dir && path[|store.dir|] == 47 && path[|store.dir| + 1..] == name
  {
    store.dir + [47] + name
  }

  /**
   * Different names give different path strings. The file system may still read two such
   * strings as one file ("a//b" and "a/b"); that is not part of this model.
   */
  lemma DownloadPathsDistinct(store: SR.Storage, a: Bytes, b: Bytes)
    requires a != b
    ensures DownloadPath(store, a) != DownloadPath(store, b)
  {
    var pa, pb := DownloadPath(store, a), DownloadPath(store, b);
    if |a| == |b| {
      assert pa[|store.dir| + 1..] == a && pb[|store.dir| + 1..] == b;
    } else {
      assert |pa| != |pb|;
    }
  }

  /** FileOutputStream(File(Downloads, name)) succeeds: an empty name names the directory itself. */
  predicate CanCreate(store: SR.Storage, name: Bytes)
  {
    store.writable && name != []
  }

  datatype Reading = AsWritten | Corrected

  /** How a read, or a loop of reads, ended. */
  datatype LoopEnd =
    | Filled  // the read returned normally; for a loop, the buffer is full
    | AtEof   // read returned -1
    | Threw   // read threw: the exception leaves listenForData
    | Spins   // the loop asks for 0 bytes and never ends

  datatype Field = Field(got: Bytes, rest: Stream, end: LoopEnd)

  /** One read(buf) call into an n-byte buffer: it may return fewer than n bytes. */
  function OneRead(s: Stream, n: nat): (f: Field)
    ensures s.pending == f.got + f.rest.pending && |f.got| <= n && f.rest.ending == s.ending
    ensures f.end != Spins && (f.end != Filled ==> f.rest.pending == [] && f.got == [])
    ensures f.end == AtEof ==> s.ending == PeerClosed
    ensures f.end == Threw ==> s.ending != PeerClosed
  {
    var r := Read(s, n);
    match r.result
    case Got(b) => Field(b, r.rest, Filled)
    case EndOfStream => Field([], r.rest, AtEof)
    case Failed(_) => Field([], r.rest, Threw)
  }

  /** A loop of reads into an n-byte buffer that stops when it is full or read returns -1. */
  function FillLoop(s: Stream, n: nat): (f: Field)
    ensures s.pending == f.got + f.rest.pending && |f.got| <= n && f.rest.ending == s.ending
    ensures f.rest.grants == s.grants && f.end != Spins
    ensures f.end == Filled <==> n <= |s.pending|
    ensures f.end == Filled ==> |f.got| == n
    ensures f.end != Filled ==> f.rest.pending == [] && f.got == s.pending
    ensures f.end == AtEof <==> s.ending == PeerClosed && n > |s.pending|
  {
    var f := ReadFully(s, n);
    Field(f.got, f.rest, match f.end case Complete => Filled case ShortAtEnd => AtEof case Broke(_) => Threw)
  }

  /** The read loop's outcome is fixed by what it took, what is left and how it ended. */
  lemma FillLoopIs(s: Stream, n: nat, got: Bytes, rest: Stream, end: LoopEnd)
    requires s.pending == got + rest.pending && rest.grants == s.grants && rest.ending == s.ending
    requires end == Filled ==> |got| == n
    requires end != Filled ==> rest.pending == [] && |got| < n && end != Spins
    requires end == AtEof <==> end != Filled && s.ending == PeerClosed
    ensures Field(got, rest, end) == FillLoop(s, n)
  {
    var f := FillLoop(s, n);
    if end == Filled {
      assert f.got == s.pending[..n] == got;
    }
  }

  /**
   * Reading an n-byte header field: as written, one read call; corrected, a loop that
   * fills the buffer the way the TEXT payload is read. Either way the bytes not read
   * stay zero in the buffer (see Padded).
   */
  function ReadField(s: Stream, n: nat, way: Reading): (f: Field)
    ensures s.pending == f.got + f.rest.pending && |f.got| <= n && f.rest.ending == s.ending
    ensures f.end != Spins && (f.end != Filled ==> f.rest.pending == [])
    ensures f.end == AtEof ==> s.ending == PeerClosed
    ensures f.end == Threw ==> s.ending != PeerClosed
    ensures way == Corrected ==> f == FillLoop(s, n)
  {
    match way
    case AsWritten => OneRead(s, n)
    case Corrected => FillLoop(s, n)
  }

  /**
   * handleFileReceive's loop as written: it asks for minOf(4096, remaining.toInt())
   * bytes, where toInt keeps only the low 32 bits of the Long.
   */
  function FileLoopAsWritten(s: Stream, remaining: int, got: Bytes): (f: Field)
    ensures f.rest.ending == s.ending
    decreases |s.pending|
  {
    if remaining <= 0 then Field(got, s, Filled)
    else
      var ask := Min(READ_SIZE, LongToInt(remaining));
      if ask < 0 then Field(got, s, Threw)        // read(buffer, 0, negative): IndexOutOfBoundsException
      else if ask == 0 then Field(got, s, Spins)  // read(buffer, 0, 0) returns 0 and nothing moves
      else
        var r := Read(s, ask);
        match r.result
        case Got(b) => FileLoopAsWritten(r.rest, remaining - |b|, got + b)
        case EndOfStream => Field(got, r.rest, AtEof)
        case Failed(_) => Field(got, r.rest, Threw)
  }

  /** The corrected ask: never more than what is left, never more than the buffer. */
  function FileAsk(remaining: int): (ask: nat)
    requires remaining > 0
    ensures 1 <= ask <= READ_SIZE && ask <= remaining
    ensures ask == READ_SIZE || ask == remaining
  {
    Min(READ_SIZE, remaining)
  }

  /** What one pass of listenForData's loop does. */
  datatype Step =
    | Next(posted: seq<Posted>, files: seq<SR.SavedFile>, rest: Stream)
    | Stop(posted: seq<Posted>, files: seq<SR.SavedFile>)
    | Hang(posted: seq<Posted>, files: seq<SR.SavedFile>)

  /** The NAME branch, after the header. */
  function NameBody(s: Stream, way: Reading): (st: Step)
    ensures st.Next? ==> |st.rest.pending| <= |s.pending| && st.rest.ending == s.ending
    ensures st.Next? && way == Corrected ==> st.rest.grants == s.grants
    ensures !st.Hang? && st.files == []
  {
    var l := ReadField(s, 4, way);
    if l.end == Threw then Stop([], [])
    else
      var len := Int32Of(Padded(l.got, 4));
      if len < 0 then Stop([], [])  // ByteArray(nameLen): NegativeArraySizeException
      else
        var nm := ReadField(l.rest, len, way);
        if nm.end == Threw then Stop([], [])
        else Next([NameReceived(Padded(nm.got, len))], [], nm.rest)
  }

  /** The TEXT branch, after the header: the payload loop is the same in both readings. */
  function TextBody(s: Stream, way: Reading): (st: Step)
    ensures st.Next? ==> |st.rest.pending| <= |s.pending| && st.rest.ending == s.ending
    ensures st.Next? && way == Corrected ==> st.rest.grants == s.grants
    ensures !st.Hang? && st.files == []
  {
    var z := ReadField(s, 4, way);
    if z.end == Threw then Stop([], [])
    else
      var size := Int32Of(Padded(z.got, 4));
      if size < 0 then Stop([], [])  // ByteArray(size): NegativeArraySizeException
      else
        var body := FillLoop(z.rest, size);
        if body.end == Threw then Stop([], [])
        else Next([TextReceived(Padded(body.got, size))], [], body.rest)
  }

  /** The FILE branch, after the header: handleFileReceive. */
  function FileBody(s: Stream, store: SR.Storage, way: Reading): (st: Step)
    ensures st.Next? ==> |st.rest.pending| <= |s.pending| && st.rest.ending == s.ending
    ensures st.Next? && way == Corrected ==> st.rest.grants == s.grants
    ensures way == Corrected ==> !st.Hang?
  {
    var nl := ReadField(s, 4, way);
    if nl.end == Threw then Stop([], [])
    else
      var nameLen := Int32Of(Padded(nl.got, 4));
      if nameLen < 0 then Stop([], [])
      else
        var nm := ReadField(nl.rest, nameLen, way);
        if nm.end == Threw then Stop([], [])
        else FileSized(nm.rest, Padded(nm.got, nameLen), store, way)
  }

  /** handleFileReceive once the name is known: the size, then the file itself. */
  function FileSized(s: Stream, name: Bytes, store: SR.Storage, way: Reading): (st: Step)
    ensures st.Next? ==> |st.rest.pending| <= |s.pending| && st.rest.ending == s.ending
    ensures st.Next? && way == Corrected ==> st.rest.grants == s.grants
    ensures way == Corrected ==> !st.Hang?
  {
    var sz := ReadField(s, 8, way);
    if sz.end == Threw then Stop([], [])
    else if !CanCreate(store, name) then Stop([], [])  // FileOutputStream throws
    else FilePayload(sz.rest, Int64Of(Padded(sz.got, 8)), name, DownloadPath(store, name), way)
  }

  /**
   * The file loop and what follows it: the file holds the bytes that arrived; it is
   * reported unless a read threw. As written, the loop may spin forever instead.
   */
  function FilePayload(s: Stream, fileSize: int, name: Bytes, path: Bytes, way: Reading): (st: Step)
    ensures st.Next? ==> |st.rest.pending| <= |s.pending| && st.rest.ending == s.ending
    ensures st.Next? && way == Corrected ==> st.rest.grants == s.grants
    ensures way == Corrected ==> !st.Hang?
  {
    var p := if way == Corrected then FillLoop(s, Wanted(fileSize)) else FileLoopAsWritten(s, fileSize, []);
    FileLoopPrefix(s, fileSize, []);
    var file := SR.SavedFile(path, p.got);
    if p.end == Threw then Stop([], [file])
    else if p.end == Spins then Hang([], [file])
    else Next([FileReceived(name, path)], [file], p.rest)
  }

  /** With the corrected loop, the file holds the fill loop's bytes and is reported unless a read threw. */
  lemma FilePayloadCorrected(s: Stream, fileSize: int, name: Bytes, path: Bytes, p: Field)
    requires p == FillLoop(s, Wanted(fileSize))
    ensures FilePayload(s, fileSize, name, path, Corrected) ==
      if p.end == Threw then Stop([], [SR.SavedFile(path, p.got)])
      else Next([FileReceived(name, path)], [SR.SavedFile(path, p.got)], p.rest)
  {
  }

  /** The as-written loop only consumes the stream. */
  lemma {:induction false} FileLoopPrefix(s: Stream, remaining: int, got: Bytes)
    ensures var f := FileLoopAsWritten(s, remaining, got);
      exists k :: 0 <= k <= |s.pending| && f.rest.pending == s.pending[k..]
    decreases |s.pending|
  {
    var f := FileLoopAsWritten(s, remaining, got);
    if remaining <= 0 || Min(READ_SIZE, LongToInt(remaining)) <= 0 {
      assert f.rest.pending == s.pending[0..];
    } else {
      var r := Read(s, Min(READ_SIZE, LongToInt(remaining)));
      match r.result
      case Got(b) =>
        FileLoopPrefix(r.rest, remaining - |b|, got + b);
        var k :| 0 <= k <= |r.rest.pending| && f.rest.pending == r.rest.pending[k..];
        assert f.rest.pending == s.pending[|b| + k..];
      case _ =>
        assert f.rest.pending == s.pending[0..];
    }
  }

  /**
   * One pass of listenForData's loop: read the 4-byte header; -1 there, or an
   * exception, ends the loop; an unknown header is dropped and the loop goes on.
   */
  function ListenStep(s: Stream, store: SR.Storage, way: Reading): (st: Step)
    ensures st.Next? ==> |st.rest.pending| < |s.pending| && st.rest.ending == s.ending
    ensures st.Next? && way == Corrected ==> st.rest.grants == s.grants
    ensures way == Corrected ==> !st.Hang?
  {
    var h := ReadField(s, 4, way);
    if h.end == Threw || (h.end == AtEof && h.got == []) then Stop([], [])
    else
      var header := Padded(h.got, 4);
      if header == NAME_HEADER then NameBody(h.rest, way)
      else if header == TEXT_HEADER then TextBody(h.rest, way)
      else if header == FILE_HEADER then FileBody(h.rest, store, way)
      else Next([], [], h.rest)
  }

  /** What listenForData posts and writes, and whether it ends up spinning. */
  datatype Heard = Heard(posted: seq<Posted>, files: seq<SR.SavedFile>, hangs: bool)

  function After(posted: seq<Posted>, files: seq<SR.SavedFile>, h: Heard): Heard
  {
    Heard(posted + h.posted, files + h.files, h.hangs)
  }

  /** listenForData on a stream: frames until the loop ends. */
  function Listen(s: Stream, store: SR.Storage, way: Reading): (h: Heard)
    decreases |s.pending|, 1
  {
    ListenAfter(ListenStep(s, store, way), |s.pending|, store, way)
  }

  function ListenAfter(st: Step, bound: nat, store: SR.Storage, way: Reading): Heard
    requires st.Next? ==> |st.rest.pending| < bound
    decreases bound, 0
  {
    match st
    case Next(posted, files, rest) => After(posted, files, Listen(rest, store, way))
    case Stop(posted, files) => Heard(posted, files, false)
    case Hang(posted, files) => Heard(posted, files, true)
  }

  lemma PaddedWhole(bs: Bytes)
    ensures Padded(bs, |bs|) == bs
  {
  }

  /** A field read by the loop takes exactly the field's bytes, whatever the short reads. */
  lemma FillPrefix(a: Bytes, b: Bytes, g: seq<nat>, e: Ending)
    ensures FillLoop(Stream(a + b, g, e), |a|) == Field(a, Stream(b, g, e), Filled)
  {
    SR.SplitAt(a, b);
  }

  /** One read takes a whole field when no read is cut short and the bytes are there. */
  lemma OneReadFills(a: Bytes, b: Bytes, e: Ending)
    requires a != []
    ensures OneRead(Stream(a + b, [], e), |a|) == Field(a, Stream(b, [], e), Filled)
  {
    SR.SplitAt(a, b);
  }

  /** With the header read whole, the step dispatches on it. */
  lemma HeaderThen(header: Bytes, body: Bytes, g: seq<nat>, e: Ending, store: SR.Storage, way: Reading)
    requires |header| == 4
    requires way == Corrected || g == []
    ensures ListenStep(Stream(header + body, g, e), store, way) ==
      if header == NAME_HEADER then NameBody(Stream(body, g, e), way)
      else if header == TEXT_HEADER then TextBody(Stream(body, g, e), way)
      else if header == FILE_HEADER then FileBody(Stream(body, g, e), store, way)
      else Next([], [], Stream(body, g, e))
  {
    if way == Corrected {
      FillPrefix(header, body, g, e);
    } else {
      OneReadFills(header, body, e);
    }
    PaddedWhole(header);
  }

  /** An Int length field followed by that many bytes, read whole. */
  lemma LengthThen(x: Bytes, rest: Bytes, g: seq<nat>, e: Ending, way: Reading)
    requires |x| < TWO_31
    requires way == Corrected || g == []
    ensures var l := ReadField(Stream(Int32Bytes(|x|) + (x + rest), g, e), 4, way);
      l == Field(Int32Bytes(|x|), Stream(x + rest, g, e), Filled) && Int32Of(Padded(l.got, 4)) == |x|
  {
    if way == Corrected {
      FillPrefix(Int32Bytes(|x|), x + rest, g, e);
    } else {
      OneReadFills(Int32Bytes(|x|), x + rest, e);
    }
    PaddedWhole(Int32Bytes(|x|));
    Int32RoundTrip(|x|);
  }

  lemma Regroup(h: Bytes, a: Bytes, b: Bytes, rest: Bytes)
    ensures h + a + b + rest == h + (a + (b + rest))
  {
  }

  lemma Regroup5(h: Bytes, a: Bytes, b: Bytes, c: Bytes, d: Bytes, rest: Bytes)
    ensures h + a + b + c + d + rest == h + (a + (b + (c + (d + rest))))
  {
  }

  /** sendName then the NAME branch: the peer's name comes back as sent. */
  lemma NameRoundTrip(name: Bytes, rest: Bytes, g: seq<nat>, e: Ending, store: SR.Storage)
    requires |name| < TWO_31
    ensures ListenStep(Stream(NameFrame(name) + rest, g, e), store, Corrected) ==
      Next([NameReceived(name)], [], Stream(rest, g, e))
  {
    Regroup(NAME_HEADER, Int32Bytes(|name|), name, rest);
    HeaderThen(NAME_HEADER, Int32Bytes(|name|) + (name + rest), g, e, store, Corrected);
    LengthThen(name, rest, g, e, Corrected);
    FillPrefix(name, rest, g, e);
    PaddedWhole(name);
  }

  /** sendText then the TEXT branch: the text comes back as sent. */
  lemma TextRoundTrip(text: Bytes, rest: Bytes, g: seq<nat>, e: Ending, store: SR.Storage)
    requires |text| < TWO_31
    ensures ListenStep(Stream(TextFrame(text) + rest, g, e), store, Corrected) ==
      Next([TextReceived(text)], [], Stream(rest, g, e))
  {
    Regroup(TEXT_HEADER, Int32Bytes(|text|), text, rest);
    HeaderThen(TEXT_HEADER, Int32Bytes(|text|) + (text + rest), g, e, store, Corrected);
    LengthThen(text, rest, g, e, Corrected);
    FillPrefix(text, rest, g, e);
    PaddedWhole(text);
  }

  /** The part of handleFileReceive after the name, on a whole frame. */
  lemma FileSizedOf(name: Bytes, contents: Bytes, rest: Bytes, g: seq<nat>, e: Ending, store: SR.Storage)
    requires |contents| < TWO_63 && CanCreate(store, name)
    ensures var path := DownloadPath(store, name);
      FileSized(Stream(Int64Bytes(|contents|) + (contents + rest), g, e), name, store, Corrected) ==
      Next([FileReceived(name, path)], [SR.SavedFile(path, contents)], Stream(rest, g, e))
  {
    FillPrefix(Int64Bytes(|contents|), contents + rest, g, e);
    PaddedWhole(Int64Bytes(|contents|));
    Int64RoundTrip(|contents|);
    FillPrefix(contents, rest, g, e);
  }

  /** sendFile then handleFileReceive: the file is saved under its name with exactly the sent bytes. */
  lemma FileRoundTrip(name: Bytes, contents: Bytes, rest: Bytes, g: seq<nat>, e: Ending, store: SR.Storage)
    requires |name| < TWO_31 && |contents| < TWO_63 && CanCreate(store, name)
    ensures var path := DownloadPath(store, name);
      ListenStep(Stream(FileFrame(name, contents) + rest, g, e), store, Corrected) ==
      Next([FileReceived(name, path)], [SR.SavedFile(path, contents)], Stream(rest, g, e))
  {
    var tail := Int64Bytes(|contents|) + (contents + rest);
    Regroup5(FILE_HEADER, Int32Bytes(|name|), name, Int64Bytes(|contents|), contents, rest);
    HeaderThen(FILE_HEADER, Int32Bytes(|name|) + (name + tail), g, e, store, Corrected);
    LengthThen(name, tail, g, e, Corrected);
    FillPrefix(name, tail, g, e);
    PaddedWhole(name);
    FileSizedOf(name, contents, rest, g, e, store);
  }

  /** A header that is none of the three is dropped; reading resumes right after it. */
  lemma UnknownHeaderSkipped(header: Bytes, rest: Bytes, g: seq<nat>, e: Ending, store: SR.Storage)
    requires |header| == 4 && header != NAME_HEADER && header != TEXT_HEADER && header != FILE_HEADER
    ensures ListenStep(Stream(header + rest, g, e), store, Corrected) == Next([], [], Stream(rest, g, e))
  {
    HeaderThen(header, rest, g, e, store, Corrected);
  }

  /** With nothing left to read, the header read meets -1 or an exception and the loop ends. */
  lemma ListenEnds(g: seq<nat>, e: Ending, store: SR.Storage, way: Reading)
    ensures Listen(Stream([], g, e), store, way) == Heard([], [], false)
  {
    var s := Stream([], g, e);
    assert ListenStep(s, store, way) == Stop([], []);
    assert Listen(s, store, way) == ListenAfter(Stop([], []), 0, store, way);
  }

  /** A pass after which the loop goes on: what it posts and writes, then the rest. */
  lemma ListenNext(s: Stream, store: SR.Storage, way: Reading, posted: seq<Posted>, files: seq<SR.SavedFile>, rest: Stream)
    requires ListenStep(s, store, way) == Next(posted, files, rest)
    ensures Listen(s, store, way) == After(posted, files, Listen(rest, store, way))
  {
    var h := ListenAfter(Next(posted, files, rest), |s.pending|, store, way);
    assert h == After(posted, files, Listen(rest, store, way));
    assert Listen(s, store, way) == h;
  }

  /** A pass that ends the loop: what it posts and writes is all that is left. */
  lemma ListenStop(s: Stream, store: SR.Storage, way: Reading, posted: seq<Posted>, files: seq<SR.SavedFile>)
    requires ListenStep(s, store, way) == Stop(posted, files)
    ensures Listen(s, store, way) == Heard(posted, files, false)
  {
    assert Listen(s, store, way) == ListenAfter(Stop(posted, files), |s.pending|, store, way);
  }

  /**
   * The peer closes after the TEXT header and the first k bytes of the text: the text
   * is still posted, its missing tail left as zero bytes, and then the loop ends.
   */
  lemma TextCutShort(text: Bytes, k: nat, g: seq<nat>, store: SR.Storage)
    requires |text| < TWO_31 && k < |text|
    ensures Listen(Stream(TEXT_HEADER + Int32Bytes(|text|) + text[..k], g, PeerClosed), store, Corrected) ==
      Heard([TextReceived(text[..k] + Zeros(|text| - k))], [], false)
  {
    var len := Int32Bytes(|text|);
    var s := Stream(TEXT_HEADER + len + text[..k], g, PeerClosed);
    var posted := [TextReceived(text[..k] + Zeros(|text| - k))];
    assert TEXT_HEADER + len + text[..k] == TEXT_HEADER + (len + text[..k]);
    HeaderThen(TEXT_HEADER, len + text[..k], g, PeerClosed, store, Corrected);
    FillPrefix(len, text[..k], g, PeerClosed);
    PaddedWhole(len);
    Int32RoundTrip(|text|);
    assert TextBody(Stream(len + text[..k], g, PeerClosed), Corrected) == Next(posted, [], Stream([], g, PeerClosed));
    ListenNext(s, store, Corrected, posted, [], Stream([], g, PeerClosed));
    ListenEnds(g, PeerClosed, store, Corrected);
  }

  /** What the application hands to sendName, sendText or sendFile. */
  datatype Outgoing = NameOut(name: Bytes) | TextOut(text: Bytes) | FileOut(fileName: Bytes, contents: Bytes)

  /** The sizes the frames can carry, and a file name the receiver can create. */
  predicate Sendable(m: Outgoing, store: SR.Storage)
  {
    match m
    case NameOut(n) => |n| < TWO_31
    case TextOut(t) => |t| < TWO_31
    case FileOut(n, c) => |n| < TWO_31 && |c| < TWO_63 && CanCreate(store, n)
  }

  function Encode(m: Outgoing, store: SR.Storage): Bytes
    requires Sendable(m, store)
  {
    match m
    case NameOut(n) => NameFrame(n)
    case TextOut(t) => TextFrame(t)
    case FileOut(n, c) => FileFrame(n, c)
  }

  /** The bytes of a series of sends, each frame whole. */
  function EncodeAll(ms: seq<Outgoing>, store: SR.Storage): Bytes
    requires forall i :: 0 <= i < |ms| ==> Sendable(ms[i], store)
  {
    if ms == [] then [] else Encode(ms[0], store) + EncodeAll(ms[1..], store)
  }

  /** What the receiver should post and save for one send. */
  function Delivery(m: Outgoing, store: SR.Storage): Heard
  {
    match m
    case NameOut(n) => Heard([NameReceived(n)], [], false)
    case TextOut(t) => Heard([TextReceived(t)], [], false)
    case FileOut(n, c) => Heard([FileReceived(n, DownloadPath(store, n))], [SR.SavedFile(DownloadPath(store, n), c)], false)
  }

  /** What the receiver should post and save for a series of sends. */
  function Expected(ms: seq<Outgoing>, store: SR.Storage): Heard
  {
    if ms == [] then Heard([], [], false)
    else After(Delivery(ms[0], store).posted, Delivery(ms[0], store).files, Expected(ms[1..], store))
  }

  /** One frame, followed by anything, is received as Delivery says. */
  lemma FrameReceived(m: Outgoing, rest: Bytes, g: seq<nat>, e: Ending, store: SR.Storage)
    requires Sendable(m, store)
    ensures var d := Delivery(m, store);
      ListenStep(Stream(Encode(m, store) + rest, g, e), store, Corrected) == Next(d.posted, d.files, Stream(rest, g, e))
  {
    match m
    case NameOut(n) => NameRoundTrip(n, rest, g, e, store);
    case TextOut(t) => TextRoundTrip(t, rest, g, e, store);
    case FileOut(n, c) => FileRoundTrip(n, c, rest, g, e, store);
  }

  lemma AfterAfter(p1: seq<Posted>, f1: seq<SR.SavedFile>, p2: seq<Posted>, f2: seq<SR.SavedFile>, h: Heard)
    ensures After(p1, f1, After(p2, f2, h)) == After(p1 + p2, f1 + f2, h)
  {
    assert p1 + (p2 + h.posted) == p1 + p2 + h.posted;
    assert f1 + (f2 + h.files) == f1 + f2 + h.files;
  }

  /** The loop goes on after a pass: the pass's posts and files join those before it. */
  lemma ListenAdvance(total: Heard, ps: seq<Posted>, fs: seq<SR.SavedFile>, s: Stream, store: SR.Storage,
                      posted: seq<Posted>, files: seq<SR.SavedFile>, rest: Stream)
    requires total == After(ps, fs, Listen(s, store, Corrected))
    requires ListenStep(s, store, Corrected) == Next(posted, files, rest)
    ensures total == After(ps + posted, fs + files, Listen(rest, store, Corrected))
  {
    ListenNext(s, store, Corrected, posted, files, rest);
    AfterAfter(ps, fs, posted, files, Listen(rest, store, Corrected));
  }

  /** The loop ends after a pass: the pass's posts and files are the last ones. */
  lemma ListenFinish(total: Heard, ps: seq<Posted>, fs: seq<SR.SavedFile>, s: Stream, store: SR.Storage,
                     posted: seq<Posted>, files: seq<SR.SavedFile>)
    requires total == After(ps, fs, Listen(s, store, Corrected))
    requires ListenStep(s, store, Corrected) == Stop(posted, files)
    ensures total == Heard(ps + posted, fs + files, false)
  {
    ListenStop(s, store, Corrected, posted, files);
  }

  /**
   * Round trip of a whole session, whatever the short reads: the receiver posts every
   * name and text and saves every file that was sent, in order, and stops at the end.
   */
  lemma {:induction false} SessionRoundTrip(ms: seq<Outgoing>, g: seq<nat>, e: Ending, store: SR.Storage)
    requires forall i :: 0 <= i < |ms| ==> Sendable(ms[i], store)
    ensures Listen(Stream(EncodeAll(ms, store), g, e), store, Corrected) == Expected(ms, store)
  {
    if ms == [] {
      ListenEnds(g, e, store, Corrected);
    } else {
      var d := Delivery(ms[0], store);
      var rest := EncodeAll(ms[1..], store);
      FrameReceived(ms[0], rest, g, e, store);
      ListenNext(Stream(EncodeAll(ms, store), g, e), store, Corrected, d.posted, d.files, Stream(rest, g, e));
      SessionRoundTrip(ms[1..], g, e, store);
    }
  }

  /** A read cut short by the network: it delivers only the bytes the grant allows. */
  lemma OneReadCut(a: Bytes, b: Bytes, n: nat, e: Ending)
    requires 0 < |a| < n
    ensures OneRead(Stream(a + b, [|a|], e), n) == Field(a, Stream(b, [], e), Filled)
  {
    SR.SplitAt(a, b);
  }

  /** A header cut short, padded with zeros, that names no frame is skipped. */
  lemma CutHeaderSkipped(a: Bytes, b: Bytes, e: Ending, store: SR.Storage)
    requires 0 < |a| < 4
    requires Padded(a, 4) != NAME_HEADER && Padded(a, 4) != TEXT_HEADER && Padded(a, 4) != FILE_HEADER
    ensures ListenStep(Stream(a + b, [|a|], e), store, AsWritten) == Next([], [], Stream(b, [], e))
  {
    OneReadCut(a, b, 4, e);
  }

  lemma Regroup22(a: Bytes, b: Bytes, c: Bytes, d: Bytes, t: Bytes)
    ensures (a + b) + (c + d) + t == a + ((b + c) + (d + t))
  {
  }

  /** The TEXT frame for "hi", cut where a 2-byte first read and 4-byte headers cut it. */
  lemma TextFrameOfHi()
    ensures TextFrame([104, 105]) == [84, 69] + ([88, 84] + [0, 0] + ([0, 2] + [104, 105]))
  {
    Pow256Values();
    assert TEXT_HEADER == [84, 69] + [88, 84];
    assert Int32Bytes(2) == [0, 0] + [0, 2];
    Regroup22([84, 69], [88, 84], [0, 0], [0, 2], [104, 105]);
  }

  /** As written, a first read cut short to a header that names no frame skips it. */
  lemma CutHeaderListen(a: Bytes, b: Bytes, e: Ending, store: SR.Storage)
    requires 0 < |a| < 4
    requires Padded(a, 4) != NAME_HEADER && Padded(a, 4) != TEXT_HEADER && Padded(a, 4) != FILE_HEADER
    ensures Listen(Stream(a + b, [|a|], e), store, AsWritten) == Listen(Stream(b, [], e), store, AsWritten)
  {
    CutHeaderSkipped(a, b, e, store);
    ListenNext(Stream(a + b, [|a|], e), store, AsWritten, [], [], Stream(b, [], e));
  }

  /** Four bytes that name no frame are skipped, in either reading when reads are not cut. */
  lemma UnknownHeaderListen(x: Bytes, y: Bytes, e: Ending, store: SR.Storage, way: Reading)
    requires |x| == 4 && x != NAME_HEADER && x != TEXT_HEADER && x != FILE_HEADER
    ensures Listen(Stream(x + y, [], e), store, way) == Listen(Stream(y, [], e), store, way)
  {
    HeaderThen(x, y, [], e, store, way);
    ListenNext(Stream(x + y, [], e), store, way, [], [], Stream(y, [], e));
  }

  /**
   * As written, one read may fill only part of a header field. Here the first read of
   * the TEXT frame for "hi" delivers 2 bytes: the header reads "TE" and two zeros and
   * matches nothing; "XT" and the length's first two bytes, then the length's last two
   * bytes and the text, are taken for further headers; the text is never posted.
   */
  lemma ShortHeaderReadLosesText(store: SR.Storage)
    ensures Listen(Stream(TextFrame([104, 105]), [2], PeerClosed), store, AsWritten) == Heard([], [], false)
  {
    var x, y: Bytes := [88, 84] + [0, 0], [0, 2] + [104, 105];
    TextFrameOfHi();
    assert Padded([84, 69], 4)[0] == 84 && Padded([84, 69], 4)[2] == 0;
    CutHeaderListen([84, 69], x + y, PeerClosed, store);
    assert x[0] == 88;
    UnknownHeaderListen(x, y, PeerClosed, store, AsWritten);
    assert y[0] == 0 && y + [] == y;
    UnknownHeaderListen(y, [], PeerClosed, store, AsWritten);
    ListenEnds([], PeerClosed, store, AsWritten);
  }

  /** Read in full, the same bytes with the same short first read deliver the text. */
  lemma FullHeaderReadKeepsText(store: SR.Storage)
    ensures Listen(Stream(TextFrame([104, 105]), [2], PeerClosed), store, Corrected) == Heard([TextReceived([104, 105])], [], false)
  {
    var s := Stream(TextFrame([104, 105]) + [], [2], PeerClosed);
    assert TextFrame([104, 105]) + [] == TextFrame([104, 105]);
    TextRoundTrip([104, 105], [], [2], PeerClosed, store);
    ListenNext(s, store, Corrected, [TextReceived([104, 105])], [], Stream([], [2], PeerClosed));
    ListenEnds([2], PeerClosed, store, Corrected);
  }

  /** As written, a frame reads whole when no read is ever cut short. */
  lemma TextRoundTripWhenReadsFill(text: Bytes, rest: Bytes, e: Ending, store: SR.Storage)
    requires |text| < TWO_31
    ensures ListenStep(Stream(TextFrame(text) + rest, [], e), store, AsWritten) ==
      Next([TextReceived(text)], [], Stream(rest, [], e))
  {
    Regroup(TEXT_HEADER, Int32Bytes(|text|), text, rest);
    HeaderThen(TEXT_HEADER, Int32Bytes(|text|) + (text + rest), [], e, store, AsWritten);
    LengthThen(text, rest, [], e, AsWritten);
    FillPrefix(text, rest, [], e);
    PaddedWhole(text);
  }

  lemma Regroup4(h: Bytes, a: Bytes, b: Bytes, c: Bytes, rest: Bytes)
    ensures h + a + b + c + rest == h + (a + (b + (c + rest)))
  {
  }

  /** As written, the size field and then the file loop, when reads are not cut short. */
  lemma FileSizedAsWritten(name: Bytes, size: int, rest: Bytes, e: Ending, store: SR.Storage)
    requires CanCreate(store, name) && 0 < size < TWO_63 && LongToInt(size) <= 0
    ensures var file := SR.SavedFile(DownloadPath(store, name), []);
      FileSized(Stream(Int64Bytes(size) + rest, [], e), name, store, AsWritten) ==
      if LongToInt(size) == 0 then Hang([], [file]) else Stop([], [file])
  {
    OneReadFills(Int64Bytes(size), rest, e);
    PaddedWhole(Int64Bytes(size));
    Int64RoundTrip(size);
  }

  /**
   * As written, a FILE frame announcing a size whose low 32 bits read as an Int that
   * is 0 or negative is never read: with 0 the loop asks for 0 bytes forever (4 GiB),
   * with a negative ask read throws (2 GiB). Reads are not cut short here.
   */
  lemma LargeFileAsWritten(name: Bytes, size: int, rest: Bytes, e: Ending, store: SR.Storage)
    requires |name| < TWO_31 && CanCreate(store, name)
    requires 0 < size < TWO_63 && LongToInt(size) <= 0
    ensures var file := SR.SavedFile(DownloadPath(store, name), []);
      ListenStep(Stream(FILE_HEADER + Int32Bytes(|name|) + name + Int64Bytes(size) + rest, [], e), store, AsWritten) ==
      if LongToInt(size) == 0 then Hang([], [file]) else Stop([], [file])
  {
    var tail := Int64Bytes(size) + rest;
    Regroup4(FILE_HEADER, Int32Bytes(|name|), name, Int64Bytes(size), rest);
    HeaderThen(FILE_HEADER, Int32Bytes(|name|) + (name + tail), [], e, store, AsWritten);
    LengthThen(name, tail, [], e, AsWritten);
    OneReadFills(name, tail, e);
    PaddedWhole(name);
    FileSizedAsWritten(name, size, rest, e, store);
  }

  /** A 4 GiB file: the ask truncates to 0 and the loop spins with an empty file. */
  lemma FourGiBFileHangs(name: Bytes, rest: Bytes, e: Ending, store: SR.Storage)
    requires |name| < TWO_31 && CanCreate(store, name)
    ensures ListenStep(Stream(FILE_HEADER + Int32Bytes(|name|) + name + Int64Bytes(TWO_32) + rest, [], e), store, AsWritten) ==
      Hang([], [SR.SavedFile(DownloadPath(store, name), [])])
  {
    LargeFileAsWritten(name, TWO_32, rest, e, store);
  }

  /** A 2 GiB file: the ask truncates to a negative Int, read throws, and listening ends. */
  lemma TwoGiBFileThrows(name: Bytes, rest: Bytes, e: Ending, store: SR.Storage)
    requires |name| < TWO_31 && CanCreate(store, name)
    ensures ListenStep(Stream(FILE_HEADER + Int32Bytes(|name|) + name + Int64Bytes(TWO_31) + rest, [], e), store, AsWritten) ==
      Stop([], [SR.SavedFile(DownloadPath(store, name), [])])
  {
    LargeFileAsWritten(name, TWO_31, rest, e, store);
  }

  /**
   * The service with the corrected reading. `socketOpen` stands for a socket that is
   * set and not closed; sends are whole frames appended to `outbound`.
   */
  class TransferService {
    const store: SR.Storage
    /** The name from the preferences, or the device model. */
    const myName: Bytes

    var input: Stream
    var socketOpen: bool
    var isRunning: bool
    var outbound: Bytes
    var posted: seq<Posted>
    var files: seq<SR.SavedFile>

    constructor (store: SR.Storage, myName: Bytes)
      ensures this.store == store && this.myName == myName
      ensures !socketOpen && !isRunning && input == Stream([], [], PeerClosed)
      ensures outbound == [] && posted == [] && files == []
    {
      this.store := store;
      this.myName := myName;
      input := Stream([], [], PeerClosed);
      socketOpen := false;
      isRunning := false;
      outbound := [];
      posted := [];
      files := [];
    }

    /** close(): clears isRunning and closes the socket. */
    method Close()
      modifies this
      ensures !isRunning && !socketOpen
      ensures input == old(input) && outbound == old(outbound) && posted == old(posted) && files == old(files)
    {
      isRunning := false;
      socketOpen := false;
    }

    /** The input seen with the grants of `g`: the read loops do not track grants. */
    ghost function Seen(g: seq<nat>): Stream
      reads this
    {
      Stream(input.pending, g, input.ending)
    }

    /** A read loop that fills an n-byte buffer until it is full or read returns -1. */
    method FillBuffer(n: nat, ghost g: seq<nat>) returns (got: Bytes, end: LoopEnd)
      modifies this
      ensures socketOpen == old(socketOpen) && isRunning == old(isRunning)
      ensures outbound == old(outbound) && posted == old(posted) && files == old(files)
      ensures input.ending == old(input.ending)
      ensures Field(got, Seen(g), end) == FillLoop(old(Seen(g)), n)
    {
      got, end := [], Filled;
      while |got| < n && end == Filled
        invariant old(input.pending) == got + input.pending && |got| <= n
        invariant input.ending == old(input.ending) && end != Spins
        invariant end != Filled ==> input.pending == [] && |got| < n && (end == AtEof <==> input.ending == PeerClosed)
        invariant socketOpen == old(socketOpen) && isRunning == old(isRunning)
        invariant outbound == old(outbound) && posted == old(posted) && files == old(files)
        decreases n - |got|, if end == Filled then 1 else 0
      {
        var r := Read(input, n - |got|);
        input := r.rest;
        match r.result {
          case Got(b) => got := got + b;
          case EndOfStream => end := AtEof;
          case Failed(_) => end := Threw;
        }
      }
      FillLoopIs(old(Seen(g)), n, got, Seen(g), end);
    }

    /** The state after a pass of the loop that `st` describes; `going` says whether it goes on. */
    ghost predicate Took(st: Step, g: seq<nat>, posted0: seq<Posted>, files0: seq<SR.SavedFile>, going: bool)
      reads this
    {
      && posted == posted0 + st.posted
      && files == files0 + st.files
      && going == st.Next?
      && (st.Next? ==> Seen(g) == st.rest)
    }

    /** The NAME branch: the length, then the name. */
    method ReadName(ghost g: seq<nat>) returns (going: bool)
      modifies this
      ensures socketOpen == old(socketOpen) && isRunning == old(isRunning) && outbound == old(outbound)
      ensures input.ending == old(input.ending)
      ensures Took(NameBody(old(Seen(g)), Corrected), g, old(posted), old(files), going)
    {
      var lenBytes, lenEnd := FillBuffer(4, g);
      if lenEnd == Threw {
        return false;
      }
      var nameLen := Int32Of(Padded(lenBytes, 4));
      if nameLen < 0 {
        return false;
      }
      var nameBytes, nameEnd := FillBuffer(nameLen, g);
      if nameEnd == Threw {
        return false;
      }
      posted := posted + [NameReceived(Padded(nameBytes, nameLen))];
      return true;
    }

    /** The TEXT branch: the size, then the loop that reads the text. */
    method ReadText(ghost g: seq<nat>) returns (going: bool)
      modifies this
      ensures socketOpen == old(socketOpen) && isRunning == old(isRunning) && outbound == old(outbound)
      ensures input.ending == old(input.ending)
      ensures Took(TextBody(old(Seen(g)), Corrected), g, old(posted), old(files), going)
    {
      var sizeBytes, sizeEnd := FillBuffer(4, g);
      if sizeEnd == Threw {
        return false;
      }
      var size := Int32Of(Padded(sizeBytes, 4));
      if size < 0 {
        return false;
      }
      var msgBytes, msgEnd := FillBuffer(size, g);
      if msgEnd == Threw {
        return false;
      }
      posted := posted + [TextReceived(Padded(msgBytes, size))];
      return true;
    }

    /**
     * handleFileReceive's loop with the corrected ask: at most 4096 bytes a read and
     * never more than what is left, until the file is complete or read returns -1.
     */
    method CopyFile(fileSize: int, ghost g: seq<nat>) returns (written: Bytes, end: LoopEnd)
      modifies this
      ensures socketOpen == old(socketOpen) && isRunning == old(isRunning)
      ensures outbound == old(outbound) && posted == old(posted) && files == old(files)
      ensures input.ending == old(input.ending)
      ensures Field(written, Seen(g), end) == FillLoop(old(Seen(g)), Wanted(fileSize))
    {
      written, end := [], Filled;
      var totalRead := 0;
      while totalRead < fileSize && end == Filled
        invariant old(input.pending) == written + input.pending && totalRead == |written|
        invariant |written| <= Wanted(fileSize)
        invariant input.ending == old(input.ending) && end != Spins
        invariant end != Filled ==> input.pending == [] && |written| < Wanted(fileSize) && (end == AtEof <==> input.ending == PeerClosed)
        invariant socketOpen == old(socketOpen) && isRunning == old(isRunning)
        invariant outbound == old(outbound) && posted == old(posted) && files == old(files)
        decreases Wanted(fileSize) - totalRead, if end == Filled then 1 else 0
      {
        var r := Read(input, FileAsk(fileSize - totalRead));
        input := r.rest;
        match r.result {
          case Got(b) =>
            written := written + b;
            totalRead := totalRead + |b|;
          case EndOfStream => end := AtEof;
          case Failed(_) => end := Threw;
        }
      }
      FillLoopIs(old(Seen(g)), Wanted(fileSize), written, Seen(g), end);
    }

    /** The file and what follows it: the file keeps what arrived, and is reported unless a read threw. */
    method ReceivePayload(fileSize: int, name: Bytes, path: Bytes, ghost g: seq<nat>) returns (going: bool)
      modifies this
      ensures socketOpen == old(socketOpen) && isRunning == old(isRunning) && outbound == old(outbound)
      ensures input.ending == old(input.ending)
      ensures Took(FilePayload(old(Seen(g)), fileSize, name, path, Corrected), g, old(posted), old(files), going)
    {
      var written, end := CopyFile(fileSize, g);
      FilePayloadCorrected(old(Seen(g)), fileSize, name, path, Field(written, Seen(g), end));
      files := files + [SR.SavedFile(path, written)];
      if end == Threw {
        return false;
      }
      posted := posted + [FileReceived(name, path)];
      return true;
    }

    /** handleFileReceive: the name's length, the name, the size, then the file. */
    method HandleFileReceive(ghost g: seq<nat>) returns (going: bool)
      modifies this
      ensures socketOpen == old(socketOpen) && isRunning == old(isRunning) && outbound == old(outbound)
      ensures input.ending == old(input.ending)
      ensures Took(FileBody(old(Seen(g)), store, Corrected), g, old(posted), old(files), going)
    {
      var lenBytes, lenEnd := FillBuffer(4, g);
      if lenEnd == Threw {
        return false;
      }
      var nameLen := Int32Of(Padded(lenBytes, 4));
      if nameLen < 0 {
        return false;
      }
      var nameBytes, nameEnd := FillBuffer(nameLen, g);
      if nameEnd == Threw {
        return false;
      }
      var name := Padded(nameBytes, nameLen);
      ghost var afterName := Seen(g);
      var sizeBytes, sizeEnd := FillBuffer(8, g);
      if sizeEnd == Threw {
        return false;
      }
      if !CanCreate(store, name) {
        return false;  // FileOutputStream throws
      }
      going := ReceivePayload(Int64Of(Padded(sizeBytes, 8)), name, DownloadPath(store, name), g);
      assert FileBody(old(Seen(g)), store, Corrected) == FileSized(afterName, name, store, Corrected);
    }

    /** One pass of listenForData's loop: the header, then the branch it names. */
    method ListenFrame(ghost g: seq<nat>) returns (going: bool)
      modifies this
      ensures socketOpen == old(socketOpen) && isRunning == old(isRunning) && outbound == old(outbound)
      ensures input.ending == old(input.ending)
      ensures Took(ListenStep(old(Seen(g)), store, Corrected), g, old(posted), old(files), going)
    {
      var headerBytes, headerEnd := FillBuffer(4, g);
      if headerEnd == Threw || (headerEnd == AtEof && headerBytes == []) {
        return false;
      }
      var header := Padded(headerBytes, 4);
      if header == NAME_HEADER {
        going := ReadName(g);
      } else if header == TEXT_HEADER {
        going := ReadText(g);
      } else if header == FILE_HEADER {
        going := HandleFileReceive(g);
      } else {
        going := true;
      }
    }

    /**
     * listenForData: passes while isRunning, until the header read meets -1 or an
     * exception ends the loop (the catch only logs it).
     */
    method ListenForData(ghost g: seq<nat>)
      modifies this
      ensures socketOpen == old(socketOpen) && isRunning == old(isRunning) && outbound == old(outbound)
      ensures input.ending == old(input.ending)
      ensures !old(isRunning) ==> input == old(input) && posted == old(posted) && files == old(files)
      ensures old(isRunning) ==> var h := Listen(old(Seen(g)), store, Corrected);
        posted == old(posted) + h.posted && files == old(files) + h.files
    {
      ghost var total := Listen(Seen(g), store, Corrected);
      ghost var ps: seq<Posted>, fs: seq<SR.SavedFile> := [], [];
      assert After([], [], total) == total;
      while isRunning
        invariant socketOpen == old(socketOpen) && isRunning == old(isRunning) && outbound == old(outbound)
        invariant input.ending == old(input.ending)
        invariant !isRunning ==> input == old(input) && ps == [] && fs == []
        invariant posted == old(posted) + ps && files == old(files) + fs
        invariant total == After(ps, fs, Listen(Seen(g), store, Corrected))
        decreases |input.pending|
      {
        ghost var s1 := Seen(g);
        ghost var st := ListenStep(s1, store, Corrected);
        var going := ListenFrame(g);
        assert posted == old(posted) + (ps + st.posted) && files == old(files) + (fs + st.files) by {
          SR.AppendAssoc(old(posted), ps, st.posted);
          SR.AppendAssoc(old(files), fs, st.files);
        }
        if !going {
          ListenFinish(total, ps, fs, s1, store, st.posted, st.files);
          break;
        }
        ListenAdvance(total, ps, fs, s1, store, st.posted, st.files, Seen(g));
        ps, fs := ps + st.posted, fs + st.files;
      }
    }

    /** sendName: the NAME frame, when there is an open socket to write to. */
    method SendName(name: Bytes)
      requires |name| < TWO_31
      modifies this
      ensures input == old(input) && socketOpen == old(socketOpen) && isRunning == old(isRunning)
      ensures posted == old(posted) && files == old(files)
      ensures outbound == old(outbound) + (if socketOpen then NameFrame(name) else [])
    {
      if socketOpen {
        outbound := outbound + NAME_HEADER + Int32Bytes(|name|) + name;
      }
    }

    /** sendText: the TEXT frame, when there is an open socket to write to. */
    method SendText(text: Bytes)
      requires |text| < TWO_31
      modifies this
      ensures input == old(input) && socketOpen == old(socketOpen) && isRunning == old(isRunning)
      ensures posted == old(posted) && files == old(files)
      ensures outbound == old(outbound) + (if socketOpen then TextFrame(text) else [])
    {
      if socketOpen {
        outbound := outbound + TEXT_HEADER + Int32Bytes(|text|) + text;
      }
    }

    /**
     * sendFile: the FILE header, the name, the size, then the file in reads of at most
     * 4096 bytes. `contents` is None when the file cannot be opened; `grants` are the
     * file reads' short-read sizes.
     */
    method SendFile(fileName: Bytes, contents: Option<Bytes>, grants: seq<nat>) returns (chunks: seq<Bytes>)
      requires |fileName| < TWO_31
      requires contents.Some? ==> |contents.value| < TWO_63
      modifies this
      ensures input == old(input) && socketOpen == old(socketOpen) && isRunning == old(isRunning)
      ensures posted == old(posted) && files == old(files)
      ensures socketOpen && contents.Some? ==>
        && outbound == old(outbound) + FileFrame(fileName, contents.value)
        && chunks == SR.Chunks(Stream(contents.value, grants, PeerClosed), READ_SIZE)
      ensures !(socketOpen && contents.Some?) ==> outbound == old(outbound) && chunks == []
    {
      chunks := [];
      if !socketOpen || contents.None? {
        return;  // no output stream, or the file cannot be opened: the catch logs it
      }
      var file := Stream(contents.value, grants, PeerClosed);
      var copied;
      chunks, copied := SR.CopyChunks(file, READ_SIZE);
      outbound := outbound + FileFrame(fileName, copied);
    }

    /**
     * startServer and startClient: once a connection is made (accepted, or connected
     * to the host), send my name and listen on it. `link` is None when accepting or
     * connecting throws; the catch only logs it.
     */
    method Start(link: Option<Stream>)
      requires |myName| < TWO_31
      modifies this
      ensures link.None? ==>
        && input == old(input) && socketOpen == old(socketOpen) && isRunning == old(isRunning)
        && outbound == old(outbound) && posted == old(posted) && files == old(files)
      ensures link.Some? ==>
        && socketOpen && isRunning && input.ending == link.value.ending
        && outbound == old(outbound) + NameFrame(myName)
        && var h := Listen(link.value, store, Corrected);
           posted == old(posted) + h.posted && files == old(files) + h.files
    {
      if link.None? {
        return;
      }
      input := link.value;
      socketOpen := true;
      isRunning := true;
      SendName(myName);
      assert Seen(link.value.grants) == link.value;
      ListenForData(link.value.grants);
    }
  }
}
