/**
 * The app's plain records (Message, TransferItem, HistoryItem, WifiDevice) and the
 * few string operations the core uses on them.
 */
module Records {
  import opened Wire

  datatype Option<+T> = None | Some(value: T)

  /** Message types of Message.kt; they double as the wire tags of SendReceiveThread. */
  const TYPE_TEXT: int := 1
  const TYPE_IMAGE: int := 2
  const TYPE_VIDEO: int := 3
  const TYPE_DOC: int := 4

  predicate IsFileType(kind: int) { kind == TYPE_IMAGE || kind == TYPE_VIDEO || kind == TYPE_DOC }

  /** A chat message. `content` is the UTF-8 encoding of the text, or of the file path. */
  datatype Message = Message(content: Bytes, isReceived: bool, kind: int)

  /** A row of the transfer list; `filePath` is Kotlin's nullable path. */
  datatype TransferItem = TransferItem(
    content: string, isMe: bool, isFile: bool, fileName: string, filePath: Option<string>)

  /** A stored history entry; `timestamp` is a Kotlin Long. */
  datatype HistoryItem = HistoryItem(
    fileName: string, fileSize: string, status: string, timestamp: int, filePath: string)

  /** A peer as the device list shows it: name and status text. */
  datatype WifiDevice = WifiDevice(name: string, status: string)

  function Digit(d: nat): (c: char)
    requires d < 10
    ensures '0' <= c <= '9'
  {
    (d + '0' as int) as char
  }

  /** Decimal text of a natural number, as Kotlin's string templates print it. */
  function NatText(n: nat): (s: string)
    ensures |s| >= 1
    ensures forall i :: 0 <= i < |s| ==> '0' <= s[i] <= '9'
  {
    if n < 10 then [Digit(n)] else NatText(n / 10) + [Digit(n % 10)]
  }

  /** Decimal text of an integer, with a leading '-' when negative. */
  function IntText(i: int): (s: string)
    ensures |s| >= 1
    ensures (s[0] == '-') == (i < 0)
  {
    if i < 0 then "-" + NatText(-i) else NatText(i)
  }

  function NatValue(s: string): int
  {
    if s == [] then 0 else NatValue(s[..|s| - 1]) * 10 + (s[|s| - 1] as int - '0' as int)
  }

  lemma {:induction false} NatTextValue(n: nat)
    ensures NatValue(NatText(n)) == n
  {
    if n >= 10 {
      var s := NatText(n);
      assert s[..|s| - 1] == NatText(n / 10);
      NatTextValue(n / 10);
    }
  }

  /** Different numbers print differently, so file names stamped with them differ. */
  lemma NatTextInjective(m: nat, n: nat)
    requires NatText(m) == NatText(n)
    ensures m == n
  {
    NatTextValue(m);
    NatTextValue(n);
  }

  predicate IsAscii(s: string) { forall i :: 0 <= i < |s| ==> s[i] as int < 128 }

  /** The bytes of an ASCII string (its UTF-8 encoding). */
  function Ascii(s: string): (r: Bytes)
    requires IsAscii(s)
    ensures |r| == |s| && forall i :: 0 <= i < |s| ==> r[i] == s[i] as int
  {
    seq(|s|, i requires 0 <= i < |s| => s[i] as int)
  }

  lemma AsciiAppend(a: string, b: string)
    requires IsAscii(a) && IsAscii(b)
    ensures IsAscii(a + b) && Ascii(a + b) == Ascii(a) + Ascii(b)
  {
  }

  /** ASCII lower-casing of one character. */
  function LowerChar(c: char): (d: char)
    ensures 'A' <= c <= 'Z' ==> d as int == c as int + 32
    ensures !('A' <= c <= 'Z') ==> d == c
  {
    if 'A' <= c <= 'Z' then (c as int + 32) as char else c
  }

  /** ASCII upper-casing of one character. */
  function UpperChar(c: char): (d: char)
    ensures 'a' <= c <= 'z' ==> d as int == c as int - 32
    ensures !('a' <= c <= 'z') ==> d == c
  {
    if 'a' <= c <= 'z' then (c as int - 32) as char else c
  }

  /** String.lowercase() on ASCII letters. */
  function Lower(s: string): (r: string)
    ensures |r| == |s| && forall i :: 0 <= i < |s| ==> r[i] == LowerChar(s[i])
  {
    seq(|s|, i requires 0 <= i < |s| => LowerChar(s[i]))
  }

  /** String.uppercase() on ASCII letters. */
  function Upper(s: string): (r: string)
    ensures |r| == |s| && forall i :: 0 <= i < |s| ==> r[i] == UpperChar(s[i])
  {
    seq(|s|, i requires 0 <= i < |s| => UpperChar(s[i]))
  }

  /** Lower-casing forgets the case a string was written in. */
  lemma LowerOfUpper(s: string)
    ensures Lower(Upper(s)) == Lower(s)
  {
    forall i | 0 <= i < |s| ensures Lower(Upper(s))[i] == Lower(s)[i] {
      var c := s[i];
      if 'a' <= c <= 'z' {
        assert Upper(s)[i] as int == c as int - 32;
      }
    }
  }

  predicate EndsWith(s: string, suffix: string)
  {
    |suffix| <= |s| && s[|s| - |suffix|..] == suffix
  }

  /** The index of the last occurrence of c in s, if any. */
  function LastIndexOf<T(==)>(s: seq<T>, c: T): (r: Option<nat>)
    ensures r.None? ==> c !in s
    ensures r.Some? ==> r.value < |s| && s[r.value] == c && c !in s[r.value + 1..]
  {
    if s == [] then None
    else if s[|s| - 1] == c then Some(|s| - 1)
    else LastIndexOf(s[..|s| - 1], c)
  }

  /** Kotlin's substringAfterLast(c, missing): what follows the last c, or `missing`. */
  function AfterLast<T(==)>(s: seq<T>, c: T, missing: seq<T>): (r: seq<T>)
    ensures c !in s ==> r == missing
    ensures c in s ==> c !in r && exists k :: 0 <= k < |s| && s[k] == c && s == s[..k + 1] + r
  {
    match LastIndexOf(s, c)
    case None => missing
    case Some(k) =>
      assert s == s[..k + 1] + s[k + 1..];
      s[k + 1..]
  }

  /** What follows a separator that is the last one in the text is the tail after it. */
  lemma AfterLastOf<T>(s: seq<T>, c: T, tail: seq<T>, missing: seq<T>)
    requires c !in tail
    ensures AfterLast(s + [c] + tail, c, missing) == tail
  {
    var t := s + [c] + tail;
    assert t[|s|] == c;
    var r := AfterLast(t, c, missing);
    var k :| 0 <= k < |t| && t[k] == c && t == t[..k + 1] + r;
    assert k == |s|;
    assert t[..k + 1] == s + [c];
  }
}
