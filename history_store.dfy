/**
 * HistoryRepository: the transfer history kept as one JSON array under the
 * preference key "history_list", newest entry first.
 *
 * The stored text is modelled by the JSON structure it holds (`Document`); the
 * preference store is the field `stored` of the class below, None when the key is
 * absent.
 */
module HistoryStore {
  import opened Records

  const KEY_FILE_NAME: string := "fileName"
  const KEY_FILE_SIZE: string := "fileSize"
  const KEY_STATUS: string := "status"
  const KEY_TIMESTAMP: string := "timestamp"
  const KEY_FILE_PATH: string := "filePath"

  /** A JSON member value as the reader meets it. */
  datatype Value = Text(s: string) | Number(n: int)

  /** An element of the stored array: an object, or anything getJSONObject rejects. */
  datatype Element = Object(fields: map<string, Value>) | NotAnObject

  /** The stored text: a JSON array, or text that does not parse as one. */
  datatype Document = Malformed | Array(elements: seq<Element>)

  /** optString: the member's text, or "" when it is missing. */
  function OptString(fields: map<string, Value>, key: string): (s: string)
    ensures key !in fields ==> s == ""
    ensures key in fields && fields[key].Text? ==> s == fields[key].s
  {
    if key !in fields then ""
    else match fields[key]
      case Text(s) => s
      case Number(n) => IntText(n)
  }

  /** optLong: the member's number, or 0 when it is missing. */
  function OptLong(fields: map<string, Value>, key: string): (n: int)
    ensures key !in fields ==> n == 0
    ensures key in fields && fields[key].Number? ==> n == fields[key].n
  {
    if key in fields && fields[key].Number? then fields[key].n else 0
  }

  /** The item getHistory builds from one stored object. */
  function ItemOf(fields: map<string, Value>): (item: HistoryItem)
    ensures fields == map[] ==> item == HistoryItem("", "", "", 0, "")
  {
    HistoryItem(OptString(fields, KEY_FILE_NAME), OptString(fields, KEY_FILE_SIZE), OptString(fields, KEY_STATUS),
                OptLong(fields, KEY_TIMESTAMP), OptString(fields, KEY_FILE_PATH))
  }

  /** The object saveToPrefs writes for one item. */
  function ObjectOf(item: HistoryItem): map<string, Value>
  {
    map[KEY_FILE_NAME := Text(item.fileName), KEY_FILE_SIZE := Text(item.fileSize), KEY_STATUS := Text(item.status),
        KEY_TIMESTAMP := Number(item.timestamp), KEY_FILE_PATH := Text(item.filePath)]
  }

  /** Writing an item and reading it back keeps all five fields. */
  lemma ItemOfObject(item: HistoryItem)
    ensures ItemOf(ObjectOf(item)) == item
  {
    var o := ObjectOf(item);
    assert o[KEY_FILE_NAME] == Text(item.fileName) && o[KEY_FILE_SIZE] == Text(item.fileSize);
    assert o[KEY_STATUS] == Text(item.status) && o[KEY_FILE_PATH] == Text(item.filePath);
    assert o[KEY_TIMESTAMP] == Number(item.timestamp);
  }

  /** The items read from the array: one per element, up to the first that is not an object. */
  function Parsed(es: seq<Element>): (items: seq<HistoryItem>)
    ensures |items| <= |es|
    ensures forall i :: 0 <= i < |items| ==> es[i].Object? && items[i] == ItemOf(es[i].fields)
    ensures |items| < |es| ==> es[|items|].NotAnObject?
  {
    if es == [] || es[0].NotAnObject? then [] else [ItemOf(es[0].fields)] + Parsed(es[1..])
  }

  /** getHistory's result for what is stored; the default "[]" and unparsable text give no items. */
  function Load(stored: Option<Document>): (items: seq<HistoryItem>)
    ensures stored.None? || stored == Some(Malformed) ==> items == []
  {
    match stored
    case None => []
    case Some(Malformed) => []
    case Some(Array(es)) => Parsed(es)
  }

  /** The array saveToPrefs writes for a list. */
  function Encoded(items: seq<HistoryItem>): (d: Document)
    ensures d.Array? && |d.elements| == |items|
    ensures forall i :: 0 <= i < |items| ==> d.elements[i] == Object(ObjectOf(items[i]))
  {
    Array(seq(|items|, i requires 0 <= i < |items| => Object(ObjectOf(items[i]))))
  }

  /** Save then load gives back the list, in order, every field intact. */
  lemma {:induction false} LoadEncoded(items: seq<HistoryItem>)
    ensures Load(Some(Encoded(items))) == items
    decreases |items|
  {
    if items != [] {
      var es := Encoded(items).elements;
      assert es[1..] == Encoded(items[1..]).elements;
      ItemOfObject(items[0]);
      LoadEncoded(items[1..]);
      assert items == [items[0]] + items[1..];
    }
  }

  /**
   * An element that is not an object ends the reading: the items before it are
   * returned and nothing after it is read.
   */
  lemma {:induction false} MalformedKeepsEarlier(before: seq<Element>, rest: seq<Element>)
    requires forall i :: 0 <= i < |before| ==> before[i].Object?
    ensures Parsed(before + [NotAnObject] + rest) == Parsed(before)
    ensures |Parsed(before)| == |before|
  {
    if before != [] {
      assert (before + [NotAnObject] + rest)[1..] == before[1..] + [NotAnObject] + rest;
      MalformedKeepsEarlier(before[1..], rest);
    } else {
      assert (before + [NotAnObject] + rest)[0] == NotAnObject;
    }
  }

  /** The `object HistoryRepository` over its preference file. */
  class HistoryRepository {
    var stored: Option<Document>

    constructor (stored: Option<Document>)
      ensures this.stored == stored
    {
      this.stored := stored;
    }

    /** getHistory: read the array object by object; a failure keeps what was read. */
    method GetHistory() returns (list: seq<HistoryItem>)
      ensures list == Load(stored)
    {
      list := [];
      if stored.None? || stored.value.Malformed? {
        return;  // "[]", or JSONArray(...) throws and the catch returns the empty list
      }
      var es := stored.value.elements;
      var i := 0;
      while i < |es|
        invariant 0 <= i <= |es|
        invariant Parsed(es) == list + Parsed(es[i..])
        decreases |es| - i
      {
        if es[i].NotAnObject? {
          return;  // getJSONObject throws; the catch returns the items read so far
        }
        assert es[i..][1..] == es[i + 1..];
        list := list + [ItemOf(es[i].fields)];
        i := i + 1;
      }
    }

    /** saveToPrefs: one object per item, in order, replacing what was stored. */
    method SaveToPrefs(list: seq<HistoryItem>)
      modifies this
      ensures stored == Some(Encoded(list))
    {
      var jsonArray: seq<Element> := [];
      for i := 0 to |list|
        invariant jsonArray == Encoded(list[..i]).elements
      {
        jsonArray := jsonArray + [Object(ObjectOf(list[i]))];
      }
      assert list[..|list|] == list;
      stored := Some(Array(jsonArray));
    }

    /** saveItem: the new item goes first, the earlier ones follow in their order. */
    method SaveItem(item: HistoryItem)
      modifies this
      ensures stored == Some(Encoded([item] + Load(old(stored))))
      ensures Load(stored) == [item] + Load(old(stored))
      ensures |Load(stored)| == |Load(old(stored))| + 1
    {
      var existing := GetHistory();
      SaveToPrefs([item] + existing);
      LoadEncoded([item] + existing);
    }

    /** clearHistory: remove the key; reading falls back to the empty default. */
    method ClearHistory()
      modifies this
      ensures stored.None? && Load(stored) == []
    {
      stored := None;
    }
  }
}
