/** TransferAdapter: the rows of the older transfer list, sent and received. */
module TransferList {
  import opened Records

  const TYPE_SENT: int := 1
  const TYPE_RECEIVED: int := 2

  /** The endings isImageFile accepts, compared after lower-casing. */
  const IMAGE_ENDINGS: seq<string> := [".jpg", ".jpeg", ".png", ".webp"]

  /** isImageFile: the lower-cased path ends with one of the image endings. */
  function IsImageFile(path: string): (r: bool)
    ensures r <==> exists i :: 0 <= i < |IMAGE_ENDINGS| && EndsWith(Lower(path), IMAGE_ENDINGS[i])
  {
    var p := Lower(path);
    assert IMAGE_ENDINGS[0] == ".jpg" && IMAGE_ENDINGS[1] == ".jpeg";
    assert IMAGE_ENDINGS[2] == ".png" && IMAGE_ENDINGS[3] == ".webp";
    EndsWith(p, ".jpg") || EndsWith(p, ".jpeg") || EndsWith(p, ".png") || EndsWith(p, ".webp")
  }

  /** The answer does not depend on how the path is capitalised. */
  lemma IsImageFileIgnoresCase(path: string)
    ensures IsImageFile(Upper(path)) == IsImageFile(path)
  {
    LowerOfUpper(path);
  }

  /** getItemViewType: SENT for my own items, RECEIVED for the others. */
  function ViewType(item: TransferItem): (t: int)
    ensures t == TYPE_SENT <==> item.isMe
    ensures t == TYPE_RECEIVED <==> !item.isMe
  {
    if item.isMe then TYPE_SENT else TYPE_RECEIVED
  }

  /** The one element a bound row shows; the other two are GONE. */
  datatype Shown = ImageCard(uri: string) | FileRow(fileName: string) | MessageText(text: string)

  /** bind, the same in SentHolder and ReceivedHolder. */
  function Bind(item: TransferItem): (s: Shown)
    ensures s.ImageCard? <==> item.isFile && IsImageFile(item.fileName) && item.filePath.Some?
    ensures s.ImageCard? ==> s.uri == item.filePath.value
    ensures s.FileRow? <==> item.isFile && !(IsImageFile(item.fileName) && item.filePath.Some?)
    ensures s.FileRow? ==> s.fileName == item.fileName
    ensures s.MessageText? <==> !item.isFile
    ensures s.MessageText? ==> s.text == item.content
  {
    if item.isFile then
      if IsImageFile(item.fileName) && item.filePath.Some? then ImageCard(item.filePath.value)
      else FileRow(item.fileName)
    else MessageText(item.content)
  }

  class TransferAdapter {
    var items: seq<TransferItem>

    constructor ()
      ensures items == []
    {
      items := [];
    }

    /** addItem: append at the end. */
    method AddItem(item: TransferItem)
      modifies this
      ensures items == old(items) + [item]
      ensures |items| == |old(items)| + 1 && items[..|old(items)|] == old(items)
    {
      items := items + [item];
    }

    /** getItemCount. */
    function ItemCount(): (n: nat)
      reads this
      ensures n == |items|
    {
      |items|
    }

    /** getItemViewType(position). */
    function ItemViewType(position: nat): (t: int)
      reads this
      requires position < |items|
      ensures t == TYPE_SENT <==> items[position].isMe
    {
      ViewType(items[position])
    }
  }
}
