/**
 * ChatAdapter: how one chat message is laid out in a recycled row, which
 * file a click opens, and the MIME table used when a file is saved.
 */
module Chat {
  import opened Wire
  import opened Records

  /** '/', the path separator File.getName splits on. */
  const SLASH: byte := 47

  /** "📄 " in UTF-8: the page-facing-up emoji and a space. */
  const DOC_MARK: Bytes := [0xF0, 0x9F, 0x93, 0x84, 0x20]

  /** File(path).name: what follows the last '/', or the whole path. */
  function FileName(path: Bytes): (name: Bytes)
    ensures SLASH !in name
    ensures SLASH !in path ==> name == path
  {
    AfterLast(path, SLASH, path)
  }

  /** The text of a document row. */
  function DocLabel(path: Bytes): Bytes
  {
    DOC_MARK + FileName(path)
  }

  /** A document row names the file alone, not the folder it lies in. */
  lemma DocLabelNamesFile(folder: Bytes, name: Bytes)
    requires SLASH !in name
    ensures DocLabel(folder + [SLASH] + name) == DOC_MARK + name
  {
    AfterLastOf(folder, SLASH, name, folder + [SLASH] + name);
  }

  /** The MIME type a click hands to the viewer, by message type. */
  function ClickMime(kind: int): (m: string)
    requires IsFileType(kind)
    ensures kind == TYPE_IMAGE <==> m == "image/*"
    ensures kind == TYPE_VIDEO <==> m == "video/*"
    ensures kind == TYPE_DOC <==> m == "application/pdf"
  {
    if kind == TYPE_IMAGE then "image/*"
    else if kind == TYPE_VIDEO then "video/*"
    else "application/pdf"
  }

  /** getMimeType: the MIME type of a saved file, by its extension in any case. */
  function SaveMime(extension: string): (m: string)
    ensures Lower(extension) == "jpg" || Lower(extension) == "jpeg" <==> m == "image/jpeg"
    ensures Lower(extension) == "png" <==> m == "image/png"
    ensures Lower(extension) == "mp4" <==> m == "video/mp4"
    ensures Lower(extension) == "pdf" <==> m == "application/pdf"
    ensures m == "*/*" <==> Lower(extension) !in ["jpg", "jpeg", "png", "mp4", "pdf"]
  {
    var e := Lower(extension);
    if e == "jpg" || e == "jpeg" then "image/jpeg"
    else if e == "png" then "image/png"
    else if e == "mp4" then "video/mp4"
    else if e == "pdf" then "application/pdf"
    else "*/*"
  }

  /** "JPG" and "jpg" save alike. */
  lemma SaveMimeIgnoresCase(extension: string)
    ensures SaveMime(Upper(extension)) == SaveMime(extension)
  {
    LowerOfUpper(extension);
  }

  datatype Gravity = Start | End

  /** What the image view displays. */
  datatype Picture = NoPicture | Bitmap(path: Bytes) | VideoThumbnail(path: Bytes) | VideoIcon

  /** A click opens `file` as `mimeType`; a long click offers to save it. */
  datatype Interaction = Interaction(file: Bytes, mimeType: string)

  /** The state of a row view: alignment, the two child views, and its listeners. */
  datatype Face = Face(
    gravity: Gravity,
    textVisible: bool, text: Bytes,
    imageVisible: bool, picture: Picture,
    interaction: Option<Interaction>)

  /**
   * AsWritten leaves the image view's picture alone when an image or video file is
   * missing, so a recycled row keeps the previous message's picture; Corrected clears it.
   */
  datatype Binding = AsWritten | Corrected

  /**
   * onBindViewHolder on a row whose state was `previous`. `fileExists` stands for
   * File.exists and `thumbnail` for a non-null video thumbnail.
   */
  function Row(msg: Message, fileExists: bool, thumbnail: bool, previous: Face, binding: Binding): (f: Face)
    ensures f.gravity == (if msg.isReceived then Start else End)
    ensures f.textVisible <==> msg.kind == TYPE_TEXT || msg.kind == TYPE_DOC
    ensures f.imageVisible <==> msg.kind == TYPE_IMAGE || msg.kind == TYPE_VIDEO
    ensures msg.kind == TYPE_TEXT ==> f.text == msg.content
    ensures msg.kind == TYPE_DOC ==> f.text == DocLabel(msg.content)
    ensures !f.textVisible ==> f.text == previous.text
    ensures f.interaction.Some? <==> msg.kind == TYPE_DOC || (f.imageVisible && fileExists)
    ensures f.interaction.Some? ==> f.interaction.value == Interaction(msg.content, ClickMime(msg.kind))
    ensures f.imageVisible && fileExists ==>
      f.picture == (if msg.kind == TYPE_IMAGE then Bitmap(msg.content)
                    else if thumbnail then VideoThumbnail(msg.content) else VideoIcon)
    ensures f.imageVisible && !fileExists ==>
      f.picture == (if binding == Corrected then NoPicture else previous.picture)
  {
    var hidden := Face(if msg.isReceived then Start else End, false, previous.text, false, previous.picture, None);
    if msg.kind == TYPE_TEXT then
      hidden.(textVisible := true, text := msg.content)
    else if msg.kind == TYPE_IMAGE || msg.kind == TYPE_VIDEO then
      var shown := hidden.(imageVisible := true);
      if fileExists then
        shown.(picture := if msg.kind == TYPE_IMAGE then Bitmap(msg.content)
                          else if thumbnail then VideoThumbnail(msg.content) else VideoIcon,
               interaction := Some(Interaction(msg.content, ClickMime(msg.kind))))
      else if binding == Corrected then shown.(picture := NoPicture)
      else shown
    else if msg.kind == TYPE_DOC then
      hidden.(textVisible := true, text := DocLabel(msg.content),
              interaction := Some(Interaction(msg.content, ClickMime(TYPE_DOC))))
    else hidden
  }

  /** A message of unknown type shows nothing and reacts to nothing. */
  lemma UnknownTypeBlank(msg: Message, fileExists: bool, thumbnail: bool, previous: Face, binding: Binding)
    requires !(TYPE_TEXT <= msg.kind <= TYPE_DOC)
    ensures var f := Row(msg, fileExists, thumbnail, previous, binding);
      !f.textVisible && !f.imageVisible && f.interaction.None?
  {
  }

  /** Exactly one child view is shown for each of the four message types. */
  lemma OneChildShown(msg: Message, fileExists: bool, thumbnail: bool, previous: Face, binding: Binding)
    requires TYPE_TEXT <= msg.kind <= TYPE_DOC
    ensures var f := Row(msg, fileExists, thumbnail, previous, binding);
      f.textVisible != f.imageVisible
  {
  }

  /**
   * As written, a recycled row bound to an image whose file is gone goes on
   * showing the picture of the message it displayed before.
   */
  lemma MissingImageShowsStalePicture(path: Bytes, other: Bytes, isReceived: bool)
    requires path != other
    ensures var previous := Face(Start, false, [], true, Bitmap(other), Some(Interaction(other, "image/*")));
      var f := Row(Message(path, isReceived, TYPE_IMAGE), false, false, previous, AsWritten);
      f.imageVisible && f.picture == Bitmap(other) && f.picture != Bitmap(path)
  {
  }

  /** Corrected, what a bound row displays never depends on what it displayed before. */
  lemma RowForgetsPrevious(msg: Message, fileExists: bool, thumbnail: bool, p: Face, q: Face)
    ensures var f := Row(msg, fileExists, thumbnail, p, Corrected);
      var g := Row(msg, fileExists, thumbnail, q, Corrected);
      f.gravity == g.gravity && f.interaction == g.interaction &&
      f.textVisible == g.textVisible && (f.textVisible ==> f.text == g.text) &&
      f.imageVisible == g.imageVisible && (f.imageVisible ==> f.picture == g.picture)
  {
  }

  /** A recycled row view. */
  class ChatViewHolder {
    var gravity: Gravity
    var textVisible: bool
    var text: Bytes
    var imageVisible: bool
    var picture: Picture
    var interaction: Option<Interaction>

    constructor ()
      ensures text == [] && picture == NoPicture && interaction.None?
    {
      gravity := Start;
      textVisible := true;
      text := [];
      imageVisible := true;
      picture := NoPicture;
      interaction := None;
    }

    function State(): Face
      reads this
    {
      Face(gravity, textVisible, text, imageVisible, picture, interaction)
    }
  }

  class ChatAdapter {
    const messages: seq<Message>

    constructor (messages: seq<Message>)
      ensures this.messages == messages
    {
      this.messages := messages;
    }

    /** getItemCount. */
    function ItemCount(): (n: nat)
      reads this
      ensures n == |messages|
    {
      |messages|
    }

    /**
     * onBindViewHolder in the corrected binding: the missing-file case clears the picture,
     * where the original leaves the previous one in place.
     */
    method OnBindViewHolder(holder: ChatViewHolder, position: nat, fileExists: bool, thumbnail: bool)
      requires position < |messages|
      modifies holder
      ensures holder.State() == Row(messages[position], fileExists, thumbnail, old(holder.State()), Corrected)
    {
      var msg := messages[position];
      holder.gravity := if msg.isReceived then Start else End;
      holder.textVisible := false;
      holder.imageVisible := false;
      holder.interaction := None;
      if msg.kind == TYPE_TEXT {
        holder.textVisible := true;
        holder.text := msg.content;
      } else if msg.kind == TYPE_IMAGE {
        holder.imageVisible := true;
        if fileExists {
          holder.picture := Bitmap(msg.content);
          holder.interaction := Some(Interaction(msg.content, "image/*"));
        } else {
          holder.picture := NoPicture;
        }
      } else if msg.kind == TYPE_VIDEO {
        holder.imageVisible := true;
        if fileExists {
          holder.picture := if thumbnail then VideoThumbnail(msg.content) else VideoIcon;
          holder.interaction := Some(Interaction(msg.content, "video/*"));
        } else {
          holder.picture := NoPicture;
        }
      } else if msg.kind == TYPE_DOC {
        holder.textVisible := true;
        holder.text := DocLabel(msg.content);
        holder.interaction := Some(Interaction(msg.content, "application/pdf"));
      }
    }
  }
}
