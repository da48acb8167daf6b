/** HistoryActivity: the history screen over the stored list. */
module HistoryScreen {
  import opened Records
  import opened HistoryStore
  import opened HistoryList

  /** The extensions the viewer table knows, compared as written. */
  predicate KnownExtension(e: string)
  {
    e == "jpg" || e == "jpeg" || e == "png" || e == "pdf" || e == "mp4" || e == "mp3"
  }

  /** The viewer table, keyed by an extension as written. */
  function MimeOfExtension(e: string): string
  {
    if e == "jpg" || e == "jpeg" || e == "png" then "image/*"
    else if e == "pdf" then "application/pdf"
    else if e == "mp4" then "video/*"
    else if e == "mp3" then "audio/*"
    else "*/*"
  }

  /** getMimeType: by the text after the last '.', case-sensitive. */
  function MimeType(url: string): (m: string)
    ensures var e := AfterLast(url, '.', "");
      (m == "image/*" <==> e == "jpg" || e == "jpeg" || e == "png") &&
      (m == "application/pdf" <==> e == "pdf") &&
      (m == "video/*" <==> e == "mp4") &&
      (m == "audio/*" <==> e == "mp3") &&
      (m == "*/*" <==> !KnownExtension(e))
    ensures '.' !in url ==> m == "*/*"
  {
    MimeOfExtension(AfterLast(url, '.', ""))
  }

  /** The extension of `name` + "." + `ext` is `ext`, whatever `name` holds. */
  lemma ExtensionAfterDot(name: string, ext: string)
    requires '.' !in ext
    ensures AfterLast(name + "." + ext, '.', "") == ext
  {
    assert name + "." + ext == name + ['.'] + ext;
    AfterLastOf(name, '.', ext, "");
  }

  /** Every known extension starts with a lower-case letter, so a capitalised one is unknown. */
  lemma CapitalisedUnknown(e: string)
    requires |e| > 0 && 'A' <= e[0] <= 'Z'
    ensures MimeOfExtension(e) == "*/*"
  {
    var known := ["jpg", "jpeg", "png", "pdf", "mp4", "mp3"];
    forall k | k in known
      ensures e != k
    {
      assert 'a' <= k[0] <= 'z';
    }
  }

  // Only the last extension counts and its case matters: "photo.JPG", like any
  // extension that starts with a capital, is opened as anything ("*/*").
  lemma CapitalisedExtensionUnknown(name: string, ext: string)
    requires '.' !in ext && |ext| > 0 && 'A' <= ext[0] <= 'Z'
    ensures MimeType(name + "." + ext) == "*/*"
  {
    ExtensionAfterDot(name, ext);
    CapitalisedUnknown(ext);
  }

  datatype Visibility = Visible | Invisible | Gone

  /** The visibility of the list, the empty label and the clear button. */
  datatype Screen = Screen(list: Visibility, emptyLabel: Visibility, clearButton: Visibility)

  /** loadData's layout for the loaded history. */
  function ScreenFor(history: seq<HistoryItem>): (s: Screen)
    ensures s.list == Visible <==> |history| > 0
    ensures s.emptyLabel == Visible <==> |history| == 0
    ensures s.list == Visible <==> s.emptyLabel == Gone
    ensures s.clearButton == Visible <==> |history| > 0
    ensures s.clearButton == Invisible <==> |history| == 0
  {
    if |history| > 0 then Screen(Visible, Gone, Visible) else Screen(Gone, Visible, Invisible)
  }

  /** What opening a history entry leads to. */
  datatype Opened = View(path: string, mimeType: string) | Toast(text: string)

  /**
   * openFile. `fileExists` stands for File.exists and `providerAccepts` for
   * FileProvider granting a URI and an activity taking the intent.
   */
  function OpenFile(path: string, fileExists: bool, providerAccepts: bool): (o: Opened)
    ensures o.View? <==> fileExists && providerAccepts
    ensures o.View? ==> o == View(path, MimeType(path))
    ensures !fileExists ==> o == Toast("File no longer exists")
    ensures fileExists && !providerAccepts ==> o == Toast("Cannot open this file type")
  {
    if !fileExists then Toast("File no longer exists")
    else if providerAccepts then View(path, MimeType(path))
    else Toast("Cannot open this file type")
  }

  class HistoryActivity {
    const repository: HistoryRepository
    const adapter: HistoryAdapter
    var screen: Screen
    /** The views opened and the toasts shown, in order. */
    var outcomes: seq<Opened>

    /** onCreate and setupList: build the adapter and load the data. */
    constructor (repository: HistoryRepository)
      ensures this.repository == repository
      ensures screen == ScreenFor(Load(repository.stored))
      ensures adapter.items == Load(repository.stored)
      ensures outcomes == []
    {
      this.repository := repository;
      var list := repository.GetHistory();
      var adapter := new HistoryAdapter();
      if |list| > 0 {
        adapter.SetList(list);
      }
      this.adapter := adapter;
      screen := ScreenFor(list);
      outcomes := [];
    }

    /** loadData: the adapter is refilled only when there is something to show. */
    method LoadData()
      modifies this, adapter
      ensures screen == ScreenFor(Load(repository.stored))
      ensures |Load(repository.stored)| > 0 ==> adapter.items == Load(repository.stored)
      ensures |Load(repository.stored)| == 0 ==> adapter.items == old(adapter.items)
      ensures outcomes == old(outcomes)
    {
      var list := repository.GetHistory();
      if |list| > 0 {
        adapter.SetList(list);
      }
      screen := ScreenFor(list);
    }

    /** The positive button of the clear dialog: clear, reload, toast. */
    method ConfirmClear()
      modifies this, adapter, repository
      ensures repository.stored.None?
      ensures screen == Screen(Gone, Visible, Invisible)
      ensures adapter.items == old(adapter.items)
      ensures outcomes == old(outcomes) + [Toast("History cleared")]
    {
      repository.ClearHistory();
      LoadData();
      outcomes := outcomes + [Toast("History cleared")];
    }

    /** A tap on a row: the adapter's callback runs openFile when the row has a path. */
    method OnItemClick(position: nat, fileExists: bool, providerAccepts: bool)
      requires position < |adapter.items|
      modifies this
      ensures adapter.items[position].filePath == "" ==> outcomes == old(outcomes)
      ensures adapter.items[position].filePath != "" ==>
        outcomes == old(outcomes) + [OpenFile(adapter.items[position].filePath, fileExists, providerAccepts)]
      ensures screen == old(screen)
    {
      var target := adapter.Click(position);
      if target.Some? {
        outcomes := outcomes + [OpenFile(target.value, fileExists, providerAccepts)];
      }
    }
  }
}
