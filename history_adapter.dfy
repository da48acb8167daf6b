/** HistoryAdapter: the rows of the history screen. */
module HistoryList {
  import opened Records

  /** The icon of a row: upload for what was sent, download for everything else. */
  datatype Icon = Upload | Download

  function IconFor(item: HistoryItem): (icon: Icon)
    ensures icon == Upload <==> item.status == "Sent"
  {
    if item.status == "Sent" then Upload else Download
  }

  /** What a tap on a row hands to the click callback: the path, unless it is empty. */
  function ClickTarget(item: HistoryItem): (path: Option<string>)
    ensures path.Some? <==> item.filePath != ""
    ensures path.Some? ==> path.value == item.filePath
  {
    if item.filePath != "" then Some(item.filePath) else None
  }

  class HistoryAdapter {
    var items: seq<HistoryItem>

    constructor ()
      ensures items == []
    {
      items := [];
    }

    /** setList: clear, then add all. */
    method SetList(newItems: seq<HistoryItem>)
      modifies this
      ensures items == newItems
    {
      items := [];
      items := items + newItems;
    }

    /** getItemCount. */
    function ItemCount(): (n: nat)
      reads this
      ensures n == |items|
    {
      |items|
    }

    /** A tap on row `position`: the path passed to the callback, if any. */
    method Click(position: nat) returns (target: Option<string>)
      requires position < |items|
      ensures target.Some? <==> items[position].filePath != ""
      ensures target.Some? ==> target.value == items[position].filePath
    {
      target := ClickTarget(items[position]);
    }
  }
}
