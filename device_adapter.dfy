/** DeviceAdapter: the list of peers the discovery screen shows. */
module DeviceList {
  import opened Records

  class DeviceAdapter {
    var devices: seq<WifiDevice>

    constructor ()
      ensures devices == []
    {
      devices := [];
    }

    /** updateList: clear, then add all; nothing of the previous list survives. */
    method UpdateList(newDevices: seq<WifiDevice>)
      modifies this
      ensures devices == newDevices
    {
      devices := [];
      devices := devices + newDevices;
    }

    /** getItemCount. */
    function ItemCount(): (n: nat)
      reads this
      ensures n == |devices|
    {
      |devices|
    }

    /** The device a tap on row `position` passes to the click callback. */
    method Clicked(position: nat) returns (device: WifiDevice)
      requires position < |devices|
      ensures device == devices[position]
    {
      device := devices[position];
    }
  }
}
