/**
 * DeviceDiscoveryActivity: the screen that makes this device a Wi-Fi Direct group
 * owner (host, "RECEIVE" mode) or finds and invites a peer (client, "SEND" mode), and
 * hands the formed connection over to the transfer screen.
 *
 * Calls into WifiP2pManager and the UI are recorded in `effects`; the manager's
 * answers arrive as the event methods below. Handler.postDelayed is recorded in
 * `delayed` and runs when RunDelayed picks it.
 */
module Discovery {
  import opened Records
  import opened Broadcast
  import DeviceList

  /** WifiP2pDevice status codes. */
  const CONNECTED: int := 0
  const INVITED: int := 1
  const FAILED: int := 2
  const AVAILABLE: int := 3
  const UNAVAILABLE: int := 4

  /** WifiP2pManager.BUSY, the failure reason that makes connectToDevice retry. */
  const BUSY: int := 2

  const RETRY_DELAY_MS: nat := 1000
  const START_DELAY_MS: nat := 800

  /** getDeviceStatus: the text shown for a peer's status code. */
  function DeviceStatus(code: int): (s: string)
    ensures s == "Unknown" <==> !(CONNECTED <= code <= UNAVAILABLE)
    ensures code == AVAILABLE ==> s == "Available"
    ensures code == CONNECTED ==> s == "Connected"
    ensures code == INVITED ==> s == "Invited"
    ensures code == FAILED ==> s == "Failed"
    ensures code == UNAVAILABLE ==> s == "Unavailable"
  {
    if code == AVAILABLE then "Available"
    else if code == INVITED then "Invited"
    else if code == CONNECTED then "Connected"
    else if code == FAILED then "Failed"
    else if code == UNAVAILABLE then "Unavailable"
    else "Unknown"
  }

  /** The rows the device list shows for the peers, in the same order. */
  function ViewList(peers: seq<P2pDevice>): (rows: seq<WifiDevice>)
    ensures |rows| == |peers|
    ensures forall i :: 0 <= i < |peers| ==>
      rows[i].name == peers[i].deviceName && rows[i].status == DeviceStatus(peers[i].status)
  {
    seq(|peers|, i requires 0 <= i < |peers| => WifiDevice(peers[i].deviceName, DeviceStatus(peers[i].status)))
  }

  /** peersList.find { it.deviceName == name }: the first peer with that display name. */
  function FindByName(peers: seq<P2pDevice>, name: string): (r: Option<P2pDevice>)
    ensures r.None? <==> forall i :: 0 <= i < |peers| ==> peers[i].deviceName != name
    ensures r.Some? ==> r.value.deviceName == name
    ensures r.Some? ==> exists k :: (0 <= k < |peers| && peers[k] == r.value &&
      forall j :: 0 <= j < k ==> peers[j].deviceName != name)
  {
    if peers == [] then None
    else if peers[0].deviceName == name then Some(peers[0])
    else FindByName(peers[1..], name)
  }

  /**
   * The lookup goes by display name only: of two peers with the same name, the first
   * listed is the one connected to, whatever the addresses.
   */
  lemma {:induction false} SameNameFirstWins(before: seq<P2pDevice>, a: P2pDevice, b: P2pDevice, after: seq<P2pDevice>)
    requires a.deviceName == b.deviceName
    requires forall i :: 0 <= i < |before| ==> before[i].deviceName != a.deviceName
    ensures FindByName(before + [a] + after + [b], a.deviceName) == Some(a)
  {
    if before != [] {
      assert (before + [a] + after + [b])[1..] == before[1..] + [a] + after + [b];
      SameNameFirstWins(before[1..], a, b, after);
    }
  }

  /** The role the transfer screen takes from the handed-over extras (TransferActivity). */
  datatype Role = Server | Client(ownerAddress: Option<string>)

  function RoleOf(isGroupOwner: bool, ownerAddress: Option<string>): (role: Role)
    ensures role.Server? <==> isGroupOwner
    ensures role.Client? ==> role.ownerAddress == ownerAddress
  {
    if isGroupOwner then Server else Client(ownerAddress)
  }

  /** What the screen asks of the platform. */
  datatype Effect =
    | RegisterReceiver
    | UnregisterReceiver
    | RemoveGroup
    | CreateGroup
    | DiscoverPeers(listened: bool)  // false: no listener (the host's fallback)
    | StopPeerDiscovery
    | Connect(device: WifiDevice, deviceAddress: string, groupOwnerIntent: int)
    | Toast(text: string)
    | OpenTransfer(isGroupOwner: bool, groupOwnerAddress: Option<string>)
    | Finish

  /** A callback posted with postDelayed. */
  datatype Task = RunMode | RetryConnect(device: WifiDevice)

  datatype Delayed = Delayed(delayMs: nat, task: Task)

  /** The number of hand-overs to the transfer screen in an effect log. */
  function HandOvers(es: seq<Effect>): (n: nat)
    ensures n <= |es|
    ensures n == 0 <==> forall i :: 0 <= i < |es| ==> !es[i].OpenTransfer?
  {
    if es == [] then 0 else (if es[0].OpenTransfer? then 1 else 0) + HandOvers(es[1..])
  }

  lemma {:induction false} HandOversAppend(a: seq<Effect>, b: seq<Effect>)
    ensures HandOvers(a + b) == HandOvers(a) + HandOvers(b)
  {
    if a == [] {
      assert a + b == b;
    } else {
      assert (a + b)[1..] == a[1..] + b;
      HandOversAppend(a[1..], b);
    }
  }

  class DeviceDiscoveryActivity {
    const isHostMode: bool
    const deviceAdapter: DeviceList.DeviceAdapter

    var peersList: seq<P2pDevice>
    var title: string
    var status: string
    var radarVisible: bool
    var registered: bool
    var effects: seq<Effect>
    var delayed: seq<Delayed>

    /** onCreate: the MODE extra picks the role; a missing extra means "SEND". */
    constructor (mode: Option<string>)
      ensures isHostMode <==> mode == Some("RECEIVE")
      ensures isHostMode ==> title == "Waiting for Sender..." && status == "Creating Group..."
      ensures !isHostMode ==> title == "Select Device" && status == "Searching..."
      ensures fresh(deviceAdapter) && deviceAdapter.devices == []
      ensures peersList == [] && radarVisible && !registered && effects == [] && delayed == []
    {
      var m := if mode.Some? then mode.value else "SEND";
      isHostMode := m == "RECEIVE";
      deviceAdapter := new DeviceList.DeviceAdapter();
      if m == "RECEIVE" {
        title, status := "Waiting for Sender...", "Creating Group...";
      } else {
        title, status := "Select Device", "Searching...";
      }
      peersList := [];
      radarVisible := true;
      registered := false;
      effects := [];
      delayed := [];
    }

    /** onResume: register, drop old groups, and start the mode after 800 ms if permitted. */
    method OnResume(hasPermissions: bool)
      modifies this
      ensures registered && effects == old(effects) + [RegisterReceiver, RemoveGroup]
      ensures delayed == old(delayed) + (if hasPermissions then [Delayed(START_DELAY_MS, RunMode)] else [])
      ensures peersList == old(peersList) && status == old(status) && title == old(title)
      ensures radarVisible == old(radarVisible)
    {
      registered := true;
      effects := effects + [RegisterReceiver, RemoveGroup];
      if hasPermissions {
        delayed := delayed + [Delayed(START_DELAY_MS, RunMode)];
      }
    }

    /**
     * onPause: unregister and stop discovery. Unregistering a receiver that is not
     * registered throws, and the catch skips the stop.
     */
    method OnPause()
      modifies this
      ensures !registered
      ensures effects == old(effects) + (if old(registered) then [UnregisterReceiver, StopPeerDiscovery] else [])
      ensures peersList == old(peersList) && status == old(status) && title == old(title)
      ensures radarVisible == old(radarVisible) && delayed == old(delayed)
    {
      if registered {
        registered := false;
        effects := effects + [UnregisterReceiver, StopPeerDiscovery];
      }
    }

    /** startHostMode: ask for a group; GroupCreated reports the answer. */
    method StartHostMode()
      modifies this
      ensures effects == old(effects) + [CreateGroup]
      ensures peersList == old(peersList) && status == old(status) && title == old(title)
      ensures radarVisible == old(radarVisible) && registered == old(registered) && delayed == old(delayed)
    {
      effects := effects + [CreateGroup];
    }

    /** createGroup's listener: ready, or fall back to being discoverable. */
    method GroupCreated(success: bool)
      modifies this
      ensures success ==> status == "Ready to Receive" && effects == old(effects)
      ensures !success ==> status == "Visible (Discovery Mode)" && effects == old(effects) + [DiscoverPeers(false)]
      ensures peersList == old(peersList) && title == old(title)
      ensures radarVisible == old(radarVisible) && registered == old(registered) && delayed == old(delayed)
    {
      if success {
        status := "Ready to Receive";
      } else {
        status := "Visible (Discovery Mode)";
        effects := effects + [DiscoverPeers(false)];
      }
    }

    /** startDiscoveryMode: look for peers; DiscoveryStarted reports the answer. */
    method StartDiscoveryMode()
      modifies this
      ensures effects == old(effects) + [DiscoverPeers(true)]
      ensures peersList == old(peersList) && status == old(status) && title == old(title)
      ensures radarVisible == old(radarVisible) && registered == old(registered) && delayed == old(delayed)
    {
      effects := effects + [DiscoverPeers(true)];
    }

    /** discoverPeers' listener. */
    method DiscoveryStarted(success: bool, reason: int)
      modifies this
      ensures status == if success then "Searching..." else "Discovery Failed (" + IntText(reason) + ")"
      ensures effects == old(effects) && peersList == old(peersList) && title == old(title)
      ensures radarVisible == old(radarVisible) && registered == old(registered) && delayed == old(delayed)
    {
      status := if success then "Searching..." else "Discovery Failed (" + IntText(reason) + ")";
    }

    /** The start action of the screen's mode. */
    method StartMode()
      modifies this
      ensures effects == old(effects) + [if isHostMode then CreateGroup else DiscoverPeers(true)]
      ensures peersList == old(peersList) && status == old(status) && title == old(title)
      ensures radarVisible == old(radarVisible) && registered == old(registered) && delayed == old(delayed)
    {
      if isHostMode {
        StartHostMode();
      } else {
        StartDiscoveryMode();
      }
    }

    /**
     * connectToDevice: look the peer up again by its display name in the current list;
     * if it is there, invite it as a client (groupOwnerIntent 0) and keep discovering.
     */
    method ConnectToDevice(device: WifiDevice)
      modifies this
      ensures FindByName(old(peersList), device.name).None? ==> status == old(status) && effects == old(effects)
      ensures FindByName(old(peersList), device.name).Some? ==>
        && status == "Connecting..."
        && effects == old(effects) + [Connect(device, FindByName(old(peersList), device.name).value.deviceAddress, 0)]
      ensures peersList == old(peersList) && title == old(title)
      ensures radarVisible == old(radarVisible) && registered == old(registered) && delayed == old(delayed)
    {
      var actual := FindByName(peersList, device.name);
      if actual.None? {
        return;
      }
      status := "Connecting...";
      effects := effects + [Connect(device, actual.value.deviceAddress, 0)];
    }

    /**
     * connect's listener. BUSY schedules the same connectToDevice after 1000 ms; there
     * is no count of attempts, so every BUSY answer schedules another.
     */
    method ConnectAnswered(device: WifiDevice, success: bool, reason: int)
      modifies this
      ensures success ==>
        && status == "Invitation Sent to " + device.name
        && effects == old(effects) + [Toast("Invitation Sent!")] && delayed == old(delayed)
      ensures !success && reason == BUSY ==>
        && status == "Busy... Retrying in 1s"
        && effects == old(effects) && delayed == old(delayed) + [Delayed(RETRY_DELAY_MS, RetryConnect(device))]
      ensures !success && reason != BUSY ==>
        && status == "Failed (" + IntText(reason) + ")"
        && effects == old(effects) + [Toast("Connection Failed (" + IntText(reason) + ")")] && delayed == old(delayed)
      ensures peersList == old(peersList) && title == old(title)
      ensures radarVisible == old(radarVisible) && registered == old(registered)
    {
      if success {
        status := "Invitation Sent to " + device.name;
        effects := effects + [Toast("Invitation Sent!")];
      } else if reason == BUSY {
        status := "Busy... Retrying in 1s";
        delayed := delayed + [Delayed(RETRY_DELAY_MS, RetryConnect(device))];
      } else {
        status := "Failed (" + IntText(reason) + ")";
        effects := effects + [Toast("Connection Failed (" + IntText(reason) + ")")];
      }
    }

    /** The main looper runs the i-th posted callback. */
    method RunDelayed(i: nat)
      requires i < |delayed|
      modifies this
      ensures delayed == old(delayed[..i] + delayed[i + 1..])
      ensures old(delayed[i].task) == RunMode ==>
        effects == old(effects) + [if isHostMode then CreateGroup else DiscoverPeers(true)] && status == old(status)
      ensures old(delayed[i].task).RetryConnect? ==>
        var device := old(delayed[i].task).device;
        var actual := FindByName(old(peersList), device.name);
        && (actual.None? ==> status == old(status) && effects == old(effects))
        && (actual.Some? ==> status == "Connecting..." && effects == old(effects) + [Connect(device, actual.value.deviceAddress, 0)])
      ensures peersList == old(peersList) && title == old(title)
      ensures radarVisible == old(radarVisible) && registered == old(registered)
    {
      var task := delayed[i].task;
      delayed := delayed[..i] + delayed[i + 1..];
      match task {
        case RunMode => StartMode();
        case RetryConnect(device) => ConnectToDevice(device);
      }
    }

    /** A tap on a row: clients connect to the tapped device; a host ignores taps. */
    method OnRowClick(position: nat)
      requires position < |deviceAdapter.devices|
      modifies this
      ensures var device := old(deviceAdapter.devices[position]);
        var actual := FindByName(old(peersList), device.name);
        && (isHostMode || actual.None? ==> status == old(status) && effects == old(effects))
        && (!isHostMode && actual.Some? ==>
              status == "Connecting..." && effects == old(effects) + [Connect(device, actual.value.deviceAddress, 0)])
      ensures peersList == old(peersList) && title == old(title) && delayed == old(delayed)
      ensures radarVisible == old(radarVisible) && registered == old(registered)
    {
      var device := deviceAdapter.Clicked(position);
      if !isHostMode {
        ConnectToDevice(device);
      }
    }

    /** onWifiP2pStateEnabled: the radar shows only while Wi-Fi Direct is on. */
    method OnWifiP2pStateEnabled(isEnabled: bool)
      modifies this
      ensures radarVisible == isEnabled
      ensures status == if isEnabled then old(status) else "Enable Wi-Fi"
      ensures effects == old(effects) && peersList == old(peersList) && title == old(title)
      ensures registered == old(registered) && delayed == old(delayed)
    {
      if !isEnabled {
        status := "Enable Wi-Fi";
        radarVisible := false;
      } else {
        radarVisible := true;
      }
    }

    /**
     * onPeersAvailable: a client replaces its peers and the shown rows with exactly the
     * new list; a host ignores peer updates.
     */
    method OnPeersAvailable(deviceList: seq<P2pDevice>)
      modifies this, deviceAdapter
      ensures isHostMode ==> peersList == old(peersList) && deviceAdapter.devices == old(deviceAdapter.devices) && status == old(status)
      ensures !isHostMode ==> peersList == deviceList && deviceAdapter.devices == ViewList(deviceList)
      ensures !isHostMode ==> status == if deviceList != [] then "Found " + NatText(|deviceList|) + " Devices" else old(status)
      ensures effects == old(effects) && title == old(title)
      ensures radarVisible == old(radarVisible) && registered == old(registered) && delayed == old(delayed)
    {
      if !isHostMode {
        peersList := [];
        peersList := peersList + deviceList;
        var viewList := ViewList(deviceList);
        deviceAdapter.UpdateList(viewList);
        if viewList != [] {
          status := "Found " + NatText(|viewList|) + " Devices";
        }
      }
    }

    /**
     * onConnectionInfoAvailable: once a group is formed, stop discovering and hand the
     * role and the owner's address to the transfer screen, exactly once per report.
     */
    method OnConnectionInfoAvailable(info: P2pInfo)
      modifies this
      ensures info.groupFormed ==>
        effects == old(effects) + [StopPeerDiscovery, OpenTransfer(info.isGroupOwner, info.groupOwnerAddress), Finish]
      ensures !info.groupFormed ==> effects == old(effects)
      ensures HandOvers(effects) == HandOvers(old(effects)) + (if info.groupFormed then 1 else 0)
      ensures peersList == old(peersList) && status == old(status) && title == old(title)
      ensures radarVisible == old(radarVisible) && registered == old(registered) && delayed == old(delayed)
    {
      if info.groupFormed {
        var handOver := [StopPeerDiscovery, OpenTransfer(info.isGroupOwner, info.groupOwnerAddress), Finish];
        HandOversAppend(effects, handOver);
        assert HandOvers(handOver) == 1 by {
          var last: seq<Effect> := [Finish];
          assert last[1..] == [] && HandOvers(last) == 0;
          assert handOver[1..][1..] == last;
        }
        effects := effects + handOver;
      }
    }

    /** onDeviceDisconnected: start the mode's action again. */
    method OnDeviceDisconnected()
      modifies this
      ensures effects == old(effects) + [if isHostMode then CreateGroup else DiscoverPeers(true)]
      ensures peersList == old(peersList) && status == old(status) && title == old(title)
      ensures radarVisible == old(radarVisible) && registered == old(registered) && delayed == old(delayed)
    {
      StartMode();
    }

    /** The receiver's callback reaching this screen. */
    method Deliver(cb: Callback)
      modifies this, deviceAdapter
      ensures cb.WifiStateEnabled? ==>
        && radarVisible == cb.isEnabled
        && status == (if cb.isEnabled then old(status) else "Enable Wi-Fi")
        && effects == old(effects)
      ensures cb.PeersAvailable? && isHostMode ==>
        peersList == old(peersList) && deviceAdapter.devices == old(deviceAdapter.devices) && status == old(status)
      ensures cb.PeersAvailable? && !isHostMode ==>
        && peersList == cb.deviceList && deviceAdapter.devices == ViewList(cb.deviceList)
        && status == (if cb.deviceList != [] then "Found " + NatText(|cb.deviceList|) + " Devices" else old(status))
      ensures cb.PeersAvailable? ==> effects == old(effects) && radarVisible == old(radarVisible)
      ensures cb.ConnectionInfoAvailable? ==>
        && effects == old(effects) + (if cb.info.groupFormed
             then [StopPeerDiscovery, OpenTransfer(cb.info.isGroupOwner, cb.info.groupOwnerAddress), Finish]
             else [])
        && HandOvers(effects) == HandOvers(old(effects)) + (if cb.info.groupFormed then 1 else 0)
        && status == old(status) && radarVisible == old(radarVisible)
      ensures cb.DeviceDisconnected? ==>
        && effects == old(effects) + [if isHostMode then CreateGroup else DiscoverPeers(true)]
        && status == old(status) && radarVisible == old(radarVisible)
      ensures !cb.PeersAvailable? ==> peersList == old(peersList) && deviceAdapter.devices == old(deviceAdapter.devices)
      ensures title == old(title) && registered == old(registered) && delayed == old(delayed)
    {
      match cb {
        case WifiStateEnabled(isEnabled) => OnWifiP2pStateEnabled(isEnabled);
        case PeersAvailable(deviceList) => OnPeersAvailable(deviceList);
        case ConnectionInfoAvailable(info) => OnConnectionInfoAvailable(info);
        case DeviceDisconnected => OnDeviceDisconnected();
      }
    }
  }
}
