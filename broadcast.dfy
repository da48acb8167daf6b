/**
 * DirectBroadcastReceiver: sorts the platform's Wi-Fi Direct broadcasts into the
 * callbacks of the discovery screen (WifiP2pActionCallback).
 */
module Broadcast {
  import opened Records

  const WIFI_P2P_STATE_CHANGED_ACTION: string := "android.net.wifi.p2p.STATE_CHANGED"
  const WIFI_P2P_PEERS_CHANGED_ACTION: string := "android.net.wifi.p2p.PEERS_CHANGED"
  const WIFI_P2P_CONNECTION_CHANGED_ACTION: string := "android.net.wifi.p2p.CONNECTION_STATE_CHANGE"
  const WIFI_P2P_THIS_DEVICE_CHANGED_ACTION: string := "android.net.wifi.p2p.THIS_DEVICE_CHANGED"

  /** WifiP2pManager.WIFI_P2P_STATE_ENABLED. */
  const WIFI_P2P_STATE_ENABLED: int := 2

  /** WifiP2pDevice: the fields the app reads. */
  datatype P2pDevice = P2pDevice(deviceName: string, deviceAddress: string, status: int)

  /** WifiP2pInfo: whether a group formed, whether this device owns it, the owner's address. */
  datatype P2pInfo = P2pInfo(groupFormed: bool, isGroupOwner: bool, groupOwnerAddress: Option<string>)

  datatype NetworkInfo = NetworkInfo(isConnected: bool)

  /** A broadcast: its action and the extras the receiver reads, each of which may be missing. */
  datatype Intent = Intent(action: Option<string>, wifiState: Option<int>, networkInfo: Option<NetworkInfo>)

  /** The calls of WifiP2pActionCallback. */
  datatype Callback =
    | WifiStateEnabled(isEnabled: bool)
    | PeersAvailable(deviceList: seq<P2pDevice>)
    | ConnectionInfoAvailable(info: P2pInfo)
    | DeviceDisconnected

  /** The three actions onReceive answers; THIS_DEVICE_CHANGED is only logged. */
  predicate Handled(action: Option<string>)
  {
    action == Some(WIFI_P2P_STATE_CHANGED_ACTION) || action == Some(WIFI_P2P_PEERS_CHANGED_ACTION)
    || action == Some(WIFI_P2P_CONNECTION_CHANGED_ACTION)
  }

  /**
   * onReceive. `peers` and `info` are what the manager answers to requestPeers and
   * requestConnectionInfo; the answer is forwarded as it comes.
   */
  function OnReceive(intent: Intent, peers: seq<P2pDevice>, info: P2pInfo): (r: Option<Callback>)
    ensures intent.action == Some(WIFI_P2P_STATE_CHANGED_ACTION) ==>
      r.Some? && r.value.WifiStateEnabled? && (r.value.isEnabled <==> intent.wifiState == Some(WIFI_P2P_STATE_ENABLED))
    ensures intent.action == Some(WIFI_P2P_PEERS_CHANGED_ACTION) ==> r == Some(PeersAvailable(peers))
    ensures intent.action == Some(WIFI_P2P_CONNECTION_CHANGED_ACTION) ==>
      && (r == Some(ConnectionInfoAvailable(info)) <==> intent.networkInfo == Some(NetworkInfo(true)))
      && (r == Some(DeviceDisconnected) <==> intent.networkInfo != Some(NetworkInfo(true)))
    ensures r.None? <==> !Handled(intent.action)
  {
    if intent.action == Some(WIFI_P2P_STATE_CHANGED_ACTION) then
      var state := if intent.wifiState.Some? then intent.wifiState.value else -1;  // getIntExtra(..., -1)
      Some(WifiStateEnabled(state == WIFI_P2P_STATE_ENABLED))
    else if intent.action == Some(WIFI_P2P_PEERS_CHANGED_ACTION) then
      Some(PeersAvailable(peers))
    else if intent.action == Some(WIFI_P2P_CONNECTION_CHANGED_ACTION) then
      if intent.networkInfo.Some? && intent.networkInfo.value.isConnected then Some(ConnectionInfoAvailable(info))
      else Some(DeviceDisconnected)
    else
      None  // THIS_DEVICE_CHANGED only logs; anything else is not handled
  }
}
