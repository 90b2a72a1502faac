/**
 * The in-memory configuration: `Config` (which embeds wgtypes.Config) and
 * wgtypes.PeerConfig, with Go's pointers as Options and slices as sequences.
 */
module ConfigModel {
  import opened Results
  import opened KeyCodec
  import opened Net

  /** wgtypes.PeerConfig, restricted to the fields the text format reads and writes. */
  datatype PeerConfig = PeerConfig(
    publicKey: Key,
    presharedKey: Option<Key>,
    endpoint: Option<UDPAddr>,
    /** nanoseconds */
    persistentKeepaliveInterval: Option<int>,
    allowedIPs: seq<IPNet>)

  /** `wgtypes.PeerConfig{}`: what a `[Peer]` header appends. */
  const EMPTY_PEER: PeerConfig := PeerConfig(ZERO_KEY, None, None, None, [])

  /** Config: the wg-quick interface settings and its peers. */
  datatype Config = Config(
    privateKey: Option<Key>,
    listenPort: Option<int>,
    peers: seq<PeerConfig>,
    address: seq<IPNet>,
    dns: seq<IP>,
    mtu: int,
    /** None is `off`; Some(0) is the default table */
    table: Option<int>,
    preUp: seq<string>,
    postUp: seq<string>,
    preDown: seq<string>,
    postDown: seq<string>,
    routeProtocol: int,
    routeMetric: int,
    addressLabel: string,
    saveConfig: bool,
    wgBin: string)

  /**
   * newConfig: every field at its zero value except Table, which points at a
   * zero: the default routing table is present, not switched off.
   */
  function NewConfig(): (c: Config)
    ensures c.table == Some(0)
    ensures c.peers == [] && c.address == [] && c.dns == []
    ensures c.preUp == [] && c.postUp == [] && c.preDown == [] && c.postDown == []
    ensures c.privateKey.None? && c.listenPort.None? && c.mtu == 0 && !c.saveConfig
  {
    Config(None, None, [], [], [], 0, Some(0), [], [], [], [], 0, 0, "", false, "")
  }

  /** The peer a `[Peer]` section is filling in: always the last one appended. */
  function LastPeer(c: Config): PeerConfig
    requires |c.peers| > 0
  {
    c.peers[|c.peers| - 1]
  }

  /** Replaces the last peer, leaving every earlier peer and every interface field alone. */
  function WithLastPeer(c: Config, p: PeerConfig): (r: Config)
    requires |c.peers| > 0
    ensures |r.peers| == |c.peers| && LastPeer(r) == p
    ensures forall i | 0 <= i < |c.peers| - 1 :: r.peers[i] == c.peers[i]
    ensures r.(peers := c.peers) == c
  {
    c.(peers := c.peers[..|c.peers| - 1] + [p])
  }

  /** Appends a fresh, empty peer, leaving every earlier peer and every interface field alone. */
  function WithNewPeer(c: Config): (r: Config)
    ensures r.peers == c.peers + [EMPTY_PEER]
    ensures r.(peers := c.peers) == c
  {
    c.(peers := c.peers + [EMPTY_PEER])
  }
}
