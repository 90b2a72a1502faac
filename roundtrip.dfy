/**
 * What the decoder reads back from the text the encoder writes.
 *
 * For a configuration whose every value prints on one line and parses back
 * (`Encodable`), decoding the corrected rendering gives back `Reencoded`:
 * the same keys, addresses, DNS servers, port, MTU, table, peers and
 * SaveConfig flag, with hook lists as one entry holding their printed form
 * and keepalive intervals in whole seconds. The template as written gives
 * the same back as long as every peer has allowed IPs, except that a
 * switched-off table comes back as the default table; a peer without
 * allowed IPs makes its own output unreadable.
 */
module RoundTrip {
  import opened Results
  import opened GoStrings
  import opened KeyCodec
  import opened Net
  import opened ConfigModel
  import opened TextDecoder
  import opened TextEncoder
  import opened DecodeRuns
  import opened FieldGrammar
  import opened ReadBack
  import Durations

  /** The whole layout is writable. */
  lemma LayoutWritable(c: Config, key: Key, lib: NetLib, dialect: Dialect)
    requires Encodable(c, lib)
    ensures AllWritable(Layout(c, key, lib, dialect))
  {
    InterfaceHeadWritable(c, key, lib);
    InterfaceSettingsWritable(c, dialect);
    AllWritableConcat(InterfaceHead(c, key, lib), InterfaceSettings(c, dialect));
    PeersLinesWritable(c.peers, 0, lib, dialect);
    AllWritableConcat(InterfaceLines(c, key, lib, dialect), PeersLines(c.peers, 0, lib, dialect));
  }

  /** The decoder reads a text as the loop over its layout and a last, blank line. */
  lemma DecodeLayout(c: Config, key: Key, lib: NetLib, dialect: Dialect)
    requires Encodable(c, lib)
    ensures Decode(Text(Layout(c, key, lib, dialect)), lib)
         == (match RunAll(START, Layout(c, key, lib, dialect) + [Blank], WgQuick(lib))
             case Err(e) => Err(e)
             case Ok(d) => Ok(d.cfg))
  {
    LayoutWritable(c, key, lib, dialect);
    LinesOfText(Layout(c, key, lib, dialect));
  }

  /** Every peer section, from the interface section, appends the peers as they come back. */
  lemma RunAllPeers(c0: Config, c: Config, lib: NetLib, dialect: Dialect)
    requires c0.peers == [] && Encodable(c, lib)
    requires dialect == AsWritten ==> forall i | 0 <= i < |c.peers| :: c.peers[i].allowedIPs != []
    ensures RunAll(Decoding(c0, Inter), PeersLines(c.peers, 0, lib, dialect), WgQuick(lib)).Ok?
    ensures RunAll(Decoding(c0, Inter), PeersLines(c.peers, 0, lib, dialect), WgQuick(lib)).value.cfg
         == c0.(peers := Map(c.peers, Repeer))
  {
    RunPeersFrom(c0, Inter, c.peers, 0, dialect, lib);
    assert c0.peers + RepeersFrom(c.peers, 0) == Map(c.peers, Repeer);
  }

  /** The defaults, with the head and then the settings of `c` read back, are the interface of `Reencoded`. */
  lemma InterfaceOfReencoded(c: Config, dialect: Dialect)
    requires c.privateKey.Some?
    ensures var c0 := NewConfig();
      Settled(c0.(address := c0.address + c.address, dns := c0.dns + c.dns, privateKey := c.privateKey), c, dialect)
      == Reencoded(c, dialect).(peers := [])
  {
    var c0 := NewConfig();
    assert c0.address + c.address == c.address && c0.dns + c.dns == c.dns;
  }

  /** The interface section, from the start, reads back as the interface of `Reencoded`. */
  lemma RunInterface(c: Config, lib: NetLib, dialect: Dialect)
    requires Encodable(c, lib)
    ensures RunAll(START, InterfaceLines(c, c.privateKey.value, lib, dialect), WgQuick(lib))
         == Ok(Decoding(Reencoded(c, dialect).(peers := []), Inter))
  {
    var key := c.privateKey.value;
    var c0 := NewConfig();
    var c1 := c0.(address := c0.address + c.address, dns := c0.dns + c.dns, privateKey := Some(key));
    RunInterfaceHead(c0, Unknown, c, key, lib);
    RunSettings(c1, c, dialect, lib);
    RunThen(START, InterfaceHead(c, key, lib), InterfaceSettings(c, dialect), WgQuick(lib),
      Decoding(c1, Inter), Decoding(Settled(c1, c, dialect), Inter));
    InterfaceOfReencoded(c, dialect);
  }

  /**
   * The round trip: the text a rendering writes for an encodable
   * configuration decodes to `Reencoded`. The template as written needs
   * every peer to have allowed IPs.
   */
  lemma DecodeRendered(c: Config, lib: NetLib, dialect: Dialect)
    requires Encodable(c, lib)
    requires dialect == AsWritten ==> forall i | 0 <= i < |c.peers| :: c.peers[i].allowedIPs != []
    ensures Decode(Text(Layout(c, c.privateKey.value, lib, dialect)), lib) == Ok(Reencoded(c, dialect))
  {
    var g := WgQuick(lib);
    var key := c.privateKey.value;
    var inter := InterfaceLines(c, key, lib, dialect);
    var peers := PeersLines(c.peers, 0, lib, dialect);
    var ci := Reencoded(c, dialect).(peers := []);
    RunInterface(c, lib, dialect);
    RunAllPeers(ci, c, lib, dialect);
    var d2 := RunAll(Decoding(ci, Inter), peers, g).value;
    RunThen(START, inter, peers, g, Decoding(ci, Inter), d2);
    RunOne(d2, Blank, g);
    RunThen(START, inter + peers, [Blank], g, d2, d2);
    DecodeLayout(c, key, lib, dialect);
  }

  /**
   * MarshalText, then UnmarshalText: an encodable configuration whose peers
   * all have allowed IPs comes back as `Reencoded` says.
   */
  lemma MarshalUnmarshal(c: Config, lib: NetLib)
    requires Encodable(c, lib)
    requires forall i | 0 <= i < |c.peers| :: c.peers[i].allowedIPs != []
    ensures MarshalText(c, lib).Ok?
    ensures Decode(MarshalText(c, lib).value, lib) == Ok(Reencoded(c, AsWritten))
  {
    DecodeRendered(c, lib, AsWritten);
  }

  /** The corrected rendering, then UnmarshalText: every encodable configuration comes back, table included. */
  lemma MarshalUnmarshalCorrected(c: Config, lib: NetLib)
    requires Encodable(c, lib)
    ensures MarshalTextCorrected(c, lib).Ok?
    ensures Decode(MarshalTextCorrected(c, lib).value, lib) == Ok(Reencoded(c, Corrected))
    ensures Decode(MarshalTextCorrected(c, lib).value, lib).value.table == c.table
  {
    DecodeRendered(c, lib, Corrected);
  }

  /** A keepalive interval of whole seconds survives; so does a peer whose interval is one, or unset. */
  lemma RepeerWholeSeconds(p: PeerConfig)
    requires p.persistentKeepaliveInterval.Some? ==>
      StrConv.InInt64(p.persistentKeepaliveInterval.value) && p.persistentKeepaliveInterval.value % Durations.SECOND == 0
    ensures Repeer(p) == p
  {
    if p.persistentKeepaliveInterval.Some? {
      Durations.FromSecondsToSeconds(p.persistentKeepaliveInterval.value);
    }
  }

  /**
   * A configuration in the form the text keeps exactly: no hooks, keepalive
   * intervals in whole seconds, and the fields the template never writes
   * at their defaults.
   */
  ghost predicate Canonical(c: Config) {
    && c.preUp == [] && c.postUp == [] && c.preDown == [] && c.postDown == []
    && c.routeProtocol == 0 && c.routeMetric == 0 && c.addressLabel == "" && c.wgBin == ""
    && forall i | 0 <= i < |c.peers| :: c.peers[i].persistentKeepaliveInterval.Some? ==>
         c.peers[i].persistentKeepaliveInterval.value % Durations.SECOND == 0
  }

  /** Peers with whole-second keepalive intervals all survive. */
  lemma RepeersWholeSeconds(peers: seq<PeerConfig>)
    requires forall i | 0 <= i < |peers| :: peers[i].persistentKeepaliveInterval.Some? ==>
      StrConv.InInt64(peers[i].persistentKeepaliveInterval.value) && peers[i].persistentKeepaliveInterval.value % Durations.SECOND == 0
    ensures Map(peers, Repeer) == peers
  {
    var ps := Map(peers, Repeer);
    forall i | 0 <= i < |peers|
      ensures ps[i] == peers[i]
    {
      RepeerWholeSeconds(peers[i]);
    }
  }

  /** A canonical configuration is its own read-back under the corrected template. */
  lemma ReencodedCanonical(c: Config, lib: NetLib)
    requires Encodable(c, lib) && Canonical(c)
    ensures Reencoded(c, Corrected) == c
  {
    forall i | 0 <= i < |c.peers|
      ensures c.peers[i].persistentKeepaliveInterval.Some? ==> StrConv.InInt64(c.peers[i].persistentKeepaliveInterval.value)
    {
      assert PeerEncodable(c.peers[i], lib);
    }
    RepeersWholeSeconds(c.peers);
  }

  /** The corrected rendering is undone exactly by the decoder on canonical configurations. */
  lemma MarshalUnmarshalExact(c: Config, lib: NetLib)
    requires Encodable(c, lib) && Canonical(c)
    ensures Decode(MarshalTextCorrected(c, lib).value, lib) == Ok(c)
  {
    MarshalUnmarshalCorrected(c, lib);
    ReencodedCanonical(c, lib);
  }

  // ---------------------------------------------------------------------
  // Where the template as written loses information
  // ---------------------------------------------------------------------

  /**
   * A switched-off routing table does not survive the template: nothing is
   * written for it, and the decoder's default is table 0.
   */
  lemma TableOffLost(c: Config, lib: NetLib)
    requires Encodable(c, lib) && c.table.None?
    requires forall i | 0 <= i < |c.peers| :: c.peers[i].allowedIPs != []
    ensures Decode(MarshalText(c, lib).value, lib).Ok?
    ensures Decode(MarshalText(c, lib).value, lib).value.table == Some(0) != c.table
  {
    MarshalUnmarshal(c, lib);
  }

  /** An empty `AllowedIPs` value is refused, when the library refuses an empty prefix. */
  lemma EmptyAllowedIPsRefused(p0: PeerConfig, lib: NetLib)
    requires lib.parseCIDR("") == None
    ensures PeerLine(p0, "AllowedIPs", "", lib) == Err(InvalidAddress)
  {
    SplitNone("", ',');
    assert TrimSpace("") == "";
    assert [""][0] == "";
    assert ParseList([""], Trimmed(lib.parseCIDR)) == None;
  }

  /** A peer field the grammar refuses stops the decoder. */
  lemma RunPeerFieldFail(c: Config, p0: PeerConfig, lhs: string, rhs: string, lib: NetLib)
    requires PeerLine(p0, lhs, rhs, lib).Err?
    ensures RunAll(Decoding(c.(peers := c.peers + [p0]), Peer), [Field(lhs, rhs)], WgQuick(lib)).Err?
  {
    var c0 := c.(peers := c.peers + [p0]);
    assert LastPeer(c0) == p0;
    RunOne(Decoding(c0, Peer), Field(lhs, rhs), WgQuick(lib));
  }

  /** The `AllowedIPs` line written for a peer with none stops the decoder. */
  lemma EmptyAllowedIPsLine(c: Config, p0: PeerConfig, lib: NetLib)
    requires lib.parseCIDR("") == None
    ensures RunAll(Decoding(c.(peers := c.peers + [p0]), Peer), AllowedIPsLines(Map([], lib.ipNetString), AsWritten), WgQuick(lib)).Err?
  {
    assert AllowedIPsLines(Map([], lib.ipNetString), AsWritten) == [Field("AllowedIPs", "")];
    EmptyAllowedIPsRefused(p0, lib);
    RunPeerFieldFail(c, p0, "AllowedIPs", "", lib);
  }

  /** The section the template writes for a peer with no allowed IPs does not read back. */
  lemma PeerLinesFail(c: Config, s: ParseState, p: PeerConfig, lib: NetLib)
    requires Consistent(Decoding(c, s)) && p.allowedIPs == [] && lib.parseCIDR("") == None
    ensures RunAll(Decoding(c, s), PeerLines(p, lib, AsWritten), WgQuick(lib)).Err?
  {
    var g := WgQuick(lib);
    var d := Decoding(c, s);
    var q1 := EMPTY_PEER.(publicKey := p.publicKey);
    var l1 := PeerHead(p);
    var l2 := AllowedIPsLines(Map(p.allowedIPs, lib.ipNetString), AsWritten);
    var l3 := PresharedKeyLines(p.presharedKey);
    var l4 := KeepaliveLines(p.persistentKeepaliveInterval);
    var l5 := EndpointLines(p.endpoint, lib);
    RunPeerHead(c, s, p, lib);
    EmptyAllowedIPsLine(c, q1, lib);
    RunThenFail(d, l1, l2, g, Decoding(c.(peers := c.peers + [q1]), Peer));
    RunFailThen(d, l1 + l2, l3, g);
    RunFailThen(d, l1 + l2 + l3, l4, g);
    RunFailThen(d, l1 + l2 + l3 + l4, l5, g);
  }

  /** The peer sections from `from` on do not read back when one of them has no allowed IPs. */
  lemma {:induction false} PeersLinesFail(c: Config, s: ParseState, peers: seq<PeerConfig>, from: nat, i: nat, lib: NetLib)
    requires Consistent(Decoding(c, s)) && from <= i < |peers|
    requires forall k | from <= k < |peers| :: PeerEncodable(peers[k], lib)
    requires peers[i].allowedIPs == [] && lib.parseCIDR("") == None
    ensures RunAll(Decoding(c, s), PeersLines(peers, from, lib, AsWritten), WgQuick(lib)).Err?
    decreases i - from
  {
    var g := WgQuick(lib);
    var d := Decoding(c, s);
    var here := PeerLines(peers[from], lib, AsWritten);
    var rest := PeersLines(peers, from + 1, lib, AsWritten);
    if peers[from].allowedIPs == [] {
      PeerLinesFail(c, s, peers[from], lib);
      RunFailThen(d, here, rest, g);
    } else {
      var c1 := c.(peers := c.peers + [Repeer(peers[from])]);
      RunPeer(c, s, peers[from], AsWritten, lib);
      assert from != i;
      assert Consistent(Decoding(c1, Peer)) by {
        assert |c1.peers| == |c.peers| + 1;
      }
      PeersLinesFail(c1, Peer, peers, from + 1, i, lib);
      RunThenFail(d, here, rest, g, Decoding(c1, Peer));
    }
  }

  /**
   * A peer with no allowed IPs makes the template's output unreadable: it
   * writes `AllowedIPs = ` and the decoder refuses the empty prefix.
   */
  lemma EmptyAllowedIPsRejected(c: Config, lib: NetLib, i: nat)
    requires Encodable(c, lib) && i < |c.peers| && c.peers[i].allowedIPs == []
    requires lib.parseCIDR("") == None
    ensures MarshalText(c, lib).Ok?
    ensures Decode(MarshalText(c, lib).value, lib).Err?
  {
    var g := WgQuick(lib);
    var key := c.privateKey.value;
    var inter := InterfaceLines(c, key, lib, AsWritten);
    var peers := PeersLines(c.peers, 0, lib, AsWritten);
    var ci := Reencoded(c, AsWritten).(peers := []);
    RunInterface(c, lib, AsWritten);
    PeersLinesFail(ci, Inter, c.peers, 0, i, lib);
    RunThenFail(START, inter, peers, g, Decoding(ci, Inter));
    RunFailThen(START, inter + peers, [Blank], g);
    DecodeLayout(c, key, lib, AsWritten);
  }
}
