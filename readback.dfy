/**
 * Reading back, section by section, the lines the template writes.
 *
 * A value reads back when the library's formatter prints it on one line,
 * without white space at either end or a comma inside, and the library's
 * parser gives the value back (`Prints`). A configuration whose values all
 * do (`Encodable`) is read back as `Reencoded` says: hook lists come back
 * as one entry holding their printed form, keepalive intervals in whole
 * seconds, and a switched-off table as the default table unless the
 * rendering writes `Table = off`.
 */
module ReadBack {
  import opened Results
  import opened GoStrings
  import opened StrConv
  import opened KeyCodec
  import opened Net
  import opened ConfigModel
  import opened FieldGrammar
  import opened TextDecoder
  import opened TextEncoder
  import opened DecodeRuns
  import opened CommaLists
  import Durations

  // ---------------------------------------------------------------------
  // What reads back, and as what
  // ---------------------------------------------------------------------

  /** `show` prints `x` as a list element that `parse` reads back as `x`. */
  ghost predicate Prints<T>(x: T, show: T -> string, parse: string -> Option<T>) {
    CleanItem(show(x)) && parse(show(x)) == Some(x)
  }

  /** Every element of `xs` prints and reads back. */
  ghost predicate AllPrint<T>(xs: seq<T>, show: T -> string, parse: string -> Option<T>) {
    forall i | 0 <= i < |xs| :: Prints(xs[i], show, parse)
  }

  /** A hook list whose printed form lies on one line. */
  predicate HookPrints(hooks: seq<string>) {
    '\n' !in SliceString(hooks)
  }

  /** A peer whose allowed IPs, keepalive interval and endpoint all read back. */
  ghost predicate PeerEncodable(p: PeerConfig, lib: NetLib) {
    && AllPrint(p.allowedIPs, lib.ipNetString, lib.parseCIDR)
    && (p.persistentKeepaliveInterval.Some? ==> InInt64(p.persistentKeepaliveInterval.value))
    && (p.endpoint.Some? ==>
          Clean(lib.udpAddrString(p.endpoint.value))
          && lib.resolveUDPAddr(lib.udpAddrString(p.endpoint.value)) == p.endpoint)
  }

  /**
   * A configuration the template can write and whose every value reads
   * back: a private key, 64-bit integers (Go's `int`), and addresses, DNS
   * servers, hooks and peers that print on one line and parse back.
   */
  ghost predicate Encodable(c: Config, lib: NetLib) {
    && c.privateKey.Some?
    && AllPrint(c.address, lib.ipNetString, lib.parseCIDR)
    && AllPrint(c.dns, lib.ipString, lib.parseIP)
    && (c.listenPort.Some? ==> InInt64(c.listenPort.value))
    && InInt64(c.mtu)
    && (c.table.Some? ==> InInt64(c.table.value))
    && HookPrints(c.preUp) && HookPrints(c.postUp) && HookPrints(c.preDown) && HookPrints(c.postDown)
    && forall i | 0 <= i < |c.peers| :: PeerEncodable(c.peers[i], lib)
  }

  /** A hook list comes back as one entry: its printed form. */
  function Rehook(hooks: seq<string>): (r: seq<string>)
    ensures |r| <= 1
  {
    if hooks == [] then [] else [SliceString(hooks)]
  }

  /** The table that comes back: a switched-off one only where `Table = off` is written. */
  function Retable(table: Option<int>, dialect: Dialect): (r: Option<int>)
    ensures table.Some? ==> r == table
    ensures dialect == Corrected ==> r == table
  {
    if table.None? && dialect == AsWritten then Some(0) else table
  }

  /** A keepalive interval comes back truncated to whole seconds. */
  function Rekeepalive(interval: Option<int>): (r: Option<int>)
    ensures r.None? <==> interval.None?
  {
    match interval
    case None => None
    case Some(d) => Some(Durations.FromSeconds(Durations.ToSeconds(d)))
  }

  /** The peer that comes back. */
  function Repeer(p: PeerConfig): PeerConfig {
    p.(persistentKeepaliveInterval := Rekeepalive(p.persistentKeepaliveInterval))
  }

  /** The configuration that comes back; the fields the template never writes are at their defaults. */
  function Reencoded(c: Config, dialect: Dialect): Config {
    Config(
      privateKey := c.privateKey,
      listenPort := c.listenPort,
      peers := Map(c.peers, Repeer),
      address := c.address,
      dns := c.dns,
      mtu := c.mtu,
      table := Retable(c.table, dialect),
      preUp := Rehook(c.preUp),
      postUp := Rehook(c.postUp),
      preDown := Rehook(c.preDown),
      postDown := Rehook(c.postDown),
      routeProtocol := 0,
      routeMetric := 0,
      addressLabel := "",
      saveConfig := c.saveConfig,
      wgBin := "")
  }

  // ---------------------------------------------------------------------
  // One line
  // ---------------------------------------------------------------------

  /** An interface field the grammar accepts moves the decoder to the updated configuration. */
  lemma RunInterfaceField(c: Config, lhs: string, rhs: string, lib: NetLib, c1: Config)
    requires InterfaceLine(c, lhs, rhs, lib) == Ok(c1)
    ensures RunAll(Decoding(c, Inter), [Field(lhs, rhs)], WgQuick(lib)) == Ok(Decoding(c1, Inter))
  {
    RunOne(Decoding(c, Inter), Field(lhs, rhs), WgQuick(lib));
  }

  /** A peer field the grammar accepts updates the last peer and nothing else. */
  lemma RunPeerField(c: Config, p0: PeerConfig, lhs: string, rhs: string, lib: NetLib, p1: PeerConfig)
    requires PeerLine(p0, lhs, rhs, lib) == Ok(p1)
    ensures RunAll(Decoding(c.(peers := c.peers + [p0]), Peer), [Field(lhs, rhs)], WgQuick(lib))
         == Ok(Decoding(c.(peers := c.peers + [p1]), Peer))
  {
    var c0 := c.(peers := c.peers + [p0]);
    assert LastPeer(c0) == p0;
    assert (c.peers + [p0])[..|c.peers|] == c.peers;
    assert WithLastPeer(c0, p1) == c.(peers := c.peers + [p1]);
    RunOne(Decoding(c0, Peer), Field(lhs, rhs), WgQuick(lib));
  }

  /** An optional interface line: none leaves the configuration alone, one is read as the grammar says. */
  lemma RunInterfaceOptional(c: Config, lines: seq<Line>, lhs: string, rhs: string, lib: NetLib, c1: Config)
    requires lines == [] ==> c1 == c
    requires lines != [] ==> lines == [Field(lhs, rhs)] && InterfaceLine(c, lhs, rhs, lib) == Ok(c1)
    ensures RunAll(Decoding(c, Inter), lines, WgQuick(lib)) == Ok(Decoding(c1, Inter))
  {
    if lines != [] {
      RunInterfaceField(c, lhs, rhs, lib, c1);
    }
  }

  /** An optional peer line: none leaves the peer alone, one is read as the grammar says. */
  lemma RunPeerOptional(c: Config, p0: PeerConfig, lines: seq<Line>, lhs: string, rhs: string, lib: NetLib, p1: PeerConfig)
    requires lines == [] ==> p1 == p0
    requires lines != [] ==> lines == [Field(lhs, rhs)] && PeerLine(p0, lhs, rhs, lib) == Ok(p1)
    ensures RunAll(Decoding(c.(peers := c.peers + [p0]), Peer), lines, WgQuick(lib))
         == Ok(Decoding(c.(peers := c.peers + [p1]), Peer))
  {
    if lines != [] {
      RunPeerField(c, p0, lhs, rhs, lib, p1);
    }
  }

  // ---------------------------------------------------------------------
  // Values
  // ---------------------------------------------------------------------

  /** A text without the separator splits into itself. */
  lemma SplitNone(s: string, sep: char)
    requires sep !in s
    ensures Split(s, sep) == [s]
  {
  }

  /** A printed element, alone on its line, reads back as a one-element list. */
  lemma ParseSingle<T>(x: T, show: T -> string, parse: string -> Option<T>)
    requires Prints(x, show, parse)
    ensures ParseList(Split(show(x), ','), Trimmed(parse)) == Some([x])
  {
    var s := show(x);
    SplitNone(s, ',');
    assert [s][0] == s;
    assert Trimmed(parse)(s) == parse(s) == Some(x);
    assert ParseFrom([s], 1, Trimmed(parse)) == Some([]);
    assert [x] + [] == [x];
  }

  /** An `Address` line adds its address. */
  lemma AddressLine(c: Config, x: IPNet, lib: NetLib)
    requires Prints(x, lib.ipNetString, lib.parseCIDR)
    ensures InterfaceLine(c, "Address", lib.ipNetString(x), lib) == Ok(c.(address := c.address + [x]))
  {
    ParseSingle(x, lib.ipNetString, lib.parseCIDR);
  }

  /** A `DNS` line adds its server. */
  lemma DnsLine(c: Config, x: IP, lib: NetLib)
    requires Prints(x, lib.ipString, lib.parseIP)
    ensures InterfaceLine(c, "DNS", lib.ipString(x), lib) == Ok(c.(dns := c.dns + [x]))
  {
    ParseSingle(x, lib.ipString, lib.parseIP);
  }

  /** The decoder, in the interface section, reads an `Address` line as its address. */
  lemma StepAddress(c: Config, x: IPNet, no: nat, lib: NetLib)
    requires Prints(x, lib.ipNetString, lib.parseCIDR)
    ensures Step(Decoding(c, Inter), Field("Address", lib.ipNetString(x)), no, WgQuick(lib))
         == Ok(Decoding(c.(address := c.address + [x]), Inter))
  {
    AddressLine(c, x, lib);
  }

  /** Appending the element at `i`, then the ones after it, appends the elements from `i` on. */
  lemma AppendSlice<T>(a: seq<T>, xs: seq<T>, i: nat)
    requires i < |xs|
    ensures (a + [xs[i]]) + xs[i + 1..] == a + xs[i..]
  {
    assert xs[i..] == [xs[i]] + xs[i + 1..];
  }

  /** The `Address` lines from index `from` on add the addresses from `from` on, in order. */
  lemma {:induction false} RunAddressesFrom(c: Config, xs: seq<IPNet>, from: nat, lib: NetLib)
    requires from <= |xs| && AllPrint(xs, lib.ipNetString, lib.parseCIDR)
    ensures Run(Decoding(c, Inter), Each("Address", Map(xs, lib.ipNetString)), from, |xs|, WgQuick(lib))
         == Ok(Decoding(c.(address := c.address + xs[from..]), Inter))
    decreases |xs| - from
  {
    if from == |xs| {
      assert c.address + xs[from..] == c.address;
    } else {
      var lines := Each("Address", Map(xs, lib.ipNetString));
      var c1 := c.(address := c.address + [xs[from]]);
      assert lines[from] == Field("Address", lib.ipNetString(xs[from]));
      assert Prints(xs[from], lib.ipNetString, lib.parseCIDR);
      AppendSlice(c.address, xs, from);
      StepAddress(c, xs[from], from, lib);
      RunAddressesFrom(c1, xs, from + 1, lib);
    }
  }

  /** One `Address` line per address adds the addresses, in order. */
  lemma RunAddresses(c: Config, xs: seq<IPNet>, lib: NetLib)
    requires AllPrint(xs, lib.ipNetString, lib.parseCIDR)
    ensures RunAll(Decoding(c, Inter), Each("Address", Map(xs, lib.ipNetString)), WgQuick(lib))
         == Ok(Decoding(c.(address := c.address + xs), Inter))
  {
    RunAddressesFrom(c, xs, 0, lib);
    assert xs[0..] == xs;
  }
  /** The decoder, in the interface section, reads a `DNS` line as its server. */
  lemma StepDns(c: Config, x: IP, no: nat, lib: NetLib)
    requires Prints(x, lib.ipString, lib.parseIP)
    ensures Step(Decoding(c, Inter), Field("DNS", lib.ipString(x)), no, WgQuick(lib))
         == Ok(Decoding(c.(dns := c.dns + [x]), Inter))
  {
    DnsLine(c, x, lib);
  }

  /** The `DNS` lines from index `from` on add the servers from `from` on, in order. */
  lemma {:induction false} RunDnsFrom(c: Config, xs: seq<IP>, from: nat, lib: NetLib)
    requires from <= |xs| && AllPrint(xs, lib.ipString, lib.parseIP)
    ensures Run(Decoding(c, Inter), Each("DNS", Map(xs, lib.ipString)), from, |xs|, WgQuick(lib))
         == Ok(Decoding(c.(dns := c.dns + xs[from..]), Inter))
    decreases |xs| - from
  {
    if from == |xs| {
      assert c.dns + xs[from..] == c.dns;
    } else {
      var lines := Each("DNS", Map(xs, lib.ipString));
      var c1 := c.(dns := c.dns + [xs[from]]);
      assert lines[from] == Field("DNS", lib.ipString(xs[from]));
      assert Prints(xs[from], lib.ipString, lib.parseIP);
      AppendSlice(c.dns, xs, from);
      StepDns(c, xs[from], from, lib);
      RunDnsFrom(c1, xs, from + 1, lib);
    }
  }

  /** One `DNS` line per server adds the servers, in order. */
  lemma RunDns(c: Config, xs: seq<IP>, lib: NetLib)
    requires AllPrint(xs, lib.ipString, lib.parseIP)
    ensures RunAll(Decoding(c, Inter), Each("DNS", Map(xs, lib.ipString)), WgQuick(lib))
         == Ok(Decoding(c.(dns := c.dns + xs), Inter))
  {
    RunDnsFrom(c, xs, 0, lib);
    assert xs[0..] == xs;
  }

  /** The `PrivateKey` line sets the key it serializes. */
  lemma RunPrivateKey(c: Config, key: Key, lib: NetLib)
    ensures RunAll(Decoding(c, Inter), [Field("PrivateKey", SerializeKey(key))], WgQuick(lib))
         == Ok(Decoding(c.(privateKey := Some(key)), Inter))
  {
    ParseKeySerializeKey(key);
    RunInterfaceField(c, "PrivateKey", SerializeKey(key), lib, c.(privateKey := Some(key)));
  }

  /** The `ListenPort` line, when written, sets the port. */
  lemma RunListenPort(c: Config, port: Option<int>, lib: NetLib)
    requires c.listenPort.None? && (port.Some? ==> InInt64(port.value))
    ensures RunAll(Decoding(c, Inter), ListenPortLines(port), WgQuick(lib))
         == Ok(Decoding(c.(listenPort := port), Inter))
  {
    if port.Some? {
      ParseIntFormatInt(port.value);
    }
    RunInterfaceOptional(c, ListenPortLines(port), "ListenPort",
      if port.Some? then FormatInt(port.value) else "", lib, c.(listenPort := port));
  }

  /** The `MTU` line, when written, sets the MTU; a zero MTU is not written and stays zero. */
  lemma RunMtu(c: Config, mtu: int, lib: NetLib)
    requires c.mtu == 0 && InInt64(mtu)
    ensures RunAll(Decoding(c, Inter), MtuLines(mtu), WgQuick(lib)) == Ok(Decoding(c.(mtu := mtu), Inter))
  {
    ParseIntFormatInt(mtu);
    RunInterfaceOptional(c, MtuLines(mtu), "MTU", FormatInt(mtu), lib, c.(mtu := mtu));
  }

  /** A formatted integer is never `off`: it starts with a digit or a minus sign. */
  lemma FormatIntNotOff(n: int)
    ensures !IsOff(FormatInt(n))
  {
    var s := FormatInt(n);
    assert ToLower(s)[0] == LowerChar(s[0]);
    assert "off"[0] == 'o';
  }

  /** `off` is `off`. */
  lemma OffIsOff()
    ensures IsOff("off")
  {
    var s := "off";
    assert ToLower(s)[0] == 'o' && ToLower(s)[1] == 'f' && ToLower(s)[2] == 'f';
  }

  /** The `Table` line, when written, sets the table; the default table stays where nothing is written. */
  lemma RunTable(c: Config, table: Option<int>, dialect: Dialect, lib: NetLib)
    requires c.table == Some(0) && (table.Some? ==> InInt64(table.value))
    ensures RunAll(Decoding(c, Inter), TableLines(table, dialect), WgQuick(lib))
         == Ok(Decoding(c.(table := Retable(table, dialect)), Inter))
  {
    var rhs := if table.Some? then FormatInt(table.value) else "off";
    if table.Some? {
      ParseIntFormatInt(table.value);
      FormatIntNotOff(table.value);
    } else {
      OffIsOff();
    }
    RunInterfaceOptional(c, TableLines(table, dialect), "Table", rhs, lib, c.(table := Retable(table, dialect)));
  }

  /** The `PreUp` line, when written, adds the printed list as one command. */
  lemma RunPreUp(c: Config, hooks: seq<string>, lib: NetLib)
    requires c.preUp == []
    ensures RunAll(Decoding(c, Inter), HookLines("PreUp", hooks), WgQuick(lib))
         == Ok(Decoding(c.(preUp := Rehook(hooks)), Inter))
  {
    assert hooks != [] ==> c.preUp + [SliceString(hooks)] == Rehook(hooks);
    RunInterfaceOptional(c, HookLines("PreUp", hooks), "PreUp", SliceString(hooks), lib, c.(preUp := Rehook(hooks)));
  }

  /** The `PostUp` line, when written, adds the printed list as one command. */
  lemma RunPostUp(c: Config, hooks: seq<string>, lib: NetLib)
    requires c.postUp == []
    ensures RunAll(Decoding(c, Inter), HookLines("PostUp", hooks), WgQuick(lib))
         == Ok(Decoding(c.(postUp := Rehook(hooks)), Inter))
  {
    assert hooks != [] ==> c.postUp + [SliceString(hooks)] == Rehook(hooks);
    RunInterfaceOptional(c, HookLines("PostUp", hooks), "PostUp", SliceString(hooks), lib, c.(postUp := Rehook(hooks)));
  }

  /** The `PreDown` line, when written, adds the printed list as one command. */
  lemma RunPreDown(c: Config, hooks: seq<string>, lib: NetLib)
    requires c.preDown == []
    ensures RunAll(Decoding(c, Inter), HookLines("PreDown", hooks), WgQuick(lib))
         == Ok(Decoding(c.(preDown := Rehook(hooks)), Inter))
  {
    assert hooks != [] ==> c.preDown + [SliceString(hooks)] == Rehook(hooks);
    RunInterfaceOptional(c, HookLines("PreDown", hooks), "PreDown", SliceString(hooks), lib, c.(preDown := Rehook(hooks)));
  }

  /** The `PostDown` line, when written, adds the printed list as one command. */
  lemma RunPostDown(c: Config, hooks: seq<string>, lib: NetLib)
    requires c.postDown == []
    ensures RunAll(Decoding(c, Inter), HookLines("PostDown", hooks), WgQuick(lib))
         == Ok(Decoding(c.(postDown := Rehook(hooks)), Inter))
  {
    assert hooks != [] ==> c.postDown + [SliceString(hooks)] == Rehook(hooks);
    RunInterfaceOptional(c, HookLines("PostDown", hooks), "PostDown", SliceString(hooks), lib, c.(postDown := Rehook(hooks)));
  }

  /** The `SaveConfig` line, written only when it is set, sets it. */
  lemma RunSaveConfig(c: Config, save: bool, lib: NetLib)
    requires !c.saveConfig
    ensures RunAll(Decoding(c, Inter), SaveConfigLines(save), WgQuick(lib))
         == Ok(Decoding(c.(saveConfig := save), Inter))
  {
    ParseBoolFormatBool(save);
    RunInterfaceOptional(c, SaveConfigLines(save), "SaveConfig", FormatBool(save), lib, c.(saveConfig := save));
  }

  // ---------------------------------------------------------------------
  // The interface section
  // ---------------------------------------------------------------------

  /** Every setting the template writes only when it is set is at its default. */
  predicate Unset(c: Config) {
    && c.listenPort.None? && c.mtu == 0 && c.table == Some(0)
    && c.preUp == [] && c.postUp == [] && c.preDown == [] && c.postDown == []
    && !c.saveConfig
  }

  /** `c0` with the settings of `c` read back. */
  function Settled(c0: Config, c: Config, dialect: Dialect): Config {
    c0.(listenPort := c.listenPort, mtu := c.mtu, table := Retable(c.table, dialect),
        preUp := Rehook(c.preUp), postUp := Rehook(c.postUp),
        preDown := Rehook(c.preDown), postDown := Rehook(c.postDown),
        saveConfig := c.saveConfig)
  }

  /** The settings lines read back as the settings, from defaults. */
  lemma RunSettings(c0: Config, c: Config, dialect: Dialect, lib: NetLib)
    requires Unset(c0)
    requires (c.listenPort.Some? ==> InInt64(c.listenPort.value)) && InInt64(c.mtu)
    requires c.table.Some? ==> InInt64(c.table.value)
    ensures RunAll(Decoding(c0, Inter), InterfaceSettings(c, dialect), WgQuick(lib))
         == Ok(Decoding(Settled(c0, c, dialect), Inter))
  {
    var g := WgQuick(lib);
    var s1 := ListenPortLines(c.listenPort);
    var s2 := MtuLines(c.mtu);
    var s3 := TableLines(c.table, dialect);
    var s4 := HookLines("PreUp", c.preUp);
    var s5 := HookLines("PostUp", c.postUp);
    var s6 := HookLines("PreDown", c.preDown);
    var s7 := HookLines("PostDown", c.postDown);
    var s8 := SaveConfigLines(c.saveConfig);
    var c1 := c0.(listenPort := c.listenPort);
    var c2 := c1.(mtu := c.mtu);
    var c3 := c2.(table := Retable(c.table, dialect));
    var c4 := c3.(preUp := Rehook(c.preUp));
    var c5 := c4.(postUp := Rehook(c.postUp));
    var c6 := c5.(preDown := Rehook(c.preDown));
    var c7 := c6.(postDown := Rehook(c.postDown));
    var c8 := c7.(saveConfig := c.saveConfig);
    RunListenPort(c0, c.listenPort, lib);
    RunMtu(c1, c.mtu, lib);
    RunThen(Decoding(c0, Inter), s1, s2, g, Decoding(c1, Inter), Decoding(c2, Inter));
    RunTable(c2, c.table, dialect, lib);
    RunThen(Decoding(c0, Inter), s1 + s2, s3, g, Decoding(c2, Inter), Decoding(c3, Inter));
    RunPreUp(c3, c.preUp, lib);
    RunThen(Decoding(c0, Inter), s1 + s2 + s3, s4, g, Decoding(c3, Inter), Decoding(c4, Inter));
    RunPostUp(c4, c.postUp, lib);
    RunThen(Decoding(c0, Inter), s1 + s2 + s3 + s4, s5, g, Decoding(c4, Inter), Decoding(c5, Inter));
    RunPreDown(c5, c.preDown, lib);
    RunThen(Decoding(c0, Inter), s1 + s2 + s3 + s4 + s5, s6, g, Decoding(c5, Inter), Decoding(c6, Inter));
    RunPostDown(c6, c.postDown, lib);
    RunThen(Decoding(c0, Inter), s1 + s2 + s3 + s4 + s5 + s6, s7, g, Decoding(c6, Inter), Decoding(c7, Inter));
    RunSaveConfig(c7, c.saveConfig, lib);
    RunThen(Decoding(c0, Inter), s1 + s2 + s3 + s4 + s5 + s6 + s7, s8, g, Decoding(c7, Inter), Decoding(c8, Inter));
  }


  /** A printed list, comma-space joined, reads back as the list. */
  lemma ParseCommaList<T>(xs: seq<T>, show: T -> string, parse: string -> Option<T>)
    requires |xs| >= 1 && AllPrint(xs, show, parse)
    ensures ParseList(Split(Join(Map(xs, show), ", "), ','), Trimmed(parse)) == Some(xs)
  {
    var strs := Map(xs, show);
    forall i | 0 <= i < |strs|
      ensures ',' !in strs[i]
    {
      assert Prints(xs[i], show, parse);
    }
    SplitCommaList(strs);
    var items := CommaItems(strs);
    forall i | 0 <= i < |items|
      ensures Trimmed(parse)(items[i]) == Some(xs[i])
    {
      assert Prints(xs[i], show, parse);
      TrimCommaItem(strs, i);
    }
    ParseListAll(items, Trimmed(parse), xs);
  }

  /** The `[Interface]` header, addresses, DNS servers and private key read back. */
  lemma RunInterfaceHead(c0: Config, s: ParseState, c: Config, key: Key, lib: NetLib)
    requires Consistent(Decoding(c0, s))
    requires AllPrint(c.address, lib.ipNetString, lib.parseCIDR) && AllPrint(c.dns, lib.ipString, lib.parseIP)
    ensures RunAll(Decoding(c0, s), InterfaceHead(c, key, lib), WgQuick(lib))
         == Ok(Decoding(c0.(address := c0.address + c.address, dns := c0.dns + c.dns, privateKey := Some(key)), Inter))
  {
    var g := WgQuick(lib);
    var d0 := Decoding(c0, s);
    var h1 := [InterfaceHeader];
    var h2 := Each("Address", Map(c.address, lib.ipNetString));
    var h3 := Each("DNS", Map(c.dns, lib.ipString));
    var h4 := [Field("PrivateKey", SerializeKey(key))];
    var c1 := c0.(address := c0.address + c.address);
    var c2 := c1.(dns := c0.dns + c.dns);
    var c3 := c2.(privateKey := Some(key));
    RunOne(d0, InterfaceHeader, g);
    RunAddresses(c0, c.address, lib);
    RunThen(d0, h1, h2, g, Decoding(c0, Inter), Decoding(c1, Inter));
    RunDns(c1, c.dns, lib);
    RunThen(d0, h1 + h2, h3, g, Decoding(c1, Inter), Decoding(c2, Inter));
    RunPrivateKey(c2, key, lib);
    RunThen(d0, h1 + h2 + h3, h4, g, Decoding(c2, Inter), Decoding(c3, Inter));
  }

  // ---------------------------------------------------------------------
  // Peer sections
  // ---------------------------------------------------------------------

  /** The empty line, the `[Peer]` header and the public key append a peer with that key. */
  lemma RunPeerHead(c: Config, s: ParseState, p: PeerConfig, lib: NetLib)
    requires Consistent(Decoding(c, s))
    ensures RunAll(Decoding(c, s), PeerHead(p), WgQuick(lib))
         == Ok(Decoding(c.(peers := c.peers + [EMPTY_PEER.(publicKey := p.publicKey)]), Peer))
  {
    var g := WgQuick(lib);
    var d := Decoding(c, s);
    var d1 := Decoding(c.(peers := c.peers + [EMPTY_PEER]), Peer);
    RunOne(d, Blank, g);
    RunOne(d, PeerHeader, g);
    RunThen(d, [Blank], [PeerHeader], g, d, d1);
    ParseKeySerializeKey(p.publicKey);
    RunPeerField(c, EMPTY_PEER, "PublicKey", SerializeKey(p.publicKey), lib, EMPTY_PEER.(publicKey := p.publicKey));
    RunThen(d, [Blank] + [PeerHeader], [Field("PublicKey", SerializeKey(p.publicKey))], g, d1,
      Decoding(c.(peers := c.peers + [EMPTY_PEER.(publicKey := p.publicKey)]), Peer));
    assert PeerHead(p) == [Blank] + [PeerHeader] + [Field("PublicKey", SerializeKey(p.publicKey))];
  }

  /** The `AllowedIPs` line, when written for a non-empty list, sets the list. */
  lemma RunAllowedIPs(c: Config, p0: PeerConfig, ips: seq<IPNet>, dialect: Dialect, lib: NetLib)
    requires p0.allowedIPs == [] && AllPrint(ips, lib.ipNetString, lib.parseCIDR)
    requires dialect == AsWritten ==> ips != []
    ensures RunAll(Decoding(c.(peers := c.peers + [p0]), Peer), AllowedIPsLines(Map(ips, lib.ipNetString), dialect), WgQuick(lib))
         == Ok(Decoding(c.(peers := c.peers + [p0.(allowedIPs := ips)]), Peer))
  {
    var rhs := Join(Map(ips, lib.ipNetString), ", ");
    if ips == [] {
      assert p0.(allowedIPs := ips) == p0;
    } else {
      ParseCommaList(ips, lib.ipNetString, lib.parseCIDR);
      assert p0.allowedIPs + ips == ips;
    }
    RunPeerOptional(c, p0, AllowedIPsLines(Map(ips, lib.ipNetString), dialect), "AllowedIPs", rhs, lib, p0.(allowedIPs := ips));
  }

  /** The `PresharedKey` line, when written, sets the key. */
  lemma RunPresharedKey(c: Config, p0: PeerConfig, psk: Option<Key>, lib: NetLib)
    requires p0.presharedKey.None?
    ensures RunAll(Decoding(c.(peers := c.peers + [p0]), Peer), PresharedKeyLines(psk), WgQuick(lib))
         == Ok(Decoding(c.(peers := c.peers + [p0.(presharedKey := psk)]), Peer))
  {
    var rhs := if psk.Some? then SerializeKey(psk.value) else "";
    if psk.Some? {
      ParseKeySerializeKey(psk.value);
    }
    RunPeerOptional(c, p0, PresharedKeyLines(psk), "PresharedKey", rhs, lib, p0.(presharedKey := psk));
  }

  /** The `PersistentKeepalive` line, when written, sets the interval in whole seconds. */
  lemma RunKeepalive(c: Config, p0: PeerConfig, interval: Option<int>, lib: NetLib)
    requires p0.persistentKeepaliveInterval.None? && (interval.Some? ==> InInt64(interval.value))
    ensures RunAll(Decoding(c.(peers := c.peers + [p0]), Peer), KeepaliveLines(interval), WgQuick(lib))
         == Ok(Decoding(c.(peers := c.peers + [p0.(persistentKeepaliveInterval := Rekeepalive(interval))]), Peer))
  {
    var rhs := if interval.Some? then FormatInt(Durations.ToSeconds(interval.value)) else "";
    if interval.Some? {
      Durations.ToSecondsInRange(interval.value);
      ParseIntFormatInt(Durations.ToSeconds(interval.value));
    }
    RunPeerOptional(c, p0, KeepaliveLines(interval), "PersistentKeepalive", rhs, lib,
      p0.(persistentKeepaliveInterval := Rekeepalive(interval)));
  }

  /** The `Endpoint` line, when written, sets the endpoint it resolves to. */
  lemma RunEndpoint(c: Config, p0: PeerConfig, endpoint: Option<UDPAddr>, lib: NetLib)
    requires p0.endpoint.None?
    requires endpoint.Some? ==> lib.resolveUDPAddr(lib.udpAddrString(endpoint.value)) == endpoint
    ensures RunAll(Decoding(c.(peers := c.peers + [p0]), Peer), EndpointLines(endpoint, lib), WgQuick(lib))
         == Ok(Decoding(c.(peers := c.peers + [p0.(endpoint := endpoint)]), Peer))
  {
    var rhs := if endpoint.Some? then lib.udpAddrString(endpoint.value) else "";
    RunPeerOptional(c, p0, EndpointLines(endpoint, lib), "Endpoint", rhs, lib, p0.(endpoint := endpoint));
  }

  /** A peer section appends the peer as it comes back. */
  lemma RunPeer(c: Config, s: ParseState, p: PeerConfig, dialect: Dialect, lib: NetLib)
    requires Consistent(Decoding(c, s)) && PeerEncodable(p, lib)
    requires dialect == AsWritten ==> p.allowedIPs != []
    ensures RunAll(Decoding(c, s), PeerLines(p, lib, dialect), WgQuick(lib))
         == Ok(Decoding(c.(peers := c.peers + [Repeer(p)]), Peer))
  {
    var g := WgQuick(lib);
    var d := Decoding(c, s);
    var l1 := PeerHead(p);
    var l2 := AllowedIPsLines(Map(p.allowedIPs, lib.ipNetString), dialect);
    var l3 := PresharedKeyLines(p.presharedKey);
    var l4 := KeepaliveLines(p.persistentKeepaliveInterval);
    var l5 := EndpointLines(p.endpoint, lib);
    var q1 := EMPTY_PEER.(publicKey := p.publicKey);
    var q2 := q1.(allowedIPs := p.allowedIPs);
    var q3 := q2.(presharedKey := p.presharedKey);
    var q4 := q3.(persistentKeepaliveInterval := Rekeepalive(p.persistentKeepaliveInterval));
    var q5 := q4.(endpoint := p.endpoint);
    RunPeerHead(c, s, p, lib);
    RunAllowedIPs(c, q1, p.allowedIPs, dialect, lib);
    RunThen(d, l1, l2, g, Decoding(c.(peers := c.peers + [q1]), Peer), Decoding(c.(peers := c.peers + [q2]), Peer));
    RunPresharedKey(c, q2, p.presharedKey, lib);
    RunThen(d, l1 + l2, l3, g, Decoding(c.(peers := c.peers + [q2]), Peer), Decoding(c.(peers := c.peers + [q3]), Peer));
    RunKeepalive(c, q3, p.persistentKeepaliveInterval, lib);
    RunThen(d, l1 + l2 + l3, l4, g, Decoding(c.(peers := c.peers + [q3]), Peer), Decoding(c.(peers := c.peers + [q4]), Peer));
    RunEndpoint(c, q4, p.endpoint, lib);
    RunThen(d, l1 + l2 + l3 + l4, l5, g, Decoding(c.(peers := c.peers + [q4]), Peer), Decoding(c.(peers := c.peers + [q5]), Peer));
    assert q5 == Repeer(p);
  }

  /** The peers from index `from` on, as they come back. */
  function RepeersFrom(peers: seq<PeerConfig>, from: nat): (r: seq<PeerConfig>)
    requires from <= |peers|
    ensures |r| == |peers| - from && forall i | 0 <= i < |r| :: r[i] == Repeer(peers[from + i])
  {
    seq(|peers| - from, i requires 0 <= i < |peers| - from => Repeer(peers[from + i]))
  }

  /** The peer at `from`, then the ones after it, are the ones from `from` on. */
  lemma RepeersCons(a: seq<PeerConfig>, peers: seq<PeerConfig>, from: nat)
    requires from < |peers|
    ensures (a + [Repeer(peers[from])]) + RepeersFrom(peers, from + 1) == a + RepeersFrom(peers, from)
  {
    var l := (a + [Repeer(peers[from])]) + RepeersFrom(peers, from + 1);
    var r := a + RepeersFrom(peers, from);
    forall i | 0 <= i < |l|
      ensures l[i] == r[i]
    {
    }
  }

  /** The peer sections from index `from` on append those peers, as they come back. */
  lemma {:induction false} RunPeersFrom(c: Config, s: ParseState, peers: seq<PeerConfig>, from: nat, dialect: Dialect, lib: NetLib)
    requires Consistent(Decoding(c, s)) && from <= |peers|
    requires forall i | from <= i < |peers| :: PeerEncodable(peers[i], lib)
    requires dialect == AsWritten ==> forall i | from <= i < |peers| :: peers[i].allowedIPs != []
    ensures RunAll(Decoding(c, s), PeersLines(peers, from, lib, dialect), WgQuick(lib)).Ok?
    ensures RunAll(Decoding(c, s), PeersLines(peers, from, lib, dialect), WgQuick(lib)).value.cfg
         == c.(peers := c.peers + RepeersFrom(peers, from))
    decreases |peers| - from
  {
    var g := WgQuick(lib);
    var d := Decoding(c, s);
    if from == |peers| {
      assert c.peers + RepeersFrom(peers, from) == c.peers;
    } else {
      var c1 := c.(peers := c.peers + [Repeer(peers[from])]);
      var rest := PeersLines(peers, from + 1, lib, dialect);
      RunPeer(c, s, peers[from], dialect, lib);
      RunPeersFrom(c1, Peer, peers, from + 1, dialect, lib);
      RepeersCons(c.peers, peers, from);
      RunThen(d, PeerLines(peers[from], lib, dialect), rest, g, Decoding(c1, Peer), RunAll(Decoding(c1, Peer), rest, g).value);
    }
  }

  // ---------------------------------------------------------------------
  // Every written line reads back as itself
  // ---------------------------------------------------------------------

  /** Every line is one the decoder classifies back as itself. */
  predicate AllWritable(lines: seq<Line>) {
    forall i | 0 <= i < |lines| :: Writable(lines[i])
  }

  /** Two lists of writable lines make one. */
  lemma AllWritableConcat(a: seq<Line>, b: seq<Line>)
    requires AllWritable(a) && AllWritable(b)
    ensures AllWritable(a + b)
  {
    forall i | 0 <= i < |a + b|
      ensures Writable((a + b)[i])
    {
      if i >= |a| {
        assert (a + b)[i] == b[i - |a|];
      }
    }
  }

  /** The interface directive names are names. */
  lemma InterfaceNames()
    ensures IsName("Address") && IsName("DNS") && IsName("PrivateKey") && IsName("ListenPort")
    ensures IsName("MTU") && IsName("Table") && IsName("SaveConfig")
  {
  }

  /** The hook directive names are names. */
  lemma HookNames()
    ensures IsName("PreUp") && IsName("PostUp") && IsName("PreDown") && IsName("PostDown")
  {
  }

  /** The peer directive names are names. */
  lemma PeerNames()
    ensures IsName("PublicKey") && IsName("AllowedIPs") && IsName("PresharedKey")
    ensures IsName("PersistentKeepalive") && IsName("Endpoint")
  {
  }

  /** A printed hook list on one line is clean: it starts with `[` and ends with `]`. */
  lemma SliceStringClean(hooks: seq<string>)
    requires HookPrints(hooks)
    ensures Clean(SliceString(hooks))
  {
    TrimSpaceOfTrimmed(SliceString(hooks));
  }

  /** One line per printed value, under a name, are writable lines. */
  lemma EachWritable<T>(name: string, xs: seq<T>, show: T -> string, parse: string -> Option<T>)
    requires IsName(name) && AllPrint(xs, show, parse)
    ensures AllWritable(Each(name, Map(xs, show)))
  {
    forall i | 0 <= i < |xs|
      ensures Writable(Each(name, Map(xs, show))[i])
    {
      assert Prints(xs[i], show, parse);
    }
  }

  /** The interface head is writable. */
  lemma InterfaceHeadWritable(c: Config, key: Key, lib: NetLib)
    requires AllPrint(c.address, lib.ipNetString, lib.parseCIDR) && AllPrint(c.dns, lib.ipString, lib.parseIP)
    ensures AllWritable(InterfaceHead(c, key, lib))
  {
    InterfaceNames();
    SerializeKeyClean(key);
    EachWritable("Address", c.address, lib.ipNetString, lib.parseCIDR);
    EachWritable("DNS", c.dns, lib.ipString, lib.parseIP);
    AllWritableConcat([InterfaceHeader], Each("Address", Map(c.address, lib.ipNetString)));
    AllWritableConcat([InterfaceHeader] + Each("Address", Map(c.address, lib.ipNetString)), Each("DNS", Map(c.dns, lib.ipString)));
    AllWritableConcat([InterfaceHeader] + Each("Address", Map(c.address, lib.ipNetString)) + Each("DNS", Map(c.dns, lib.ipString)),
      [Field("PrivateKey", SerializeKey(key))]);
  }

  /** No line, or one field line with a name and a clean value, is writable. */
  lemma OptionalWritable(lines: seq<Line>, lhs: string, rhs: string)
    requires lines == [] || (lines == [Field(lhs, rhs)] && IsName(lhs) && Clean(rhs))
    ensures AllWritable(lines)
  {
  }

  /** An integer setting's line is writable. */
  lemma IntLinesWritable(lines: seq<Line>, name: string, n: int)
    requires IsName(name) && (lines == [] || lines == [Field(name, FormatInt(n))])
    ensures AllWritable(lines)
  {
    FormatIntClean(n);
    OptionalWritable(lines, name, FormatInt(n));
  }

  /** The table line is writable. */
  lemma TableLinesWritable(table: Option<int>, dialect: Dialect)
    ensures AllWritable(TableLines(table, dialect))
  {
    InterfaceNames();
    if table.Some? {
      IntLinesWritable(TableLines(table, dialect), "Table", table.value);
    } else {
      TrimSpaceOfTrimmed("off");
      OptionalWritable(TableLines(table, dialect), "Table", "off");
    }
  }

  /** The SaveConfig line is writable. */
  lemma SaveConfigLinesWritable(save: bool)
    ensures AllWritable(SaveConfigLines(save))
  {
    InterfaceNames();
    TrimSpaceOfTrimmed("true");
    OptionalWritable(SaveConfigLines(save), "SaveConfig", "true");
  }

  /** A hook line is writable. */
  lemma HookLinesWritable(name: string, hooks: seq<string>)
    requires IsName(name) && HookPrints(hooks)
    ensures AllWritable(HookLines(name, hooks))
  {
    SliceStringClean(hooks);
    OptionalWritable(HookLines(name, hooks), name, SliceString(hooks));
  }

  /** The interface settings are writable. */
  lemma InterfaceSettingsWritable(c: Config, dialect: Dialect)
    requires HookPrints(c.preUp) && HookPrints(c.postUp) && HookPrints(c.preDown) && HookPrints(c.postDown)
    ensures AllWritable(InterfaceSettings(c, dialect))
  {
    var s1 := ListenPortLines(c.listenPort);
    var s2 := MtuLines(c.mtu);
    var s3 := TableLines(c.table, dialect);
    var s4 := HookLines("PreUp", c.preUp);
    var s5 := HookLines("PostUp", c.postUp);
    var s6 := HookLines("PreDown", c.preDown);
    var s7 := HookLines("PostDown", c.postDown);
    var s8 := SaveConfigLines(c.saveConfig);
    InterfaceNames();
    HookNames();
    IntLinesWritable(s1, "ListenPort", if c.listenPort.Some? then c.listenPort.value else 0);
    IntLinesWritable(s2, "MTU", c.mtu);
    TableLinesWritable(c.table, dialect);
    HookLinesWritable("PreUp", c.preUp);
    HookLinesWritable("PostUp", c.postUp);
    HookLinesWritable("PreDown", c.preDown);
    HookLinesWritable("PostDown", c.postDown);
    SaveConfigLinesWritable(c.saveConfig);
    AllWritableConcat(s1, s2);
    AllWritableConcat(s1 + s2, s3);
    AllWritableConcat(s1 + s2 + s3, s4);
    AllWritableConcat(s1 + s2 + s3 + s4, s5);
    AllWritableConcat(s1 + s2 + s3 + s4 + s5, s6);
    AllWritableConcat(s1 + s2 + s3 + s4 + s5 + s6, s7);
    AllWritableConcat(s1 + s2 + s3 + s4 + s5 + s6 + s7, s8);
  }

  /** A printed list, comma-space joined, is clean. */
  lemma CommaListClean<T>(xs: seq<T>, show: T -> string, parse: string -> Option<T>)
    requires AllPrint(xs, show, parse)
    ensures Clean(Join(Map(xs, show), ", "))
  {
    var strs := Map(xs, show);
    if xs != [] {
      forall i | 0 <= i < |strs|
        ensures Item(strs[i]) && '\n' !in strs[i]
      {
        assert Prints(xs[i], show, parse);
      }
      JoinTrimmed(strs);
    }
  }

  /** Each part of a peer section is writable. */
  lemma PeerPartsWritable(p: PeerConfig, lib: NetLib, dialect: Dialect)
    requires PeerEncodable(p, lib)
    ensures AllWritable(PeerHead(p))
    ensures AllWritable(AllowedIPsLines(Map(p.allowedIPs, lib.ipNetString), dialect))
    ensures AllWritable(PresharedKeyLines(p.presharedKey))
    ensures AllWritable(KeepaliveLines(p.persistentKeepaliveInterval))
    ensures AllWritable(EndpointLines(p.endpoint, lib))
  {
    PeerNames();
    SerializeKeyClean(p.publicKey);
    var ips := Join(Map(p.allowedIPs, lib.ipNetString), ", ");
    CommaListClean(p.allowedIPs, lib.ipNetString, lib.parseCIDR);
    OptionalWritable(AllowedIPsLines(Map(p.allowedIPs, lib.ipNetString), dialect), "AllowedIPs", ips);
    if p.presharedKey.Some? {
      SerializeKeyClean(p.presharedKey.value);
      OptionalWritable(PresharedKeyLines(p.presharedKey), "PresharedKey", SerializeKey(p.presharedKey.value));
    }
    if p.persistentKeepaliveInterval.Some? {
      var t := FormatInt(Durations.ToSeconds(p.persistentKeepaliveInterval.value));
      FormatIntClean(Durations.ToSeconds(p.persistentKeepaliveInterval.value));
      OptionalWritable(KeepaliveLines(p.persistentKeepaliveInterval), "PersistentKeepalive", t);
    }
    if p.endpoint.Some? {
      OptionalWritable(EndpointLines(p.endpoint, lib), "Endpoint", lib.udpAddrString(p.endpoint.value));
    }
  }

  /** A peer section is writable. */
  lemma PeerLinesWritable(p: PeerConfig, lib: NetLib, dialect: Dialect)
    requires PeerEncodable(p, lib)
    ensures AllWritable(PeerLines(p, lib, dialect))
  {
    var l1 := PeerHead(p);
    var l2 := AllowedIPsLines(Map(p.allowedIPs, lib.ipNetString), dialect);
    var l3 := PresharedKeyLines(p.presharedKey);
    var l4 := KeepaliveLines(p.persistentKeepaliveInterval);
    var l5 := EndpointLines(p.endpoint, lib);
    PeerPartsWritable(p, lib, dialect);
    AllWritableConcat(l1, l2);
    AllWritableConcat(l1 + l2, l3);
    AllWritableConcat(l1 + l2 + l3, l4);
    AllWritableConcat(l1 + l2 + l3 + l4, l5);
  }

  /** The peer sections from index `from` on are writable. */
  lemma {:induction false} PeersLinesWritable(peers: seq<PeerConfig>, from: nat, lib: NetLib, dialect: Dialect)
    requires from <= |peers| && forall i | from <= i < |peers| :: PeerEncodable(peers[i], lib)
    ensures AllWritable(PeersLines(peers, from, lib, dialect))
    decreases |peers| - from
  {
    if from < |peers| {
      PeerLinesWritable(peers[from], lib, dialect);
      PeersLinesWritable(peers, from + 1, lib, dialect);
      AllWritableConcat(PeerLines(peers[from], lib, dialect), PeersLines(peers, from + 1, lib, dialect));
    }
  }
}
