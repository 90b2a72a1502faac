/**
 * The two field grammars of the text format: `parseInterfaceLine` for the
 * lines of an `[Interface]` section and `parsePeerLine` for the lines of a
 * `[Peer]` section. Each takes the directive name and its value, both
 * already trimmed, and either updates the configuration or fails.
 */
module FieldGrammar {
  import opened Results
  import opened GoStrings
  import opened StrConv
  import opened KeyCodec
  import opened Net
  import opened ConfigModel
  import Durations

  datatype FieldError =
    | UnknownDirective(name: string)
    | InvalidAddress
    | InvalidIP
    | InvalidInteger
    | InvalidBool
    | InvalidKey
    | DuplicatePresharedKey
    | UnresolvedEndpoint

  const INTERFACE_DIRECTIVES: set<string> := {
    "Address", "DNS", "MTU", "Table", "ListenPort", "PreUp", "PostUp",
    "PreDown", "PostDown", "SaveConfig", "PrivateKey", "WgBin"}

  const PEER_DIRECTIVES: set<string> := {
    "PublicKey", "PresharedKey", "AllowedIPs", "Endpoint", "PersistentKeepalive"}

  /**
   * A comma-separated value: every item through `parse`, in order;
   * the list exists exactly when every item parses.
   */
  function ParseList<T>(items: seq<string>, parse: string -> Option<T>): (r: Option<seq<T>>)
    ensures r.Some? ==> |r.value| == |items|
  {
    ParseFrom(items, 0, parse)
  }

  /** An item parser that first trims the white space around the item. */
  function Trimmed<T>(parse: string -> Option<T>): string -> Option<T> {
    item => parse(TrimSpace(item))
  }

  /** The items from index `from` on, each trimmed and parsed, in order. */
  function ParseFrom<T>(items: seq<string>, from: nat, parse: string -> Option<T>): (r: Option<seq<T>>)
    requires from <= |items|
    ensures r.Some? ==> |r.value| == |items| - from
    decreases |items| - from
  {
    if from == |items| then Some([])
    else
      match parse(items[from])
      case None => None
      case Some(x) =>
        match ParseFrom(items, from + 1, parse)
        case None => None
        case Some(xs) => Some([x] + xs)
  }

  /** The items from `from` on parse exactly when every one of them does. */
  lemma {:induction false} ParseFromItems<T>(items: seq<string>, from: nat, parse: string -> Option<T>)
    requires from <= |items|
    ensures ParseFrom(items, from, parse).Some? <==> forall i | from <= i < |items| :: parse(items[i]).Some?
    decreases |items| - from
  {
    if from < |items| {
      ParseFromItems(items, from + 1, parse);
      if parse(items[from]).None? {
        assert ParseFrom(items, from, parse).None?;
      } else {
        assert ParseFrom(items, from, parse).Some? <==> ParseFrom(items, from + 1, parse).Some?;
      }
    }
  }

  /** The list parses exactly when every item does. */
  lemma ParseListItems<T>(items: seq<string>, parse: string -> Option<T>)
    ensures ParseList(items, parse).Some? <==> forall i | 0 <= i < |items| :: parse(items[i]).Some?
  {
    ParseFromItems(items, 0, parse);
  }

  /** The parsed items from `from` on hold, at each position, the value of the item there. */
  lemma {:induction false} ParseFromValues<T>(items: seq<string>, from: nat, parse: string -> Option<T>)
    requires from <= |items| && ParseFrom(items, from, parse).Some?
    ensures forall i | from <= i < |items| :: parse(items[i]) == Some(ParseFrom(items, from, parse).value[i - from])
    decreases |items| - from
  {
    if from < |items| {
      ParseFromValues(items, from + 1, parse);
      var xs := ParseFrom(items, from, parse).value;
      var ys := ParseFrom(items, from + 1, parse).value;
      assert xs == [parse(items[from]).value] + ys;
      forall i | from < i < |items|
        ensures parse(items[i]) == Some(xs[i - from])
      {
        assert xs[i - from] == ys[i - (from + 1)];
      }
    }
  }

  /** A parsed list holds, at each position, the value of the item there. */
  lemma ParseListValues<T>(items: seq<string>, parse: string -> Option<T>)
    requires ParseList(items, parse).Some?
    ensures forall i | 0 <= i < |items| :: parse(items[i]) == Some(ParseList(items, parse).value[i])
  {
    ParseFromValues(items, 0, parse);
  }

  /** A list whose every item parses to the value at its position parses to those values. */
  lemma ParseListAll<T>(items: seq<string>, parse: string -> Option<T>, xs: seq<T>)
    requires |items| == |xs| && forall i | 0 <= i < |items| :: parse(items[i]) == Some(xs[i])
    ensures ParseList(items, parse) == Some(xs)
  {
    ParseListItems(items, parse);
    ParseListValues(items, parse);
    var r := ParseList(items, parse).value;
    forall i | 0 <= i < |xs|
      ensures r[i] == xs[i]
    {
      assert parse(items[i]) == Some(r[i]);
    }
    assert r == xs;
  }

  /** The list `acc` grows into once the parsed items are appended. */
  function Appended<T>(acc: seq<T>, parsed: Option<seq<T>>): Option<seq<T>> {
    match parsed
    case None => None
    case Some(xs) => Some(acc + xs)
  }

  /** `off`, in any letter case. */
  predicate IsOff(rhs: string) {
    ToLower(rhs) == "off"
  }

  /** The Table value: `off` switches routing off (None), anything else must be an integer. */
  function ParseTable(rhs: string): (r: Result<Option<int>, FieldError>)
    ensures r == Ok(None) <==> IsOff(rhs)
    ensures r.Ok? && r.value.Some? ==> !IsOff(rhs) && ParseInt(rhs) == Some(r.value.value)
    ensures r.Err? <==> !IsOff(rhs) && ParseInt(rhs).None?
  {
    if IsOff(rhs) then Ok(None)
    else
      match ParseInt(rhs)
      case None => Err(InvalidInteger)
      case Some(n) => Ok(Some(n))
  }

  /** The hook directives, whose values accumulate one per line. */
  const HOOK_DIRECTIVES: set<string> := {"PreUp", "PostUp", "PreDown", "PostDown"}

  /** Every field of `after` that the directive does not name is as in `before`; the peers never change. */
  predicate InterfaceFrame(before: Config, after: Config, directive: string) {
    && after.peers == before.peers
    && after.routeProtocol == before.routeProtocol
    && after.routeMetric == before.routeMetric
    && after.addressLabel == before.addressLabel
    && (directive != "Address" ==> after.address == before.address)
    && (directive != "DNS" ==> after.dns == before.dns)
    && (directive != "MTU" ==> after.mtu == before.mtu)
    && (directive != "Table" ==> after.table == before.table)
    && (directive != "ListenPort" ==> after.listenPort == before.listenPort)
    && (directive != "PreUp" ==> after.preUp == before.preUp)
    && (directive != "PostUp" ==> after.postUp == before.postUp)
    && (directive != "PreDown" ==> after.preDown == before.preDown)
    && (directive != "PostDown" ==> after.postDown == before.postDown)
    && (directive != "SaveConfig" ==> after.saveConfig == before.saveConfig)
    && (directive != "PrivateKey" ==> after.privateKey == before.privateKey)
    && (directive != "WgBin" ==> after.wgBin == before.wgBin)
  }

  /** The list fields only ever grow: what was there stays, in order, at the front. */
  predicate InterfaceListsGrow(before: Config, after: Config) {
    && before.address <= after.address
    && before.dns <= after.dns
    && before.preUp <= after.preUp
    && before.postUp <= after.postUp
    && before.preDown <= after.preDown
    && before.postDown <= after.postDown
  }

  /** parseInterfaceLine. */
  function InterfaceLine(cfg: Config, lhs: string, rhs: string, lib: NetLib): (r: Result<Config, FieldError>)
    ensures (r.Err? && r.error.UnknownDirective?) <==> lhs !in INTERFACE_DIRECTIVES
    ensures r.Err? && r.error.UnknownDirective? ==> r.error.name == lhs
  {
    if lhs == "Address" then
      match Appended(cfg.address, ParseList(Split(rhs, ','), Trimmed(lib.parseCIDR)))
      case None => Err(InvalidAddress)
      case Some(xs) => Ok(cfg.(address := xs))
    else if lhs == "DNS" then
      match Appended(cfg.dns, ParseList(Split(rhs, ','), Trimmed(lib.parseIP)))
      case None => Err(InvalidIP)
      case Some(xs) => Ok(cfg.(dns := xs))
    else if lhs == "MTU" then
      match ParseInt(rhs)
      case None => Err(InvalidInteger)
      case Some(n) => Ok(cfg.(mtu := n))
    else if lhs == "Table" then
      match ParseTable(rhs)
      case Err(e) => Err(e)
      case Ok(t) => Ok(cfg.(table := t))
    else if lhs == "ListenPort" then
      match ParseInt(rhs)
      case None => Err(InvalidInteger)
      case Some(n) => Ok(cfg.(listenPort := Some(n)))
    else if lhs == "PreUp" then Ok(cfg.(preUp := cfg.preUp + [rhs]))
    else if lhs == "PostUp" then Ok(cfg.(postUp := cfg.postUp + [rhs]))
    else if lhs == "PreDown" then Ok(cfg.(preDown := cfg.preDown + [rhs]))
    else if lhs == "PostDown" then Ok(cfg.(postDown := cfg.postDown + [rhs]))
    else if lhs == "SaveConfig" then
      match ParseBool(rhs)
      case None => Err(InvalidBool)
      case Some(b) => Ok(cfg.(saveConfig := b))
    else if lhs == "PrivateKey" then
      match ParseKey(rhs)
      case Err(_) => Err(InvalidKey)
      case Ok(k) => Ok(cfg.(privateKey := Some(k)))
    else if lhs == "WgBin" then Ok(cfg.(wgBin := rhs))
    else Err(UnknownDirective(lhs))
  }

  /** Every field of `after` that the directive does not name is as in `before`. */
  predicate PeerFrame(before: PeerConfig, after: PeerConfig, directive: string) {
    && (directive != "PublicKey" ==> after.publicKey == before.publicKey)
    && (directive != "PresharedKey" ==> after.presharedKey == before.presharedKey)
    && (directive != "AllowedIPs" ==> after.allowedIPs == before.allowedIPs)
    && (directive != "Endpoint" ==> after.endpoint == before.endpoint)
    && (directive != "PersistentKeepalive" ==> after.persistentKeepaliveInterval == before.persistentKeepaliveInterval)
  }

  /** parsePeerLine. */
  function PeerLine(p: PeerConfig, lhs: string, rhs: string, lib: NetLib): (r: Result<PeerConfig, FieldError>)
    ensures (r.Err? && r.error.UnknownDirective?) <==> lhs !in PEER_DIRECTIVES
    ensures r.Err? && r.error.UnknownDirective? ==> r.error.name == lhs
    ensures r == Err(DuplicatePresharedKey) <==> lhs == "PresharedKey" && ParseKey(rhs).Ok? && p.presharedKey.Some?
    ensures lhs == "PresharedKey" && p.presharedKey.Some? ==> r.Err?
  {
    if lhs == "PublicKey" then
      match ParseKey(rhs)
      case Err(_) => Err(InvalidKey)
      case Ok(k) => Ok(p.(publicKey := k))
    else if lhs == "PresharedKey" then
      match ParseKey(rhs)
      case Err(_) => Err(InvalidKey)
      case Ok(k) =>
        if p.presharedKey.Some? then Err(DuplicatePresharedKey)
        else Ok(p.(presharedKey := Some(k)))
    else if lhs == "AllowedIPs" then
      match Appended(p.allowedIPs, ParseList(Split(rhs, ','), Trimmed(lib.parseCIDR)))
      case None => Err(InvalidAddress)
      case Some(xs) => Ok(p.(allowedIPs := xs))
    else if lhs == "Endpoint" then
      match lib.resolveUDPAddr(rhs)
      case None => Err(UnresolvedEndpoint)
      case Some(a) => Ok(p.(endpoint := Some(a)))
    else if lhs == "PersistentKeepalive" then
      match ParseInt(rhs)
      case None => Err(InvalidInteger)
      case Some(t) => Ok(p.(persistentKeepaliveInterval := Some(Durations.FromSeconds(t))))
    else Err(UnknownDirective(lhs))
  }

  /** A successful interface line changes only the field it names, and list fields only grow. */
  lemma InterfaceLineFrame(cfg: Config, lhs: string, rhs: string, lib: NetLib)
    requires InterfaceLine(cfg, lhs, rhs, lib).Ok?
    ensures InterfaceFrame(cfg, InterfaceLine(cfg, lhs, rhs, lib).value, lhs)
    ensures InterfaceListsGrow(cfg, InterfaceLine(cfg, lhs, rhs, lib).value)
  {
    var r := InterfaceLine(cfg, lhs, rhs, lib).value;
    if lhs == "Address" {
      assert r == cfg.(address := cfg.address + ParseList(Split(rhs, ','), Trimmed(lib.parseCIDR)).value);
    } else if lhs == "DNS" {
      assert r == cfg.(dns := cfg.dns + ParseList(Split(rhs, ','), Trimmed(lib.parseIP)).value);
    } else if lhs in HOOK_DIRECTIVES {
      InterfaceLineHook(cfg, lhs, rhs, lib);
    } else {
      assert r.address == cfg.address && r.dns == cfg.dns;
      assert r.preUp == cfg.preUp && r.postUp == cfg.postUp && r.preDown == cfg.preDown && r.postDown == cfg.postDown;
    }
  }

  /** Each hook line appends exactly its value to its own hook list. */
  lemma InterfaceLineHook(cfg: Config, lhs: string, rhs: string, lib: NetLib)
    requires lhs in HOOK_DIRECTIVES
    ensures InterfaceLine(cfg, lhs, rhs, lib).Ok?
    ensures var r := InterfaceLine(cfg, lhs, rhs, lib).value;
      (lhs == "PreUp" ==> r.preUp == cfg.preUp + [rhs]) &&
      (lhs == "PostUp" ==> r.postUp == cfg.postUp + [rhs]) &&
      (lhs == "PreDown" ==> r.preDown == cfg.preDown + [rhs]) &&
      (lhs == "PostDown" ==> r.postDown == cfg.postDown + [rhs])
  {
  }

  /** The Table line sets the table to `ParseTable`'s value, and `off` in any case clears it. */
  lemma InterfaceLineTable(cfg: Config, rhs: string, lib: NetLib)
    ensures InterfaceLine(cfg, "Table", rhs, lib).Ok? <==> ParseTable(rhs).Ok?
    ensures InterfaceLine(cfg, "Table", rhs, lib).Ok? ==> InterfaceLine(cfg, "Table", rhs, lib).value.table == ParseTable(rhs).value
    ensures InterfaceLine(cfg, "Table", rhs, lib).Ok? ==> (InterfaceLine(cfg, "Table", rhs, lib).value.table.None? <==> IsOff(rhs))
  {
  }

  /** A successful peer line changes only the field it names; allowed IPs only grow. */
  lemma PeerLineFrame(p: PeerConfig, lhs: string, rhs: string, lib: NetLib)
    requires PeerLine(p, lhs, rhs, lib).Ok?
    ensures PeerFrame(p, PeerLine(p, lhs, rhs, lib).value, lhs)
    ensures p.allowedIPs <= PeerLine(p, lhs, rhs, lib).value.allowedIPs
  {
    if lhs == "AllowedIPs" {
      assert PeerLine(p, lhs, rhs, lib).value.allowedIPs == p.allowedIPs + ParseList(Split(rhs, ','), Trimmed(lib.parseCIDR)).value;
    }
  }

  /** Unfolding one step of `Appended` over the items left: the one at index `from` parses to `x`. */
  lemma AppendedAt<T>(out: seq<T>, items: seq<string>, from: nat, parse: string -> Option<T>, x: T)
    requires from < |items| && parse(items[from]) == Some(x)
    ensures Appended(out, ParseFrom(items, from, parse)) == Appended(out + [x], ParseFrom(items, from + 1, parse))
  {
    match ParseFrom(items, from + 1, parse)
    case None =>
    case Some(xs) =>
      assert out + ([x] + xs) == (out + [x]) + xs;
  }

  /** The `for ... range strings.Split(rhs, ",")` loops: appends each parsed item to `acc`, stopping at the first bad one. */
  method AppendList<T>(acc: seq<T>, rhs: string, parse: string -> Option<T>) returns (r: Option<seq<T>>)
    ensures r == Appended(acc, ParseList(Split(rhs, ','), parse))
  {
    var items := Split(rhs, ',');
    var out := acc;
    var i := 0;
    while i < |items|
      invariant 0 <= i <= |items|
      invariant Appended(acc, ParseList(items, parse)) == Appended(out, ParseFrom(items, i, parse))
    {
      match parse(items[i])
      case None =>
        return None;
      case Some(x) =>
        AppendedAt(out, items, i, parse, x);
        out := out + [x];
      i := i + 1;
    }
    assert out + [] == out;
    return Some(out);
  }

  /** parseInterfaceLine, updating the configuration field by field. */
  method ParseInterfaceLine(cfg: Config, lhs: string, rhs: string, lib: NetLib) returns (r: Result<Config, FieldError>)
    ensures r == InterfaceLine(cfg, lhs, rhs, lib)
  {
    if lhs == "Address" {
      var xs := AppendList(cfg.address, rhs, Trimmed(lib.parseCIDR));
      if xs.None? { return Err(InvalidAddress); }
      return Ok(cfg.(address := xs.value));
    } else if lhs == "DNS" {
      var xs := AppendList(cfg.dns, rhs, Trimmed(lib.parseIP));
      if xs.None? { return Err(InvalidIP); }
      return Ok(cfg.(dns := xs.value));
    } else if lhs == "MTU" {
      var n := ParseInt(rhs);
      if n.None? { return Err(InvalidInteger); }
      return Ok(cfg.(mtu := n.value));
    } else if lhs == "Table" {
      if IsOff(rhs) { return Ok(cfg.(table := None)); }
      var n := ParseInt(rhs);
      if n.None? { return Err(InvalidInteger); }
      return Ok(cfg.(table := Some(n.value)));
    } else if lhs == "ListenPort" {
      var n := ParseInt(rhs);
      if n.None? { return Err(InvalidInteger); }
      return Ok(cfg.(listenPort := Some(n.value)));
    } else if lhs == "PreUp" {
      return Ok(cfg.(preUp := cfg.preUp + [rhs]));
    } else if lhs == "PostUp" {
      return Ok(cfg.(postUp := cfg.postUp + [rhs]));
    } else if lhs == "PreDown" {
      return Ok(cfg.(preDown := cfg.preDown + [rhs]));
    } else if lhs == "PostDown" {
      return Ok(cfg.(postDown := cfg.postDown + [rhs]));
    } else if lhs == "SaveConfig" {
      var b := ParseBool(rhs);
      if b.None? { return Err(InvalidBool); }
      return Ok(cfg.(saveConfig := b.value));
    } else if lhs == "PrivateKey" {
      var k := ParseKey(rhs);
      if k.Err? { return Err(InvalidKey); }
      return Ok(cfg.(privateKey := Some(k.value)));
    } else if lhs == "WgBin" {
      return Ok(cfg.(wgBin := rhs));
    }
    return Err(UnknownDirective(lhs));
  }

  /** parsePeerLine, updating the peer field by field. */
  method ParsePeerLine(p: PeerConfig, lhs: string, rhs: string, lib: NetLib) returns (r: Result<PeerConfig, FieldError>)
    ensures r == PeerLine(p, lhs, rhs, lib)
  {
    if lhs == "PublicKey" {
      var k := ParseKey(rhs);
      if k.Err? { return Err(InvalidKey); }
      return Ok(p.(publicKey := k.value));
    } else if lhs == "PresharedKey" {
      var k := ParseKey(rhs);
      if k.Err? { return Err(InvalidKey); }
      if p.presharedKey.Some? { return Err(DuplicatePresharedKey); }
      return Ok(p.(presharedKey := Some(k.value)));
    } else if lhs == "AllowedIPs" {
      var xs := AppendList(p.allowedIPs, rhs, Trimmed(lib.parseCIDR));
      if xs.None? { return Err(InvalidAddress); }
      return Ok(p.(allowedIPs := xs.value));
    } else if lhs == "Endpoint" {
      var a := lib.resolveUDPAddr(rhs);
      if a.None? { return Err(UnresolvedEndpoint); }
      return Ok(p.(endpoint := Some(a.value)));
    } else if lhs == "PersistentKeepalive" {
      var t := ParseInt(rhs);
      if t.None? { return Err(InvalidInteger); }
      return Ok(p.(persistentKeepaliveInterval := Some(Durations.FromSeconds(t.value))));
    }
    return Err(UnknownDirective(lhs));
  }
}
