/**
 * The encoder of the wg-quick text format (`MarshalText` executing
 * `wgtypeTemplateSpec`). The template writes one directive per line, in a
 * fixed order, and ends every line with a line feed; it is modelled as the
 * list of lines it writes (in the decoder's own `Line` vocabulary) and the
 * text those lines make.
 *
 * Two renderings are given. `AsWritten` is the template. `Corrected`
 * differs in the two places where the template writes something its own
 * decoder reads back differently: it writes `Table = off` for a switched-off
 * routing table (the template writes nothing, which reads back as table 0),
 * and it leaves out the `AllowedIPs` line of a peer with no allowed IPs (the
 * template writes `AllowedIPs = `, which the decoder refuses).
 */
module TextEncoder {
  import opened Results
  import opened GoStrings
  import opened StrConv
  import opened KeyCodec
  import opened Net
  import opened ConfigModel
  import opened TextDecoder
  import Base64
  import Durations

  datatype Dialect = AsWritten | Corrected

  /** The template fails only when it has no private key to print (serializeKey dereferences a nil pointer). */
  datatype EncodeError = NilPrivateKey

  /** Applies `f` to every element, keeping the order. */
  function Map<A, B>(xs: seq<A>, f: A -> B): (r: seq<B>)
    ensures |r| == |xs| && forall i | 0 <= i < |xs| :: r[i] == f(xs[i])
  {
    seq(|xs|, i requires 0 <= i < |xs| => f(xs[i]))
  }

  /** A directive name the template writes: a non-empty run of ASCII letters. */
  predicate IsName(s: string) {
    |s| > 0 && forall i | 0 <= i < |s| :: 'A' <= s[i] <= 'Z' || 'a' <= s[i] <= 'z'
  }

  /** A value the text carries unchanged: on one line, with no white space at either end. */
  predicate Clean(s: string) {
    '\n' !in s && TrimSpace(s) == s
  }

  /** An element of a comma-separated list that reads back unchanged. */
  predicate CleanItem(s: string) {
    |s| > 0 && Clean(s) && ',' !in s
  }

  /** A line the decoder classifies back as itself. */
  predicate Writable(line: Line) {
    match line
    case NoEquals => false
    case Field(lhs, rhs) => IsName(lhs) && Clean(rhs)
    case _ => true
  }

  /** One line as text, without its line feed. */
  function Show(line: Line): (s: string)
    ensures line == Blank ==> s == ""
  {
    match line
    case Blank => ""
    case InterfaceHeader => INTERFACE_HEADER
    case PeerHeader => PEER_HEADER
    case NoEquals => ""
    case Field(lhs, rhs) => lhs + " = " + rhs
  }

  /** The text of a list of lines: each one followed by a line feed. */
  function Text(lines: seq<Line>): string {
    Join(Map(lines, Show) + [""], "\n")
  }

  /** fmt's `%v` for a list of strings: the elements between brackets, separated by spaces. */
  function SliceString(xs: seq<string>): (s: string)
    ensures |s| >= 2 && s[0] == '[' && s[|s| - 1] == ']'
  {
    "[" + Join(xs, " ") + "]"
  }

  /** `{{ range .Address }}` and `{{ range .DNS }}`: one line per value. */
  function Each(name: string, values: seq<string>): (r: seq<Line>)
    ensures |r| == |values| && forall i | 0 <= i < |values| :: r[i] == Field(name, values[i])
  {
    Map(values, v => Field(name, v))
  }

  /** A hook list: nothing when empty, otherwise one line holding the whole list. */
  function HookLines(name: string, hooks: seq<string>): (r: seq<Line>)
    ensures hooks == [] <==> r == []
    ensures hooks != [] ==> r == [Field(name, SliceString(hooks))]
  {
    if hooks == [] then [] else [Field(name, SliceString(hooks))]
  }

  /** `{{ if .Table }}`: a table that is set is written; a switched-off one only by the corrected rendering. */
  function TableLines(table: Option<int>, dialect: Dialect): (r: seq<Line>)
    ensures table.Some? ==> r == [Field("Table", FormatInt(table.value))]
    ensures table.None? ==> (r == [] <==> dialect == AsWritten)
  {
    match table
    case Some(t) => [Field("Table", FormatInt(t))]
    case None => if dialect == AsWritten then [] else [Field("Table", "off")]
  }

  /** The allowed IPs, comma-space joined; the corrected rendering leaves an empty list out. */
  function AllowedIPsLines(ips: seq<string>, dialect: Dialect): (r: seq<Line>)
    ensures |r| <= 1
    ensures r == [] <==> ips == [] && dialect == Corrected
    ensures r != [] ==> r == [Field("AllowedIPs", Join(ips, ", "))]
  {
    if ips == [] && dialect == Corrected then [] else [Field("AllowedIPs", Join(ips, ", "))]
  }

  /** `{{ if .ListenPort }}`: the port, when one is set. */
  function ListenPortLines(port: Option<int>): (r: seq<Line>)
    ensures port.None? <==> r == []
  {
    if port.Some? then [Field("ListenPort", FormatInt(port.value))] else []
  }

  /** `{{ if .MTU }}`: the MTU, unless it is zero. */
  function MtuLines(mtu: int): (r: seq<Line>)
    ensures mtu == 0 <==> r == []
  {
    if mtu != 0 then [Field("MTU", FormatInt(mtu))] else []
  }

  /** `{{ if .SaveConfig }}`: `SaveConfig = true`, only when it is set. */
  function SaveConfigLines(save: bool): (r: seq<Line>)
    ensures !save <==> r == []
  {
    if save then [Field("SaveConfig", FormatBool(save))] else []
  }

  /** The `[Interface]` header, one line per address and DNS server, and the private key. */
  function InterfaceHead(c: Config, key: Key, lib: NetLib): seq<Line>
  {
    [InterfaceHeader]
    + Each("Address", Map(c.address, lib.ipNetString))
    + Each("DNS", Map(c.dns, lib.ipString))
    + [Field("PrivateKey", SerializeKey(key))]
  }

  /** The interface settings that are set, in the template's order. */
  function InterfaceSettings(c: Config, dialect: Dialect): seq<Line>
  {
    ListenPortLines(c.listenPort)
    + MtuLines(c.mtu)
    + TableLines(c.table, dialect)
    + HookLines("PreUp", c.preUp)
    + HookLines("PostUp", c.postUp)
    + HookLines("PreDown", c.preDown)
    + HookLines("PostDown", c.postDown)
    + SaveConfigLines(c.saveConfig)
  }

  /** The `[Interface]` section. */
  function InterfaceLines(c: Config, key: Key, lib: NetLib, dialect: Dialect): seq<Line>
  {
    InterfaceHead(c, key, lib) + InterfaceSettings(c, dialect)
  }

  /** `{{ if .PresharedKey }}`: the preshared key, when there is one. */
  function PresharedKeyLines(psk: Option<Key>): (r: seq<Line>)
    ensures psk.None? <==> r == []
  {
    if psk.Some? then [Field("PresharedKey", SerializeKey(psk.value))] else []
  }

  /** `{{ if .PersistentKeepaliveInterval }}`: the interval in whole seconds, when one is set. */
  function KeepaliveLines(interval: Option<int>): (r: seq<Line>)
    ensures interval.None? <==> r == []
  {
    if interval.Some? then [Field("PersistentKeepalive", FormatInt(Durations.ToSeconds(interval.value)))] else []
  }

  /** `{{ if .Endpoint }}`: the endpoint address, when one is set. */
  function EndpointLines(endpoint: Option<UDPAddr>, lib: NetLib): (r: seq<Line>)
    ensures endpoint.None? <==> r == []
  {
    if endpoint.Some? then [Field("Endpoint", lib.udpAddrString(endpoint.value))] else []
  }

  /** The empty line and header that open a peer section, and the public key. */
  function PeerHead(p: PeerConfig): seq<Line>
  {
    [Blank, PeerHeader, Field("PublicKey", SerializeKey(p.publicKey))]
  }

  /** One `[Peer]` section, after an empty line: the public key and allowed IPs, then what is set. */
  function PeerLines(p: PeerConfig, lib: NetLib, dialect: Dialect): seq<Line>
  {
    PeerHead(p)
    + AllowedIPsLines(Map(p.allowedIPs, lib.ipNetString), dialect)
    + PresharedKeyLines(p.presharedKey)
    + KeepaliveLines(p.persistentKeepaliveInterval)
    + EndpointLines(p.endpoint, lib)
  }

  /** The sections of the peers with indices `from` on, in order. */
  function PeersLines(peers: seq<PeerConfig>, from: nat, lib: NetLib, dialect: Dialect): (r: seq<Line>)
    requires from <= |peers|
    ensures r == [] <==> from == |peers|
    decreases |peers| - from
  {
    if from == |peers| then []
    else PeerLines(peers[from], lib, dialect) + PeersLines(peers, from + 1, lib, dialect)
  }

  /** Every line the template writes for a configuration whose private key is `key`. */
  function Layout(c: Config, key: Key, lib: NetLib, dialect: Dialect): seq<Line>
  {
    InterfaceLines(c, key, lib, dialect) + PeersLines(c.peers, 0, lib, dialect)
  }

  /** MarshalText: the text of the layout, or an error when there is no private key. */
  function MarshalText(c: Config, lib: NetLib): (r: Result<string, EncodeError>)
    ensures r.Err? <==> c.privateKey.None?
    ensures r.Ok? ==> r.value == Text(Layout(c, c.privateKey.value, lib, AsWritten))
  {
    match c.privateKey
    case None => Err(NilPrivateKey)
    case Some(k) => Ok(Text(Layout(c, k, lib, AsWritten)))
  }

  /** MarshalText with the two corrections: `Table = off`, and no line for an empty AllowedIPs. */
  function MarshalTextCorrected(c: Config, lib: NetLib): (r: Result<string, EncodeError>)
    ensures r.Err? <==> c.privateKey.None?
    ensures r.Ok? ==> r.value == Text(Layout(c, c.privateKey.value, lib, Corrected))
  {
    match c.privateKey
    case None => Err(NilPrivateKey)
    case Some(k) => Ok(Text(Layout(c, k, lib, Corrected)))
  }

  // ---------------------------------------------------------------------
  // Reading a written line back
  // ---------------------------------------------------------------------

  /** Text without white space is its own trimming and lies on one line. */
  lemma NoSpaceClean(s: string)
    requires NoSpace(s)
    ensures Clean(s)
  {
    if |s| > 0 {
      assert !IsSpace(s[0]) && !IsSpace(s[|s| - 1]);
    }
    TrimSpaceOfTrimmed(s);
    assert IsSpace('\n');
  }

  /** A serialized key is clean: base64 characters only. */
  lemma SerializeKeyClean(k: Key)
    ensures Clean(SerializeKey(k))
  {
    var s := SerializeKey(k);
    forall i | 0 <= i < |s|
      ensures !IsSpace(s[i])
    {
      assert Base64.EncodedChar(s[i]);
    }
    NoSpaceClean(s);
  }

  /** A formatted integer is clean: digits and a sign. */
  lemma FormatIntClean(n: int)
    ensures Clean(FormatInt(n))
  {
    var s := FormatInt(n);
    forall i | 0 <= i < |s|
      ensures !IsSpace(s[i])
    {
      assert IsDigit(s[i]) || s[i] == '-';
    }
    NoSpaceClean(s);
  }

  /** The first `c` in `s` is at `i` when `s[i]` is one and none comes before it. */
  lemma IndexOfAt(s: string, c: char, i: nat)
    requires i < |s| && s[i] == c && c !in s[..i]
    ensures IndexOf(s, c) == i
  {
  }

  /** What a name is not: it holds no `=`, no white space and no line feed, and starts no comment or header. */
  lemma NameFacts(lhs: string)
    requires IsName(lhs)
    ensures '=' !in lhs && '\n' !in lhs
    ensures NoSpace(lhs) && TrimSpace(lhs) == lhs
    ensures lhs[0] != '#' && lhs[0] != '['
  {
    forall k | 0 <= k < |lhs|
      ensures !IsSpace(lhs[k]) && lhs[k] != '=' && lhs[k] != '\n'
    {
    }
    NoSpaceClean(lhs);
  }

  /** In `lhs = ...` the first `=` is the one the template wrote. */
  lemma FirstEquals(lhs: string, rest: string, ln: string)
    requires '=' !in lhs
    requires ln == lhs + " =" + rest
    ensures '=' in ln && IndexOf(ln, '=') == |lhs| + 1
    ensures ln[..IndexOf(ln, '=')] == lhs + " "
    ensures ln[IndexOf(ln, '=') + 1..] == rest
  {
    var n := |lhs|;
    assert ln[..n + 1] == lhs + " ";
    assert ln[n + 1] == '=';
    assert '=' !in lhs + " ";
    IndexOfAt(ln, '=', n + 1);
  }

  /** A trimmed name followed by a space trims back to the name. */
  lemma TrimNameSpace(lhs: string)
    requires TrimSpace(lhs) == lhs
    ensures TrimSpace(lhs + " ") == lhs
  {
    TrimSpaceTrailingSpace(lhs);
  }

  /** The text after `=`: empty, or a space and the value; either way it trims to the value. */
  lemma TrimValue(rhs: string)
    requires TrimSpace(rhs) == rhs
    ensures TrimSpace(if rhs == [] then "" else " " + rhs) == rhs
  {
    if rhs != [] {
      TrimSpaceLeadingSpace(rhs);
    }
  }

  /** A name followed by ` =` and then, when the value is not empty, by a space and the value. */
  lemma NameEquals(lhs: string, rhs: string, ln: string)
    requires IsName(lhs) && Clean(rhs)
    requires ln == lhs + " =" + (if rhs == [] then "" else " " + rhs)
    ensures KeyValue(ln) == Some((lhs, rhs))
  {
    NameFacts(lhs);
    FirstEquals(lhs, if rhs == [] then "" else " " + rhs, ln);
    KeyValueFirstEquals(ln);
    TrimNameSpace(lhs);
    TrimValue(rhs);
  }

  /** A shown field trims to the name, ` =` and, when the value is not empty, a space and the value. */
  lemma TrimField(lhs: string, rhs: string)
    requires IsName(lhs) && Clean(rhs)
    ensures TrimSpace(lhs + " = " + rhs) == lhs + " =" + (if rhs == [] then "" else " " + rhs)
  {
    NameFacts(lhs);
    var s := lhs + " = " + rhs;
    if rhs == [] {
      assert s == (lhs + " =") + " ";
      TrimSpaceTrailingSpace(lhs + " =");
      TrimSpaceOfTrimmed(lhs + " =");
    } else {
      assert !IsSpace(rhs[|rhs| - 1]);
      assert s == lhs + " =" + " " + rhs;
      TrimSpaceOfTrimmed(s);
    }
  }

  /** A shown field lies on one line. */
  lemma FieldOneLine(lhs: string, rhs: string)
    requires '\n' !in lhs && '\n' !in rhs
    ensures '\n' !in lhs + " = " + rhs
  {
  }

  /** A shown field is classified as that field. */
  lemma ClassifyField(lhs: string, rhs: string)
    requires IsName(lhs) && Clean(rhs)
    ensures Classify(lhs + " = " + rhs) == Field(lhs, rhs)
  {
    var ln := lhs + " =" + (if rhs == [] then "" else " " + rhs);
    NameFacts(lhs);
    TrimField(lhs, rhs);
    NameEquals(lhs, rhs, ln);
    assert ln[0] == lhs[0] && ln[|lhs| + 1] == '=';
    ClassifyKeyValueLine(lhs + " = " + rhs);
  }

  /** The `[Interface]` header reads back as itself. */
  lemma ClassifyInterfaceHeader()
    ensures Classify(INTERFACE_HEADER) == InterfaceHeader && '\n' !in INTERFACE_HEADER
  {
    var h := INTERFACE_HEADER;
    assert h[0] == '[' && h[|h| - 1] == ']';
    TrimSpaceOfTrimmed(h);
  }

  /** The `[Peer]` header reads back as itself. */
  lemma ClassifyPeerHeader()
    ensures Classify(PEER_HEADER) == PeerHeader && '\n' !in PEER_HEADER
  {
    var h := PEER_HEADER;
    assert h[0] == '[' && h[|h| - 1] == ']';
    TrimSpaceOfTrimmed(h);
  }

  /** The decoder classifies every writable line, once shown, as that line. */
  lemma ClassifyShow(line: Line)
    requires Writable(line)
    ensures Classify(Show(line)) == line
    ensures '\n' !in Show(line)
  {
    match line
    case Blank =>
    case InterfaceHeader => ClassifyInterfaceHeader();
    case PeerHeader => ClassifyPeerHeader();
    case Field(lhs, rhs) =>
      NameFacts(lhs);
      ClassifyField(lhs, rhs);
      FieldOneLine(lhs, rhs);
  }

  /** The last, empty line of a text is blank. */
  lemma ShownLast(lines: seq<Line>)
    ensures Classify((Map(lines, Show) + [""])[|lines|]) == Blank
  {
    assert (Map(lines, Show) + [""])[|lines|] == "";
    assert Skipped(TrimSpace(""));
  }

  /** Each writable line of a text reads back as itself. */
  lemma ShownAt(lines: seq<Line>, i: nat)
    requires i < |lines| && Writable(lines[i])
    ensures Classify((Map(lines, Show) + [""])[i]) == lines[i]
  {
    assert (Map(lines, Show) + [""])[i] == Show(lines[i]);
    ClassifyShow(lines[i]);
  }

  /** Writable lines, shown and followed by an empty last line, classify back as those lines and a blank. */
  lemma ClassifyAllShown(lines: seq<Line>)
    requires forall i | 0 <= i < |lines| :: Writable(lines[i])
    ensures ClassifyAll(Map(lines, Show) + [""]) == lines + [Blank]
  {
    var r := ClassifyAll(Map(lines, Show) + [""]);
    var want := lines + [Blank];
    forall i | 0 <= i < |want|
      ensures r[i] == want[i]
    {
      if i < |lines| {
        ShownAt(lines, i);
      } else {
        ShownLast(lines);
      }
    }
  }

  /** The text of writable lines splits into those lines and a last, empty one, and reads back as them. */
  lemma LinesOfText(lines: seq<Line>)
    requires forall i | 0 <= i < |lines| :: Writable(lines[i])
    ensures Split(Text(lines), '\n') == Map(lines, Show) + [""]
    ensures Lines(Text(lines)) == lines + [Blank]
  {
    var shown := Map(lines, Show) + [""];
    forall i | 0 <= i < |shown|
      ensures '\n' !in shown[i]
    {
      if i < |lines| {
        ClassifyShow(lines[i]);
      }
    }
    assert "\n" == ['\n'];
    SplitJoin(shown, '\n');
    ClassifyAllShown(lines);
  }
}
