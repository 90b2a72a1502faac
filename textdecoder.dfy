/**
 * The line-oriented decoder of the wg-quick text format (`UnmarshalText`).
 * The text is split on line feeds; each line is trimmed; blank lines and
 * comments are skipped; `[Interface]` and `[Peer]` switch sections (a
 * `[Peer]` header also starts a new, empty peer); every other line is
 * `Name = value` and goes to the grammar of the current section.
 *
 * Each line is first classified on its own (`Classify`: the trimming,
 * the skipping, the header test and the split at `=` do not depend on the
 * section); the loop then runs over the classified lines. The loop is
 * written over a `Grammar`, the pair of per-section field
 * parsers it dispatches to; `Decode` runs it with the two grammars of
 * wg-quick, `InterfaceLine` and `PeerLine`. The lemmas about the loop
 * rely only on the few laws of those grammars they name.
 */
module TextDecoder {
  import opened Results
  import opened GoStrings
  import opened ConfigModel
  import opened KeyCodec
  import opened Net
  import opened FieldGrammar

  datatype ParseState = Unknown | Inter | Peer

  /** The configuration built so far and the section the decoder is in. */
  datatype Decoding = Decoding(cfg: Config, state: ParseState)

  /** In a peer section there is a peer being filled in: the last one. */
  predicate Consistent(d: Decoding) {
    d.state == Peer ==> |d.cfg.peers| > 0
  }

  /** A decoding failure; `no` is the 0-based index of the offending line. */
  datatype DecodeError =
    | MissingEquals(no: nat)
    | InvalidField(no: nat, cause: FieldError)
    | UnknownState(no: nat)

  const INTERFACE_HEADER: string := "[Interface]"
  const PEER_HEADER: string := "[Peer]"

  /** A trimmed line that carries nothing: blank, or a comment. */
  predicate Skipped(ln: string) {
    |ln| == 0 || ln[0] == '#'
  }

  /** A trimmed line that opens a section. */
  predicate IsHeader(ln: string) {
    ln == INTERFACE_HEADER || ln == PEER_HEADER
  }

  /**
   * `Name = value`: the trimmed text before the first `=` and the trimmed
   * text after it; later `=` signs belong to the value.
   */
  function KeyValue(ln: string): (r: Option<(string, string)>)
    ensures r.Some? <==> '=' in ln
  {
    KeyValueOf(Split(ln, '='))
  }

  /** The name and value from the pieces of a line split at every `=`. */
  function KeyValueOf(parts: seq<string>): Option<(string, string)> {
    if |parts| < 2 then None
    else Some((TrimSpace(parts[0]), TrimSpace(Join(parts[1..], "="))))
  }

  /** The name and the value are the trimmed text on either side of the first `=`; later ones belong to the value. */
  lemma KeyValueFirstEquals(ln: string)
    requires '=' in ln
    ensures KeyValue(ln) == Some((TrimSpace(ln[..IndexOf(ln, '=')]), TrimSpace(ln[IndexOf(ln, '=') + 1..])))
  {
    var i := IndexOf(ln, '=');
    var parts := Split(ln, '=');
    SplitHead(ln, '=');
    SplitTail(ln, '=');
    assert |parts| >= 2;
    assert "=" == ['='];
    assert parts[0] == ln[..i];
    assert Join(parts[1..], "=") == ln[i + 1..];
  }

  /** What a line is, before the section it is in is taken into account. */
  datatype Line =
    | Blank
    | InterfaceHeader
    | PeerHeader
    | NoEquals
    | Field(lhs: string, rhs: string)

  /** Trims the line, and tells a blank line or comment, a header, a line without `=` and a field apart. */
  function Classify(line: string): (r: Line)
    ensures r == Blank <==> Skipped(TrimSpace(line))
    ensures r == InterfaceHeader <==> TrimSpace(line) == INTERFACE_HEADER
    ensures r == PeerHeader <==> TrimSpace(line) == PEER_HEADER
    ensures r == NoEquals <==> !Skipped(TrimSpace(line)) && !IsHeader(TrimSpace(line)) && '=' !in TrimSpace(line)
  {
    var ln := TrimSpace(line);
    if Skipped(ln) then Blank
    else if ln == INTERFACE_HEADER then InterfaceHeader
    else if ln == PEER_HEADER then PeerHeader
    else if KeyValue(ln).None? then NoEquals
    else Field(KeyValue(ln).value.0, KeyValue(ln).value.1)
  }

  /** A line that trims to a non-empty text holding `=` and starting with neither `#` nor `[` is a field. */
  lemma ClassifyKeyValueLine(line: string)
    requires |TrimSpace(line)| > 0 && TrimSpace(line)[0] != '#' && TrimSpace(line)[0] != '['
    requires '=' in TrimSpace(line)
    ensures Classify(line) == Field(KeyValue(TrimSpace(line)).value.0, KeyValue(TrimSpace(line)).value.1)
  {
    var ln := TrimSpace(line);
    assert !Skipped(ln);
    assert ln != INTERFACE_HEADER by { assert INTERFACE_HEADER[0] == '['; }
    assert ln != PEER_HEADER by { assert PEER_HEADER[0] == '['; }
  }

  /** Every line of a text, classified. */
  function ClassifyAll(lines: seq<string>): (r: seq<Line>)
    ensures |r| == |lines|
    ensures forall i | 0 <= i < |lines| :: r[i] == Classify(lines[i])
  {
    seq(|lines|, i requires 0 <= i < |lines| => Classify(lines[i]))
  }

  /** The field parsers of the two sections. */
  datatype Grammar = Grammar(
    interfaceLine: (Config, string, string) -> Result<Config, FieldError>,
    peerLine: (PeerConfig, string, string) -> Result<PeerConfig, FieldError>)

  /** parseInterfaceLine and parsePeerLine. */
  function WgQuick(lib: NetLib): Grammar {
    Grammar((c, lhs, rhs) => InterfaceLine(c, lhs, rhs, lib), (p, lhs, rhs) => PeerLine(p, lhs, rhs, lib))
  }

  /** A `Name = value` line, given to the grammar of the current section. */
  function FieldStep(d: Decoding, lhs: string, rhs: string, no: nat, g: Grammar): (r: Result<Decoding, DecodeError>)
    requires Consistent(d)
    ensures r.Ok? ==> Consistent(r.value) && r.value.state == d.state
    ensures r.Err? ==> r.error.no == no
  {
    match d.state
    case Inter =>
      (match g.interfaceLine(d.cfg, lhs, rhs)
       case Err(e) => Err(InvalidField(no, e))
       case Ok(c) => Ok(Decoding(c, Inter)))
    case Peer =>
      (match g.peerLine(LastPeer(d.cfg), lhs, rhs)
       case Err(e) => Err(InvalidField(no, e))
       case Ok(p) => Ok(Decoding(WithLastPeer(d.cfg, p), Peer)))
    case Unknown => Err(UnknownState(no))
  }

  /** One iteration of the decoding loop, on the line with 0-based index `no`. */
  function Step(d: Decoding, line: Line, no: nat, g: Grammar): (r: Result<Decoding, DecodeError>)
    requires Consistent(d)
    ensures r.Ok? ==> Consistent(r.value)
    ensures r.Err? ==> r.error.no == no
  {
    match line
    case Blank => Ok(d)
    case InterfaceHeader => Ok(Decoding(d.cfg, Inter))
    case PeerHeader => Ok(Decoding(WithNewPeer(d.cfg), Peer))
    case NoEquals => Err(MissingEquals(no))
    case Field(lhs, rhs) => FieldStep(d, lhs, rhs, no, g)
  }

  /**
   * The decoding loop over the lines with indices `from` up to, but not
   * including, `to`, starting in `d`; it stops at the first error. A line's
   * index is the number its errors carry.
   */
  function Run(d: Decoding, lines: seq<Line>, from: nat, to: nat, g: Grammar): (r: Result<Decoding, DecodeError>)
    requires Consistent(d) && from <= to <= |lines|
    ensures r.Ok? ==> Consistent(r.value)
    ensures r.Err? ==> from <= r.error.no < to
    decreases |lines| - from
  {
    if from == to then Ok(d)
    else
      match Step(d, lines[from], from, g)
      case Err(e) => Err(e)
      case Ok(d') => Run(d', lines, from + 1, to, g)
  }

  const START: Decoding := Decoding(NewConfig(), Unknown)

  /** The lines of a text, split at line feeds and classified. */
  function Lines(text: string): (r: seq<Line>)
    ensures |r| == |Split(text, '\n')|
  {
    ClassifyAll(Split(text, '\n'))
  }

  /** The decoder over a grammar: the loop over every line, from the default configuration, outside any section. */
  function DecodeWith(text: string, g: Grammar): Result<Config, DecodeError> {
    match Run(START, Lines(text), 0, |Lines(text)|, g)
    case Err(e) => Err(e)
    case Ok(d) => Ok(d.cfg)
  }

  /** UnmarshalText as a function of the text. */
  function Decode(text: string, lib: NetLib): Result<Config, DecodeError> {
    DecodeWith(text, WgQuick(lib))
  }

  /** The line number the error message prints. */
  function ReportedLine(e: DecodeError): (n: nat)
    ensures e.MissingEquals? ==> n == e.no
    ensures !e.MissingEquals? ==> n == e.no + 1
  {
    match e
    case MissingEquals(no) => no
    case InvalidField(no, _) => no + 1
    case UnknownState(no) => no + 1
  }

  /**
   * The body of UnmarshalText's loop for one classified line: a header
   * switches section (a `[Peer]` header also appends an empty peer), and a
   * field goes to parseInterfaceLine, to parsePeerLine on the last peer, or
   * is refused outside any section.
   */
  method DecodeLine(cfg: Config, state: ParseState, line: Line, no: nat, lib: NetLib)
    returns (r: Result<Decoding, DecodeError>)
    requires Consistent(Decoding(cfg, state))
    ensures r == Step(Decoding(cfg, state), line, no, WgQuick(lib))
  {
    match line
    case Blank =>
      return Ok(Decoding(cfg, state));
    case InterfaceHeader =>
      return Ok(Decoding(cfg, Inter));
    case PeerHeader =>
      return Ok(Decoding(WithNewPeer(cfg), Peer));
    case NoEquals =>
      return Err(MissingEquals(no));
    case Field(lhs, rhs) =>
      match state
      case Inter =>
        var c := ParseInterfaceLine(cfg, lhs, rhs, lib);
        if c.Err? {
          return Err(InvalidField(no, c.error));
        }
        return Ok(Decoding(c.value, Inter));
      case Peer =>
        var p := ParsePeerLine(LastPeer(cfg), lhs, rhs, lib);
        if p.Err? {
          return Err(InvalidField(no, p.error));
        }
        return Ok(Decoding(WithLastPeer(cfg, p.value), Peer));
      case Unknown =>
        return Err(UnknownState(no));
  }

  /**
   * UnmarshalText: resets the configuration and walks the lines once,
   * keeping the section state and, in a peer section, filling in the last peer.
   */
  method UnmarshalText(text: string, lib: NetLib) returns (r: Result<Config, DecodeError>)
    ensures r == Decode(text, lib)
  {
    var cfg := NewConfig();
    var state := Unknown;
    var lines := Split(text, '\n');
    ghost var kinds := Lines(text);
    ghost var g := WgQuick(lib);
    ghost var outcome := Run(START, kinds, 0, |kinds|, g);
    var no := 0;
    while no < |lines|
      invariant 0 <= no <= |lines| == |kinds|
      invariant Consistent(Decoding(cfg, state))
      invariant outcome == Run(Decoding(cfg, state), kinds, no, |kinds|, g)
    {
      assert kinds[no] == Classify(lines[no]);
      var step := DecodeLine(cfg, state, Classify(lines[no]), no, lib);
      RunFirst(Decoding(cfg, state), kinds, no, |kinds|, g);
      if step.Err? {
        return Err(step.error);
      }
      cfg, state := step.value.cfg, step.value.state;
      no := no + 1;
    }
    return Ok(cfg);
  }

  /** A run over a non-empty range is its first step, then the rest of the run. */
  lemma RunFirst(d: Decoding, lines: seq<Line>, from: nat, to: nat, g: Grammar)
    requires Consistent(d) && from < to <= |lines|
    ensures Run(d, lines, from, to, g) ==
      (match Step(d, lines[from], from, g)
       case Err(e) => Err(e)
       case Ok(d1) => Run(d1, lines, from + 1, to, g))
  {
  }

  /** Running up to `to` is running up to `k` and then on from where that left off. */
  lemma {:induction false} RunSplit(d: Decoding, lines: seq<Line>, from: nat, k: nat, to: nat, g: Grammar)
    requires Consistent(d) && from <= k <= to <= |lines|
    ensures Run(d, lines, from, to, g) ==
      (match Run(d, lines, from, k, g)
       case Err(e) => Err(e)
       case Ok(d') => Run(d', lines, k, to, g))
    decreases k - from
  {
    if from < k {
      match Step(d, lines[from], from, g)
      case Err(_) =>
      case Ok(d1) => RunSplit(d1, lines, from + 1, k, to, g);
    }
  }

  /**
   * An error names the line that caused it: every line before it was
   * accepted, and that line fails from the state they left behind.
   */
  lemma {:induction false} RunErrorLine(d: Decoding, lines: seq<Line>, from: nat, to: nat, g: Grammar)
    requires Consistent(d) && from <= to <= |lines|
    requires Run(d, lines, from, to, g).Err?
    ensures
      var k := Run(d, lines, from, to, g).error.no;
      (&& from <= k < to
       && Run(d, lines, from, k, g).Ok?
       && Step(Run(d, lines, from, k, g).value, lines[k], k, g) == Run(d, lines, from, to, g))
    decreases |lines| - from
  {
    match Step(d, lines[from], from, g)
    case Err(_) =>
    case Ok(d1) => RunErrorLine(d1, lines, from + 1, to, g);
  }

  /** The 1-based number of the line an error comes from. */
  function LineNumber(e: DecodeError): (n: nat)
    ensures n >= 1
  {
    e.no + 1
  }

  /**
   * A failed decoding points at line `LineNumber(e)`, counting from 1: the
   * lines above it were all accepted, and that line, from the state they
   * left behind, fails with exactly that error. This holds whatever the
   * field grammars are, so for `Decode` in particular.
   */
  lemma DecodeErrorLine(text: string, g: Grammar)
    requires DecodeWith(text, g).Err?
    ensures
      var lines := Lines(text);
      var n := LineNumber(DecodeWith(text, g).error);
      (&& n <= |lines|
       && Run(START, lines, 0, n - 1, g).Ok?
       && Step(Run(START, lines, 0, n - 1, g).value, lines[n - 1], n - 1, g) == Err(DecodeWith(text, g).error))
  {
    RunErrorLine(START, Lines(text), 0, |Lines(text)|, g);
  }

  /** The number of `[Peer]` headers among the lines with indices `from` up to `to`. */
  function PeerHeaders(lines: seq<Line>, from: nat, to: nat): nat
    requires from <= to <= |lines|
    decreases |lines| - from
  {
    if from == to then 0
    else (if lines[from] == PeerHeader then 1 else 0) + PeerHeaders(lines, from + 1, to)
  }

  /** The peers whose sections are over: all of them, except the last one while a peer section is open. */
  function Closed(d: Decoding): (r: seq<PeerConfig>)
    requires Consistent(d)
    ensures r <= d.cfg.peers
  {
    if d.state == Peer then d.cfg.peers[..|d.cfg.peers| - 1] else d.cfg.peers
  }

  /** The interface grammar never touches the peers. */
  ghost predicate KeepsPeers(g: Grammar) {
    forall c, lhs, rhs :: g.interfaceLine(c, lhs, rhs).Ok? ==> g.interfaceLine(c, lhs, rhs).value.peers == c.peers
  }

  /** A line adds a peer exactly when it is a `[Peer]` header, and never touches a closed peer. */
  lemma StepPeers(d: Decoding, line: Line, no: nat, g: Grammar)
    requires Consistent(d) && KeepsPeers(g)
    requires Step(d, line, no, g).Ok?
    ensures
      var d' := Step(d, line, no, g).value;
      (&& |d'.cfg.peers| == |d.cfg.peers| + (if line == PeerHeader then 1 else 0)
       && Closed(d) <= Closed(d'))
  {
    if line.Field? && d.state == Peer {
      var d' := Step(d, line, no, g).value;
      var n := |d.cfg.peers|;
      assert d'.cfg.peers[..n - 1] == d.cfg.peers[..n - 1];
    }
  }

  /**
   * Every `[Peer]` header adds exactly one peer, and a peer whose section
   * has ended is never changed by the lines that follow.
   */
  lemma {:induction false} RunPeers(d: Decoding, lines: seq<Line>, from: nat, to: nat, g: Grammar)
    requires Consistent(d) && KeepsPeers(g) && from <= to <= |lines|
    requires Run(d, lines, from, to, g).Ok?
    ensures
      var d' := Run(d, lines, from, to, g).value;
      (&& |d'.cfg.peers| == |d.cfg.peers| + PeerHeaders(lines, from, to)
       && Closed(d) <= Closed(d'))
    decreases |lines| - from
  {
    if from < to {
      StepPeers(d, lines[from], from, g);
      RunPeers(Step(d, lines[from], from, g).value, lines, from + 1, to, g);
    }
  }

  /** parseInterfaceLine leaves the peers alone. */
  lemma WgQuickKeepsPeers(lib: NetLib)
    ensures KeepsPeers(WgQuick(lib))
  {
    forall c, lhs, rhs | InterfaceLine(c, lhs, rhs, lib).Ok?
      ensures InterfaceLine(c, lhs, rhs, lib).value.peers == c.peers
    {
      InterfaceLineFrame(c, lhs, rhs, lib);
    }
  }

  /** A decoded configuration has one peer per `[Peer]` header. */
  lemma DecodePeerCount(text: string, lib: NetLib)
    requires Decode(text, lib).Ok?
    ensures |Decode(text, lib).value.peers| == PeerHeaders(Lines(text), 0, |Lines(text)|)
  {
    WgQuickKeepsPeers(lib);
    RunPeers(START, Lines(text), 0, |Lines(text)|, WgQuick(lib));
  }

  /** Only a Table line of the interface grammar changes the routing table. */
  ghost predicate KeepsTable(g: Grammar) {
    forall c, lhs, rhs | lhs != "Table" ::
      g.interfaceLine(c, lhs, rhs).Ok? ==> g.interfaceLine(c, lhs, rhs).value.table == c.table
  }

  /** A line that is not a Table line does not name the routing table. */
  predicate NotTable(line: Line) {
    !(line.Field? && line.lhs == "Table")
  }

  /** Lines that never name Table leave the routing table as it was. */
  lemma {:induction false} RunKeepsTable(d: Decoding, lines: seq<Line>, from: nat, to: nat, g: Grammar)
    requires Consistent(d) && KeepsTable(g) && from <= to <= |lines|
    requires Run(d, lines, from, to, g).Ok?
    requires forall i | from <= i < to :: NotTable(lines[i])
    ensures Run(d, lines, from, to, g).value.cfg.table == d.cfg.table
    decreases |lines| - from
  {
    if from < to {
      assert NotTable(lines[from]);
      RunKeepsTable(Step(d, lines[from], from, g).value, lines, from + 1, to, g);
    }
  }

  /** parseInterfaceLine changes the table only on a Table line. */
  lemma WgQuickKeepsTable(lib: NetLib)
    ensures KeepsTable(WgQuick(lib))
  {
    forall c, lhs, rhs | lhs != "Table" && InterfaceLine(c, lhs, rhs, lib).Ok?
      ensures InterfaceLine(c, lhs, rhs, lib).value.table == c.table
    {
      InterfaceLineFrame(c, lhs, rhs, lib);
    }
  }

  /** Without a Table line, a decoded configuration uses the main routing table, 0. */
  lemma DecodeDefaultTable(text: string, lib: NetLib)
    requires Decode(text, lib).Ok?
    requires forall i | 0 <= i < |Lines(text)| :: NotTable(Lines(text)[i])
    ensures Decode(text, lib).value.table == Some(0)
  {
    WgQuickKeepsTable(lib);
    RunKeepsTable(START, Lines(text), 0, |Lines(text)|, WgQuick(lib));
  }

  /** A PresharedKey line, whatever its value. */
  predicate PresharedKeyLine(line: Line) {
    line.Field? && line.lhs == "PresharedKey"
  }

  /** A section header. */
  predicate HeaderLine(line: Line) {
    line == InterfaceHeader || line == PeerHeader
  }

  /**
   * The peer grammar never drops a preshared key, sets one on every
   * PresharedKey line it accepts, and rejects every PresharedKey line for a
   * peer that already has one: as a duplicate when the value is a valid key.
   */
  ghost predicate GuardsPresharedKey(g: Grammar) {
    && (forall p, lhs, rhs :: g.peerLine(p, lhs, rhs).Ok? && p.presharedKey.Some? ==>
          g.peerLine(p, lhs, rhs).value.presharedKey.Some?)
    && (forall p, rhs ::
          && (g.peerLine(p, "PresharedKey", rhs).Ok? ==> g.peerLine(p, "PresharedKey", rhs).value.presharedKey.Some?)
          && (p.presharedKey.Some? ==> g.peerLine(p, "PresharedKey", rhs).Err?))
    && (forall p: PeerConfig, rhs | ParseKey(rhs).Ok? && p.presharedKey.Some? ::
          g.peerLine(p, "PresharedKey", rhs) == Err(DuplicatePresharedKey))
  }

  /**
   * Inside a peer section, a line that is not a header keeps the section
   * open on the same peer and never removes its preshared key; an accepted
   * PresharedKey line sets one, and any later one is rejected: as a
   * duplicate when its value is a valid key.
   */
  lemma StepInPeer(d: Decoding, line: Line, no: nat, g: Grammar)
    requires Consistent(d) && d.state == Peer && GuardsPresharedKey(g)
    requires !HeaderLine(line)
    ensures Step(d, line, no, g).Ok? ==>
      var d' := Step(d, line, no, g).value;
      && d'.state == Peer
      && |d'.cfg.peers| == |d.cfg.peers|
      && (LastPeer(d.cfg).presharedKey.Some? ==> LastPeer(d'.cfg).presharedKey.Some?)
      && (PresharedKeyLine(line) ==> LastPeer(d'.cfg).presharedKey.Some?)
    ensures PresharedKeyLine(line) && LastPeer(d.cfg).presharedKey.Some? ==> Step(d, line, no, g).Err?
    ensures PresharedKeyLine(line) && ParseKey(line.rhs).Ok? && LastPeer(d.cfg).presharedKey.Some? ==>
      Step(d, line, no, g) == Err(InvalidField(no, DuplicatePresharedKey))
  {
  }

  /** Lines without a header keep a peer section open, and a preshared key once set stays set. */
  lemma {:induction false} RunInPeer(d: Decoding, lines: seq<Line>, from: nat, to: nat, g: Grammar)
    requires Consistent(d) && d.state == Peer && GuardsPresharedKey(g) && from <= to <= |lines|
    requires forall i | from <= i < to :: !HeaderLine(lines[i])
    requires Run(d, lines, from, to, g).Ok?
    ensures
      var d' := Run(d, lines, from, to, g).value;
      (&& d'.state == Peer
       && |d'.cfg.peers| == |d.cfg.peers|
       && (LastPeer(d.cfg).presharedKey.Some? ==> LastPeer(d'.cfg).presharedKey.Some?))
    decreases |lines| - from
  {
    if from < to {
      StepInPeer(d, lines[from], from, g);
      RunInPeer(Step(d, lines[from], from, g).value, lines, from + 1, to, g);
    }
  }

  /** Once the peer has a preshared key, any PresharedKey line later in its section is rejected. */
  lemma SecondKeyRejected(d: Decoding, lines: seq<Line>, from: nat, j: nat, to: nat, g: Grammar)
    requires Consistent(d) && d.state == Peer && GuardsPresharedKey(g)
    requires LastPeer(d.cfg).presharedKey.Some?
    requires from <= j < to <= |lines|
    requires forall m | from <= m <= j :: !HeaderLine(lines[m])
    requires PresharedKeyLine(lines[j])
    ensures Run(d, lines, from, to, g).Err?
  {
    RunSplit(d, lines, from, j, to, g);
    if Run(d, lines, from, j, g).Ok? {
      RunInPeer(d, lines, from, j, g);
      StepInPeer(Run(d, lines, from, j, g).value, lines[j], j, g);
    }
  }

  /** Two PresharedKey lines in what is left of a peer section make decoding fail, whatever their values. */
  lemma PeerSectionDuplicateKey(d: Decoding, lines: seq<Line>, from: nat, i: nat, j: nat, to: nat, g: Grammar)
    requires Consistent(d) && d.state == Peer && GuardsPresharedKey(g)
    requires from <= i < j < to <= |lines|
    requires forall m | from <= m <= j :: !HeaderLine(lines[m])
    requires PresharedKeyLine(lines[i]) && PresharedKeyLine(lines[j])
    ensures Run(d, lines, from, to, g).Err?
  {
    RunSplit(d, lines, from, i, to, g);
    if Run(d, lines, from, i, g).Ok? {
      var d3 := Run(d, lines, from, i, g).value;
      RunInPeer(d, lines, from, i, g);
      StepInPeer(d3, lines[i], i, g);
      if Step(d3, lines[i], i, g).Ok? {
        SecondKeyRejected(Step(d3, lines[i], i, g).value, lines, i + 1, j, to, g);
      }
    }
  }

  /** parsePeerLine never drops a preshared key, sets one on an accepted PresharedKey line and refuses any second one. */
  lemma WgQuickGuardsPresharedKey(lib: NetLib)
    ensures GuardsPresharedKey(WgQuick(lib))
  {
    forall p, lhs, rhs | PeerLine(p, lhs, rhs, lib).Ok? && p.presharedKey.Some?
      ensures PeerLine(p, lhs, rhs, lib).value.presharedKey.Some?
    {
      PeerLineFrame(p, lhs, rhs, lib);
    }
  }

  /** Within one peer section, two PresharedKey lines make the loop fail, under any grammar that guards the key. */
  lemma RunDuplicateKey(lines: seq<Line>, g: Grammar, h: nat, i: nat, j: nat)
    requires GuardsPresharedKey(g)
    requires h < i < j < |lines|
    requires lines[h] == PeerHeader
    requires forall m | h < m <= j :: !HeaderLine(lines[m])
    requires PresharedKeyLine(lines[i]) && PresharedKeyLine(lines[j])
    ensures Run(START, lines, 0, |lines|, g).Err?
  {
    RunSplit(START, lines, 0, h, |lines|, g);
    if Run(START, lines, 0, h, g).Ok? {
      var d1 := Run(START, lines, 0, h, g).value;
      PeerSectionDuplicateKey(Step(d1, PeerHeader, h, g).value, lines, h + 1, i, j, |lines|, g);
    }
  }

  /** Within one peer section of a text, two PresharedKey lines make decoding fail, whatever their values. */
  lemma DuplicatePresharedKeyRejected(text: string, lib: NetLib, h: nat, i: nat, j: nat)
    requires
      var lines := Lines(text);
      (&& h < i < j < |lines|
       && lines[h] == PeerHeader
       && (forall m | h < m <= j :: !HeaderLine(lines[m]))
       && PresharedKeyLine(lines[i]) && PresharedKeyLine(lines[j]))
    ensures Decode(text, lib).Err?
  {
    WgQuickGuardsPresharedKey(lib);
    RunDuplicateKey(Lines(text), WgQuick(lib), h, i, j);
  }

  /** Lines that are all blank or comments change nothing. */
  lemma {:induction false} RunSkipped(d: Decoding, lines: seq<Line>, from: nat, to: nat, g: Grammar)
    requires Consistent(d) && from <= to <= |lines|
    requires forall i | from <= i < to :: lines[i] == Blank
    ensures Run(d, lines, from, to, g) == Ok(d)
    decreases |lines| - from
  {
    if from < to {
      assert lines[from] == Blank;
      RunSkipped(d, lines, from + 1, to, g);
    }
  }

  /**
   * Before the first section header, the first line that is neither blank
   * nor a comment is rejected: as an unknown state when it holds `=`, as a
   * missing `=` otherwise.
   */
  lemma RunBeforeHeader(lines: seq<Line>, g: Grammar, k: nat)
    requires k < |lines|
    requires forall i | 0 <= i < k :: lines[i] == Blank
    requires lines[k] != Blank && !HeaderLine(lines[k])
    ensures Run(START, lines, 0, |lines|, g) == if lines[k].Field? then Err(UnknownState(k)) else Err(MissingEquals(k))
  {
    RunSkipped(START, lines, 0, k, g);
    RunSplit(START, lines, 0, k, |lines|, g);
  }

  /**
   * Before the first section header, the first line of a text that is
   * neither blank nor a comment is rejected: as an unknown state when it
   * holds `=`, as a missing `=` otherwise.
   */
  lemma LineBeforeHeaderRejected(text: string, g: Grammar, k: nat)
    requires k < |Lines(text)|
    requires forall i | 0 <= i < k :: Lines(text)[i] == Blank
    requires Lines(text)[k] != Blank && !HeaderLine(Lines(text)[k])
    ensures DecodeWith(text, g) == if Lines(text)[k].Field? then Err(UnknownState(k)) else Err(MissingEquals(k))
  {
    RunBeforeHeader(Lines(text), g, k);
  }

  /**
   * The error for a line without `=` prints the 0-based index where every
   * other error prints the 1-based number: a text whose first line has no
   * `=` (the one-line text `Address`, say) fails on line 1 but is reported
   * as line 0, while a text whose first line is a field outside any
   * section (`MTU = 1`) fails on line 1 and is reported as line 1.
   */
  lemma MissingEqualsReportsIndex(text: string, g: Grammar)
    requires Lines(text)[0] == NoEquals
    ensures DecodeWith(text, g) == Err(MissingEquals(0))
    ensures LineNumber(DecodeWith(text, g).error) == 1
    ensures ReportedLine(DecodeWith(text, g).error) == 0
  {
    RunBeforeHeader(Lines(text), g, 0);
  }

  /** The same first line, when it is a field, is reported with its 1-based number. */
  lemma UnknownStateReportsNumber(text: string, g: Grammar)
    requires Lines(text)[0].Field?
    ensures DecodeWith(text, g) == Err(UnknownState(0))
    ensures LineNumber(DecodeWith(text, g).error) == 1
    ensures ReportedLine(DecodeWith(text, g).error) == 1
  {
    RunBeforeHeader(Lines(text), g, 0);
  }

  /** An empty text decodes to the defaults. */
  lemma DecodeEmpty(g: Grammar)
    ensures DecodeWith("", g) == Ok(NewConfig())
  {
    assert Split("", '\n') == [""];
    assert Lines("") == [Blank];
  }
}
