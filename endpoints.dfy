/**
 * The endpoint extractor of `GetUnresolvedEndpoints`: a reduced pass of
 * the decoder's section machine over the lines of a configuration file.
 * Inside a peer section it remembers the last `PublicKey` and `Endpoint`
 * values it has seen; as soon as both are non-empty it records the
 * endpoint under the parsed key and forgets both. A `[Peer]` header
 * forgets them too. Lines outside peer sections are not looked at.
 *
 * The lines are classified exactly as the decoder classifies them
 * (`TextDecoder.Classify`): trimming, skipping blanks and comments, the
 * header test and the split at the first `=` are the same code.
 */
module EndpointScan {
  import opened Results
  import opened GoStrings
  import opened KeyCodec
  import opened TextDecoder

  /** The loop's variables: the section, the pending strings and the map built so far. */
  datatype Scan = Scan(state: ParseState, pubkey: string, endpoint: string, found: map<Key, string>)

  /** The extractor's failures. */
  datatype ScanError =
    | MissingEquals(no: nat)
    | BadKey(cause: KeyError)

  const SCAN_START: Scan := Scan(Unknown, "", "", map[])

  /**
   * What holds between iterations: the two pending strings are never both
   * set (a pair is recorded as soon as it is complete), and every recorded
   * endpoint is non-empty.
   */
  ghost predicate Valid(s: Scan) {
    && (s.pubkey == "" || s.endpoint == "")
    && forall k | k in s.found :: s.found[k] != ""
  }

  /** A complete pair is recorded under its key, parsed by wgtypes.ParseKey, and forgotten. */
  function Commit(s: Scan): (r: Result<Scan, ScanError>)
    ensures (forall k | k in s.found :: s.found[k] != "") && r.Ok? ==> Valid(r.value)
    ensures r.Ok? ==> r.value.state == s.state && s.found.Keys <= r.value.found.Keys
    ensures r.Err? <==> s.pubkey != "" && s.endpoint != "" && ParseKeyStrict(s.pubkey).Err?
  {
    if s.pubkey == "" || s.endpoint == "" then Ok(s)
    else
      match ParseKeyStrict(s.pubkey)
      case Err(e) => Err(BadKey(e))
      case Ok(k) => Ok(s.(found := s.found[k := s.endpoint], pubkey := "", endpoint := ""))
  }

  /** One iteration of the extractor's loop, on the line with 0-based index `no`. */
  function ScanStep(s: Scan, line: Line, no: nat): (r: Result<Scan, ScanError>)
    ensures Valid(s) && r.Ok? ==> Valid(r.value)
    ensures r.Ok? ==> s.found.Keys <= r.value.found.Keys
    ensures r.Err? && r.error.MissingEquals? ==> r.error.no == no
  {
    match line
    case Blank => Ok(s)
    case InterfaceHeader => Ok(s.(state := Inter))
    case PeerHeader => Ok(s.(state := Peer, pubkey := "", endpoint := ""))
    case NoEquals => if s.state != Peer then Ok(s) else Err(ScanError.MissingEquals(no))
    case Field(lhs, rhs) =>
      if s.state != Peer then Ok(s)
      else if lhs == "PublicKey" then Commit(s.(pubkey := rhs))
      else if lhs == "Endpoint" then Commit(s.(endpoint := rhs))
      else Commit(s)
  }

  /** The loop over the lines with indices `from` up to, but not including, `to`; it stops at the first error. */
  function ScanRun(s: Scan, lines: seq<Line>, from: nat, to: nat): (r: Result<Scan, ScanError>)
    requires from <= to <= |lines|
    ensures Valid(s) && r.Ok? ==> Valid(r.value)
    ensures r.Ok? ==> s.found.Keys <= r.value.found.Keys
    ensures r.Err? && r.error.MissingEquals? ==> from <= r.error.no < to
    decreases |lines| - from
  {
    if from == to then Ok(s)
    else
      match ScanStep(s, lines[from], from)
      case Err(e) => Err(e)
      case Ok(s') => ScanRun(s', lines, from + 1, to)
  }

  /** GetUnresolvedEndpoints on the text of the file: the map of every recorded endpoint by public key. */
  function Extract(text: string): (r: Result<map<Key, string>, ScanError>)
    ensures r.Ok? ==> forall k | k in r.value :: r.value[k] != ""
  {
    match ScanRun(SCAN_START, Lines(text), 0, |Lines(text)|)
    case Err(e) => Err(e)
    case Ok(s) => Ok(s.found)
  }

  /**
   * The body of GetUnresolvedEndpoints' loop for one classified line: a
   * header switches section (`[Peer]` also forgets the pending strings);
   * in a peer section a `PublicKey` or `Endpoint` value is remembered and,
   * once both are known, the endpoint is recorded under the parsed key.
   */
  method ScanLine(state: ParseState, pubkey: string, endpoint: string, found: map<Key, string>, line: Line, no: nat)
    returns (r: Result<Scan, ScanError>)
    ensures r == ScanStep(Scan(state, pubkey, endpoint, found), line, no)
  {
    match line
    case Blank =>
      return Ok(Scan(state, pubkey, endpoint, found));
    case InterfaceHeader =>
      return Ok(Scan(Inter, pubkey, endpoint, found));
    case PeerHeader =>
      return Ok(Scan(Peer, "", "", found));
    case NoEquals =>
      if state != Peer {
        return Ok(Scan(state, pubkey, endpoint, found));
      }
      return Err(ScanError.MissingEquals(no));
    case Field(lhs, rhs) =>
      if state != Peer {
        return Ok(Scan(state, pubkey, endpoint, found));
      }
      var pk, ep := pubkey, endpoint;
      if lhs == "PublicKey" {
        pk := rhs;
      } else if lhs == "Endpoint" {
        ep := rhs;
      }
      if pk == "" || ep == "" {
        return Ok(Scan(state, pk, ep, found));
      }
      var key := ParseKeyStrict(pk);
      if key.Err? {
        return Err(BadKey(key.error));
      }
      return Ok(Scan(state, "", "", found[key.value := ep]));
  }

  /**
   * GetUnresolvedEndpoints' loop: one pass over the lines, updating the
   * section, the pending public key and endpoint, and the map.
   */
  method GetUnresolvedEndpoints(text: string) returns (r: Result<map<Key, string>, ScanError>)
    ensures r == Extract(text)
  {
    var state := Unknown;
    var endpoint := "";
    var pubkey := "";
    var found: map<Key, string> := map[];
    var lines := Split(text, '\n');
    ghost var kinds := Lines(text);
    ghost var outcome := ScanRun(SCAN_START, kinds, 0, |kinds|);
    var no := 0;
    while no < |lines|
      invariant 0 <= no <= |lines|
      invariant outcome == ScanRun(Scan(state, pubkey, endpoint, found), kinds, no, |kinds|)
    {
      var step := ScanLine(state, pubkey, endpoint, found, Classify(lines[no]), no);
      if step.Err? {
        return Err(step.error);
      }
      state, pubkey, endpoint, found := step.value.state, step.value.pubkey, step.value.endpoint, step.value.found;
      no := no + 1;
    }
    return Ok(found);
  }

  /** Running up to `to` is running up to `k` and then on from where that left off. */
  lemma {:induction false} ScanSplit(s: Scan, lines: seq<Line>, from: nat, k: nat, to: nat)
    requires from <= k <= to <= |lines|
    ensures ScanRun(s, lines, from, to) ==
      (match ScanRun(s, lines, from, k)
       case Err(e) => Err(e)
       case Ok(s') => ScanRun(s', lines, k, to))
    decreases k - from
  {
    if from < k {
      match ScanStep(s, lines[from], from)
      case Err(_) =>
      case Ok(s1) => ScanSplit(s1, lines, from + 1, k, to);
    }
  }

  /**
   * A line the extractor does not look at: a blank line or comment, any
   * line outside a peer section (one without `=` included), and, in a peer
   * section, a field other than `PublicKey` and `Endpoint`.
   */
  predicate Ignored(s: Scan, line: Line) {
    || line == Blank
    || (s.state != Peer && (line == NoEquals || line.Field?))
    || (line.Field? && line.lhs != "PublicKey" && line.lhs != "Endpoint")
  }

  /** Lines the extractor does not look at change nothing: not the section, not the pending strings, not the map. */
  lemma {:induction false} IgnoredLines(s: Scan, lines: seq<Line>, from: nat, to: nat)
    requires Valid(s) && from <= to <= |lines|
    requires forall k | from <= k < to :: Ignored(s, lines[k])
    ensures ScanRun(s, lines, from, to) == Ok(s)
    decreases |lines| - from
  {
    if from < to {
      assert Ignored(s, lines[from]);
      assert ScanStep(s, lines[from], from) == Ok(s);
      IgnoredLines(s, lines, from + 1, to);
    }
  }

  /** The two names the extractor looks at are different names. */
  lemma NamesDiffer()
    ensures "PublicKey" != "Endpoint"
  {
    assert "PublicKey"[0] != "Endpoint"[0];
  }

  /** The step on the `PublicKey` line of a peer section. */
  lemma PublicKeyStep(s: Scan, pk: string, no: nat)
    requires s.state == Peer
    ensures ScanStep(s, Field("PublicKey", pk), no) == Commit(s.(pubkey := pk))
  {
  }

  /** The step on the `Endpoint` line of a peer section. */
  lemma EndpointStep(s: Scan, e: string, no: nat)
    requires s.state == Peer
    ensures ScanStep(s, Field("Endpoint", e), no) == Commit(s.(endpoint := e))
  {
    NamesDiffer();
  }

  /** Three steps that each succeed make a run of three lines. */
  lemma ScanThree(s: Scan, lines: seq<Line>, from: nat, s1: Scan, s2: Scan, r: Result<Scan, ScanError>)
    requires from + 3 <= |lines|
    requires ScanStep(s, lines[from], from) == Ok(s1)
    requires ScanStep(s1, lines[from + 1], from + 1) == Ok(s2)
    requires ScanStep(s2, lines[from + 2], from + 2) == r
    ensures ScanRun(s, lines, from, from + 3) == r
  {
    assert ScanRun(s2, lines, from + 2, from + 3) == r by {
      match r
      case Err(_) =>
      case Ok(s3) => assert ScanRun(s3, lines, from + 3, from + 3) == Ok(s3);
    }
    assert ScanRun(s1, lines, from + 1, from + 3) == r;
  }

  /** A peer section holding a public key and a non-empty endpoint, in either order, records that endpoint under that key. */
  lemma PeerBlock(s: Scan, lines: seq<Line>, from: nat, k: Key, e: string, keyFirst: bool)
    requires e != "" && from + 3 <= |lines| && lines[from] == PeerHeader
    requires lines[from + 1] == if keyFirst then Field("PublicKey", SerializeKey(k)) else Field("Endpoint", e)
    requires lines[from + 2] == if keyFirst then Field("Endpoint", e) else Field("PublicKey", SerializeKey(k))
    ensures ScanRun(s, lines, from, from + 3) == Ok(Scan(Peer, "", "", s.found[k := e]))
  {
    var pk := SerializeKey(k);
    ParseKeyStrictSerializeKey(k);
    assert pk != "" by { assert |pk| == 44; }
    var s1 := s.(state := Peer, pubkey := "", endpoint := "");
    var s3 := Scan(Peer, "", "", s.found[k := e]);
    if keyFirst {
      var s2 := s1.(pubkey := pk);
      PublicKeyStep(s1, pk, from + 1);
      EndpointStep(s2, e, from + 2);
      ScanThree(s, lines, from, s1, s2, Ok(s3));
    } else {
      var s2 := s1.(endpoint := e);
      EndpointStep(s1, e, from + 1);
      PublicKeyStep(s2, pk, from + 2);
      ScanThree(s, lines, from, s1, s2, Ok(s3));
    }
  }

  /** Of two peer sections with the same public key, the later one's endpoint is the one recorded. */
  lemma LaterCommitOverwrites(s: Scan, lines: seq<Line>, from: nat, k: Key, e1: string, e2: string)
    requires e1 != "" && e2 != "" && from + 6 <= |lines|
    requires lines[from] == PeerHeader && lines[from + 1] == Field("PublicKey", SerializeKey(k))
    requires lines[from + 2] == Field("Endpoint", e1)
    requires lines[from + 3] == PeerHeader && lines[from + 4] == Field("PublicKey", SerializeKey(k))
    requires lines[from + 5] == Field("Endpoint", e2)
    ensures ScanRun(s, lines, from, from + 6).Ok?
    ensures ScanRun(s, lines, from, from + 6).value.found == s.found[k := e2]
  {
    PeerBlock(s, lines, from, k, e1, true);
    var s1 := Scan(Peer, "", "", s.found[k := e1]);
    PeerBlock(s1, lines, from + 3, k, e2, true);
    ScanSplit(s, lines, from, from + 3, from + 6);
    assert s.found[k := e1][k := e2] == s.found[k := e2];
  }

  /** A public key that wgtypes.ParseKey refuses stops the extractor as soon as its endpoint is known. */
  lemma BadKeyStops(s: Scan, lines: seq<Line>, from: nat, pk: string, e: string)
    requires pk != "" && e != "" && ParseKeyStrict(pk).Err? && from + 3 <= |lines|
    requires lines[from] == PeerHeader && lines[from + 1] == Field("PublicKey", pk)
    requires lines[from + 2] == Field("Endpoint", e)
    ensures ScanRun(s, lines, from, from + 3) == Err(BadKey(ParseKeyStrict(pk).error))
  {
    var s1 := s.(state := Peer, pubkey := "", endpoint := "");
    var s2 := s1.(pubkey := pk);
    PublicKeyStep(s1, pk, from + 1);
    EndpointStep(s2, e, from + 2);
    ScanThree(s, lines, from, s1, s2, Err(BadKey(ParseKeyStrict(pk).error)));
  }

  /**
   * In a peer section a line without `=` stops the extractor, and the
   * error carries the line's 0-based index.
   */
  lemma NoEqualsInPeer(s: Scan, lines: seq<Line>, from: nat, to: nat)
    requires from < to <= |lines| && s.state == Peer
    requires lines[from] == NoEquals
    ensures ScanRun(s, lines, from, to) == Err(ScanError.MissingEquals(from))
  {
  }
}
