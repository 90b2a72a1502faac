# wg-quick configuration text engine, in Dafny

This project models the part of `quick/config.go` that reads and writes the
wg-quick configuration format, and proves properties of it. The model covers:

- **The decoder.** `UnmarshalText` is a line-by-line state machine with
  three states (no section yet, `[Interface]`, `[Peer]`). It starts from
  `newConfig`. Each line is given to `parseInterfaceLine` or to
  `parsePeerLine` for the last peer appended.
- **The key codec.** `serializeKey` writes standard padded base64 (section 4
  of RFC 4648). The local `ParseKey` is lenient: it copies the decoded bytes
  into a zeroed 32-byte key. `wgtypes.ParseKey` is strict and wants exactly
  32 bytes.
- **`toSeconds`** and the seconds-to-nanoseconds conversion of
  `PersistentKeepalive`. Both are done in 64-bit arithmetic.
- **The encoder.** `MarshalText` runs `wgtypeTemplateSpec`. It is modelled
  as a pure function from the configuration to the lines it prints.
- **The endpoint extractor.** This is the loop of `GetUnresolvedEndpoints`.
- **MatchConfig's selection.** The pattern is anchored with `^` and `$`.
  Only `*.conf` file names are kept, and each is known by its name without
  the suffix.

The decoder, the field parsers, the extractor and MatchConfig's loop
update variables step by step. They are written as methods with loops
(`UnmarshalText`, `ParseInterfaceLine`, `ParsePeerLine`, `AppendList`,
`GetUnresolvedEndpoints`, `MatchConfig`). Each method is proved equal to
a specification function (`Decode`, `InterfaceLine`, `PeerLine`,
`Extract`) or to an explicit post-state. The lemmas are stated about those
functions.

The central result is the read-back of the template:

- `RoundTrip.MarshalUnmarshal`: decoding what `MarshalText` prints gives
  back the configuration with two changes. Hook lists become their one-line
  printed form. A switched-off table becomes table 0.
- The template loses or breaks information in two places (see Findings).
  `RoundTrip.MarshalUnmarshalCorrected` proves the read-back for a template
  with both fixed. `RoundTrip.MarshalUnmarshalExact` proves that this
  corrected template is exactly undone on configurations it can represent.

Modules and files:

- `results.dfy`, `bytes.dfy`: the Option/Result types and bytes.
- `strings.dfy`, `strconv.dfy`, `base64.dfy`: Go's strings, strconv and
  base64 functions as the core uses them.
- `commalists.dfy`: comma lists and their split.
- `keycodec.dfy`, `durations.dfy`, `net.dfy`, `configmodel.dfy`: the key
  codec, the durations, the library values and the configuration.
- `fieldgrammar.dfy`: the two field parsers.
- `textdecoder.dfy`: the decoder.
- `textencoder.dfy`: the template.
- `runs.dfy`, `readback.dfy`, `roundtrip.dfy`: the read-back proofs.
- `endpoints.dfy`: the endpoint extractor.
- `configstore.dfy`: MatchConfig.

## Model

Some Go library helpers are defined by their bodies alone and have no row: `strings.Join`, `strings.HasPrefix`, `strings.HasSuffix` and the printing of booleans. What is proved about them is in the rows of their partners: `GoStrings.Split` and `GoStrings.SplitJoin`, `ConfigStore.AnchorPattern` and `StrConv.ParseBoolFormatBool`.

| member | source | states |
|---|---|---|
| ConfigModel.NewConfig | quick/config.go:60-64 | The fresh configuration has `Table` present as 0, not off. It has no peers, no addresses, no DNS servers, no hooks, no private key and no listen port; MTU is 0 and SaveConfig is false. |
| ConfigModel.WithNewPeer | quick/config.go:162-165 | `[Peer]` appends exactly one empty peer. Everything else stays as it was. |
| ConfigModel.WithLastPeer | quick/config.go:179-182 | A peer line replaces only the last peer. Earlier peers, the peer count and all interface fields are unchanged. |
| GoStrings.TrimSpace | quick/config.go:155 | No white space is left at either end, and the result is no longer than the input. |
| GoStrings.TrimSpaceSlice | quick/config.go:155 | The trimmed text is a slice of the input, and everything cut away before and after it is white space. |
| GoStrings.TrimSpaceIdempotent | quick/config.go:171-172 | Trimming a trimmed string changes nothing. |
| GoStrings.Split | quick/config.go:154 | Splitting at a separator gives at least one part. There is exactly one part when the separator does not occur. No part holds the separator, and joining the parts with it gives the text back. |
| GoStrings.SplitJoin | quick/config.go:154 | Joining parts that lack the separator and splitting again gives the parts back. |
| GoStrings.IndexOf | quick/config.go:167-172 | The index found is the first occurrence of the character. |
| GoStrings.LastIndex | quick/config.go:207 | The index found is an occurrence, or -1, and no occurrence lies after it. |
| GoStrings.ToLower | quick/config.go:325 | Each character is lowered on its own, and the length is kept. |
| KeyCodec.SerializeKey | quick/config.go:77-79 | A key prints as 44 base64 alphabet characters. |
| KeyCodec.ParseKey | quick/config.go:132-140 | Fails exactly when the text is not base64. Otherwise the key is the first min(n, 32) decoded bytes followed by zeros. |
| KeyCodec.ParseKeySerializeKey | quick/config.go:132-140 | Every 32-byte key survives serializeKey followed by ParseKey. |
| KeyCodec.ParseKeyStrict | quick/config.go:289-292 | wgtypes.ParseKey succeeds exactly on base64 that decodes to 32 bytes, and returns those bytes. |
| KeyCodec.ParseKeyStrictSerializeKey | quick/config.go:289-292 | Every key survives serializeKey followed by wgtypes.ParseKey. |
| KeyCodec.ParseKeyExtendsStrict | quick/config.go:132-140 | Wherever wgtypes.ParseKey succeeds, the local ParseKey returns the same key. |
| KeyCodec.ParseKeyOfEmpty | quick/config.go:132-140 | The local ParseKey accepts the empty text as the all-zero key, while wgtypes.ParseKey refuses it. |
| Base64.DecodeAccepts | quick/config.go:134 | DecodeString ignores carriage returns and line feeds. It accepts exactly whole groups of four alphabet characters, where the last group may end in `=` or `==`. |
| Base64.Encode | quick/config.go:77-79 | The encoding has 4 characters per started group of 3 bytes, all from the padded standard alphabet. |
| Base64.DecodeEncode | quick/config.go:77-79 | Standard base64 decoding undoes encoding, for every byte string. |
| Durations.ToSeconds | quick/config.go:81-83 | Division by a second truncates toward zero. The remainder is below a second and has the sign of the duration. |
| Durations.FromSeconds | quick/config.go:401-407 | The seconds times a second, in int64: the result is in range, and is the exact product whenever that fits. |
| Durations.ToSecondsFromSeconds | quick/config.go:81-83 | toSeconds inverts the seconds-to-duration conversion whenever the product fits in int64. |
| Durations.FromSecondsToSeconds | quick/config.go:401-407 | A duration in whole seconds survives toSeconds followed by the conversion back. |
| Durations.ToSecondsInRange | quick/config.go:81-83 | The seconds of an int64 duration, and those seconds times 10^9, fit in int64. |
| Durations.Wrap64 | quick/config.go:406 | int64 arithmetic: the result is in range, equals the exact value when that fits, and differs from it by a multiple of 2^64. |
| Durations.FromSecondsOverflows | quick/config.go:406 | `PersistentKeepalive = 10000000000` overflows int64 and does not give 10^10 seconds. |
| StrConv.ParseIntFormatInt | quick/config.go:319-323 | Every int64 the template prints in decimal is read back by strconv.ParseInt as itself. |
| StrConv.ParseInt | quick/config.go:319-323 | Accepts exactly the texts made of an optional sign and at least one decimal digit whose value fits in int64. The result is that value, with the sign applied. |
| StrConv.ParseIntExamples | quick/config.go:319-323 | `+5`, `007` and `-0` are read as 5, 7 and 0. The empty text, a bare sign, `1_000` and ` 1` are refused. |
| StrConv.FormatInt | quick/config.go:112-113 | A printed number is decimal digits, with a leading `-` only when negative, and never a `+`. |
| StrConv.DigitsValueOfDigits | quick/config.go:112-113 | The decimal digits of a natural number read back as that number. |
| StrConv.ParseBool | quick/config.go:350-355 | strconv.ParseBool accepts exactly 1, t, T, true, TRUE and True as true, and 0, f, F, false, FALSE and False as false. |
| StrConv.ParseBoolFormatBool | quick/config.go:350-355 | Both printed booleans are read back as themselves. |
| FieldGrammar.ParseList | quick/config.go:303-309 | A parsed comma list has one value per element. |
| FieldGrammar.ParseListItems | quick/config.go:303-309 | A comma list parses exactly when every trimmed element parses: any bad element aborts. |
| FieldGrammar.ParseListValues | quick/config.go:387-394 | The values of a parsed list are the elements' values, in order. |
| FieldGrammar.ParseListAll | quick/config.go:303-309 | Elements that each parse to a given value make a list of exactly those values. |
| FieldGrammar.AppendList | quick/config.go:303-309 | The loop appends each parsed element to the field in order. It stops with an error at the first bad one. |
| FieldGrammar.ParseTable | quick/config.go:324-334 | `off` in any letter case disables the table. Any other value must be an integer, which becomes the table. The value fails exactly when it is neither. |
| FieldGrammar.InterfaceLine | quick/config.go:300-368 | The interface grammar fails with "unknown directive" exactly on names outside its 12 directives, and the error names the key. |
| FieldGrammar.InterfaceLineFrame | quick/config.go:300-368 | A successful interface line changes only the field it names. Address, DNS and the hook lists only grow. |
| FieldGrammar.InterfaceLineHook | quick/config.go:342-349 | PreUp, PostUp, PreDown and PostDown always succeed and append the raw value once. |
| FieldGrammar.InterfaceLineTable | quick/config.go:324-334 | A `Table` line succeeds exactly when its value parses as a table, and sets it. The table is off exactly when the value is `off`. |
| FieldGrammar.PeerLine | quick/config.go:370-412 | The peer grammar fails with "unknown directive" exactly on names outside its 5 directives. A PresharedKey line on a peer that already has one always fails. It fails with the duplicate-key error exactly when its value decodes. |
| FieldGrammar.PeerLineFrame | quick/config.go:370-412 | A successful peer line changes only the field it names. AllowedIPs only grows. |
| FieldGrammar.ParseInterfaceLine | quick/config.go:300-368 | The in-place update of parseInterfaceLine computes the interface grammar's result. |
| FieldGrammar.ParsePeerLine | quick/config.go:370-412 | The in-place update of parsePeerLine computes the peer grammar's result. |
| TextDecoder.KeyValue | quick/config.go:167-172 | A line yields a name and a value exactly when it holds `=`. |
| TextDecoder.KeyValueFirstEquals | quick/config.go:167-172 | The name is the trimmed text before the first `=`. The value is the trimmed rest, later `=` signs included. |
| TextDecoder.Classify | quick/config.go:155-168 | Blank and `#` lines are skipped, the two exact headers switch section, and a line without `=` is refused, each as judged on the trimmed line. |
| TextDecoder.ClassifyKeyValueLine | quick/config.go:166-172 | A non-empty trimmed line with `=` that starts with neither `#` nor `[` is a field line. |
| TextDecoder.ClassifyAll | quick/config.go:154-155 | One classified line per text line, in order. |
| TextDecoder.Lines | quick/config.go:154 | The text has one line per piece of its split at line feeds. |
| TextDecoder.FieldStep | quick/config.go:174-185 | A field line keeps the section. An error carries the line's index. |
| TextDecoder.Step | quick/config.go:155-185 | One line keeps the decoder's state well formed: a peer section always has a peer to fill. An error carries the line's index. |
| TextDecoder.Run | quick/config.go:154-187 | The loop stops at the first error. The error carries the index of a line inside the range it ran over. |
| TextDecoder.ReportedLine | quick/config.go:168-185 | The message prints the 0-based index for a missing `=` and the 1-based number for every other error. |
| TextDecoder.DecodeLine | quick/config.go:159-185 | One iteration of the loop body computes the specification step. |
| TextDecoder.UnmarshalText | quick/config.go:150-189 | The loop over the lines, starting from newConfig with no section, computes Decode. |
| TextDecoder.RunErrorLine | quick/config.go:154-187 | A failing run failed at the line its error names. Every line before it was accepted, and that line fails from the state they left. |
| TextDecoder.DecodeErrorLine | quick/config.go:150-189 | A failed decode points at 1-based line n. The lines above it are accepted, and line n fails with exactly that error. |
| TextDecoder.LineNumber | quick/config.go:177-184 | The 1-based number of the failing line is at least 1. |
| TextDecoder.Closed | quick/config.go:162-182 | The peers whose sections are over are a prefix of the configuration's peers. |
| TextDecoder.StepPeers | quick/config.go:162-165 | A `[Peer]` header adds one peer, and other lines add none. No closed peer changes. |
| TextDecoder.WgQuickKeepsPeers | quick/config.go:300-368 | An interface line never changes the peers. |
| TextDecoder.RunPeers | quick/config.go:162-165 | A run adds one peer per `[Peer]` header, and the peers whose sections are over never change. |
| TextDecoder.DecodePeerCount | quick/config.go:150-189 | A decoded configuration has exactly as many peers as the text has `[Peer]` headers. |
| TextDecoder.RunKeepsTable | quick/config.go:300-368 | Lines other than `Table` leave the table as it was. |
| TextDecoder.WgQuickKeepsTable | quick/config.go:300-368 | Only a `Table` line changes the table. |
| TextDecoder.DecodeDefaultTable | quick/config.go:150-152 | A text without a `Table` line decodes with the table present as 0. |
| TextDecoder.RunInPeer | quick/config.go:179-182 | Inside a peer section, lines keep the decoder in that section with the same peer count. A preshared key, once set, stays set. |
| TextDecoder.StepInPeer | quick/config.go:378-386 | Inside a section whose peer already has a key, every `PresharedKey` line fails. With a decodable value it fails with the duplicate-key error at that line. |
| TextDecoder.WgQuickGuardsPresharedKey | quick/config.go:370-412 | A successful peer line keeps a set preshared key set. An accepted `PresharedKey` line sets one. When one is set, every `PresharedKey` line fails, as a duplicate when its value decodes. |
| TextDecoder.RunDuplicateKey | quick/config.go:378-386 | Two `PresharedKey` lines after a `[Peer]` header, with no header between, make the run fail, whatever their values. |
| TextDecoder.SecondKeyRejected | quick/config.go:378-386 | Once the current peer has a preshared key, any later `PresharedKey` line in the same section aborts the decode. |
| TextDecoder.PeerSectionDuplicateKey | quick/config.go:378-386 | Two `PresharedKey` lines in one peer section abort the decode, whatever their values. |
| TextDecoder.DuplicatePresharedKeyRejected | quick/config.go:378-386 | A text with two `PresharedKey` lines after one `[Peer]` header, and no header between them, does not decode, whatever their values. |
| TextDecoder.RunSkipped | quick/config.go:155-158 | Blank and comment lines change nothing. |
| TextDecoder.RunBeforeHeader | quick/config.go:166-185 | After blank lines only, a first non-header line fails with "unknown state" if it has `=` and "missing =" if not, at its index. |
| TextDecoder.LineBeforeHeaderRejected | quick/config.go:166-185 | The first line that carries anything, if it is not a header, fails: "unknown state" when it has `=`, "missing =" when not. Either way the error carries its index. |
| TextDecoder.MissingEqualsReportsIndex | quick/config.go:167-170 | A first line without `=` is reported as line 0, one less than its 1-based number. |
| TextDecoder.UnknownStateReportsNumber | quick/config.go:183-184 | A field line before any header is reported as line 1, its 1-based number. |
| TextDecoder.DecodeEmpty | quick/config.go:150-152 | The empty text decodes to the fresh configuration. |
| TextEncoder.SliceString | quick/config.go:115-118 | A hook list prints as its elements between `[` and `]`. |
| TextEncoder.Each | quick/config.go:105-110 | One `Name = value` line per value, in order. |
| TextEncoder.HookLines | quick/config.go:115-118 | A hook list is written as one line exactly when it is non-empty, holding the list's printed form. |
| TextEncoder.ListenPortLines | quick/config.go:112 | ListenPort is written exactly when set. |
| TextEncoder.MtuLines | quick/config.go:113 | MTU is written exactly when non-zero. |
| TextEncoder.TableLines | quick/config.go:114 | A set table is written as its number. A switched-off table is written as nothing by the template as written, and as `off` when corrected. |
| TextEncoder.SaveConfigLines | quick/config.go:119 | SaveConfig is written exactly when true. |
| TextEncoder.AllowedIPsLines | quick/config.go:124 | AllowedIPs is one line, the prefixes joined by `, `. As written it is always present; when corrected it is left out for an empty list. |
| TextEncoder.PresharedKeyLines | quick/config.go:125 | PresharedKey is written exactly when set. |
| TextEncoder.KeepaliveLines | quick/config.go:126 | PersistentKeepalive is written exactly when set, in seconds. |
| TextEncoder.EndpointLines | quick/config.go:127 | Endpoint is written exactly when set. |
| TextEncoder.PeersLines | quick/config.go:120-128 | One section per peer, in order. Nothing is written exactly when there are no peers. |
| TextEncoder.MarshalText | quick/config.go:96-102 | The template fails exactly when there is no private key. Otherwise the text is the template's lines, each ended by a line feed. |
| TextEncoder.MarshalTextCorrected | quick/config.go:104-129 | The same, for the template with the two fixes of the Findings. |
| TextEncoder.ClassifyField | quick/config.go:167-172 | A `Name = value` line the template writes is read back as that name and value. |
| TextEncoder.ClassifyShow | quick/config.go:155-172 | Every line the template can write is classified back as itself, and holds no line feed. |
| TextEncoder.LinesOfText | quick/config.go:154 | Splitting the printed text at line feeds gives the written lines back, plus an empty last one. |
| CommaLists.SplitCommaList | quick/config.go:124 | Splitting a `, `-joined list at `,` gives the first element and then each later one with a leading space. |
| CommaLists.JoinTrimmed | quick/config.go:124 | A `, `-joined list of trimmed, non-empty elements is itself trimmed, non-empty and on one line. |
| ReadBack.Rehook | quick/config.go:115-118 | A hook list comes back as at most one entry. |
| ReadBack.Retable | quick/config.go:114 | A set table comes back as itself. With the corrected template, every table does. |
| ReadBack.Rekeepalive | quick/config.go:126 | A keepalive interval comes back exactly when one was set. |
| ReadBack.ParseSingle | quick/config.go:303-309 | A printed value alone on its line is read back as a one-element list holding it. |
| ReadBack.ParseCommaList | quick/config.go:387-394 | A printed, `, `-joined list is read back as the same list. |
| ReadBack.RunInterfaceHead | quick/config.go:104-111 | `[Interface]`, the Address and DNS lines and PrivateKey read back as the same addresses, servers and key. |
| ReadBack.RunAddresses | quick/config.go:105-107 | The Address lines append the printed prefixes, read back as themselves. |
| ReadBack.RunDns | quick/config.go:108-110 | The DNS lines append the printed servers, read back as themselves. |
| ReadBack.RunPrivateKey | quick/config.go:111 | The PrivateKey line sets the key it prints. |
| ReadBack.RunListenPort | quick/config.go:112 | The optional ListenPort line sets the port it prints, and its absence leaves none. |
| ReadBack.RunMtu | quick/config.go:113 | The optional MTU line sets the MTU it prints, and its absence leaves 0. |
| ReadBack.RunPreUp | quick/config.go:115 | The PreUp line reads back as the hooks' printed form. |
| ReadBack.RunPostUp | quick/config.go:116 | The PostUp line reads back as the hooks' printed form. |
| ReadBack.RunPreDown | quick/config.go:117 | The PreDown line reads back as the hooks' printed form. |
| ReadBack.RunPostDown | quick/config.go:118 | The PostDown line reads back as the hooks' printed form. |
| ReadBack.RunSaveConfig | quick/config.go:119 | The optional SaveConfig line reads back as the flag. |
| ReadBack.RunTable | quick/config.go:114 | The Table line reads back as the table, or as 0 where the template wrote nothing. |
| ReadBack.RunSettings | quick/config.go:112-119 | The optional interface lines read back as the same settings. The exceptions are hooks, which come back in printed form, and the table as above. |
| ReadBack.RunPeerHead | quick/config.go:121-123 | `[Peer]` and its PublicKey line append a fresh peer with that key and enter the peer section. |
| ReadBack.RunPresharedKey | quick/config.go:125 | The optional PresharedKey line sets the key it prints. |
| ReadBack.RunEndpoint | quick/config.go:127 | The optional Endpoint line sets the address it prints, when the address resolves back to itself. |
| ReadBack.RunAllowedIPs | quick/config.go:124 | A written AllowedIPs line reads back as the same prefixes. |
| ReadBack.RunKeepalive | quick/config.go:126 | A written PersistentKeepalive reads back as the interval truncated to whole seconds. |
| ReadBack.RunPeer | quick/config.go:120-127 | A written peer section appends that peer, with its keepalive in whole seconds. |
| ReadBack.RunPeersFrom | quick/config.go:120-128 | All written peer sections append those peers, in order. |
| RoundTrip.DecodeRendered | quick/config.go:104-129 | Decoding the rendered lines gives the re-encoded configuration, for both templates. |
| RoundTrip.DecodeLayout | quick/config.go:96-102 | Decoding the printed text is running the decoder over the written lines and a final blank one. |
| RoundTrip.RunInterface | quick/config.go:104-119 | The interface section reads back as the re-encoded interface, with no peers. |
| RoundTrip.RunAllPeers | quick/config.go:120-128 | The peer sections read back as the peers, each with its keepalive in whole seconds. As written this holds when every peer has allowed IPs. |
| RoundTrip.MarshalUnmarshal | quick/config.go:96-189 | Decoding MarshalText's output gives the configuration back. Hooks come back in printed form, an off table as 0, keepalives in whole seconds, and unwritten fields at their defaults. |
| RoundTrip.MarshalUnmarshalCorrected | quick/config.go:104-129 | The same for the corrected template, with no condition on AllowedIPs, and with the table coming back unchanged. |
| RoundTrip.RepeerWholeSeconds | quick/config.go:401-407 | A peer whose keepalive is in whole seconds comes back unchanged. |
| RoundTrip.RepeersWholeSeconds | quick/config.go:126 | Peers whose keepalives are in whole seconds all come back unchanged. |
| RoundTrip.ReencodedCanonical | quick/config.go:104-129 | A configuration the corrected template can represent is its own re-encoding. |
| RoundTrip.MarshalUnmarshalExact | quick/config.go:104-129 | On configurations without hooks, with whole-second keepalives and with unwritten fields at their defaults, decoding undoes the corrected template exactly. |
| RoundTrip.TableOffLost | quick/config.go:114 | As written, a configuration with the table switched off reads back with table 0. |
| RoundTrip.EmptyAllowedIPsRefused | quick/config.go:387-392 | An empty AllowedIPs value is refused when the library refuses the empty prefix. |
| RoundTrip.EmptyAllowedIPsLine | quick/config.go:124 | The `AllowedIPs = ` line written for an empty list makes the decoder fail. |
| RoundTrip.PeersLinesFail | quick/config.go:120-128 | As written, the peer sections fail to decode as soon as one peer has no allowed IPs. |
| RoundTrip.EmptyAllowedIPsRejected | quick/config.go:124 | As written, a configuration with a peer without allowed IPs prints a text that does not decode. |
| EndpointScan.Commit | quick/config.go:285-295 | A complete pair is recorded under its key and both strings are reset. Recording fails exactly when both are set and wgtypes.ParseKey refuses the key. |
| EndpointScan.ScanStep | quick/config.go:251-296 | One iteration keeps the invariant: the pending strings are never both set, and every recorded endpoint is non-empty. Recorded keys are never removed. |
| EndpointScan.ScanRun | quick/config.go:251-296 | The loop keeps that invariant. A "missing =" error carries the index of a line in range. |
| EndpointScan.Extract | quick/config.go:242-297 | Every endpoint in the result is non-empty. |
| EndpointScan.ScanLine | quick/config.go:252-295 | The loop body computes the specification step. |
| EndpointScan.GetUnresolvedEndpoints | quick/config.go:242-297 | The loop over the lines, with its section, pending strings and map, computes Extract. |
| EndpointScan.ScanSplit | quick/config.go:251-296 | Running the loop up to a line and then on from there is running it through. |
| EndpointScan.PublicKeyStep | quick/config.go:278-295 | In a peer section, a PublicKey line sets the pending key and then tries to record. |
| EndpointScan.EndpointStep | quick/config.go:278-295 | In a peer section, an Endpoint line sets the pending endpoint and then tries to record. |
| EndpointScan.IgnoredLines | quick/config.go:253-283 | The extractor does not look at blank lines, comments, lines outside peer sections (including those without `=`), or peer keys other than PublicKey and Endpoint. They leave its state and map unchanged. |
| EndpointScan.PeerBlock | quick/config.go:260-295 | A peer section with a public key and a non-empty endpoint, in either order, records that endpoint under that key and resets both strings. |
| EndpointScan.LaterCommitOverwrites | quick/config.go:293 | Of two sections with the same key, the later endpoint is the one kept. |
| EndpointScan.BadKeyStops | quick/config.go:289-292 | A public key that wgtypes.ParseKey refuses aborts the extraction once its endpoint is known. |
| EndpointScan.NoEqualsInPeer | quick/config.go:271-274 | Inside a peer section, a line without `=` aborts with its 0-based index. |
| ConfigStore.AnchorPattern | quick/config.go:192-197 | The anchored pattern starts with `^` and ends with `$`, holds the pattern at offset 0 or 1, and is at most 2 longer. An already anchored pattern is unchanged. |
| ConfigStore.AnchorPatternIdempotent | quick/config.go:192-197 | Anchoring twice is anchoring once. |
| ConfigStore.IsConfigFileSuffix | quick/config.go:207-209 | The filter keeps exactly the names of at least 6 characters that end in `.conf`. |
| ConfigStore.InterfaceName | quick/config.go:210 | The interface name is non-empty, and appending `.conf` gives the file name back. |
| ConfigStore.InterfaceNameOfFile | quick/config.go:207-210 | Every non-empty name plus `.conf` passes the filter and strips back to that name. |
| ConfigStore.InterfaceNameInjective | quick/config.go:225 | Two configuration files for the same interface are the same file. |
| ConfigStore.SelectedNext | quick/config.go:205-210 | One more directory entry adds its interface exactly when the filter and the matcher keep it. |
| ConfigStore.LoadedStore | quick/config.go:216-225 | Storing a loaded file under its interface name keeps every stored configuration equal to what its file loads to. |
| ConfigStore.MatchConfig | quick/config.go:191-229 | The map's keys are exactly the interface names of the `.conf` files the anchored pattern matches, each holding its file's decoded configuration. The loop stops on the first file that does not decode, and only if such a file exists. |

## Left out

- File-system access and process exit are not modelled. This covers `os.ReadDir` and `os.ReadFile`, and `logrus` `Fatalln` in MatchConfig, `GetConfig` and `GetUnresolvedEndpoints`. The decoder and extractor take the file's text; MatchConfig takes the directory listing and a `load` function that stands for reading a file and running UnmarshalText on it.
- ConfigStore.MatchConfig: a file that fails to load stops the model with that file's name, where the source ends the process. A pattern the regular-expression library cannot compile is not modelled. Matching itself is a parameter (`matches`).
- `GetConfig` is not modelled: it only reads a file and calls UnmarshalText.
- net.ParseCIDR, net.ParseIP, net.ResolveUDPAddr (which may consult DNS) and the String methods of IPNet, IP and UDPAddr are parameters (the `NetLib` record). The read-back lemmas require that each printed value parses back to itself and prints without `,`, line feeds or surrounding space.
- Text is a sequence of characters; UTF-8 decoding of the byte input is not modelled. `strings.TrimSpace` uses Unicode's white-space set.
- GoStrings.ToLower: lowers ASCII letters only. The one use compares the result with `off`, and no other character lowers to `o` or `f`.
- TextDecoder.UnmarshalText returns a fresh configuration. The receiver's partial contents after an error are not modelled; callers discard them.
- wgtypes.Config fields that the text format neither reads nor writes (FirewallMark, ReplacePeers, and the peer flags Remove, UpdateOnly and ReplaceAllowedIPs) are not in the model. RouteProtocol, RouteMetric and AddressLabel are in the model; nothing reads or writes them.
- The `text/template` engine is not modelled. The encoder produces the lines the template prints. Hook lists and endpoints are printed by fmt's default formatting, and endpoints use the `UDPAddr` printer parameter.
- `Config.String` (quick/config.go:69-75) is not modelled; it panics when MarshalText fails.
- TextEncoder.MarshalText fails when PrivateKey is nil. With a nil key, `serializeKey` (quick/config.go:77-79) dereferences nil inside the template. `Execute` returns that as an error (quick/config.go:98-99), and the model returns an error in that case.

## Findings

| source | as written | input that shows it | evidently intended | confidence | as-written member | corrected member |
|---|---|---|---|---|---|---|
| quick/config.go:169 | A line without `=` is reported with the 0-based index `no`. Every other decode error reports `no+1`. | The text `Address` (one line, no `=`) gives "cannot parse line 0, missing =". | Report the 1-based line number, as the other errors do. | high, not executed | TextDecoder.MissingEqualsReportsIndex | TextDecoder.DecodeErrorLine |
| quick/config.go:114 | `{{ if .Table }}` writes nothing for a switched-off (nil) table, and the decoder's default is table 0. `Table = off` does not survive MarshalText followed by UnmarshalText. | A configuration decoded from `[Interface]`, a private key line and `Table = off`, encoded again and decoded. | Write `Table = off` for a nil table. | medium, not executed | RoundTrip.TableOffLost | RoundTrip.MarshalUnmarshalCorrected |
| quick/config.go:124 | `AllowedIPs = ` is written even for a peer with no allowed IPs. The decoder splits the empty value into one empty element, and net.ParseCIDR refuses it. | A configuration with one peer whose AllowedIPs is empty: MarshalText's output does not decode. | Leave the AllowedIPs line out when the list is empty. | medium, not executed | RoundTrip.EmptyAllowedIPsRejected | RoundTrip.MarshalUnmarshalCorrected |
