/**
 * WireGuard keys as text: `serializeKey`, the package's own `ParseKey`
 * (which copies whatever the base64 decoder returns into a zeroed 32-byte
 * key) and the strict `wgtypes.ParseKey` the endpoint extractor uses.
 */
module KeyCodec {
  import opened Bytes
  import opened Results
  import Base64

  const KEY_LEN: nat := 32

  /** wgtypes.Key: exactly 32 bytes. */
  type Key = k: seq<Byte> | |k| == KEY_LEN witness [0, 0, 0, 0, 0, 0, 0, 0, 0, 0, 0, 0, 0, 0, 0, 0, 0, 0, 0, 0, 0, 0, 0, 0, 0, 0, 0, 0, 0, 0, 0, 0]

  /** The all-zero key, the value of a key field nothing has set. */
  const ZERO_KEY: Key := [0, 0, 0, 0, 0, 0, 0, 0, 0, 0, 0, 0, 0, 0, 0, 0, 0, 0, 0, 0, 0, 0, 0, 0, 0, 0, 0, 0, 0, 0, 0, 0]

  datatype KeyError =
    | InvalidBase64
    | WrongKeyLength(length: nat)

  /** serializeKey: standard padded base64 of the 32 bytes, always 44 characters ending in one `=`. */
  function SerializeKey(k: Key): (s: string)
    ensures |s| == 44
    ensures forall i | 0 <= i < |s| :: Base64.EncodedChar(s[i])
  {
    Base64.Encode(k)
  }

  /** `copy(pkey[:], decoded)` into a zeroed key: the first bytes, truncated or padded with zeros. */
  function CopyToKey(b: seq<Byte>): Key {
    seq(KEY_LEN, i requires 0 <= i < KEY_LEN => if i < |b| then b[i] else 0)
  }

  /**
   * ParseKey: fails only when the text is not base64; otherwise the key is
   * the first min(n, 32) decoded bytes followed by zeros.
   */
  function ParseKey(s: string): (r: Result<Key, KeyError>)
    ensures r.Err? <==> Base64.Decode(s).None?
    ensures r.Err? ==> r.error == InvalidBase64
    ensures r.Ok? ==> forall i | 0 <= i < KEY_LEN ::
      r.value[i] == (if i < |Base64.Decode(s).value| then Base64.Decode(s).value[i] else 0)
  {
    match Base64.Decode(s)
    case None => Err(InvalidBase64)
    case Some(b) => Ok(CopyToKey(b))
  }

  /** wgtypes.ParseKey: base64 that decodes to exactly 32 bytes. */
  function ParseKeyStrict(s: string): (r: Result<Key, KeyError>)
    ensures r.Ok? <==> Base64.Decode(s).Some? && |Base64.Decode(s).value| == KEY_LEN
    ensures r.Ok? ==> r.value == Base64.Decode(s).value
  {
    match Base64.Decode(s)
    case None => Err(InvalidBase64)
    case Some(b) => if |b| == KEY_LEN then Ok(b) else Err(WrongKeyLength(|b|))
  }

  /** Every key survives serializeKey followed by ParseKey. */
  lemma ParseKeySerializeKey(k: Key)
    ensures ParseKey(SerializeKey(k)) == Ok(k)
  {
    Base64.DecodeEncode(k);
    assert CopyToKey(k) == k;
  }

  /** Every key survives serializeKey followed by wgtypes.ParseKey. */
  lemma ParseKeyStrictSerializeKey(k: Key)
    ensures ParseKeyStrict(SerializeKey(k)) == Ok(k)
  {
    Base64.DecodeEncode(k);
  }

  /** The two parsers agree wherever the strict one succeeds. */
  lemma ParseKeyExtendsStrict(s: string)
    requires ParseKeyStrict(s).Ok?
    ensures ParseKey(s) == ParseKeyStrict(s)
  {
    var b := Base64.Decode(s).value;
    assert CopyToKey(b) == b;
  }

  /** The lenient parser accepts the empty text as the all-zero key, where the strict one refuses it. */
  lemma ParseKeyOfEmpty()
    ensures ParseKey("") == Ok(ZERO_KEY)
    ensures ParseKeyStrict("").Err?
  {
    assert Base64.Decode("") == Some([]);
    assert CopyToKey([]) == ZERO_KEY;
  }
}
