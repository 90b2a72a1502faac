/**
 * The parts of Go's `strings` package the configuration engine relies on:
 * TrimSpace, Split, Join, HasPrefix, HasSuffix, LastIndex and an ASCII ToLower.
 * Text is a sequence of characters (decoded runes).
 */
module GoStrings {

  /** unicode.IsSpace: the characters strings.TrimSpace strips. */
  predicate IsSpace(c: char) {
    var n := c as int;
    || n == 0x20 || 0x09 <= n <= 0x0D || n == 0x85 || n == 0xA0 || n == 0x1680
    || 0x2000 <= n <= 0x200A || n == 0x2028 || n == 0x2029 || n == 0x202F
    || n == 0x205F || n == 0x3000
  }

  /** No white space anywhere in `s`. */
  predicate NoSpace(s: string) {
    forall i | 0 <= i < |s| :: !IsSpace(s[i])
  }

  /** Drops the leading white space. */
  function TrimLeft(s: string): (r: string)
    ensures |r| <= |s| && r == s[|s| - |r|..]
    ensures forall k | 0 <= k < |s| - |r| :: IsSpace(s[k])
    ensures r == [] || !IsSpace(r[0])
  {
    if |s| > 0 && IsSpace(s[0]) then TrimLeft(s[1..]) else s
  }

  /** Drops the trailing white space. */
  function TrimRight(s: string): (r: string)
    ensures |r| <= |s| && r == s[..|r|]
    ensures forall k | |r| <= k < |s| :: IsSpace(s[k])
    ensures r == [] || !IsSpace(r[|r| - 1])
  {
    if |s| > 0 && IsSpace(s[|s| - 1]) then TrimRight(s[..|s| - 1]) else s
  }

  /** Nothing but white space. */
  predicate AllSpace(s: string) {
    forall k | 0 <= k < |s| :: IsSpace(s[k])
  }

  /** strings.TrimSpace: the part of `s` between its leading and its trailing white space (see TrimSpaceSlice). */
  function TrimSpace(s: string): (r: string)
    ensures r == [] || (!IsSpace(r[0]) && !IsSpace(r[|r| - 1]))
    ensures |r| <= |s|
  {
    TrimRight(TrimLeft(s))
  }

  /** Trimming keeps a slice of `s` and drops only the white space around it. */
  lemma TrimSpaceSlice(s: string)
    ensures exists i, j :: && 0 <= i <= j <= |s| && TrimSpace(s) == s[i..j]
                           && AllSpace(s[..i]) && AllSpace(s[j..])
  {
    var l := TrimLeft(s);
    var r := TrimRight(l);
    var i := |s| - |l|;
    SliceOfSuffix(s, i, |r|);
    assert AllSpace(s[..i]) by {
      forall k | 0 <= k < i ensures IsSpace(s[..i][k]) {
        assert s[..i][k] == s[k];
      }
    }
    assert AllSpace(l[|r|..]) by {
      forall k | 0 <= k < |l| - |r| ensures IsSpace(l[|r|..][k]) {
        assert l[|r|..][k] == l[k + |r|];
      }
    }
  }

  /** The first `n` elements after index `i`, and what follows them. */
  lemma SliceOfSuffix<T>(s: seq<T>, i: nat, n: nat)
    requires i + n <= |s|
    ensures s[i..][..n] == s[i..i + n] && s[i..][n..] == s[i + n..]
  {
  }

  /** A string with no white space at either end is its own trimming. */
  lemma TrimSpaceOfTrimmed(s: string)
    requires s == [] || (!IsSpace(s[0]) && !IsSpace(s[|s| - 1]))
    ensures TrimSpace(s) == s
  {
  }

  /** Trimming is idempotent. */
  lemma TrimSpaceIdempotent(s: string)
    ensures TrimSpace(TrimSpace(s)) == TrimSpace(s)
  {
    TrimSpaceOfTrimmed(TrimSpace(s));
  }

  /** White space added at the front is trimmed away. */
  lemma TrimSpaceLeadingSpace(s: string)
    ensures TrimSpace(" " + s) == TrimSpace(s)
  {
    assert (" " + s)[1..] == s;
  }

  /** White space added at the end is trimmed away. */
  lemma TrimSpaceTrailingSpace(s: string)
    ensures TrimSpace(s + " ") == TrimSpace(s)
  {
    if |s| > 0 && IsSpace(s[0]) {
      assert (s + " ")[1..] == s[1..] + " ";
      TrimSpaceTrailingSpace(s[1..]);
    } else {
      assert (s + " ")[..|s|] == s;
    }
  }

  /** The index of the first occurrence of `c`. */
  function IndexOf(s: string, c: char): (i: nat)
    requires c in s
    ensures i < |s| && s[i] == c && c !in s[..i]
  {
    if s[0] == c then 0 else 1 + IndexOf(s[1..], c)
  }

  /** strings.Join. */
  function Join(parts: seq<string>, sep: string): string {
    if |parts| == 0 then ""
    else if |parts| == 1 then parts[0]
    else parts[0] + sep + Join(parts[1..], sep)
  }

  /**
   * strings.Split with a one-character separator: the pieces between the
   * separators, never an empty list; joining them back gives the input.
   */
  function Split(s: string, sep: char): (parts: seq<string>)
    ensures |parts| >= 1
    ensures |parts| == 1 <==> sep !in s
    ensures forall i | 0 <= i < |parts| :: sep !in parts[i]
    ensures Join(parts, [sep]) == s
    decreases |s|
  {
    if sep in s then
      var i := IndexOf(s, sep);
      var rest := Split(s[i + 1..], sep);
      assert s == s[..i] + [sep] + s[i + 1..];
      [s[..i]] + rest
    else
      [s]
  }

  /** Splitting a joined list gives the list back when no piece holds the separator. */
  lemma {:induction false} SplitJoin(parts: seq<string>, sep: char)
    requires |parts| >= 1
    requires forall i | 0 <= i < |parts| :: sep !in parts[i]
    ensures Split(Join(parts, [sep]), sep) == parts
    decreases |parts|
  {
    if |parts| > 1 {
      var s := Join(parts, [sep]);
      var p := parts[0];
      assert s == p + [sep] + Join(parts[1..], [sep]);
      assert s[|p|] == sep && s[..|p|] == p;
      assert sep !in s[..|p|];
      assert IndexOf(s, sep) == |p|;
      assert s[|p| + 1..] == Join(parts[1..], [sep]);
      SplitJoin(parts[1..], sep);
    }
  }

  /** The first piece is the text before the first separator. */
  lemma SplitHead(s: string, sep: char)
    requires sep in s
    ensures Split(s, sep)[0] == s[..IndexOf(s, sep)]
  {
  }

  /** Rejoining every piece after the first gives the text after the first separator. */
  lemma SplitTail(s: string, sep: char)
    requires sep in s
    ensures Join(Split(s, sep)[1..], [sep]) == s[IndexOf(s, sep) + 1..]
  {
    var i := IndexOf(s, sep);
    assert Split(s, sep)[1..] == Split(s[i + 1..], sep);
  }

  /** strings.HasPrefix. */
  predicate HasPrefix(s: string, prefix: string) {
    |prefix| <= |s| && s[..|prefix|] == prefix
  }

  /** strings.HasSuffix. */
  predicate HasSuffix(s: string, suffix: string) {
    |suffix| <= |s| && s[|s| - |suffix|..] == suffix
  }

  /** `sub` occurs in `s` starting at index `j`. */
  predicate OccursAt(s: string, sub: string, j: int) {
    0 <= j && j + |sub| <= |s| && s[j..j + |sub|] == sub
  }

  /** The largest `i <= from` at which `sub` occurs in `s`, or -1. */
  function LastIndexFrom(s: string, sub: string, from: int): (r: int)
    requires -1 <= from <= |s| - |sub|
    ensures -1 <= r <= from
    ensures r >= 0 ==> OccursAt(s, sub, r)
    ensures forall j | r < j <= from :: !OccursAt(s, sub, j)
    decreases from + 1
  {
    if from < 0 then -1
    else if s[from..from + |sub|] == sub then from
    else LastIndexFrom(s, sub, from - 1)
  }

  /** strings.LastIndex: the start of the last occurrence of `sub`, or -1. */
  function LastIndex(s: string, sub: string): (r: int)
    ensures -1 <= r <= |s| - |sub| || r == -1
    ensures r >= 0 ==> OccursAt(s, sub, r)
    ensures forall j | r < j <= |s| - |sub| :: !OccursAt(s, sub, j)
  {
    if |sub| > |s| then -1 else LastIndexFrom(s, sub, |s| - |sub|)
  }

  /** unicode.ToLower restricted to ASCII letters. */
  function LowerChar(c: char): char {
    if 'A' <= c <= 'Z' then (c as int + 32) as char else c
  }

  /** strings.ToLower restricted to ASCII letters. */
  function ToLower(s: string): (r: string)
    ensures |r| == |s| && forall i | 0 <= i < |s| :: r[i] == LowerChar(s[i])
  {
    seq(|s|, i requires 0 <= i < |s| => LowerChar(s[i]))
  }
}
