/**
 * Lists written as `a, b, c` and read back with `strings.Split(rhs, ",")`
 * and `strings.TrimSpace` on each piece.
 */
module CommaLists {
  import opened GoStrings

  /** An element that survives the round trip: not empty, without a comma, with no white space at either end. */
  predicate Item(s: string) {
    |s| > 0 && ',' !in s && TrimSpace(s) == s
  }

  /** Every element with a space in front. */
  function Spaced(t: seq<string>): (r: seq<string>)
    ensures |r| == |t| && forall i | 0 <= i < |t| :: r[i] == " " + t[i]
  {
    seq(|t|, i requires 0 <= i < |t| => " " + t[i])
  }

  /** Joining the spaced elements at commas is joining the elements at `, `, after a space. */
  lemma {:induction false} JoinSpaced(t: seq<string>)
    requires |t| >= 1
    ensures Join(Spaced(t), ",") == " " + Join(t, ", ")
    decreases |t|
  {
    if |t| > 1 {
      assert Spaced(t)[1..] == Spaced(t[1..]);
      JoinSpaced(t[1..]);
      assert (" " + t[0]) + "," + (" " + Join(t[1..], ", ")) == " " + (t[0] + ", " + Join(t[1..], ", "));
    }
  }

  /** What `strings.Split(rhs, ",")` sees in a comma-space joined list: the first element, then the others after a space. */
  function CommaItems(strs: seq<string>): (r: seq<string>)
    requires |strs| >= 1
    ensures |r| == |strs| && r[0] == strs[0]
    ensures forall i | 1 <= i < |strs| :: r[i] == " " + strs[i]
  {
    [strs[0]] + Spaced(strs[1..])
  }

  /** A comma, then a space and the rest, is a comma-space and the rest. */
  lemma CommaSpace(a: string, b: string)
    ensures a + "," + (" " + b) == a + ", " + b
  {
    assert ", " == "," + " ";
  }

  /** A comma-space joined list is its comma items joined at commas. */
  lemma JoinCommaItems(strs: seq<string>)
    requires |strs| >= 1
    ensures Join(strs, ", ") == Join(CommaItems(strs), ",")
  {
    var items := CommaItems(strs);
    if |strs| > 1 {
      var rest := Join(strs[1..], ", ");
      JoinSpaced(strs[1..]);
      assert items[1..] == Spaced(strs[1..]);
      assert Join(items, ",") == items[0] + "," + Join(items[1..], ",");
      assert Join(strs, ", ") == strs[0] + ", " + rest;
      CommaSpace(strs[0], rest);
    }
  }

  /** No comma item holds a comma. */
  lemma CommaItemsNoComma(strs: seq<string>)
    requires |strs| >= 1 && forall i | 0 <= i < |strs| :: ',' !in strs[i]
    ensures forall i | 0 <= i < |strs| :: ',' !in CommaItems(strs)[i]
  {
    var items := CommaItems(strs);
    forall i | 1 <= i < |strs|
      ensures ',' !in items[i]
    {
      assert items[i] == " " + strs[i];
    }
  }

  /** A comma-space joined list of items splits at commas into its comma items. */
  lemma SplitCommaList(strs: seq<string>)
    requires |strs| >= 1 && forall i | 0 <= i < |strs| :: ',' !in strs[i]
    ensures Split(Join(strs, ", "), ',') == CommaItems(strs)
  {
    CommaItemsNoComma(strs);
    JoinCommaItems(strs);
    assert "," == [','];
    SplitJoin(CommaItems(strs), ',');
  }

  /** Every comma item trims back to its element. */
  lemma TrimCommaItem(strs: seq<string>, i: nat)
    requires 1 <= |strs| && i < |strs| && Item(strs[i])
    ensures TrimSpace(CommaItems(strs)[i]) == strs[i]
  {
    if i > 0 {
      TrimSpaceLeadingSpace(strs[i]);
    }
  }

  /** A comma-space joined list of items is not empty, trims to itself, and holds a line feed only where an item does. */
  lemma {:induction false} JoinTrimmed(strs: seq<string>)
    requires |strs| >= 1 && forall i | 0 <= i < |strs| :: Item(strs[i]) && '\n' !in strs[i]
    ensures |Join(strs, ", ")| > 0 && TrimSpace(Join(strs, ", ")) == Join(strs, ", ") && '\n' !in Join(strs, ", ")
    decreases |strs|
  {
    var s := Join(strs, ", ");
    if |strs| > 1 {
      var rest := Join(strs[1..], ", ");
      JoinTrimmed(strs[1..]);
      assert s == strs[0] + ", " + rest;
      assert s[0] == strs[0][0] && s[|s| - 1] == rest[|rest| - 1];
      assert !IsSpace(strs[0][0]) by { assert TrimSpace(strs[0]) == strs[0]; }
      assert !IsSpace(rest[|rest| - 1]);
      TrimSpaceOfTrimmed(s);
    }
  }
}
