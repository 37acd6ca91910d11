/**
 * The synthetic identifiers given to generated records:
 * "{parent}-S{counter:03d}", where parent is the seed's id and counter is the
 * record's 1-based position in the whole output.
 */
module SyntheticIds {
  import opened Wrappers
  import opened Decimal

  function SyntheticId(parent: string, counter: nat): string {
    parent + "-S" + Format03d(counter)
  }

  /** The longest suffix of s made of decimal digits. */
  function TrailingDigits(s: string): (d: string)
    ensures AllDigits(d) && |d| <= |s| && d == s[|s| - |d|..]
    ensures |d| < |s| ==> !IsDigit(s[|s| - |d| - 1])
  {
    if s == [] || !IsDigit(s[|s| - 1]) then []
    else
      var init := s[..|s| - 1];
      var rest := TrailingDigits(init);
      assert s[|s| - |rest| - 1..] == init[|init| - |rest|..] + [s[|s| - 1]];
      rest + [s[|s| - 1]]
  }

  /**
   * Reads an identifier back: the all-digit suffix after the final "-S" is the
   * counter, what precedes that "-S" is the parent id.
   */
  function ParseId(id: string): Option<(string, nat)> {
    var d := TrailingDigits(id);
    var n := |id| - |d|;
    if |d| > 0 && n >= 2 && id[n - 2] == '-' && id[n - 1] == 'S'
    then Some((id[..n - 2], Value(d)))
    else None
  }

  lemma {:induction false} TrailingDigitsAppend(s: string, d: string)
    requires AllDigits(d)
    ensures TrailingDigits(s + d) == TrailingDigits(s) + d
    decreases |d|
  {
    if d == [] {
      assert s + d == s;
    } else {
      var t := s + d;
      assert t[..|t| - 1] == s + d[..|d| - 1];
      TrailingDigitsAppend(s, d[..|d| - 1]);
    }
  }

  lemma ParseJoined(parent: string, digits: string)
    requires AllDigits(digits) && |digits| > 0
    ensures ParseId(parent + "-S" + digits) == Some((parent, Value(digits)))
  {
    var head := parent + "-S";
    var id := head + digits;
    TrailingDigitsAppend(head, digits);
    assert TrailingDigits(head) == [];
    assert TrailingDigits(id) == digits;
    assert id[|parent|] == '-' && id[|parent| + 1] == 'S';
    assert id[..|parent|] == parent;
  }

  /** Every synthetic id parses back to the parent and the counter it was made from. */
  lemma ParseSyntheticId(parent: string, counter: nat)
    ensures ParseId(SyntheticId(parent, counter)) == Some((parent, counter))
  {
    Format03dSpec(counter);
    ParseJoined(parent, Format03d(counter));
  }

  /** Different (parent, counter) pairs never produce the same id. */
  lemma SyntheticIdInjective(p1: string, k1: nat, p2: string, k2: nat)
    ensures SyntheticId(p1, k1) == SyntheticId(p2, k2) <==> p1 == p2 && k1 == k2
  {
    ParseSyntheticId(p1, k1);
    ParseSyntheticId(p2, k2);
  }

  /** The shape of an id: parent, then "-S", then at least three digits denoting the counter. */
  lemma SyntheticIdShape(parent: string, counter: nat)
    ensures var id := SyntheticId(parent, counter);
      && |id| >= |parent| + 5
      && id[..|parent|] == parent
      && id[|parent|..|parent| + 2] == "-S"
      && AllDigits(id[|parent| + 2..])
      && Value(id[|parent| + 2..]) == counter
      && (counter >= 100 ==> id[|parent| + 2..] == ToDecimal(counter))
  {
    Format03dSpec(counter);
    var id := SyntheticId(parent, counter);
    assert id[|parent| + 2..] == Format03d(counter);
  }

  lemma SyntheticIdExamples()
    ensures SyntheticId("S1", 1) == "S1-S001"
    ensures SyntheticId("OT-7", 12) == "OT-7-S012"
    ensures SyntheticId("S1", 1234) == "S1-S1234"
  {
    assert ToDecimal(12) == "12";
    assert ToDecimal(1234) == "1234";
  }
}
