/**
 * The seed loader (load_seeds): the lines of the seed file, in file order,
 * with blank lines skipped and every other line decoded as JSON. A missing
 * file is reported and yields no seeds; a line that is not valid JSON makes
 * the whole load fail.
 *
 * The file system and json.loads are not part of this model: the file is
 * given as its lines (None when it does not exist) and the decoder as a
 * function `parse` that answers None for malformed text.
 */
module Loader {
  import opened Wrappers
  import opened Json

  /** The characters Python's str.isspace() accepts, which str.strip() removes. */
  predicate IsWhitespace(c: char) {
    || '\U{9}' <= c <= '\U{D}'
    || '\U{1C}' <= c <= '\U{20}'
    || c == '\U{85}'
    || c == '\U{A0}'
    || c == '\U{1680}'
    || '\U{2000}' <= c <= '\U{200A}'
    || c == '\U{2028}'
    || c == '\U{2029}'
    || c == '\U{202F}'
    || c == '\U{205F}'
    || c == '\U{3000}'
  }

  /** `s` without its leading whitespace. */
  function TrimStart(s: string): (r: string)
    ensures |r| <= |s| && r == s[|s| - |r|..]
    ensures forall i :: 0 <= i < |s| - |r| ==> IsWhitespace(s[i])
    ensures r != [] ==> !IsWhitespace(r[0])
  {
    if s != [] && IsWhitespace(s[0]) then TrimStart(s[1..]) else s
  }

  /** `s` without its trailing whitespace. */
  function TrimEnd(s: string): (r: string)
    ensures |r| <= |s| && r == s[..|r|]
    ensures forall i :: |r| <= i < |s| ==> IsWhitespace(s[i])
    ensures r != [] ==> !IsWhitespace(r[|r| - 1])
  {
    if s != [] && IsWhitespace(s[|s| - 1]) then TrimEnd(s[..|s| - 1]) else s
  }

  /** Python's str.strip() with no argument. */
  function Strip(line: string): string {
    TrimEnd(TrimStart(line))
  }

  /** A line is skipped exactly when it consists of whitespace only. */
  lemma StripEmptyIffBlank(line: string)
    ensures Strip(line) == [] <==> IsBlank(line)
  {
    var t := TrimStart(line);
    if Strip(line) == [] {
      assert TrimEnd(t) == [];
      assert t == [];
    } else {
      var r := Strip(line);
      assert !IsWhitespace(r[0]);
      assert r[0] == t[0] == line[|line| - |t|];
    }
  }

  /** A line with nothing but whitespace in it. */
  predicate IsBlank(line: string) {
    forall i :: 0 <= i < |line| ==> IsWhitespace(line[i])
  }

  /** The lines with something other than whitespace, in their original order. */
  function NonBlank(lines: seq<string>): seq<string> {
    if lines == [] then []
    else
      var init := NonBlank(lines[..|lines| - 1]);
      var last := lines[|lines| - 1];
      if !IsBlank(last) then init + [last] else init
  }

  lemma NonBlankSnoc(lines: seq<string>, last: string)
    ensures NonBlank(lines + [last]) == if !IsBlank(last) then NonBlank(lines) + [last] else NonBlank(lines)
  {
    var s := lines + [last];
    assert s[..|s| - 1] == lines;
  }

  /** Filtering respects concatenation, so file order is kept. */
  lemma {:induction false} NonBlankAppend(a: seq<string>, b: seq<string>)
    ensures NonBlank(a + b) == NonBlank(a) + NonBlank(b)
    decreases |b|
  {
    if b == [] {
      assert a + b == a;
    } else {
      var b' := b[..|b| - 1];
      var last := b[|b| - 1];
      assert a + b == (a + b') + [last];
      assert b == b' + [last];
      NonBlankAppend(a, b');
      NonBlankSnoc(a + b', last);
      NonBlankSnoc(b', last);
    }
  }

  /** Exactly the lines with something other than whitespace are kept. */
  lemma {:induction false} NonBlankMembers(lines: seq<string>, line: string)
    ensures line in NonBlank(lines) <==> line in lines && !IsBlank(line)
    decreases |lines|
  {
    if lines != [] {
      var init := lines[..|lines| - 1];
      var last := lines[|lines| - 1];
      assert lines == init + [last];
      NonBlankMembers(init, line);
      NonBlankSnoc(init, last);

    }
  }

  /** Every one of the lines is valid JSON. */
  predicate AllDecode(lines: seq<string>, parse: string -> Option<Json>) {
    forall i :: 0 <= i < |lines| ==> parse(lines[i]).Some?
  }

  /** Decodes every line; None as soon as one of them is malformed. */
  function ParseAll(lines: seq<string>, parse: string -> Option<Json>): Option<seq<Json>> {
    if lines == [] then Some([])
    else
      match ParseAll(lines[..|lines| - 1], parse)
      case None => None
      case Some(init) =>
        match parse(lines[|lines| - 1])
        case None => None
        case Some(j) => Some(init + [j])
  }

  /** What load_seeds returns: None stands for the decoding error that escapes it. */
  function Loaded(file: Option<seq<string>>, parse: string -> Option<Json>): Option<seq<Json>> {
    match file
    case None => Some([])
    case Some(lines) => ParseAll(NonBlank(lines), parse)
  }

  /** ParseAll succeeds iff every line decodes, and then yields the decodings in order. */
  lemma {:induction false} ParseAllSpec(lines: seq<string>, parse: string -> Option<Json>)
    ensures ParseAll(lines, parse).Some? <==> AllDecode(lines, parse)
    ensures ParseAll(lines, parse).Some? ==>
      var seeds := ParseAll(lines, parse).value;
      |seeds| == |lines| && forall i :: 0 <= i < |lines| ==> parse(lines[i]) == Some(seeds[i])
    decreases |lines|
  {
    if lines != [] {
      var init := lines[..|lines| - 1];
      ParseAllSpec(init, parse);
      if ParseAll(lines, parse).Some? {
        forall i | 0 <= i < |init| ensures parse(lines[i]).Some? {
          assert lines[i] == init[i];
        }
      } else if ParseAll(init, parse).None? {
        var i :| 0 <= i < |init| && parse(init[i]).None?;
        assert lines[i] == init[i];
      }
    }
  }

  /**
   * load_seeds: a missing file yields no seeds; otherwise the result is one
   * seed per non-blank line, in file order, or failure if any of those lines
   * is malformed.
   */
  lemma LoadedSpec(file: Option<seq<string>>, parse: string -> Option<Json>)
    ensures file.None? ==> Loaded(file, parse) == Some([])
    ensures file.Some? ==>
      (Loaded(file, parse).Some? <==> AllDecode(NonBlank(file.value), parse))
    ensures file.Some? && Loaded(file, parse).Some? ==>
      && |Loaded(file, parse).value| == |NonBlank(file.value)|
      && forall i :: 0 <= i < |NonBlank(file.value)| ==>
           parse(NonBlank(file.value)[i]) == Some(Loaded(file, parse).value[i])
  {
    if file.Some? {
      var kept := NonBlank(file.value);
      ParseAllSpec(kept, parse);
      assert Loaded(file, parse) == ParseAll(kept, parse);
    }
  }

  /** The loop of load_seeds: one pass over the lines, appending each decoded non-blank line. */
  method LoadSeeds(file: Option<seq<string>>, parse: string -> Option<Json>) returns (seeds: Option<seq<Json>>)
    ensures seeds == Loaded(file, parse)
  {
    if file.None? {
      return Some([]);
    }
    var lines := file.value;
    var acc: seq<Json> := [];
    for i := 0 to |lines|
      invariant ParseAll(NonBlank(lines[..i]), parse) == Some(acc)
    {
      assert lines[..i + 1] == lines[..i] + [lines[i]];
      NonBlankAppend(lines[..i], [lines[i]]);
      StripEmptyIffBlank(lines[i]);
      if Strip(lines[i]) != [] {
        var decoded := parse(lines[i]);
        if decoded.None? {
          ParseAllFailsFrom(lines, i + 1, parse);
          return None;
        }
        acc := acc + [decoded.value];
      }
    }
    assert lines[..|lines|] == lines;
    return Some(acc);
  }

  /** Once a prefix of the file fails to load, the whole file does. */
  lemma ParseAllFailsFrom(lines: seq<string>, i: nat, parse: string -> Option<Json>)
    requires i <= |lines|
    requires ParseAll(NonBlank(lines[..i]), parse).None?
    ensures ParseAll(NonBlank(lines), parse).None?
  {
    assert lines == lines[..i] + lines[i..];
    NonBlankAppend(lines[..i], lines[i..]);
    var a := NonBlank(lines[..i]);
    var b := NonBlank(lines[i..]);
    ParseAllSpec(a, parse);
    ParseAllSpec(a + b, parse);
    var k :| 0 <= k < |a| && parse(a[k]).None?;
    assert (a + b)[k] == a[k];
  }
}
