/**
 * The telemetry record and the newline-delimited (JSONL) loader.
 *
 * The loader splits its text on '\n', skips the pieces whose trim is empty,
 * parses the others one by one and drops those that fail to parse, without
 * stopping. The JSON parser itself is not modelled: it is a parameter
 * `parse: string -> Option<Frame>`, `None` standing for a thrown exception.
 */
module Jsonl {
  import opened Wrappers

  /** The four regimes a frame can be classified in. */
  datatype Regime = Taxi | Cruise | Maneuver | Rupture

  /** The tag each regime carries in a frame. */
  function RegimeName(r: Regime): string
  {
    match r
    case Taxi => "TAXI"
    case Cruise => "CRUISE"
    case Maneuver => "MANEUVER"
    case Rupture => "RUPTURE"
  }

  lemma RegimeNameInjective(r1: Regime, r2: Regime)
    ensures RegimeName(r1) == RegimeName(r2) <==> r1 == r2
  {
  }

  /**
   * One telemetry sample. `regime` is a plain string because a parsed line
   * is not checked against the declared shape; the generator only ever
   * stores a `RegimeName`.
   */
  datatype Frame = Frame(
    timestamp: real,
    spot: real,
    iv: real,
    hv: real,
    x: real,
    y: real,
    z: real,
    regime: string,
    flags: seq<string>)

  // ----- String.prototype.split('\n') -----

  function CountChar(s: string, c: char): nat
  {
    if s == [] then 0 else (if s[0] == c then 1 else 0) + CountChar(s[1..], c)
  }

  /** Glues pieces back together with '\n' between them (`Array.prototype.join('\n')`). */
  function Join(pieces: seq<string>): string
  {
    if |pieces| == 0 then []
    else if |pieces| == 1 then pieces[0]
    else pieces[0] + "\n" + Join(pieces[1..])
  }

  /**
   * `text.split('\n')`: the maximal newline-free pieces between the
   * separators, so always one piece more than there are newlines.
   */
  function Split(s: string): (pieces: seq<string>)
    ensures |pieces| == CountChar(s, '\n') + 1
    ensures forall k :: 0 <= k < |pieces| ==> '\n' !in pieces[k]
    ensures Join(pieces) == s
  {
    if s == [] then [[]]
    else
      var rest := Split(s[1..]);
      if s[0] == '\n' then
        assert s == "\n" + s[1..];
        [[]] + rest
      else
        var pieces := [[s[0]] + rest[0]] + rest[1..];
        assert pieces[1..] == rest[1..];
        assert s == [s[0]] + s[1..];
        pieces
  }

  lemma {:induction false} SplitNewlineFree(p: string)
    requires '\n' !in p
    ensures Split(p) == [p]
  {
    if p != [] {
      SplitNewlineFree(p[1..]);
      assert [p[0]] + p[1..] == p;
    }
  }

  lemma {:induction false} SplitAfterPiece(p: string, t: string)
    requires '\n' !in p
    ensures Split(p + "\n" + t) == [p] + Split(t)
  {
    var s := p + "\n" + t;
    if p == [] {
      assert s[1..] == t;
    } else {
      assert s[1..] == p[1..] + "\n" + t;
      SplitAfterPiece(p[1..], t);
      assert [p[0]] + p[1..] == p;
    }
  }

  /** Splitting what Join produced gives back the original newline-free pieces. */
  lemma {:induction false} SplitJoin(pieces: seq<string>)
    requires |pieces| >= 1
    requires forall k :: 0 <= k < |pieces| ==> '\n' !in pieces[k]
    ensures Split(Join(pieces)) == pieces
  {
    if |pieces| == 1 {
      SplitNewlineFree(pieces[0]);
    } else {
      SplitJoin(pieces[1..]);
      SplitAfterPiece(pieces[0], Join(pieces[1..]));
      assert [pieces[0]] + pieces[1..] == pieces;
    }
  }

  // ----- String.prototype.trim() -----

  /** ECMAScript WhiteSpace and LineTerminator code points: what `trim` removes. */
  predicate IsJsWhitespace(c: char)
  {
    var n := c as int;
    n == 0x09 || n == 0x0A || n == 0x0B || n == 0x0C || n == 0x0D || n == 0x20
    || n == 0xA0 || n == 0x1680 || (0x2000 <= n <= 0x200A) || n == 0x2028
    || n == 0x2029 || n == 0x202F || n == 0x205F || n == 0x3000 || n == 0xFEFF
  }

  /** Whitespace only, the empty string included. */
  predicate IsBlank(s: string)
  {
    forall k :: 0 <= k < |s| ==> IsJsWhitespace(s[k])
  }

  /** `trimStart`: drop the leading whitespace. */
  function TrimStart(s: string): string
  {
    if s != [] && IsJsWhitespace(s[0]) then TrimStart(s[1..]) else s
  }

  /** `trimEnd`: drop the trailing whitespace. */
  function TrimEnd(s: string): string
  {
    if s != [] && IsJsWhitespace(s[|s| - 1]) then TrimEnd(s[..|s| - 1]) else s
  }

  /** `line.trim()`: the line without its leading and trailing whitespace. */
  function Trim(s: string): string
  {
    TrimEnd(TrimStart(s))
  }

  /** TrimStart removes a whitespace prefix, and stops at the first other character. */
  lemma {:induction false} TrimStartRemovesPrefix(s: string)
    ensures |TrimStart(s)| <= |s| && TrimStart(s) == s[|s| - |TrimStart(s)|..]
    ensures IsBlank(s[..|s| - |TrimStart(s)|])
    ensures TrimStart(s) != [] ==> !IsJsWhitespace(TrimStart(s)[0])
  {
    if s != [] && IsJsWhitespace(s[0]) {
      TrimStartRemovesPrefix(s[1..]);
      var r := TrimStart(s[1..]);
      assert s[..|s| - |r|] == [s[0]] + s[1..][..|s| - 1 - |r|];
    }
  }

  /** TrimEnd removes a whitespace suffix, and stops at the last other character. */
  lemma {:induction false} TrimEndRemovesSuffix(s: string)
    ensures |TrimEnd(s)| <= |s| && TrimEnd(s) == s[..|TrimEnd(s)|]
    ensures IsBlank(s[|TrimEnd(s)|..])
    ensures TrimEnd(s) != [] ==> !IsJsWhitespace(TrimEnd(s)[|TrimEnd(s)| - 1])
  {
    if s != [] && IsJsWhitespace(s[|s| - 1]) {
      TrimEndRemovesSuffix(s[..|s| - 1]);
      var r := TrimEnd(s[..|s| - 1]);
      assert s[|r|..] == s[..|s| - 1][|r|..] + [s[|s| - 1]];
    }
  }

  /** A line is skipped exactly when it consists of whitespace only (the empty line included). */
  lemma TrimEmptyIffBlank(s: string)
    ensures Trim(s) == [] <==> IsBlank(s)
  {
    var t := TrimStart(s);
    TrimStartRemovesPrefix(s);
    TrimEndRemovesSuffix(t);
    if Trim(s) == [] {
      assert t[0..] == t;
      assert t == [];
      assert s[..|s|] == s;
    } else if t != [] {
      assert !IsJsWhitespace(t[0]);
      assert t[0] == s[|s| - |t|];
    }
  }

  // ----- the per-line filter -----

  /** What one line contributes: nothing when blank or unparsable, else its parse. */
  function LineFrames(line: string, parse: string -> Option<Frame>): (r: seq<Frame>)
    ensures |r| <= 1
  {
    if IsBlank(line) then []
    else
      match parse(line)
      case Some(f) => [f]
      case None => []
  }

  /** The frames a sequence of lines yields, in line order. */
  function ParsedLines(lines: seq<string>, parse: string -> Option<Frame>): (frames: seq<Frame>)
    ensures |frames| <= |lines|
  {
    if lines == [] then []
    else ParsedLines(lines[..|lines| - 1], parse) + LineFrames(lines[|lines| - 1], parse)
  }

  /** One more line adds exactly what that line contributes. */
  lemma ParsedLinesSnoc(lines: seq<string>, line: string, parse: string -> Option<Frame>)
    ensures ParsedLines(lines + [line], parse) == ParsedLines(lines, parse) + LineFrames(line, parse)
  {
    assert (lines + [line])[..|lines|] == lines;
  }

  /** Lines are filtered independently: a skipped line never stops the lines after it. */
  lemma {:induction false} ParsedLinesConcat(a: seq<string>, b: seq<string>, parse: string -> Option<Frame>)
    ensures ParsedLines(a + b, parse) == ParsedLines(a, parse) + ParsedLines(b, parse)
  {
    if b == [] {
      assert a + b == a;
    } else {
      var b' := b[..|b| - 1];
      var last := b[|b| - 1];
      assert b == b' + [last];
      assert a + b == (a + b') + [last];
      ParsedLinesConcat(a, b', parse);
      ParsedLinesSnoc(a + b', last, parse);
      ParsedLinesSnoc(b', last, parse);
    }
  }

  /** A frame is in the output exactly when it is the parse of some non-blank line. */
  lemma {:induction false} ParsedLinesMembers(lines: seq<string>, parse: string -> Option<Frame>, f: Frame)
    ensures f in ParsedLines(lines, parse) <==>
            exists k :: 0 <= k < |lines| && !IsBlank(lines[k]) && parse(lines[k]) == Some(f)
  {
    if lines != [] {
      var init := lines[..|lines| - 1];
      ParsedLinesMembers(init, parse, f);
      if f in ParsedLines(lines, parse) && f !in ParsedLines(init, parse) {
        var k := |lines| - 1;
        assert !IsBlank(lines[k]) && parse(lines[k]) == Some(f);
      }
      if exists k :: 0 <= k < |lines| && !IsBlank(lines[k]) && parse(lines[k]) == Some(f) {
        var k :| 0 <= k < |lines| && !IsBlank(lines[k]) && parse(lines[k]) == Some(f);
        if k < |lines| - 1 {
          assert init[k] == lines[k];
        }
      }
    }
  }

  /** Blank and unparsable lines contribute nothing. */
  lemma {:induction false} SkippedLinesYieldNothing(lines: seq<string>, parse: string -> Option<Frame>)
    requires forall k :: 0 <= k < |lines| ==> IsBlank(lines[k]) || parse(lines[k]).None?
    ensures ParsedLines(lines, parse) == []
  {
    if lines != [] {
      SkippedLinesYieldNothing(lines[..|lines| - 1], parse);
    }
  }

  /** When every line parses, the output is the lines' parses one for one. */
  lemma {:induction false} GoodLinesYieldOneEach(lines: seq<string>, parse: string -> Option<Frame>)
    requires forall k :: 0 <= k < |lines| ==> !IsBlank(lines[k]) && parse(lines[k]).Some?
    ensures |ParsedLines(lines, parse)| == |lines|
    ensures forall k :: 0 <= k < |lines| ==> ParsedLines(lines, parse)[k] == parse(lines[k]).value
  {
    if lines != [] {
      GoodLinesYieldOneEach(lines[..|lines| - 1], parse);
    }
  }

  /** N parsable lines with one corrupted line among them yield exactly N frames. */
  lemma OneCorruptLine(a: seq<string>, bad: string, b: seq<string>, parse: string -> Option<Frame>)
    requires forall k :: 0 <= k < |a| ==> !IsBlank(a[k]) && parse(a[k]).Some?
    requires forall k :: 0 <= k < |b| ==> !IsBlank(b[k]) && parse(b[k]).Some?
    requires parse(bad).None?
    ensures ParsedLines(a + [bad] + b, parse) == ParsedLines(a, parse) + ParsedLines(b, parse)
    ensures |ParsedLines(a + [bad] + b, parse)| == |a| + |b|
  {
    ParsedLinesConcat(a + [bad], b, parse);
    ParsedLinesSnoc(a, bad, parse);
    assert LineFrames(bad, parse) == [];
    assert a + [bad] + b == (a + [bad]) + b;
    GoodLinesYieldOneEach(a, parse);
    GoodLinesYieldOneEach(b, parse);
  }

  /** The split / skip-blank / parse-or-skip loop both entry points run. */
  method ParseLines(text: string, parse: string -> Option<Frame>) returns (frames: seq<Frame>)
    ensures frames == ParsedLines(Split(text), parse)
    ensures |frames| <= CountChar(text, '\n') + 1
  {
    var lines := Split(text);
    frames := [];
    for i := 0 to |lines|
      invariant frames == ParsedLines(lines[..i], parse)
    {
      var line := lines[i];
      assert lines[..i + 1] == lines[..i] + [line];
      ParsedLinesSnoc(lines[..i], line, parse);
      TrimEmptyIffBlank(line);
      if Trim(line) != [] {
        match parse(line)
        case Some(f) => frames := frames + [f];
        case None =>
      }
    }
    assert lines[..|lines|] == lines;
  }

  /** `loadJsonl`, given the text the fetch returned. */
  method LoadJsonl(responseText: string, parse: string -> Option<Frame>) returns (frames: seq<Frame>)
    ensures frames == ParsedLines(Split(responseText), parse)
  {
    frames := ParseLines(responseText, parse);
  }

  /** `parseJsonlFile`, given the text the file reader produced. */
  method ParseJsonlFile(fileText: string, parse: string -> Option<Frame>) returns (frames: seq<Frame>)
    ensures frames == ParsedLines(Split(fileText), parse)
  {
    frames := ParseLines(fileText, parse);
  }
}
