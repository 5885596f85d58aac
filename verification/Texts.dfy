/** Splitting and joining texts at a separator, as Python's `str.split(sep)`, `sep.join(parts)` and `str.strip()` do,
    and finding one text in another. */
module Texts {

  /** The parts of a text between the separators; always at least one. */
  function Split(text: string, sep: char): (parts: seq<string>)
    ensures |parts| >= 1
  {
    if text == "" then [""]
    else
      var rest := Split(text[1..], sep);
      if text[0] == sep then [""] + rest else [[text[0]] + rest[0]] + rest[1..]
  }

  function Join(parts: seq<string>, sep: char): string
    requires |parts| >= 1
  {
    if |parts| == 1 then parts[0] else parts[0] + [sep] + Join(parts[1..], sep)
  }

  /** No part contains the separator. */
  ghost predicate Free(parts: seq<string>, sep: char) {
    forall i :: 0 <= i < |parts| ==> sep !in parts[i]
  }

  lemma {:induction false} SplitOfOne(part: string, sep: char)
    requires sep !in part
    ensures Split(part, sep) == [part]
  {
    if part != "" {
      SplitOfOne(part[1..], sep);
      assert [part[0]] + part[1..] == part;
    }
  }

  lemma {:induction false} SplitOfFirst(part: string, rest: string, sep: char)
    requires sep !in part
    ensures Split(part + [sep] + rest, sep) == [part] + Split(rest, sep)
  {
    var text := part + [sep] + rest;
    if part == "" {
      assert text[1..] == rest;
    } else {
      assert text[1..] == part[1..] + [sep] + rest;
      SplitOfFirst(part[1..], rest, sep);
      assert [part[0]] + part[1..] == part;
      assert ([part[1..]] + Split(rest, sep))[1..] == Split(rest, sep);
    }
  }

  /** Splitting undoes joining when the parts do not contain the separator. */
  lemma {:induction false} SplitUndoesJoin(parts: seq<string>, sep: char)
    requires |parts| >= 1 && Free(parts, sep)
    ensures Split(Join(parts, sep), sep) == parts
  {
    if |parts| == 1 {
      SplitOfOne(parts[0], sep);
    } else {
      SplitUndoesJoin(parts[1..], sep);
      SplitOfFirst(parts[0], Join(parts[1..], sep), sep);
    }
  }

  /** What splitting yields does not contain the separator, and joins to the text again. */
  lemma {:induction false} SplitPartsAreFree(text: string, sep: char)
    ensures Free(Split(text, sep), sep) && Join(Split(text, sep), sep) == text
  {
    if text != "" {
      var rest := Split(text[1..], sep);
      SplitPartsAreFree(text[1..], sep);
      assert text == [text[0]] + text[1..];
      if text[0] == sep {
        assert ([""] + rest)[1..] == rest;
      } else {
        assert ([[text[0]] + rest[0]] + rest[1..])[1..] == rest[1..];
      }
    }
  }

  /** So joining is injective on such parts. */
  lemma JoinIsInjective(a: seq<string>, b: seq<string>, sep: char)
    requires |a| >= 1 && |b| >= 1 && Free(a, sep) && Free(b, sep) && Join(a, sep) == Join(b, sep)
    ensures a == b
  {
    SplitUndoesJoin(a, sep);
    SplitUndoesJoin(b, sep);
  }

  predicate OccursAt(text: string, part: string, i: int) {
    0 <= i <= |text| - |part| && text[i..i + |part|] == part
  }

  /** A joined text contains the separator once between any two parts, and more often exactly if a part contains it. */
  lemma {:induction false} SeparatorsInJoin(parts: seq<string>, sep: char)
    requires |parts| >= 1
    ensures multiset(Join(parts, sep))[sep] >= |parts| - 1
    ensures multiset(Join(parts, sep))[sep] == |parts| - 1 <==> Free(parts, sep)
  {
    if |parts| > 1 {
      var first, rest := parts[0], Join(parts[1..], sep);
      SeparatorsInJoin(parts[1..], sep);
      hide Join;
      assert multiset(first + [sep] + rest)[sep] == multiset(first)[sep] + 1 + multiset(rest)[sep];
      assert Free(parts, sep) <==> sep !in first && Free(parts[1..], sep);
    }
  }

  lemma {:induction false} JoinConcat(a: seq<string>, b: seq<string>, sep: char)
    requires |a| >= 1 && |b| >= 1
    ensures Join(a + b, sep) == Join(a, sep) + [sep] + Join(b, sep)
  {
    if |a| == 1 {
      assert (a + b)[1..] == b;
    } else {
      assert (a + b)[1..] == a[1..] + b;
      JoinConcat(a[1..], b, sep);
    }
  }

  /** Moving the border between two neighbours to another separator does not change the joined text. */
  lemma {:induction false} JoinRegroups(before: seq<string>, a: string, b: string, c: string, after: seq<string>,
                                        sep: char)
    ensures Join(before + [a + [sep] + b, c] + after, sep) == Join(before + [a, b + [sep] + c] + after, sep)
  {
    var p, q := [a + [sep] + b, c] + after, [a, b + [sep] + c] + after;
    if before == [] {
      assert before + [a + [sep] + b, c] + after == p && before + [a, b + [sep] + c] + after == q;
      assert p[1..] == [c] + after && q[1..] == [b + [sep] + c] + after;
      JoinPrepends(b + [sep], c, after, sep);
      assert b + [sep] + c == (b + [sep]) + c;
    } else {
      JoinRegroups(before[1..], a, b, c, after, sep);
      assert (before + [a + [sep] + b, c] + after)[1..] == before[1..] + [a + [sep] + b, c] + after;
      assert (before + [a, b + [sep] + c] + after)[1..] == before[1..] + [a, b + [sep] + c] + after;
    }
  }

  lemma JoinPrepends(a: string, c: string, after: seq<string>, sep: char)
    ensures Join([a + c] + after, sep) == a + Join([c] + after, sep)
  {
    assert ([a + c] + after)[1..] == after == ([c] + after)[1..];
    if after != [] {
      assert a + c + [sep] + Join(after, sep) == a + (c + [sep] + Join(after, sep));
    }
  }

  /** Python's `part in text`. */
  predicate Contains(text: string, part: string) {
    exists i | 0 <= i <= |text| :: OccursAt(text, part, i)
  }

  /** The characters `str.strip` takes off. */
  predicate IsSpace(c: char) {
    var code := c as int;
    || 9 <= code <= 13 || 28 <= code <= 32 || code == 0x85 || code == 0xA0 || code == 0x1680
    || 0x2000 <= code <= 0x200A || code == 0x2028 || code == 0x2029 || code == 0x202F
    || code == 0x205F || code == 0x3000
  }

  function StripLeft(text: string): string {
    if text != "" && IsSpace(text[0]) then StripLeft(text[1..]) else text
  }

  function StripRight(text: string): string {
    if text != "" && IsSpace(text[|text| - 1]) then StripRight(text[..|text| - 1]) else text
  }

  function Strip(text: string): string { StripRight(StripLeft(text)) }

  /** A text that begins and ends with visible characters. */
  predicate Visible(text: string) { text != "" && !IsSpace(text[0]) && !IsSpace(text[|text| - 1]) }

  lemma StripsOneNewline(text: string)
    requires Visible(text)
    ensures Strip(text + "\n") == text && Strip(text) == text
  {
    var line := text + "\n";
    assert line[0] == text[0] && line[|line| - 1] == '\n' && line[..|line| - 1] == text;
    assert StripLeft(line) == line && StripRight(text) == text;
  }

  /** Lines, each ended by a newline: the text a log grows by appending. */
  function Lines(lines: seq<string>): string {
    if lines == [] then "" else Lines(lines[..|lines| - 1]) + lines[|lines| - 1] + "\n"
  }

  /** A line that survives in a text of lines: visible and without newlines. */
  ghost predicate ProperLine(line: string) { Visible(line) && '\n' !in line }

  ghost predicate ProperLines(lines: seq<string>) {
    forall i :: 0 <= i < |lines| ==> ProperLine(lines[i])
  }

  lemma {:induction false} LinesAreJoined(lines: seq<string>)
    requires |lines| >= 1 && ProperLines(lines)
    ensures Lines(lines) == Join(lines, '\n') + "\n" && Visible(Join(lines, '\n'))
  {
    var init, last := lines[..|lines| - 1], lines[|lines| - 1];
    assert lines == init + [last];
    if init == [] {
      assert Lines(init) == "";
    } else {
      LinesAreJoined(init);
      JoinConcat(init, [last], '\n');
    }
  }

  /** Reading back a text of proper lines gives the lines. */
  lemma LinesReadBack(lines: seq<string>)
    requires |lines| >= 1 && ProperLines(lines)
    ensures Lines(lines) != "" && Split(Strip(Lines(lines)), '\n') == lines
  {
    LinesAreJoined(lines);
    StripsOneNewline(Join(lines, '\n'));
    SplitUndoesJoin(lines, '\n');
  }
}
