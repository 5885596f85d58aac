/** Detecting and masking personal data, src/brain/security/pii.py.

    What the regular expressions find in a text is a parameter, as is `upper`, Python's `str.upper`. */
module PiiMask {
  import opened Options

  datatype Match = Match(name: string, start: nat, end: nat)

  datatype Span = Span(start: nat, end: nat)

  /** A named pattern: `find` gives the spans of its matches in a text, from left to right. */
  datatype Pattern = Pattern(name: string, find: string -> seq<Span>)

  // ----- detection -----

  function Named(name: string, spans: seq<Span>): seq<Match> {
    seq(|spans|, i requires 0 <= i < |spans| => Match(name, spans[i].start, spans[i].end))
  }

  function Detected(patterns: seq<Pattern>, text: string): seq<Match> {
    if patterns == [] then [] else
      var n := |patterns| - 1;
      Detected(patterns[..n], text) + Named(patterns[n].name, patterns[n].find(text))
  }

  method Detect(patterns: seq<Pattern>, text: string) returns (matches: seq<Match>)
    ensures matches == Detected(patterns, text)
  {
    matches := [];
    for n := 0 to |patterns|
      invariant matches == Detected(patterns[..n], text)
    {
      assert patterns[..n + 1][..n] == patterns[..n];
      var name, spans := patterns[n].name, patterns[n].find(text);
      for k := 0 to |spans|
        invariant matches == Detected(patterns[..n], text) + Named(name, spans)[..k]
      {
        matches := matches + [Match(name, spans[k].start, spans[k].end)];
      }
    }
    assert patterns[..|patterns|] == patterns;
  }

  predicate Finds(p: Pattern, text: string, m: Match) {
    p.name == m.name && Span(m.start, m.end) in p.find(text)
  }

  /** A match is detected if and only if some pattern finds it. */
  lemma {:induction false} DetectedIff(patterns: seq<Pattern>, text: string, m: Match)
    ensures m in Detected(patterns, text) <==> exists i :: 0 <= i < |patterns| && Finds(patterns[i], text, m)
  {
    if patterns != [] {
      var n := |patterns| - 1;
      DetectedIff(patterns[..n], text, m);
      NamedIff(patterns[n], text, m);
      hide Finds, Named;
      forall i | 0 <= i < n ensures patterns[..n][i] == patterns[i] {}
    }
  }

  lemma NamedIff(p: Pattern, text: string, m: Match)
    ensures m in Named(p.name, p.find(text)) <==> Finds(p, text, m)
  {
    var spans := p.find(text);
    if Finds(p, text, m) {
      var k :| 0 <= k < |spans| && spans[k] == Span(m.start, m.end);
      assert Named(p.name, spans)[k] == m;
    }
  }

  method HasPii(patterns: seq<Pattern>, text: string) returns (found: bool)
    ensures found <==> Detected(patterns, text) != []
  {
    for n := 0 to |patterns|
      invariant Detected(patterns[..n], text) == []
    {
      assert patterns[..n + 1][..n] == patterns[..n];
      if patterns[n].find(text) != [] {
        assert Named(patterns[n].name, patterns[n].find(text)) != [];
        DetectedGrows(patterns, n + 1, text);
        return true;
      }
    }
    assert patterns[..|patterns|] == patterns;
    found := false;
  }

  lemma {:induction false} DetectedGrows(patterns: seq<Pattern>, n: nat, text: string)
    requires n <= |patterns|
    ensures |Detected(patterns[..n], text)| <= |Detected(patterns, text)|
  {
    if n < |patterns| {
      DetectedGrows(patterns[..|patterns| - 1], n, text);
      assert patterns[..|patterns| - 1][..n] == patterns[..n];
    } else {
      assert patterns[..n] == patterns;
    }
  }

  // ----- masking -----

  /** Python's `s[:n]` and `s[n:]`. */
  function Take(s: string, n: nat): string { if n >= |s| then s else s[..n] }

  function Drop(s: string, n: nat): string { if n >= |s| then "" else s[n..] }

  function Token(name: string, upper: string -> string): string { "[" + upper(name) + "]" }

  function Splice(text: string, m: Match, upper: string -> string): string {
    Take(text, m.start) + Token(m.name, upper) + Drop(text, m.end)
  }

  /** Splicing one match after the other. */
  function Spliced(text: string, matches: seq<Match>, upper: string -> string): string {
    if matches == [] then text else
      var n := |matches| - 1;
      Splice(Spliced(text, matches[..n], upper), matches[n], upper)
  }

  /** `sorted(matches, key=start, reverse=True)`, which keeps the order of equal keys. */
  function Insert(m: Match, sorted: seq<Match>): seq<Match> {
    if sorted == [] || m.start >= sorted[0].start then [m] + sorted else [sorted[0]] + Insert(m, sorted[1..])
  }

  function FromTheEnd(matches: seq<Match>): seq<Match> {
    if matches == [] then [] else Insert(matches[0], FromTheEnd(matches[1..]))
  }

  method Mask(patterns: seq<Pattern>, text: string, upper: string -> string) returns (result: string)
    ensures result == Spliced(text, FromTheEnd(Detected(patterns, text)), upper)
  {
    result := text;
    var matches := Detect(patterns, text);
    var sorted := FromTheEnd(matches);
    hide Splice;
    for n := 0 to |sorted|
      invariant result == Spliced(text, sorted[..n], upper)
    {
      assert sorted[..n + 1][..n] == sorted[..n];
      result := Splice(result, sorted[n], upper);
    }
    assert sorted[..|sorted|] == sorted;
  }

  // ----- the left-to-right rewrite -----

  /** A piece of the masked text: a character of the text, or the token of a match. */
  datatype Piece = Kept(c: char) | Masked(name: string)

  function Render(pieces: seq<Piece>, upper: string -> string): string {
    if pieces == [] then ""
    else (if pieces[0].Kept? then [pieces[0].c] else Token(pieces[0].name, upper)) + Render(pieces[1..], upper)
  }

  function StartingAt(matches: seq<Match>, pos: nat): Option<Match> {
    if matches == [] then None
    else if matches[0].start == pos then Some(matches[0])
    else StartingAt(matches[1..], pos)
  }

  /** Reading the text once from left to right: a match becomes its token, any other character is kept. */
  function Pieces(text: string, matches: seq<Match>, pos: nat): seq<Piece>
    requires Proper(text, matches)
    decreases |text| - pos
  {
    if pos >= |text| then []
    else match StartingAt(matches, pos)
      case None => [Kept(text[pos])] + Pieces(text, matches, pos + 1)
      case Some(m) =>
        StartingAtIsMember(matches, pos);
        [Masked(m.name)] + Pieces(text, matches, m.end)
  }

  /** Matches are not empty and lie within the text. */
  predicate Proper(text: string, matches: seq<Match>) {
    forall i :: 0 <= i < |matches| ==> matches[i].start < matches[i].end <= |text|
  }

  predicate Apart(m: Match, n: Match) { m.end <= n.start || n.end <= m.start }

  predicate Disjoint(matches: seq<Match>) {
    forall i, j :: 0 <= i < |matches| && 0 <= j < |matches| && i != j ==> Apart(matches[i], matches[j])
  }

  lemma {:induction false} StartingAtIsMember(matches: seq<Match>, pos: nat)
    ensures var found := StartingAt(matches, pos);
            if found.Some? then found.value in matches && found.value.start == pos
            else forall m :: m in matches ==> m.start != pos
  {
    if matches != [] && matches[0].start != pos {
      StartingAtIsMember(matches[1..], pos);
      assert forall m :: m in matches ==> m == matches[0] || m in matches[1..];
    }
  }

  // ----- sorting from the end -----

  /** Each match ends at or before the start of the one before it. */
  predicate Descending(matches: seq<Match>) {
    forall i, j :: 0 <= i < j < |matches| ==> matches[j].end <= matches[i].start
  }

  lemma PrependDescends(first: Match, rest: seq<Match>)
    requires Descending(rest) && forall x :: x in rest ==> x.end <= first.start
    ensures Descending([first] + rest)
  {}

  lemma InsertDescends(m: Match, sorted: seq<Match>)
    requires m.start < m.end && Descending(sorted) && forall x :: x in sorted ==> x.start < x.end && Apart(m, x)
    ensures Descending(Insert(m, sorted)) && forall x :: x in Insert(m, sorted) <==> x == m || x in sorted
  {
    if sorted != [] {
      var first, rest := sorted[0], sorted[1..];
      assert sorted == [first] + rest;
      assert forall x :: x in sorted ==> x.end <= first.start || x == first;
      if m.start < first.start {
        assert forall x :: x in rest ==> x in sorted;
        InsertDescends(m, rest);
        assert Apart(m, first);
        hide Descending, Apart;
        PrependDescends(first, Insert(m, rest));
      } else {
        assert Apart(m, first);
        hide Descending, Apart;
        PrependDescends(m, sorted);
      }
    }
  }

  lemma FirstIsApart(matches: seq<Match>, x: Match)
    requires Disjoint(matches) && matches != [] && x in matches[1..]
    ensures Apart(matches[0], x)
  {
    var i :| 0 <= i < |matches[1..]| && matches[1..][i] == x;
    assert matches[i + 1] == x && Apart(matches[0], matches[i + 1]);
  }

  lemma MembersAreProper(text: string, matches: seq<Match>)
    ensures Proper(text, matches) <==> forall x :: x in matches ==> x.start < x.end <= |text|
  {}

  lemma {:induction false} SortsFromTheEnd(text: string, matches: seq<Match>)
    requires Proper(text, matches) && Disjoint(matches)
    ensures Descending(FromTheEnd(matches)) && Proper(text, FromTheEnd(matches))
    ensures forall x :: x in FromTheEnd(matches) <==> x in matches
  {
    if matches != [] {
      var m, sorted := matches[0], FromTheEnd(matches[1..]);
      SortsFromTheEnd(text, matches[1..]);
      assert matches == [m] + matches[1..];
      MembersAreProper(text, matches);
      MembersAreProper(text, FromTheEnd(matches));
      forall x | x in sorted ensures x.start < x.end && Apart(m, x) {
        FirstIsApart(matches, x);
      }
      hide Descending, Disjoint, Proper, Insert;
      InsertDescends(m, sorted);
    }
  }

  // ----- splicing from the end is the rewrite -----

  lemma RenderStep(piece: Piece, rest: seq<Piece>, upper: string -> string)
    ensures Render([piece] + rest, upper)
         == (if piece.Kept? then [piece.c] else Token(piece.name, upper)) + Render(rest, upper)
  {
    assert ([piece] + rest)[1..] == rest;
  }

  /** Where no match starts, reading on keeps the characters. */
  lemma {:induction false} KeepsUpTo(text: string, matches: seq<Match>, pos: nat, next: nat, upper: string -> string)
    requires Proper(text, matches) && pos <= next <= |text|
    requires forall m :: m in matches ==> !(pos <= m.start < next)
    ensures Render(Pieces(text, matches, pos), upper)
         == text[pos..next] + Render(Pieces(text, matches, next), upper)
    decreases next - pos
  {
    hide Pieces, Render, Token;
    var rendered := Render(Pieces(text, matches, next), upper);
    if pos < next {
      PiecesKeep(text, matches, pos);
      RenderStep(Kept(text[pos]), Pieces(text, matches, pos + 1), upper);
      KeepsUpTo(text, matches, pos + 1, next, upper);
      ReadOn(text, pos, next, rendered);
    } else {
      assert text[pos..next] == "" && "" + rendered == rendered;
    }
  }

  lemma PiecesKeep(text: string, matches: seq<Match>, pos: nat)
    requires Proper(text, matches) && pos < |text| && forall m :: m in matches ==> m.start != pos
    ensures Pieces(text, matches, pos) == [Kept(text[pos])] + Pieces(text, matches, pos + 1)
  {
    StartingAtIsMember(matches, pos);
  }

  lemma ReadOn(text: string, pos: nat, next: nat, rest: string)
    requires pos < next <= |text|
    ensures [text[pos]] + (text[pos + 1..next] + rest) == text[pos..next] + rest
  {
    assert text[pos..next] == [text[pos]] + text[pos + 1..next];
  }

  /** What starts before a position does not matter to reading on from there. */
  lemma {:induction false} ForgetsEarlier(text: string, a: seq<Match>, b: seq<Match>, pos: nat)
    requires Proper(text, a) && Proper(text, b)
    requires forall p :: pos <= p ==> StartingAt(a, p) == StartingAt(b, p)
    ensures Pieces(text, a, pos) == Pieces(text, b, pos)
    decreases |text| - pos
  {
    if pos < |text| {
      StartingAtIsMember(a, pos);
      match StartingAt(a, pos)
      case None => ForgetsEarlier(text, a, b, pos + 1);
      case Some(m) => ForgetsEarlier(text, a, b, m.end);
    }
  }

  lemma {:induction false} StartingAtInit(matches: seq<Match>, p: nat)
    requires matches != [] && matches[|matches| - 1].start != p
    ensures StartingAt(matches, p) == StartingAt(matches[..|matches| - 1], p)
  {
    if |matches| > 1 {
      StartingAtInit(matches[1..], p);
      assert matches[1..][..|matches| - 2] == matches[..|matches| - 1][1..];
    }
  }

  lemma SpliceOnto(text: string, tail: string, m: Match, upper: string -> string)
    requires m.start < m.end <= |text|
    ensures Splice(text[..m.end] + tail, m, upper) == text[..m.start] + (Token(m.name, upper) + tail)
  {
    hide Token;
    var whole := text[..m.end] + tail;
    assert Take(whole, m.start) == text[..m.start];
    assert Drop(whole, m.end) == tail;
  }

  /** After splicing matches from the end, the text up to the first of them is as it was, and what follows is the
      rewrite. */
  lemma {:induction false} SplicedIsRewritten(text: string, matches: seq<Match>, pos: nat, upper: string -> string)
    requires Proper(text, matches) && Descending(matches)
    requires pos <= if matches == [] then |text| else matches[|matches| - 1].start
    ensures Spliced(text, matches, upper) == text[..pos] + Render(Pieces(text, matches, pos), upper)
  {
    hide Pieces, Render, Token, Splice, Spliced, StartingAt;
    SplicedStep(text, matches, upper);
    if matches == [] {
      KeepsUpTo(text, [], pos, |text|, upper);
      NothingAfter(text, upper);
      assert text[pos..|text|] + "" == text[pos..] && text[..pos] + text[pos..] == text;
    } else {
      var n := |matches| - 1;
      var m, init := matches[n], matches[..n];
      assert m.start < m.end <= |text|;
      SplicedIsRewritten(text, init, m.end, upper);
      var tail := Render(Pieces(text, init, m.end), upper);
      RewriteOfFirst(text, matches, pos, upper);
      SpliceOnto(text, tail, m, upper);
      assert text[..pos] + (text[pos..m.start] + (Token(m.name, upper) + tail))
          == text[..m.start] + (Token(m.name, upper) + tail);
    }
  }

  lemma SplicedStep(text: string, matches: seq<Match>, upper: string -> string)
    ensures var n := |matches| - 1;
            Spliced(text, matches, upper)
            == if matches == [] then text else Splice(Spliced(text, matches[..n], upper), matches[n], upper)
  {
    hide Splice;
  }

  lemma NothingAfter(text: string, upper: string -> string)
    ensures Render(Pieces(text, [], |text|), upper) == ""
  {}

  lemma RewriteOfFirst(text: string, matches: seq<Match>, pos: nat, upper: string -> string)
    requires Proper(text, matches) && Descending(matches) && matches != [] && pos <= matches[|matches| - 1].start
    ensures var m := matches[|matches| - 1];
            Render(Pieces(text, matches, pos), upper)
            == text[pos..m.start]
               + (Token(m.name, upper) + Render(Pieces(text, matches[..|matches| - 1], m.end), upper))
  {
    var n := |matches| - 1;
    var m := matches[n];
    assert forall x :: x in matches ==> x == m || m.end <= x.start;
    KeepsUpTo(text, matches, pos, m.start, upper);
    StartingAtIsMember(matches, m.start);
    assert Pieces(text, matches, m.start) == [Masked(m.name)] + Pieces(text, matches, m.end);
    RenderStep(Masked(m.name), Pieces(text, matches, m.end), upper);
    forall p | m.end <= p ensures StartingAt(matches, p) == StartingAt(matches[..n], p) {
      StartingAtInit(matches, p);
    }
    hide Pieces, Render, StartingAt, Token;
    ForgetsEarlier(text, matches, matches[..n], m.end);
  }

  /** When the matches are disjoint, splicing them from the end equals the left-to-right rewrite. */
  lemma MaskIsRewrite(text: string, matches: seq<Match>, upper: string -> string)
    requires Proper(text, matches) && Disjoint(matches)
    ensures Spliced(text, FromTheEnd(matches), upper) == Render(Pieces(text, matches, 0), upper)
  {
    var sorted := FromTheEnd(matches);
    SortsFromTheEnd(text, matches);
    SplicedIsRewritten(text, sorted, 0, upper);
    forall p ensures StartingAt(sorted, p) == StartingAt(matches, p) {
      StartingAtIsMember(sorted, p);
      StartingAtIsMember(matches, p);
      OneStart(text, matches, p);
    }
    ForgetsEarlier(text, sorted, matches, 0);
  }

  lemma PairIsApart(matches: seq<Match>, i: nat, j: nat)
    requires Disjoint(matches) && i < |matches| && j < |matches|
    ensures i != j ==> Apart(matches[i], matches[j])
  {}

  lemma OneStart(text: string, matches: seq<Match>, p: nat)
    requires Proper(text, matches) && Disjoint(matches)
    ensures forall a, b :: a in matches && b in matches && a.start == p && b.start == p ==> a == b
  {
    forall a, b | a in matches && b in matches && a.start == p && b.start == p ensures a == b {
      var i :| 0 <= i < |matches| && matches[i] == a;
      var j :| 0 <= j < |matches| && matches[j] == b;
      PairIsApart(matches, i, j);
    }
  }

  // ----- what the rewrite keeps -----

  function KeptOf(pieces: seq<Piece>): string {
    if pieces == [] then "" else (if pieces[0].Kept? then [pieces[0].c] else "") + KeptOf(pieces[1..])
  }

  predicate Covered(matches: seq<Match>, i: nat) {
    exists k | 0 <= k < |matches| :: matches[k].start <= i < matches[k].end
  }

  function Uncovered(text: string, matches: seq<Match>, pos: nat): string
    decreases |text| - pos
  {
    if pos >= |text| then ""
    else (if Covered(matches, pos) then "" else [text[pos]]) + Uncovered(text, matches, pos + 1)
  }

  lemma {:induction false} SkipsCovered(text: string, matches: seq<Match>, pos: nat, next: nat)
    requires pos <= next && forall i :: pos <= i < next ==> Covered(matches, i)
    ensures Uncovered(text, matches, pos) == Uncovered(text, matches, next)
    decreases next - pos
  {
    if pos < next {
      SkipsCovered(text, matches, pos + 1, next);
      hide Covered;
    }
  }

  /** The rewrite keeps exactly the characters outside all matches, in order. */
  lemma {:induction false} KeepsTheUncovered(text: string, matches: seq<Match>, pos: nat)
    requires Proper(text, matches) && Disjoint(matches)
    requires forall m :: m in matches ==> !(m.start < pos < m.end)
    ensures KeptOf(Pieces(text, matches, pos)) == Uncovered(text, matches, pos)
    decreases |text| - pos
  {
    if pos < |text| {
      StartingAtIsMember(matches, pos);
      match StartingAt(matches, pos)
      case None =>
        assert !Covered(matches, pos);
        KeepsTheUncovered(text, matches, pos + 1);
        var rest := Pieces(text, matches, pos + 1);
        assert ([Kept(text[pos])] + rest)[1..] == rest;
      case Some(m) =>
        var k :| 0 <= k < |matches| && matches[k] == m;
        assert forall i :: pos <= i < m.end ==> Covered(matches, i);
        SkipsCovered(text, matches, pos, m.end);
        forall x | x in matches ensures !(x.start < m.end < x.end) {
          var j :| 0 <= j < |matches| && matches[j] == x;
          assert j != k ==> Apart(matches[j], matches[k]);
        }
        KeepsTheUncovered(text, matches, m.end);
        var rest := Pieces(text, matches, m.end);
        assert ([Masked(m.name)] + rest)[1..] == rest;
    }
  }

  // ----- what overlap does -----

  /** Of two matches the one that starts later is spliced first; if they start together, the one found first. */
  lemma OrderOfTwo(x: Match, y: Match)
    ensures FromTheEnd([x, y]) == if x.start >= y.start then [x, y] else [y, x]
  {
    assert [x, y][1..] == [y] && [y][1..] == [];
    assert Insert(x, []) == [x];
    assert FromTheEnd([y]) == [y];
  }

  lemma DropAppended(head: string, tail: string, n: nat)
    ensures Drop(head + tail, n) == if n <= |head| then Drop(head, n) + tail else Drop(tail, n - |head|)
  {}

  lemma DropEqualIff(text: string, m: nat, n: nat)
    ensures Drop(text, m) == Drop(text, n) <==> m == n || (m >= |text| && n >= |text|)
  {
    assert |Drop(text, m)| == if m >= |text| then 0 else |text| - m;
    assert |Drop(text, n)| == if n >= |text| then 0 else |text| - n;
  }

  function Later(m: nat, n: nat): nat { if m >= n then m else n }

  /** The text before a match, its token, something left of another token, and the text from `end` on. */
  function Around(text: string, m: Match, left: string, end: nat, upper: string -> string): string {
    Take(text, m.start) + Token(m.name, upper) + (left + Drop(text, end))
  }

  lemma AroundIff(text: string, m: Match, left: string, end: nat, resumed: nat, upper: string -> string)
    ensures Around(text, m, left, resumed, upper) == Around(text, m, left, end, upper)
       <==> resumed == end || (resumed >= |text| && end >= |text|)
  {
    hide Take, Token, Drop;
    SameHead(Take(text, m.start) + Token(m.name, upper), left + Drop(text, resumed), left + Drop(text, end));
    SameHead(left, Drop(text, resumed), Drop(text, end));
    DropEqualIff(text, resumed, end);
  }

  /** What masking two overlapping matches should leave, `second` being spliced first: the text before them, the token
      of the one spliced last, what that leaves of the other's token, and the text after both. */
  function MaskedPair(text: string, first: Match, second: Match, upper: string -> string): string
    requires first.start <= second.start < first.end
  {
    Around(text, first, Drop(Token(second.name, upper), first.end - second.start), Later(first.end, second.end), upper)
  }

  /** The token spliced first has a suitable length: when the other match ends inside this one, at least that of their
      common part (or this one ends the text); when the other reaches beyond this one, exactly that of this one (or a
      smaller one, when the other ends the text). */
  predicate Fits(text: string, first: Match, second: Match, token: nat) {
    if first.end <= second.end then token >= first.end - second.start || second.end == |text|
    else token == second.end - second.start || (token < second.end - second.start && first.end == |text|)
  }

  /** Two overlapping matches, found in any order, are masked properly -- no character of theirs is left and none after
      them is lost -- if and only if the token of the one that is spliced first has a suitable length. */
  lemma OverlapIsProperIff(text: string, x: Match, y: Match, upper: string -> string)
    requires Proper(text, [x, y]) && !Apart(x, y)
    ensures var (first, second) := if x.start >= y.start then (y, x) else (x, y);
            && first.start <= second.start < first.end
            && (Spliced(text, FromTheEnd([x, y]), upper) == MaskedPair(text, first, second, upper)
                <==> Fits(text, first, second, |Token(second.name, upper)|))
  {
    assert [x, y][0] == x && [x, y][1] == y;
    OrderOfTwo(x, y);
    var (first, second) := if x.start >= y.start then (y, x) else (x, y);
    hide Spliced, MaskedPair, Fits, Token, FromTheEnd;
    SplicedPairIff(text, first, second, upper);
  }

  lemma {:induction false} SplicedPairIff(text: string, first: Match, second: Match, upper: string -> string)
    requires first.start <= second.start < first.end <= |text| && second.start < second.end <= |text|
    ensures Spliced(text, [second, first], upper) == MaskedPair(text, first, second, upper)
       <==> Fits(text, first, second, |Token(second.name, upper)|)
  {
    var token, common := Token(second.name, upper), first.end - second.start;
    var resumed := second.end + (if common <= |token| then 0 else common - |token|);
    hide Spliced, Around, Token, Drop, Fits;
    SplicedPair(text, first, second, upper);
    AroundIff(text, first, Drop(token, common), Later(first.end, second.end), resumed, upper);
    ResumedIff(text, first, second, |token|);
  }

  lemma {:induction false} SplicedPair(text: string, first: Match, second: Match, upper: string -> string)
    requires first.start <= second.start < first.end <= |text| && second.start < second.end <= |text|
    ensures var token, common := Token(second.name, upper), first.end - second.start;
            Spliced(text, [second, first], upper)
            == Around(text, first, Drop(token, common),
                      second.end + (if common <= |token| then 0 else common - |token|), upper)
  {
    hide Token, Spliced, Drop, Take;
    var token := Token(second.name, upper);
    PairSpliced(text, first, second, upper);
    LeftAfter(text, token, second, first.end);
    HeadKept(text, token, second, first.start);
  }

  /** Reading on where the shorter token leaves off is reading on after both matches if the token fits. */
  lemma ResumedIff(text: string, first: Match, second: Match, token: nat)
    requires first.start <= second.start < first.end <= |text| && second.start < second.end <= |text|
    ensures var common, end := first.end - second.start, Later(first.end, second.end);
            var resumed := second.end + (if common <= token then 0 else common - token);
            Fits(text, first, second, token) <==> resumed == end || (resumed >= |text| && end >= |text|)
  {}

  lemma PairSpliced(text: string, first: Match, second: Match, upper: string -> string)
    ensures Spliced(text, [second, first], upper) == Splice(Splice(text, second, upper), first, upper)
  {
    hide Splice;
    assert [second, first][..1] == [second] && [second][..0] == [];
    SplicedStep(text, [second, first], upper);
    SplicedStep(text, [second], upper);
    SplicedStep(text, [], upper);
  }

  /** What is left behind position `n` after a match before it was replaced by a token. */
  lemma LeftAfter(text: string, token: string, m: Match, n: nat)
    requires m.start <= n && m.end <= |text| && m.start <= |text|
    ensures var common := n - m.start;
            Drop(Take(text, m.start) + token + Drop(text, m.end), n)
            == Drop(token, common) + Drop(text, m.end + (if common <= |token| then 0 else common - |token|))
  {
    var common, head, tail := n - m.start, Take(text, m.start), Drop(text, m.end);
    assert |head| == m.start;
    hide Take;
    DropAppended(head + token, tail, n);
    DropAppended(head, token, n);
    DropEnds(head);
    DropEnds(token);
    hide Drop;
    assert "" + token == token;
    if common > |token| {
      DropTwice(text, m.end, common - |token|);
      DropAll(token, common);
      assert "" + Drop(tail, common - |token|) == Drop(tail, common - |token|);
    } else {
      assert Drop(head + token, n) == Drop(token, common);
    }
  }

  lemma DropEnds(s: string)
    ensures Drop(s, |s|) == "" && Drop(s, 0) == s
  {}

  lemma DropAll(s: string, n: nat)
    requires n >= |s|
    ensures Drop(s, n) == ""
  {}

  lemma HeadKept(text: string, token: string, m: Match, n: nat)
    requires n <= m.start <= |text|
    ensures Take(Take(text, m.start) + token + Drop(text, m.end), n) == Take(text, n)
  {}

  lemma DropTwice(text: string, m: nat, n: nat)
    requires m <= |text|
    ensures Drop(Drop(text, m), n) == Drop(text, m + n)
  {}

  /** A match inside another is masked properly, that is as if it were not there, if and only if its token is as long as
      itself, or is shorter and the outer match ends the text.  A longer token leaves characters of the outer match
      unmasked, a shorter one takes characters after it away. */
  lemma NestedIsProperIff(text: string, outer: Match, inner: Match, upper: string -> string)
    requires outer.start < inner.start < inner.end <= outer.end <= |text|
    ensures FromTheEnd([outer, inner]) == FromTheEnd([inner, outer]) == [inner, outer]
    ensures Spliced(text, FromTheEnd([outer, inner]), upper) == Splice(text, outer, upper)
       <==> || |Token(inner.name, upper)| == inner.end - inner.start
            || (|Token(inner.name, upper)| < inner.end - inner.start && outer.end == |text|)
  {
    OrderOfTwo(outer, inner);
    OrderOfTwo(inner, outer);
    PairSpliced(text, outer, inner, upper);
    hide Token, Spliced;
    Overwritten(text, outer, inner, Token(inner.name, upper));
    var once := Splice(text, inner, upper);
    SameHead(Take(once, outer.start) + Token(outer.name, upper), Drop(once, outer.end), Drop(text, outer.end));
  }

  lemma SameHead(head: string, a: string, b: string)
    ensures head + a == head + b <==> a == b
  {
    assert a == (head + a)[|head|..] && b == (head + b)[|head|..];
  }

  /** What splicing the inner match does to the text around the outer one. */
  lemma Overwritten(text: string, outer: Match, inner: Match, token: string)
    requires outer.start < inner.start < inner.end <= outer.end <= |text|
    ensures var once := Take(text, inner.start) + token + Drop(text, inner.end);
            && Take(once, outer.start) == Take(text, outer.start)
            && (Drop(once, outer.end) == Drop(text, outer.end)
                <==> || |token| == inner.end - inner.start
                     || (|token| < inner.end - inner.start && outer.end == |text|))
  {
    var once := Take(text, inner.start) + token + Drop(text, inner.end);
    assert Take(once, outer.start) == Take(text, outer.start);
    if |token| == inner.end - inner.start {
      assert Drop(once, outer.end) == Drop(text, outer.end);
    }
  }
}
