/** The sentence-packing chunker with overlap, `DocumentChunker.chunk` of src/brain/rag.py.

    The regular expression that splits a text into sentences is not part of this model: `Chunk` takes its result.
    Every chunk is described by two lists, the sentences carried over from the previous chunk and those added,
    and `Packed` says how such groups must follow from each other. */
module Chunking {
  import Texts

  const MAX_DOCUMENT_SIZE_BYTES: nat := 5 * 1024 * 1024

  datatype Result<T> = Ok(value: T) | DocumentTooLarge

  /** The chunk's id is a digest of its document's id and its index. */
  datatype DocumentChunk = DocumentChunk(documentId: string, index: nat, tenantId: string, content: string)

  /** The sentences separated by single spaces. */
  function Join(ss: seq<string>): string {
    if ss == [] then "" else Texts.Join(ss, ' ')
  }

  /** The characters of the sentences alone. */
  function Letters(ss: seq<string>): nat {
    if ss == [] then 0 else Letters(ss[..|ss| - 1]) + |ss[|ss| - 1]|
  }

  datatype Group = Group(carried: seq<string>, added: seq<string>) {
    function All(): seq<string> { carried + added }

    /** The packer's own count: the carried text with its spaces, the fresh sentences without. */
    function Count(): nat { |Join(carried)| + Letters(added) }
  }

  /** The text after sentence `i` and sentence `i` itself are together within the limit. */
  predicate Admissible(previous: seq<string>, i: nat, limit: int)
    requires i < |previous|
  {
    |Join(previous[i + 1..])| + |previous[i]| <= limit
  }

  /** The sentences repeated after a chunk: from the end, one more as long as the text kept so far and that
      sentence together stay within the limit.  Sentences from `j` on are already kept. */
  function CarryFrom(previous: seq<string>, j: nat, limit: int): seq<string>
    requires j <= |previous|
  {
    if j > 0 && Admissible(previous, j - 1, limit) then CarryFrom(previous, j - 1, limit) else previous[j..]
  }

  function Carry(previous: seq<string>, limit: int): seq<string> {
    CarryFrom(previous, |previous|, limit)
  }

  /** The group has a fresh sentence, and each further one was added because it still fitted the packer's count. */
  ghost predicate Fits(g: Group, size: int) {
    && g.added != []
    && forall n :: 2 <= n <= |g.added| ==> Group(g.carried, g.added[..n]).Count() <= size
  }

  /** The group may follow `groups`: it carries what the overlap rule keeps of the last one, which was closed
      because the sentence that came next did not fit. */
  ghost predicate Follows(groups: seq<Group>, g: Group, size: int, overlap: int)
    requires g.added != []
  {
    if groups == [] then g.carried == [] else
      var last := groups[|groups| - 1];
      g.carried == Carry(last.All(), overlap) && last.Count() + |g.added[0]| > size
  }

  ghost predicate Packed(groups: seq<Group>, size: int, overlap: int) {
    || groups == []
    || (&& Fits(groups[|groups| - 1], size)
        && Follows(groups[..|groups| - 1], groups[|groups| - 1], size, overlap)
        && Packed(groups[..|groups| - 1], size, overlap))
  }

  /** All fresh sentences, in order. */
  ghost function FreshOf(groups: seq<Group>): seq<string> {
    if groups == [] then [] else FreshOf(groups[..|groups| - 1]) + groups[|groups| - 1].added
  }

  ghost function Chunks(groups: seq<Group>, documentId: string, tenantId: string): (cs: seq<DocumentChunk>)
    ensures |cs| == |groups|
  {
    if groups == [] then [] else
      var init := Chunks(groups[..|groups| - 1], documentId, tenantId);
      init + [DocumentChunk(documentId, |init|, tenantId, Join(groups[|groups| - 1].All()))]
  }

  class DocumentChunker {
    const chunkSize: int
    const overlap: int

    constructor (chunkSize: int, overlap: int)
      requires chunkSize > overlap
      ensures this.chunkSize == chunkSize && this.overlap == overlap
    {
      this.chunkSize := chunkSize;
      this.overlap := overlap;
    }

    /** The inner loop: the trailing sentences to repeat, and their text. */
    method KeepOverlap(current: seq<string>) returns (kept: seq<string>, text: string)
      ensures kept == Carry(current, overlap) && text == Join(kept)
    {
      kept, text := [], "";
      var j := |current|;
      while j > 0
        invariant 0 <= j <= |current| && kept == current[j..] && text == Join(kept)
        invariant Carry(current, overlap) == CarryFrom(current, j, overlap)
      {
        var s := current[j - 1];
        if |text| + |s| > overlap {
          break;
        }
        kept := [s] + kept;
        text := Join(kept);
        j := j - 1;
      }
    }

    /** The chunks are those of a packing of the sentences, each of which is fresh exactly once and in order. */
    method Chunk(sentences: seq<string>, byteLength: nat, documentId: string, tenantId: string)
      returns (r: Result<seq<DocumentChunk>>, ghost groups: seq<Group>)
      ensures r.DocumentTooLarge? <==> sentences != [] && byteLength > MAX_DOCUMENT_SIZE_BYTES
      ensures r.Ok? ==> Packed(groups, chunkSize, overlap) && FreshOf(groups) == sentences
      ensures r.Ok? ==> r.value == Chunks(groups, documentId, tenantId)
    {
      groups := [];
      if sentences == [] {
        return Ok([]), groups;
      }
      if byteLength > MAX_DOCUMENT_SIZE_BYTES {
        return DocumentTooLarge, groups;
      }
      hide *;
      var chunks: seq<DocumentChunk> := [];
      var current: seq<string> := [];
      var currentLen := 0;
      ghost var open := Group([], []);  // what `current` is made of
      ghost var done := [];
      Starts(chunkSize, overlap, documentId, tenantId);
      TakesAll(sentences);
      for n := 0 to |sentences|
        invariant done == sentences[..n]
        invariant Progress(groups, open, chunks, current, currentLen, done, chunkSize, overlap, documentId, tenantId)
      {
        var sentence := sentences[n];
        TakesOneMore(sentences, n);
        if currentLen + |sentence| > chunkSize && current != [] {
          var kept, text := KeepOverlap(current);
          StartsNext(groups, open, chunks, current, currentLen, done, chunkSize, overlap, documentId, tenantId,
                     sentence, kept);
          chunks := chunks + [DocumentChunk(documentId, |chunks|, tenantId, Join(current))];
          groups := groups + [open];
          open := Group(kept, [sentence]);
          current := kept;
          currentLen := |text|;
        } else {
          AddsFitting(groups, open, chunks, current, currentLen, done, chunkSize, overlap, documentId, tenantId,
                      sentence);
          open := Group(open.carried, open.added + [sentence]);
        }
        current := current + [sentence];
        currentLen := currentLen + |sentence|;
        done := sentences[..n + 1];
      }
      Finishes(groups, open, chunks, current, currentLen, done, chunkSize, overlap, documentId, tenantId);
      if current != [] {
        chunks := chunks + [DocumentChunk(documentId, |chunks|, tenantId, Join(current))];
        groups := groups + [open];
      }
      r := Ok(chunks);
    }
  }

  /** Where the loop over the sentences stands after `done`: the closed groups and their chunks, and the open group,
      which is what `current` is made of. */
  ghost predicate Progress(groups: seq<Group>, open: Group, chunks: seq<DocumentChunk>, current: seq<string>,
                           currentLen: int, done: seq<string>, size: int, overlap: int,
                           documentId: string, tenantId: string)
  {
    && current == open.All() && currentLen == open.Count()
    && chunks == Chunks(groups, documentId, tenantId)
    && Packed(groups, size, overlap)
    && FreshOf(groups) + open.added == done
    && if open.added == [] then groups == [] && open.carried == []
       else Fits(open, size) && Follows(groups, open, size, overlap)
  }

  lemma TakesOneMore(sentences: seq<string>, n: nat)
    requires n < |sentences|
    ensures sentences[..n + 1] == sentences[..n] + [sentences[n]]
  {}

  lemma TakesAll(sentences: seq<string>)
    ensures sentences[..0] == [] && sentences[..|sentences|] == sentences
  {}

  lemma Starts(size: int, overlap: int, documentId: string, tenantId: string)
    ensures Progress([], Group([], []), [], [], 0, [], size, overlap, documentId, tenantId)
  {}

  lemma AddsFitting(groups: seq<Group>, open: Group, chunks: seq<DocumentChunk>, current: seq<string>,
                    currentLen: int, done: seq<string>, size: int, overlap: int,
                    documentId: string, tenantId: string, sentence: string)
    requires Progress(groups, open, chunks, current, currentLen, done, size, overlap, documentId, tenantId)
    requires currentLen + |sentence| <= size || current == []
    ensures Progress(groups, Group(open.carried, open.added + [sentence]), chunks, current + [sentence],
                     currentLen + |sentence|, done + [sentence], size, overlap, documentId, tenantId)
  {
    hide Fits, Follows, Packed, FreshOf, Chunks, Group.Count, Group.All;
    HasSentences(open);
    Grows(open, sentence);
    FitsOneMore(groups, open, sentence, size, overlap);
  }

  lemma StartsNext(groups: seq<Group>, open: Group, chunks: seq<DocumentChunk>, current: seq<string>,
                   currentLen: int, done: seq<string>, size: int, overlap: int,
                   documentId: string, tenantId: string, sentence: string, kept: seq<string>)
    requires Progress(groups, open, chunks, current, currentLen, done, size, overlap, documentId, tenantId)
    requires currentLen + |sentence| > size && current != [] && kept == Carry(current, overlap)
    ensures Progress(groups + [open], Group(kept, [sentence]),
                     chunks + [DocumentChunk(documentId, |chunks|, tenantId, Join(current))],
                     kept + [sentence], |Join(kept)| + |sentence|, done + [sentence], size, overlap,
                     documentId, tenantId)
  {
    hide Fits, Follows, Packed, FreshOf, Chunks, Carry, Join, Group.Count, Group.All;
    HasSentences(open);
    Closes(groups, open, size, overlap, documentId, tenantId);
    OpensNext(groups + [open], kept, sentence, size, overlap);
  }

  lemma Finishes(groups: seq<Group>, open: Group, chunks: seq<DocumentChunk>, current: seq<string>,
                 currentLen: int, done: seq<string>, size: int, overlap: int, documentId: string, tenantId: string)
    requires Progress(groups, open, chunks, current, currentLen, done, size, overlap, documentId, tenantId)
    requires done != []
    ensures current != [] && Packed(groups + [open], size, overlap) && FreshOf(groups + [open]) == done
    ensures Chunks(groups + [open], documentId, tenantId)
         == chunks + [DocumentChunk(documentId, |chunks|, tenantId, Join(current))]
  {
    hide Fits, Follows, Packed, Chunks, Join, Group.All;
    HasSentences(open);
    Closes(groups, open, size, overlap, documentId, tenantId);
  }

  lemma HasSentences(g: Group)
    ensures g.All() == [] <==> g.carried == [] && g.added == []
  {}

  lemma Grows(g: Group, sentence: string)
    ensures var grown := Group(g.carried, g.added + [sentence]);
            grown.All() == g.All() + [sentence] && grown.Count() == g.Count() + |sentence|
  {
    assert (g.added + [sentence])[..|g.added|] == g.added;
  }

  /** Adding a sentence that fits, or the very first one. */
  lemma FitsOneMore(groups: seq<Group>, g: Group, sentence: string, size: int, overlap: int)
    requires if g.added == [] then groups == [] && g.carried == []
             else Fits(g, size) && Follows(groups, g, size, overlap) && g.Count() + |sentence| <= size
    ensures Fits(Group(g.carried, g.added + [sentence]), size)
    ensures Follows(groups, Group(g.carried, g.added + [sentence]), size, overlap)
  {
    var grown := Group(g.carried, g.added + [sentence]);
    Grows(g, sentence);
    forall n | 2 <= n <= |grown.added| ensures Group(grown.carried, grown.added[..n]).Count() <= size {
      if n <= |g.added| {
        assert grown.added[..n] == g.added[..n];
      } else {
        assert grown.added[..n] == grown.added;
      }
    }
  }

  /** Opening the next group, with what the overlap rule keeps and the sentence that did not fit. */
  lemma OpensNext(groups: seq<Group>, kept: seq<string>, sentence: string, size: int, overlap: int)
    requires groups != [] && kept == Carry(groups[|groups| - 1].All(), overlap)
    requires groups[|groups| - 1].Count() + |sentence| > size
    ensures var g := Group(kept, [sentence]);
            && Fits(g, size) && Follows(groups, g, size, overlap)
            && g.All() == kept + [sentence] && g.Count() == |Join(kept)| + |sentence|
  {
    hide Join, Carry;
    LettersOfOne(sentence);
  }

  lemma LettersOfOne(sentence: string)
    ensures Letters([sentence]) == |sentence|
  {
    assert [sentence][..0] == [];
  }

  lemma Closes(groups: seq<Group>, g: Group, size: int, overlap: int, documentId: string, tenantId: string)
    requires Packed(groups, size, overlap) && Fits(g, size) && Follows(groups, g, size, overlap)
    ensures Packed(groups + [g], size, overlap)
    ensures FreshOf(groups + [g]) == FreshOf(groups) + g.added
    ensures Chunks(groups + [g], documentId, tenantId)
         == Chunks(groups, documentId, tenantId) + [DocumentChunk(documentId, |groups|, tenantId, Join(g.All()))]
  {
    assert (groups + [g])[..|groups|] == groups;
  }

  // ----- what a packing guarantees -----

  lemma {:induction false} JoinLength(ss: seq<string>)
    ensures |Join(ss)| == Letters(ss) + (if ss == [] then 0 else |ss| - 1)
  {
    if |ss| == 1 {
      assert ss[..0] == [];
    } else if |ss| > 1 {
      JoinLength(ss[1..]);
      LettersAppend([ss[0]], ss[1..]);
      assert [ss[0]] + ss[1..] == ss;
      LettersOfOne(ss[0]);
    }
  }

  lemma {:induction false} LettersAppend(a: seq<string>, b: seq<string>)
    ensures Letters(a + b) == Letters(a) + Letters(b)
  {
    if b == [] {
      assert a + b == a;
    } else {
      LettersAppend(a, b[..|b| - 1]);
      assert (a + b)[..|a + b| - 1] == a + b[..|b| - 1];
    }
  }

  /** Every group has a fresh sentence, so there are at most as many chunks as sentences. */
  lemma {:induction false} AtMostOneChunkPerSentence(groups: seq<Group>, size: int, overlap: int)
    requires Packed(groups, size, overlap)
    ensures |groups| <= |FreshOf(groups)|
  {
    if groups != [] {
      AtMostOneChunkPerSentence(groups[..|groups| - 1], size, overlap);
    }
  }

  /** What is carried is the longest suffix that can be built up sentence by sentence within the limit. */
  lemma {:induction false} CarryIsGreedy(previous: seq<string>, j: nat, limit: int)
    requires j <= |previous|
    ensures var kept := CarryFrom(previous, j, limit);
            && |previous| - j <= |kept| <= |previous|
            && kept == previous[|previous| - |kept|..]
            && (forall i :: |previous| - |kept| <= i < j ==> Admissible(previous, i, limit))
            && (|kept| < |previous| ==> !Admissible(previous, |previous| - |kept| - 1, limit))
  {
    if j > 0 && Admissible(previous, j - 1, limit) {
      CarryIsGreedy(previous, j - 1, limit);
    }
  }

  /** The carried text is at most one character longer than the overlap limit: a join space goes uncounted. */
  lemma CarriedIsShort(previous: seq<string>, limit: int)
    ensures Carry(previous, limit) == [] || |Join(Carry(previous, limit))| <= limit + 1
  {
    CarryIsGreedy(previous, |previous|, limit);
    var carried := Carry(previous, limit);
    if carried != [] {
      var j := |previous| - |carried|;
      assert Admissible(previous, j, limit);
      assert previous[j + 1..] == carried[1..] && previous[j] == carried[0];
    }
  }

  /** It is longer than the limit if and only if at least two sentences are carried, and the first of them just made the
      limit without its space. */
  lemma CarriedExceedsIff(previous: seq<string>, limit: int)
    ensures var carried := Carry(previous, limit);
            carried != [] && |Join(carried)| > limit
            <==> |carried| >= 2 && |Join(carried[1..])| + |carried[0]| == limit
  {
    CarryIsGreedy(previous, |previous|, limit);
    var carried := Carry(previous, limit);
    if carried != [] {
      var j := |previous| - |carried|;
      assert Admissible(previous, j, limit);
      assert previous[j + 1..] == carried[1..] && previous[j] == carried[0];
    }
  }

  /** For instance two sentences of two characters, with a limit of four. */
  lemma CarriedMayExceed()
    ensures Join(Carry(["aa", "bb"], 4)) == "aa bb"
  {
    assert ["aa", "bb"][2..] == [] && ["aa", "bb"][1..] == ["bb"];
    assert Admissible(["aa", "bb"], 1, 4);
    assert Admissible(["aa", "bb"], 0, 4);
    assert CarryFrom(["aa", "bb"], 1, 4) == CarryFrom(["aa", "bb"], 0, 4) == ["aa", "bb"][0..] == ["aa", "bb"];
  }

  /** The packer's count misses one space per fresh sentence (one less when nothing is carried). */
  lemma ContentLength(g: Group)
    requires g.added != []
    ensures |Join(g.All())| == g.Count() + |g.added| - (if g.carried == [] then 1 else 0)
  {
    JoinLength(g.All());
    JoinLength(g.carried);
    LettersAppend(g.carried, g.added);
  }

  function Max(a: int, b: int): int { if a >= b then a else b }

  /** The true bound on a chunk's length: the configured size, or the overlap limit plus one and the longest
      sentence, and in either case one more character per fresh sentence. */
  lemma ContentIsBounded(groups: seq<Group>, size: int, overlap: int, longest: nat, k: nat)
    requires Packed(groups, size, overlap) && k < |groups|
    requires forall i :: 0 <= i < |FreshOf(groups)| ==> |FreshOf(groups)[i]| <= longest
    ensures |Join(groups[k].All())|
         <= Max(size, Max(overlap + 1, 0) + longest) + |groups[k].added| - (if groups[k].carried == [] then 1 else 0)
  {
    hide Packed, FreshOf, Follows, Join, Group.Count, Group.All;
    GroupFacts(groups, size, overlap, k);
    assert groups[k].added[0] == FreshOf(groups)[|FreshOf(groups[..k])|];
    CountIsBounded(groups[..k], groups[k], size, overlap, longest);
    ContentLength(groups[k]);
  }

  /** The spaces the packer does not count in a group. */
  function Uncounted(g: Group): int { |g.added| - (if g.carried == [] then 1 else 0) }

  /** A chunk is longer than the configured size if and only if its only fresh sentence is too long for what is carried,
      or the packer's count of several is within the size by less than the spaces it misses. */
  lemma ChunkExceedsIff(groups: seq<Group>, size: int, overlap: int, k: nat)
    requires Packed(groups, size, overlap) && k < |groups|
    ensures var g := groups[k];
            |Join(g.All())| > size
            <==> if |g.added| == 1 then |g.added[0]| + (if g.carried == [] then 0 else |Join(g.carried)| + 1) > size
                 else size - Uncounted(g) < g.Count() <= size
  {
    hide Packed, FreshOf, Follows, Join, Group.All;
    GroupFacts(groups, size, overlap, k);
    var g := groups[k];
    ContentLength(g);
    if |g.added| == 1 {
      assert g.added[..0] == [] && Letters(g.added) == |g.added[0]|;
      EmptyJoin();
    } else {
      assert g.added[..|g.added|] == g.added;
    }
  }

  lemma EmptyJoin()
    ensures Join([]) == ""
  {}

  lemma {:induction false} LettersOfOnes(ss: seq<string>)
    requires forall i :: 0 <= i < |ss| ==> |ss[i]| == 1
    ensures Letters(ss) == |ss|
  {
    if ss != [] {
      LettersOfOnes(ss[..|ss| - 1]);
    }
  }

  /** The excess of one character per fresh sentence is reached: `n` sentences of one character, with a size of `n`, are
      packed into a single chunk of `2 * n - 1` characters. */
  lemma ChunkMayExceed(sentences: seq<string>, overlap: int)
    requires sentences != [] && forall i :: 0 <= i < |sentences| ==> |sentences[i]| == 1
    ensures var groups := [Group([], sentences)];
            && Packed(groups, |sentences|, overlap) && FreshOf(groups) == sentences
            && |Join(groups[0].All())| == 2 * |sentences| - 1
  {
    var g := Group([], sentences);
    EmptyJoin();
    forall n | 2 <= n <= |sentences| ensures Group([], sentences[..n]).Count() <= |sentences| {
      LettersOfOnes(sentences[..n]);
    }
    LettersOfOnes(sentences);
    ContentLength(g);
    assert [g][..0] == [];
  }

  lemma CountIsBounded(groups: seq<Group>, g: Group, size: int, overlap: int, longest: nat)
    requires Fits(g, size) && Follows(groups, g, size, overlap) && |g.added[0]| <= longest
    ensures g.Count() <= Max(size, Max(overlap + 1, 0) + longest)
  {
    if |g.added| >= 2 {
      assert g.added[..|g.added|] == g.added;
    } else {
      assert g.added[..0] == [] && Letters(g.added) == |g.added[0]|;
      if groups != [] {
        CarriedIsShort(groups[|groups| - 1].All(), overlap);
      }
    }
  }

  // ----- `Packed` leaves no choice -----

  /** Each group of a packing fits, follows the ones before it, and adds the next stretch of the sentences; if it was
      closed, the sentence after that stretch did not fit. */
  lemma {:induction false} GroupFacts(groups: seq<Group>, size: int, overlap: int, k: nat)
    requires Packed(groups, size, overlap) && k < |groups|
    ensures Fits(groups[k], size) && Follows(groups[..k], groups[k], size, overlap)
    ensures FreshOf(groups[..k + 1]) == FreshOf(groups[..k]) + groups[k].added <= FreshOf(groups)
    ensures var next := |FreshOf(groups[..k + 1])|;
            if k + 1 == |groups| then next == |FreshOf(groups)|
            else next < |FreshOf(groups)| && groups[k].Count() + |FreshOf(groups)[next]| > size
  {
    hide Fits, Carry, Group.Count, Group.All;
    var init, last := groups[..|groups| - 1], groups[|groups| - 1];
    if k == |init| {
      assert groups[..k] == init && groups[..k + 1] == groups;
    } else {
      GroupFacts(init, size, overlap, k);
      FitsAdds(last, size);
      assert init[..k] == groups[..k] && init[..k + 1] == groups[..k + 1];
      assert FreshOf(groups) == FreshOf(init) + last.added;
      var next := |FreshOf(groups[..k + 1])|;
      if k + 1 == |init| {
        assert init[..k + 1] == init && init[|init| - 1] == groups[k];
        assert FreshOf(groups)[next] == last.added[0];
      } else {
        assert FreshOf(groups)[next] == FreshOf(init)[next];
      }
    }
  }

  lemma FitsAdds(g: Group, size: int)
    requires Fits(g, size)
    ensures g.added != []
  {}

  /** Of two groups that carry the same and add sentences from the same stretch, the second is not longer when the
      first was closed because the next sentence did not fit (or none was left). */
  lemma NotLonger(g: Group, h: Group, rest: seq<string>, size: int)
    requires Fits(h, size) && g.carried == h.carried && g.added != []
    requires g.added <= rest && h.added <= rest
    requires |g.added| < |rest| ==> g.Count() + |rest[|g.added|]| > size
    ensures |h.added| <= |g.added|
  {
    var n := |g.added|;
    Grows(g, if n < |rest| then rest[n] else "");
    NextPrefix(g.added, h.added, rest);
  }

  lemma NextPrefix<T>(a: seq<T>, b: seq<T>, rest: seq<T>)
    requires a <= rest && b <= rest
    ensures |a| < |b| ==> b[..|a| + 1] == a + [rest[|a|]]
  {}

  lemma NextGroupIsUnique(a: seq<Group>, b: seq<Group>, size: int, overlap: int, k: nat)
    requires Packed(a, size, overlap) && Packed(b, size, overlap) && FreshOf(a) == FreshOf(b)
    requires k < |a| && k < |b| && a[..k] == b[..k]
    ensures a[k] == b[k]
  {
    hide Packed, FreshOf, Carry, Group.Count;
    GroupFacts(a, size, overlap, k);
    GroupFacts(b, size, overlap, k);
    var done, all := |FreshOf(a[..k])|, FreshOf(a);
    assert all[done..][..|a[k].added|] == a[k].added && all[done..][..|b[k].added|] == b[k].added;
    assert done + |a[k].added| < |all| ==> all[done..][|a[k].added|] == all[done + |a[k].added|];
    assert done + |b[k].added| < |all| ==> all[done..][|b[k].added|] == all[done + |b[k].added|];
    NotLonger(a[k], b[k], all[done..], size);
    NotLonger(b[k], a[k], all[done..], size);
  }

  lemma OneFurther<T>(a: seq<T>, b: seq<T>, k: nat)
    requires k < |a| && k < |b| && a[..k] == b[..k] && a[k] == b[k]
    ensures a[..k + 1] == b[..k + 1]
  {
    assert a[..k + 1] == a[..k] + [a[k]] && b[..k + 1] == b[..k] + [b[k]];
  }

  /** Two packings of the same sentences are the same: nothing in the result of `Chunk` is left open. */
  lemma {:induction false} PackingIsUnique(a: seq<Group>, b: seq<Group>, size: int, overlap: int, k: nat)
    requires Packed(a, size, overlap) && Packed(b, size, overlap) && FreshOf(a) == FreshOf(b)
    requires k <= |a| && k <= |b| && a[..k] == b[..k]
    ensures a == b
    decreases |a| - k
  {
    if k < |a| && k < |b| {
      hide *;
      NextGroupIsUnique(a, b, size, overlap, k);
      OneFurther(a, b, k);
      PackingIsUnique(a, b, size, overlap, k + 1);
    } else {
      PrefixAddsLess(a, size, overlap, k);
      PrefixAddsLess(b, size, overlap, k);
      assert a[..|a|] == a && b[..|b|] == b;
    }
  }

  lemma {:induction false} PrefixAddsLess(groups: seq<Group>, size: int, overlap: int, k: nat)
    requires Packed(groups, size, overlap) && k <= |groups|
    ensures |FreshOf(groups[..k])| <= |FreshOf(groups)|
    ensures |FreshOf(groups[..k])| == |FreshOf(groups)| ==> k == |groups|
  {
    if k == |groups| {
      assert groups[..k] == groups;
    } else {
      var init := groups[..|groups| - 1];
      PrefixAddsLess(init, size, overlap, k);
      assert init[..k] == groups[..k];
    }
  }
}
