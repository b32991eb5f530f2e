/** The chunker of the RAG service: `RAGService.ChunkText` cuts a document
    into paragraphs at blank lines, trims them, drops the blank ones, and cuts
    every paragraph longer than `maxChars` into consecutive slices of exactly
    `maxChars` characters (the last slice may be shorter). */
module Chunker {
  import opened Text

  /** The default `maxChars`, the one every caller uses. */
  const MaxChars: nat := 1500

  /** The two paragraph separators, in the order they are given to `Split`. */
  const CrLfCrLf: string := "\r\n\r\n"
  const LfLf: string := "\n\n"

  predicate SeparatorAt(s: string, i: nat, sep: string) {
    i + |sep| <= |s| && s[i..i + |sep|] == sep
  }

  predicate AnySeparatorAt(s: string, i: nat) {
    SeparatorAt(s, i, CrLfCrLf) || SeparatorAt(s, i, LfLf)
  }

  /** Neither separator occurs anywhere in `p`. */
  predicate SeparatorFree(p: string) {
    forall j :: 0 <= j < |p| ==> !AnySeparatorAt(p, j)
  }

  /** `Split(new[] { "\r\n\r\n", "\n\n" }, ...)` before empty entries are
      removed: the string is scanned from left to right; at each position the
      separators are tried in order, and the first one that matches ends the
      current piece and is skipped. `start` is where the current piece began;
      no separator was found at the positions between `start` and `i`. */
  function SplitFrom(s: string, start: nat, i: nat): (pieces: seq<string>)
    requires start <= i <= |s|
    decreases |s| - i
  {
    if i == |s| then [s[start..]]
    else if SeparatorAt(s, i, CrLfCrLf) then [s[start..i]] + SplitFrom(s, i + 4, i + 4)
    else if SeparatorAt(s, i, LfLf) then [s[start..i]] + SplitFrom(s, i + 2, i + 2)
    else SplitFrom(s, start, i + 1)
  }

  function Pieces(text: string): seq<string> {
    SplitFrom(text, 0, 0)
  }

  lemma SeparatorAtShift(s: string, a: nat, b: nat, j: nat, sep: string)
    requires a <= b <= |s|
    requires SeparatorAt(s[a..b], j, sep)
    ensures SeparatorAt(s, a + j, sep)
  {
    var x := s[a..b];
    var n := |sep|;
    assert j + n <= |x|;
    forall t | j <= t < j + n ensures x[t] == s[a + t] { }
    assert x[j..j + n] == s[a + j..a + j + n];
  }

  lemma SeparatorFreeSlice(s: string, a: nat, b: nat)
    requires a <= b <= |s|
    requires forall j :: a <= j < b ==> !AnySeparatorAt(s, j)
    ensures SeparatorFree(s[a..b])
  {
    var p := s[a..b];
    forall j | 0 <= j < |p| ensures !AnySeparatorAt(p, j) {
      assert !AnySeparatorAt(s, a + j);
      if SeparatorAt(p, j, CrLfCrLf) {
        SeparatorAtShift(s, a, b, j, CrLfCrLf);
      }
      if SeparatorAt(p, j, LfLf) {
        SeparatorAtShift(s, a, b, j, LfLf);
      }
    }
  }

  /** No piece of the split contains a separator. */
  lemma {:induction false} PiecesSeparatorFree(s: string, start: nat, i: nat)
    requires start <= i <= |s|
    requires forall j :: start <= j < i ==> !AnySeparatorAt(s, j)
    ensures forall p :: p in SplitFrom(s, start, i) ==> SeparatorFree(p)
    decreases |s| - i
  {
    if i == |s| {
      SeparatorFreeSlice(s, start, |s|);
      assert s[start..|s|] == s[start..];
    } else if AnySeparatorAt(s, i) {
      var len := if SeparatorAt(s, i, CrLfCrLf) then 4 else 2;
      PiecesSeparatorFree(s, i + len, i + len);
      SeparatorFreeSlice(s, start, i);
      var rest := SplitFrom(s, i + len, i + len);
      assert SplitFrom(s, start, i) == [s[start..i]] + rest;
    } else {
      PiecesSeparatorFree(s, start, i + 1);
    }
  }

  /** The pieces of the split, written one after the other, hold every
      non-white-space character of the text, in order: only the separators,
      which are white space, are lost. */
  lemma {:induction false} PiecesKeepText(s: string, start: nat, i: nat)
    requires start <= i <= |s|
    ensures NonWhiteSpace(Concat(SplitFrom(s, start, i))) == NonWhiteSpace(s[start..])
    decreases |s| - i
  {
    if i == |s| {
      var pieces := SplitFrom(s, start, i);
      assert Concat(pieces) == s[start..] + Concat([]);
      assert Concat(pieces) == s[start..];
    } else if AnySeparatorAt(s, i) {
      var len := if SeparatorAt(s, i, CrLfCrLf) then 4 else 2;
      PiecesKeepText(s, i + len, i + len);
      SplitStepKeepsText(s, start, i, len);
    } else {
      PiecesKeepText(s, start, i + 1);
    }
  }

  lemma SplitStepKeepsText(s: string, start: nat, i: nat, len: nat)
    requires start <= i < |s|
    requires len == (if SeparatorAt(s, i, CrLfCrLf) then 4 else 2)
    requires AnySeparatorAt(s, i)
    requires NonWhiteSpace(Concat(SplitFrom(s, i + len, i + len))) == NonWhiteSpace(s[i + len..])
    ensures NonWhiteSpace(Concat(SplitFrom(s, start, i))) == NonWhiteSpace(s[start..])
  {
    var rest := SplitFrom(s, i + len, i + len);
    assert SplitFrom(s, start, i) == [s[start..i]] + rest;
    assert Concat([s[start..i]] + rest) == s[start..i] + Concat(rest);
    NonWhiteSpaceAppend(s[start..i], Concat(rest));
    SeparatorIsWhiteSpace(s, i, len);
    SplitAtSeparator(s, start, i, len);
  }

  lemma SplitAtSeparator(s: string, start: nat, i: nat, len: nat)
    requires start <= i && i + len <= |s|
    requires NonWhiteSpace(s[i..i + len]) == []
    ensures NonWhiteSpace(s[start..]) == NonWhiteSpace(s[start..i]) + NonWhiteSpace(s[i + len..])
  {
    assert s[start..] == s[start..i] + s[i..];
    assert s[i..] == s[i..i + len] + s[i + len..];
    NonWhiteSpaceAppend(s[start..i], s[i..]);
    NonWhiteSpaceAppend(s[i..i + len], s[i + len..]);
  }

  lemma SeparatorIsWhiteSpace(s: string, i: nat, len: nat)
    requires len == 4 ==> SeparatorAt(s, i, CrLfCrLf)
    requires len == 2 ==> SeparatorAt(s, i, LfLf)
    requires len == 4 || len == 2
    ensures i + len <= |s| && NonWhiteSpace(s[i..i + len]) == []
  {
    if len == 4 {
      assert s[i..i + len] == CrLfCrLf;
      assert NonWhiteSpace(CrLfCrLf) == [];
    } else {
      assert s[i..i + len] == LfLf;
      assert NonWhiteSpace(LfLf) == [];
    }
  }

  /** The separators the split skips, in the order it meets them: the one
      that ends each piece but the last. */
  function SkippedSeparators(s: string, start: nat, i: nat): seq<string>
    requires start <= i <= |s|
    decreases |s| - i
  {
    if i == |s| then []
    else if SeparatorAt(s, i, CrLfCrLf) then [CrLfCrLf] + SkippedSeparators(s, i + 4, i + 4)
    else if SeparatorAt(s, i, LfLf) then [LfLf] + SkippedSeparators(s, i + 2, i + 2)
    else SkippedSeparators(s, start, i + 1)
  }

  /** The pieces written one after the other, with `seps[k]` between
      `pieces[k]` and `pieces[k + 1]`. */
  function Interleave(pieces: seq<string>, seps: seq<string>): string
    requires |pieces| == |seps| + 1
    decreases |seps|
  {
    if seps == [] then pieces[0] else pieces[0] + seps[0] + Interleave(pieces[1..], seps[1..])
  }

  /** The split cuts the text at separators and nowhere else: with the
      skipped separators written back between neighbouring pieces, the pieces
      are the text again, and each skipped separator is `"\r\n\r\n"` or
      `"\n\n"`. */
  lemma {:induction false} SplitRoundTrip(s: string, start: nat, i: nat)
    requires start <= i <= |s|
    ensures |SplitFrom(s, start, i)| == |SkippedSeparators(s, start, i)| + 1
    ensures forall sep :: sep in SkippedSeparators(s, start, i) ==> sep == CrLfCrLf || sep == LfLf
    ensures Interleave(SplitFrom(s, start, i), SkippedSeparators(s, start, i)) == s[start..]
    decreases |s| - i
  {
    if i == |s| {
    } else if AnySeparatorAt(s, i) {
      var sep := if SeparatorAt(s, i, CrLfCrLf) then CrLfCrLf else LfLf;
      var next := i + |sep|;
      SplitRoundTrip(s, next, next);
      var rest, restSeps := SplitFrom(s, next, next), SkippedSeparators(s, next, next);
      assert SplitFrom(s, start, i) == [s[start..i]] + rest;
      assert SkippedSeparators(s, start, i) == [sep] + restSeps;
      InterleaveStep(s, start, i, sep, rest, restSeps);
    } else {
      SplitRoundTrip(s, start, i + 1);
    }
  }

  /** Putting back one piece and the separator after it. */
  lemma InterleaveStep(s: string, start: nat, i: nat, sep: string, rest: seq<string>, restSeps: seq<string>)
    requires start <= i && i + |sep| <= |s| && s[i..i + |sep|] == sep
    requires |rest| == |restSeps| + 1 && Interleave(rest, restSeps) == s[i + |sep|..]
    ensures Interleave([s[start..i]] + rest, [sep] + restSeps) == s[start..]
  {
    var pieces, seps := [s[start..i]] + rest, [sep] + restSeps;
    assert pieces[1..] == rest && seps[1..] == restSeps;
    assert s[start..] == s[start..i] + s[i..i + |sep|] + s[i + |sep|..];
  }

  lemma {:induction false} SplitFromNoSeparator(s: string, start: nat, i: nat)
    requires start <= i <= |s|
    requires forall j :: i <= j < |s| ==> !AnySeparatorAt(s, j)
    ensures SplitFrom(s, start, i) == [s[start..]]
    decreases |s| - i
  {
    if i < |s| {
      assert !AnySeparatorAt(s, i);
      SplitFromNoSeparator(s, start, i + 1);
    }
  }

  /** A text without separators is one piece, and, unless it is blank, one
      paragraph: the text trimmed. */
  lemma OneParagraph(text: string)
    requires SeparatorFree(text)
    ensures Pieces(text) == [text]
    ensures !IsBlank(text) ==> Paragraphs(text) == [Trim(text)]
  {
    SplitFromNoSeparator(text, 0, 0);
    assert text[0..] == text;
    if !IsBlank(text) {
      assert text != [];
      assert [text][1..] == [];
      assert NonEmpty([text]) == [text];
      assert TrimAll([text]) == [Trim(text)];
      TrimKeepsNonWhiteSpace(text);
      assert [Trim(text)][1..] == [];
      assert DropBlank([Trim(text)]) == [Trim(text)];
    }
  }

  /** Every paragraph is a piece of the split, trimmed. */
  lemma ParagraphsFromPieces(text: string)
    ensures forall p :: p in Paragraphs(text) ==> exists q :: q in Pieces(text) && p == Trim(q)
  {
    var kept := NonEmpty(Pieces(text));
    var trimmed := TrimAll(kept);
    forall p | p in Paragraphs(text) ensures exists q :: q in Pieces(text) && p == Trim(q) {
      assert p in trimmed;
      var k :| 0 <= k < |trimmed| && trimmed[k] == p;
      assert kept[k] in kept;
      assert kept[k] in Pieces(text) && p == Trim(kept[k]);
    }
  }

  /** `StringSplitOptions.RemoveEmptyEntries`. */
  function NonEmpty(ps: seq<string>): (r: seq<string>)
    ensures forall p :: p in r <==> p != [] && p in ps
  {
    if ps == [] then []
    else if ps[0] == [] then NonEmpty(ps[1..])
    else [ps[0]] + NonEmpty(ps[1..])
  }

  /** `.Select(p => p.Trim())`. */
  function TrimAll(ps: seq<string>): (r: seq<string>)
    ensures |r| == |ps|
    ensures forall k :: 0 <= k < |r| ==> r[k] == Trim(ps[k])
  {
    if ps == [] then [] else [Trim(ps[0])] + TrimAll(ps[1..])
  }

  /** `.Where(p => !string.IsNullOrWhiteSpace(p))`. */
  function DropBlank(ps: seq<string>): (r: seq<string>)
    ensures forall p :: p in r <==> !IsBlank(p) && p in ps
  {
    if ps == [] then []
    else if IsBlank(ps[0]) then DropBlank(ps[1..])
    else [ps[0]] + DropBlank(ps[1..])
  }

  /** `NonEmpty` is the order-preserving filter: it works piece by piece, so
      the kept pieces of `a + b` are those of `a` followed by those of `b`. */
  lemma {:induction false} NonEmptyAppend(a: seq<string>, b: seq<string>)
    ensures NonEmpty(a + b) == NonEmpty(a) + NonEmpty(b)
    ensures forall p :: NonEmpty([p]) == if p == [] then [] else [p]
  {
    if a != [] {
      assert (a + b)[1..] == a[1..] + b;
      NonEmptyAppend(a[1..], b);
    } else {
      assert a + b == b;
    }
    forall p ensures NonEmpty([p]) == if p == [] then [] else [p] {
      assert [p][1..] == [];
    }
  }

  /** `DropBlank` is the order-preserving filter, in the same sense. */
  lemma {:induction false} DropBlankAppend(a: seq<string>, b: seq<string>)
    ensures DropBlank(a + b) == DropBlank(a) + DropBlank(b)
    ensures forall p :: DropBlank([p]) == if IsBlank(p) then [] else [p]
  {
    if a != [] {
      assert (a + b)[1..] == a[1..] + b;
      DropBlankAppend(a[1..], b);
    } else {
      assert a + b == b;
    }
    forall p ensures DropBlank([p]) == if IsBlank(p) then [] else [p] {
      assert [p][1..] == [];
    }
  }

  /** The paragraphs of the text, in the order they occur. */
  function Paragraphs(text: string): seq<string> {
    DropBlank(TrimAll(NonEmpty(Pieces(text))))
  }

  lemma {:induction false} NonEmptyKeepsText(ps: seq<string>)
    ensures NonWhiteSpace(Concat(NonEmpty(ps))) == NonWhiteSpace(Concat(ps))
  {
    if ps != [] {
      NonEmptyKeepsText(ps[1..]);
      assert Concat(ps) == ps[0] + Concat(ps[1..]);
      NonWhiteSpaceAppend(ps[0], Concat(ps[1..]));
      if ps[0] != [] {
        assert Concat(NonEmpty(ps)) == ps[0] + Concat(NonEmpty(ps[1..]));
        NonWhiteSpaceAppend(ps[0], Concat(NonEmpty(ps[1..])));
      }
    }
  }

  lemma {:induction false} TrimAllKeepsText(ps: seq<string>)
    ensures NonWhiteSpace(Concat(TrimAll(ps))) == NonWhiteSpace(Concat(ps))
  {
    if ps != [] {
      TrimAllKeepsText(ps[1..]);
      assert Concat(ps) == ps[0] + Concat(ps[1..]);
      assert Concat(TrimAll(ps)) == Trim(ps[0]) + Concat(TrimAll(ps[1..]));
      NonWhiteSpaceAppend(ps[0], Concat(ps[1..]));
      NonWhiteSpaceAppend(Trim(ps[0]), Concat(TrimAll(ps[1..])));
      TrimKeepsNonWhiteSpace(ps[0]);
    }
  }

  lemma {:induction false} DropBlankKeepsText(ps: seq<string>)
    ensures NonWhiteSpace(Concat(DropBlank(ps))) == NonWhiteSpace(Concat(ps))
  {
    if ps != [] {
      DropBlankKeepsText(ps[1..]);
      assert Concat(ps) == ps[0] + Concat(ps[1..]);
      NonWhiteSpaceAppend(ps[0], Concat(ps[1..]));
      if !IsBlank(ps[0]) {
        assert Concat(DropBlank(ps)) == ps[0] + Concat(DropBlank(ps[1..]));
        NonWhiteSpaceAppend(ps[0], Concat(DropBlank(ps[1..])));
      }
    }
  }

  lemma {:induction false} TrimAllSeparatorFree(ps: seq<string>)
    requires forall p :: p in ps ==> SeparatorFree(p)
    ensures forall p :: p in TrimAll(ps) ==> SeparatorFree(p) && Trim(p) == p
  {
    if ps != [] {
      TrimAllSeparatorFree(ps[1..]);
      TrimmedIsSeparatorFree(ps[0]);
      TrimIdempotent(ps[0]);
      assert TrimAll(ps) == [Trim(ps[0])] + TrimAll(ps[1..]);
    }
  }

  /** Every paragraph is non-empty, not blank, already trimmed and free of
      separators. */
  lemma ParagraphsWellFormed(text: string)
    ensures forall p :: p in Paragraphs(text) ==>
      && p != []
      && !IsBlank(p)
      && Trim(p) == p
      && SeparatorFree(p)
  {
    var pieces := Pieces(text);
    PiecesSeparatorFree(text, 0, 0);
    var nonEmpty := NonEmpty(pieces);
    TrimAllSeparatorFree(nonEmpty);
  }

  /** Together the paragraphs hold every non-white-space character of the
      text, in order. */
  lemma ParagraphsKeepText(text: string)
    ensures NonWhiteSpace(Concat(Paragraphs(text))) == NonWhiteSpace(text)
  {
    var pieces := Pieces(text);
    PiecesKeepText(text, 0, 0);
    assert text[0..] == text;
    NonEmptyKeepsText(pieces);
    TrimAllKeepsText(NonEmpty(pieces));
    DropBlankKeepsText(TrimAll(NonEmpty(pieces)));
  }

  lemma TrimmedIsSeparatorFree(q: string)
    requires SeparatorFree(q)
    ensures SeparatorFree(Trim(q))
  {
    var k := Leading(q);
    var n := k + |Trim(q)|;
    SeparatorFreeSlice(q, k, n);
  }

  /** The slicing loop's output for a paragraph longer than `maxChars`. */
  function Slices(p: string, maxChars: nat): seq<string>
    requires maxChars > 0
    decreases |p|
  {
    if p == [] then []
    else
      var len := if maxChars < |p| then maxChars else |p|;
      [p[..len]] + Slices(p[len..], maxChars)
  }

  /** The slices put back together give the paragraph exactly. */
  lemma {:induction false} SlicesReassemble(p: string, maxChars: nat)
    requires maxChars > 0
    ensures Concat(Slices(p, maxChars)) == p
    decreases |p|
  {
    if p != [] {
      var len := if maxChars < |p| then maxChars else |p|;
      var rest := Slices(p[len..], maxChars);
      SlicesReassemble(p[len..], maxChars);
      assert Slices(p, maxChars) == [p[..len]] + rest;
      assert Concat([p[..len]] + rest) == p[..len] + Concat(rest);
      assert p[..len] + p[len..] == p;
    }
  }

  /** Every slice is non-empty and at most `maxChars` long, and every slice
      but the last is exactly `maxChars` long. */
  lemma {:induction false} SlicesSizes(p: string, maxChars: nat)
    requires maxChars > 0
    ensures forall k :: 0 <= k < |Slices(p, maxChars)| ==> 0 < |Slices(p, maxChars)[k]| <= maxChars
    ensures forall k :: 0 <= k < |Slices(p, maxChars)| - 1 ==> |Slices(p, maxChars)[k]| == maxChars
    decreases |p|
  {
    if p != [] {
      var len := if maxChars < |p| then maxChars else |p|;
      var rest := Slices(p[len..], maxChars);
      SlicesSizes(p[len..], maxChars);
      var all := [p[..len]] + rest;
      assert Slices(p, maxChars) == all;
      forall k | 0 <= k < |all| ensures 0 < |all[k]| <= maxChars && (k < |all| - 1 ==> |all[k]| == maxChars) {
        if k > 0 { assert all[k] == rest[k - 1]; }
        else if |all| > 1 { assert p[len..] != []; }
      }
    }
  }

  /** One paragraph's chunks: itself when it fits, else its slices. */
  function ChunkParagraph(p: string, maxChars: nat): seq<string>
    requires maxChars > 0
  {
    if |p| <= maxChars then [p] else Slices(p, maxChars)
  }

  function ChunksOf(ps: seq<string>, maxChars: nat): seq<string>
    requires maxChars > 0
  {
    if ps == [] then [] else ChunkParagraph(ps[0], maxChars) + ChunksOf(ps[1..], maxChars)
  }

  /** The chunks `ChunkText` yields for `text`. */
  function Chunks(text: string, maxChars: nat): seq<string>
    requires maxChars > 0
  {
    if IsBlank(text) then [] else ChunksOf(Paragraphs(text), maxChars)
  }

  lemma {:induction false} ChunksOfAppend(ps: seq<string>, qs: seq<string>, maxChars: nat)
    requires maxChars > 0
    ensures ChunksOf(ps + qs, maxChars) == ChunksOf(ps, maxChars) + ChunksOf(qs, maxChars)
  {
    if ps == [] {
      assert ps + qs == qs;
    } else {
      assert (ps + qs)[0] == ps[0];
      assert (ps + qs)[1..] == ps[1..] + qs;
      ChunksOfAppend(ps[1..], qs, maxChars);
    }
  }

  lemma ChunkParagraphReassembles(p: string, maxChars: nat)
    requires maxChars > 0 && p != []
    ensures Concat(ChunkParagraph(p, maxChars)) == p
    ensures forall k :: 0 <= k < |ChunkParagraph(p, maxChars)| ==> 0 < |ChunkParagraph(p, maxChars)[k]| <= maxChars
  {
    if |p| <= maxChars {
      assert Concat([p]) == p + Concat([]);
    } else {
      SlicesReassemble(p, maxChars);
      SlicesSizes(p, maxChars);
    }
  }

  /** Chunking non-empty paragraphs loses nothing and reorders nothing, and
      every chunk is non-empty and at most `maxChars` long. */
  lemma {:induction false} ChunksOfReassemble(ps: seq<string>, maxChars: nat)
    requires maxChars > 0
    requires forall p :: p in ps ==> p != []
    ensures Concat(ChunksOf(ps, maxChars)) == Concat(ps)
    ensures forall k :: 0 <= k < |ChunksOf(ps, maxChars)| ==> 0 < |ChunksOf(ps, maxChars)[k]| <= maxChars
  {
    if ps != [] {
      var first := ChunkParagraph(ps[0], maxChars);
      var rest := ChunksOf(ps[1..], maxChars);
      assert ps[0] in ps;
      assert forall p :: p in ps[1..] ==> p in ps;
      ChunksOfReassemble(ps[1..], maxChars);
      ChunkParagraphReassembles(ps[0], maxChars);
      ConcatAppend(first, rest);
      assert ChunksOf(ps, maxChars) == first + rest;
      forall k | 0 <= k < |first + rest| ensures 0 < |(first + rest)[k]| <= maxChars {
        if k >= |first| { assert (first + rest)[k] == rest[k - |first|]; }
      }
    }
  }

  /** The chunks of a text: each is non-empty and at most `maxChars` long;
      written one after the other they give the paragraphs written one after
      the other; and they hold every non-white-space character of the text, in
      order. */
  lemma ChunksCoverText(text: string, maxChars: nat)
    requires maxChars > 0
    ensures forall k :: 0 <= k < |Chunks(text, maxChars)| ==> 0 < |Chunks(text, maxChars)[k]| <= maxChars
    ensures !IsBlank(text) ==> Concat(Chunks(text, maxChars)) == Concat(Paragraphs(text))
    ensures NonWhiteSpace(Concat(Chunks(text, maxChars))) == NonWhiteSpace(text)
  {
    if !IsBlank(text) {
      ParagraphsWellFormed(text);
      ParagraphsKeepText(text);
      ChunksOfReassemble(Paragraphs(text), maxChars);
    }
  }
  /** Parts that keep the visible characters of a text in the Basic
      Multilingual Plane stay in it: white space lies in the plane, and every
      other character of a part is one of the text. */
  lemma PartsInBmp(text: string, parts: seq<string>)
    requires InBmp(text)
    requires NonWhiteSpace(Concat(parts)) == NonWhiteSpace(text)
    ensures forall k :: 0 <= k < |parts| ==> InBmp(parts[k])
  {
    ConcatMembers(parts);
    NonWhiteSpaceMembers(Concat(parts));
    NonWhiteSpaceMembers(text);
    forall k | 0 <= k < |parts| ensures InBmp(parts[k]) {
      var part := parts[k];
      assert part in parts;
      forall c | c in part ensures c as int < 0x1_0000 {
        if !IsWhiteSpace(c) {
          assert c in Concat(parts);
          assert c in NonWhiteSpace(text);
        }
      }
    }
  }

  /** For text in the Basic Multilingual Plane every paragraph stays in the
      plane, so its .NET `Length` is its character count: the test
      `p.Length <= maxChars` and the `Substring` positions of the slicing loop
      are the character counts and positions used here. */
  lemma ParagraphsInBmp(text: string)
    ensures InBmp(text) ==> forall k :: 0 <= k < |Paragraphs(text)| ==>
      InBmp(Paragraphs(text)[k]) && Utf16Length(Paragraphs(text)[k]) == |Paragraphs(text)[k]|
  {
    var ps := Paragraphs(text);
    if InBmp(text) {
      ParagraphsKeepText(text);
      PartsInBmp(text, ps);
      forall k | 0 <= k < |ps| ensures Utf16Length(ps[k]) == |ps[k]| {
        Utf16LengthInBmp(ps[k]);
      }
    }
  }

  /** For text in the Basic Multilingual Plane the character counts above are
      .NET's UTF-16 lengths: each chunk stays in the plane and holds between
      one and `maxChars` UTF-16 code units. */
  lemma ChunksInBmp(text: string, maxChars: nat)
    requires maxChars > 0
    ensures InBmp(text) ==> forall k :: 0 <= k < |Chunks(text, maxChars)| ==>
      InBmp(Chunks(text, maxChars)[k]) && 0 < Utf16Length(Chunks(text, maxChars)[k]) <= maxChars
  {
    var chunks := Chunks(text, maxChars);
    if InBmp(text) {
      ChunksCoverText(text, maxChars);
      PartsInBmp(text, chunks);
      forall k | 0 <= k < |chunks|
        ensures 0 < Utf16Length(chunks[k]) <= maxChars
      {
        Utf16LengthInBmp(chunks[k]);
      }
    }
  }



  lemma ChunksOfSnoc(ps: seq<string>, k: nat, maxChars: nat)
    requires maxChars > 0 && k < |ps|
    ensures ChunksOf(ps[..k + 1], maxChars) == ChunksOf(ps[..k], maxChars) + ChunkParagraph(ps[k], maxChars)
  {
    ChunksOfAppend(ps[..k], [ps[k]], maxChars);
    assert ps[..k + 1] == ps[..k] + [ps[k]];
    assert ChunksOf([ps[k]], maxChars) == ChunkParagraph(ps[k], maxChars) + ChunksOf([], maxChars);
  }

  lemma SlicesStep(p: string, pos: nat, maxChars: nat)
    requires maxChars > 0 && pos < |p|
    ensures var len := if maxChars < |p| - pos then maxChars else |p| - pos;
      Slices(p[pos..], maxChars) == [p[pos..pos + len]] + Slices(p[pos + len..], maxChars)
  {
    var len := if maxChars < |p| - pos then maxChars else |p| - pos;
    assert p[pos..][..len] == p[pos..pos + len];
    assert p[pos..][len..] == p[pos + len..];
  }

  /** The inner loop of `ChunkText`: cuts one over-long paragraph into
      consecutive pieces of `maxChars` characters, the last one shorter. */
  method SliceParagraph(p: string, maxChars: nat) returns (slices: seq<string>)
    requires maxChars > 0
    ensures slices == Slices(p, maxChars)
  {
    slices := [];
    var pos := 0;
    while pos < |p|
      invariant 0 <= pos <= |p|
      invariant slices + Slices(p[pos..], maxChars) == Slices(p, maxChars)
    {
      var len := if maxChars < |p| - pos then maxChars else |p| - pos;
      SlicesStep(p, pos, maxChars);
      ghost var rest := Slices(p[pos + len..], maxChars);
      assert (slices + [p[pos..pos + len]]) + rest == slices + ([p[pos..pos + len]] + rest);
      slices := slices + [p[pos..pos + len]];
      pos := pos + len;
    }
    assert p[pos..] == [];
  }

  /** `ChunkText(text, maxChars)`, with the iterator's output collected into a
      sequence. */
  method ChunkText(text: string, maxChars: nat) returns (chunks: seq<string>)
    requires maxChars > 0
    ensures chunks == Chunks(text, maxChars)
    ensures IsBlank(text) ==> chunks == []
    ensures forall k :: 0 <= k < |chunks| ==> 0 < |chunks[k]| <= maxChars
  {
    chunks := [];
    if IsBlank(text) {
      return;
    }
    var paragraphs := Paragraphs(text);
    var k := 0;
    while k < |paragraphs|
      invariant 0 <= k <= |paragraphs|
      invariant chunks == ChunksOf(paragraphs[..k], maxChars)
    {
      var p := paragraphs[k];
      ChunksOfSnoc(paragraphs, k, maxChars);
      if |p| <= maxChars {
        chunks := chunks + [p];
      } else {
        var slices := SliceParagraph(p, maxChars);
        chunks := chunks + slices;
      }
      k := k + 1;
    }
    assert paragraphs[..k] == paragraphs;
    ChunksCoverText(text, maxChars);
  }
}
